/** Decimal text of natural numbers, as printed by `to_string` and read back by
    the unsigned `parse` of the standard library. */
module Decimal {
  import opened Basics

  predicate IsDigit(c: char) { '0' <= c <= '9' }

  function DigitChar(d: nat): (c: char)
    requires d < 10
    ensures IsDigit(c)
  {
    ('0' as int + d) as char
  }

  function Digits(n: nat): (s: string)
    ensures s != [] && forall i :: 0 <= i < |s| ==> IsDigit(s[i])
  {
    if n < 10 then [DigitChar(n)] else Digits(n / 10) + [DigitChar(n % 10)]
  }

  /** Left-to-right accumulation that fails on a non-digit or as soon as the
      value exceeds `max`. */
  function Accumulate(s: string, acc: nat, max: nat): (r: Option<nat>)
    ensures r.Some? && acc <= max ==> r.value <= max
  {
    if s == [] then Some(acc)
    else if !IsDigit(s[0]) then None
    else
      var next := acc * 10 + (s[0] as int - '0' as int);
      if next > max then None else Accumulate(s[1..], next, max)
  }

  /** Unsigned `parse`: one optional leading '+', then at least one digit. */
  function ParseUnsigned(s: string, max: nat): (r: Option<nat>)
    ensures r.Some? ==> r.value <= max
  {
    var digits := if s != [] && s[0] == '+' then s[1..] else s;
    if digits == [] then None else Accumulate(digits, 0, max)
  }

  lemma {:induction false} AccumulateSnoc(s: string, c: char, acc: nat, max: nat)
    ensures Accumulate(s + [c], acc, max) ==
            match Accumulate(s, acc, max)
            case None => None
            case Some(v) => Accumulate([c], v, max)
  {
    if s == [] {
      assert s + [c] == [c];
    } else {
      assert (s + [c])[1..] == s[1..] + [c];
      if IsDigit(s[0]) {
        var next := acc * 10 + (s[0] as int - '0' as int);
        if next <= max { AccumulateSnoc(s[1..], c, next, max); }
      }
    }
  }

  lemma {:induction false} AccumulateDigits(n: nat, max: nat)
    ensures Accumulate(Digits(n), 0, max) == if n <= max then Some(n) else None
  {
    if n < 10 {
      assert Digits(n)[1..] == [];
    } else {
      AccumulateDigits(n / 10, max);
      AccumulateSnoc(Digits(n / 10), DigitChar(n % 10), 0, max);
      assert [DigitChar(n % 10)][1..] == [];
    }
  }

  /** Printing then parsing gives the number back exactly when it fits. */
  lemma ParseDigits(n: nat, max: nat)
    ensures ParseUnsigned(Digits(n), max) == if n <= max then Some(n) else None
  {
    AccumulateDigits(n, max);
  }

  lemma DigitsInjective(m: nat, n: nat)
    requires Digits(m) == Digits(n)
    ensures m == n
  {
    ParseDigits(m, m + n);
    ParseDigits(n, m + n);
  }

  // ---- what parses, and to what ----

  predicate AllDigits(s: string) { forall i :: 0 <= i < |s| ==> '0' <= s[i] <= '9' }

  /** The number a numeral stands for: each place counts ten times the next. */
  function NumberOf(s: string): nat
    requires AllDigits(s)
  {
    if s == "" then 0
    else var n := |s| - 1; 10 * NumberOf(s[..n]) + (s[n] as int - '0' as int)
  }

  lemma {:induction false} AccumulateIff(s: string, max: nat)
    ensures Accumulate(s, 0, max) == if AllDigits(s) && NumberOf(s) <= max then Some(NumberOf(s)) else None
  {
    if s == "" {
    } else {
      var n := |s| - 1;
      var t, c := s[..n], s[n];
      AccumulateIff(t, max);
      AccumulateSnoc(t, c, 0, max);
      assert s == t + [c] && [c][1..] == [];
      assert AllDigits(s) <==> AllDigits(t) && '0' <= c <= '9';
    }
  }

  /** A number is read exactly from an optional '+' and at least one digit, of any length,
      as long as its value does not exceed the maximum. */
  lemma ParseUnsignedIff(s: string, max: nat)
    ensures var digits := if s != "" && s[0] == '+' then s[1..] else s;
            ParseUnsigned(s, max) ==
            if digits != "" && AllDigits(digits) && NumberOf(digits) <= max then Some(NumberOf(digits)) else None
  {
    AccumulateIff(if s != "" && s[0] == '+' then s[1..] else s, max);
  }
}
