/** Wrapping 32-bit serial numbers (SerialGenerator in src/serial_map.rs). */
module Serials {

  const TWO32 := 0x1_0000_0000
  const PERIOD := TWO32 - 1

  type u32 = x: int | 0 <= x < TWO32

  function Wrap(x: nat): u32 { x % TWO32 }

  /** One call of `next`: the serial and the counter left behind; 0 is skipped. */
  function Draw(counter: u32): (u32, u32) {
    var next := Wrap(counter + 1);
    if counter == 0 then (next, Wrap(next + 1)) else (counter, next)
  }

  class SerialGenerator {
    var counter: u32

    constructor ()
      ensures counter == 1
    {
      counter := 1;
    }

    method Next() returns (serial: u32)
      modifies this
      ensures (serial, counter) == Draw(old(counter)) && serial != 0
    {
      serial := counter;
      counter := Wrap(counter + 1);
      if serial == 0 {
        serial := counter;
        counter := Wrap(counter + 1);
      }
    }
  }

  // ---- sequential calls ----

  /** The counter after `k` calls. */
  function Counter(k: nat): u32 {
    if k == 0 then 1 else Draw(Counter(k - 1)).1
  }

  function Serial(k: nat): u32 { Draw(Counter(k)).0 }

  lemma RemainderOf(x: nat, q: int, r: nat, m: nat)
    requires x == q * m + r && r < m
    ensures x % m == r
  {
    var d := x / m - q;
    assert d * m == r - x % m;
    assert d >= 1 ==> d * m >= m;
    assert d <= -1 ==> -d * m >= m;
  }

  lemma RemainderNext(k: nat, m: nat)
    requires m > 0
    ensures (k + 1) % m == if k % m == m - 1 then 0 else k % m + 1
  {
    var q, r := k / m, k % m;
    if r == m - 1 {
      assert k + 1 == (q + 1) * m + 0;
      RemainderOf(k + 1, q + 1, 0, m);
    } else {
      RemainderOf(k + 1, q, r + 1, m);
    }
  }

  lemma SameRemainder(a: nat, b: nat, m: nat)
    requires a <= b && m > 0 && a % m == b % m
    ensures (b - a) % m == 0
  {
    var qa, qb := a / m, b / m;
    assert b - a == (qb - qa) * m + 0;
    RemainderOf(b - a, qb - qa, 0, m);
  }

  /** Equal remainders are a multiple of the modulus apart. */
  lemma SameRemainderIff(a: nat, b: nat, m: nat)
    requires a <= b && m > 0
    ensures a % m == b % m <==> (b - a) % m == 0
  {
    if a % m == b % m {
      SameRemainder(a, b, m);
    } else if (b - a) % m == 0 {
      var qa, d := a / m, (b - a) / m;
      assert b == (qa + d) * m + a % m;
      RemainderOf(b, qa + d, a % m, m);
    }
  }

  lemma DrawCases(c: u32)
    ensures c != 0 ==> Draw(c) == (c, if c == TWO32 - 1 then 0 else c + 1)
    ensures c == 0 ==> Draw(c) == (1, 2)
  {
  }

  /** The k-th serial is (k mod (2^32 - 1)) + 1: never 0, with the longest period. */
  lemma {:induction false} SerialFormula(k: nat)
    ensures Serial(k) == k % PERIOD + 1
    ensures Draw(Counter(k)).1 == if Serial(k) == TWO32 - 1 then 0 else Serial(k) + 1
  {
    DrawCases(Counter(k));
    if k == 0 {
    } else {
      SerialFormula(k - 1);
      RemainderNext(k - 1, PERIOD);
    }
  }

  /** Serials repeat exactly at multiples of 2^32 - 1 calls apart, so any 2^32 - 1
      consecutive ones are distinct. */
  lemma SerialsRepeatIff(i: nat, j: nat)
    requires i <= j
    ensures Serial(i) == Serial(j) <==> (j - i) % PERIOD == 0
  {
    SerialFormula(i);
    SerialFormula(j);
    SameRemainderIff(i, j, PERIOD);
  }

  // ---- interleaved calls: each fetch_add is one atomic step ----

  type Caller = nat

  /** A finished call: the indices of its first and last fetch_add, and its result. */
  datatype Emit = Emit(first: nat, last: nat, value: u32)

  /** `retrying` maps a caller that fetched 0 to the index of that fetch. */
  datatype Shared = Shared(counter: u32, retrying: map<Caller, nat>, emitted: seq<Emit>)

  /** The i-th fetch_add, made by `c`. */
  function Fetch(s: Shared, c: Caller, i: nat): Shared {
    var fetched := s.counter;
    var bumped := s.(counter := Wrap(fetched + 1));
    if c in s.retrying then
      bumped.(retrying := s.retrying - {c}, emitted := s.emitted + [Emit(s.retrying[c], i, fetched)])
    else if fetched == 0 then bumped.(retrying := s.retrying[c := i])
    else bumped.(emitted := s.emitted + [Emit(i, i, fetched)])
  }

  function Interleave(schedule: seq<Caller>): Shared {
    if schedule == [] then Shared(1, map[], [])
    else var i := |schedule| - 1; Fetch(Interleave(schedule[..i]), schedule[i], i)
  }

  function FetchedAt(i: nat): u32 { Wrap(1 + i) }

  lemma WrapNext(x: nat)
    ensures Wrap(Wrap(x) + 1) == Wrap(x + 1)
  {
  }

  /** A finished call returned what its last fetch_add fetched, and made a second one
      exactly after fetching 0. */
  ghost predicate Emitted(e: Emit, n: nat) {
    && e.first <= e.last < n && e.value == FetchedAt(e.last)
    && (if e.first == e.last then e.value != 0 else FetchedAt(e.first) == 0)
  }

  ghost predicate Consistent(s: Shared, n: nat) {
    && s.counter == FetchedAt(n)
    && (forall c :: c in s.retrying ==> s.retrying[c] < n && FetchedAt(s.retrying[c]) == 0)
    && (forall k :: 0 <= k < |s.emitted| ==> Emitted(s.emitted[k], n))
    && (forall j, k :: 0 <= j < k < |s.emitted| ==> s.emitted[j].last < s.emitted[k].last)
  }

  lemma FetchOnce(s: Shared, c: Caller, i: nat)
    requires Consistent(s, i)
    ensures Consistent(Fetch(s, c, i), i + 1)
  {
    WrapNext(1 + i);
    forall k | 0 <= k < |s.emitted| ensures Emitted(s.emitted[k], i + 1) {
      assert Emitted(s.emitted[k], i);
    }
    if c in s.retrying {
      assert Emitted(Emit(s.retrying[c], i, s.counter), i + 1);
    } else if s.counter != 0 {
      assert Emitted(Emit(i, i, s.counter), i + 1);
    }
  }

  lemma {:induction false} InterleaveFacts(schedule: seq<Caller>)
    ensures Consistent(Interleave(schedule), |schedule|)
  {
    if schedule == [] {
    } else {
      var i := |schedule| - 1;
      InterleaveFacts(schedule[..i]);
      FetchOnce(Interleave(schedule[..i]), schedule[i], i);
    }
  }

  /** However callers interleave, a call returns 0 exactly when its two fetch_adds are
      a positive multiple of 2^32 apart: never within a shorter window. */
  lemma InterleavedNonzero(schedule: seq<Caller>, k: nat)
    requires k < |Interleave(schedule).emitted|
    ensures var e := Interleave(schedule).emitted[k];
            && (e.value == 0 <==> e.first < e.last && (e.last - e.first) % TWO32 == 0)
            && (e.last - e.first < TWO32 ==> e.value != 0)
  {
    InterleaveFacts(schedule);
    var e := Interleave(schedule).emitted[k];
    SameRemainderIff(1 + e.first, 1 + e.last, TWO32);
  }

  /** Two calls return the same serial exactly when their final fetch_adds are a
      multiple of 2^32 apart: never within a shorter window. */
  lemma InterleavedDistinct(schedule: seq<Caller>, j: nat, k: nat)
    requires j < k < |Interleave(schedule).emitted|
    ensures var a, b := Interleave(schedule).emitted[j], Interleave(schedule).emitted[k];
            && a.last < b.last
            && (a.value == b.value <==> (b.last - a.last) % TWO32 == 0)
            && (b.last - a.last < TWO32 ==> a.value != b.value)
  {
    InterleaveFacts(schedule);
    var a, b := Interleave(schedule).emitted[j], Interleave(schedule).emitted[k];
    SameRemainderIff(1 + a.last, 1 + b.last, TWO32);
  }
}
