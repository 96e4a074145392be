/** The byte test made on every authentication line is well-formedness of UTF-8: exactly
    the encodings of sequences of Unicode scalar values pass it. */
module Utf8 {
  import opened Wire
  import opened Auth

  /** A Unicode scalar value: any code point but a surrogate. */
  type Scalar = x: int | 0 <= x <= 0x10FFFF && !(0xD800 <= x <= 0xDFFF)

  function Tail(x: nat): byte { 0x80 + x % 64 }

  function Encode1(x: Scalar): (b: seq<byte>)
    ensures 1 <= |b| <= 4
  {
    if x < 0x80 then [x]
    else if x < 0x800 then [0xC0 + x / 64, Tail(x)]
    else if x < 0x1_0000 then [0xE0 + x / 4096, Tail(x / 64), Tail(x)]
    else [0xF0 + x / 262144, Tail(x / 4096), Tail(x / 64), Tail(x)]
  }

  function Encoded(xs: seq<Scalar>): seq<byte> {
    if xs == [] then [] else Encode1(xs[0]) + Encoded(xs[1..])
  }

  // ---- encodings pass ----

  lemma Valid1(x: Scalar, rest: seq<byte>)
    requires x < 0x80
    ensures ValidUtf8(Encode1(x) + rest) <==> ValidUtf8(rest)
  {
    assert (Encode1(x) + rest)[1..] == rest;
  }

  lemma Valid2(x: Scalar, rest: seq<byte>)
    requires 0x80 <= x < 0x800
    ensures ValidUtf8(Encode1(x) + rest) <==> ValidUtf8(rest)
  {
    var b := Encode1(x) + rest;
    assert b[2..] == rest && b[0] == 0xC0 + x / 64 && b[1] == Tail(x);
  }

  lemma Valid3(x: Scalar, rest: seq<byte>)
    requires 0x800 <= x < 0x1_0000
    ensures ValidUtf8(Encode1(x) + rest) <==> ValidUtf8(rest)
  {
    var b := Encode1(x) + rest;
    assert b[3..] == rest && b[0] == 0xE0 + x / 4096 && b[1] == Tail(x / 64) && b[2] == Tail(x);
    SecondOfThree(x);
  }

  lemma SecondOfThree(x: Scalar)
    requires 0x800 <= x < 0x1_0000
    ensures x / 4096 == 0 ==> Tail(x / 64) >= 0xA0
    ensures x / 4096 == 13 ==> Tail(x / 64) <= 0x9F
  {
  }

  lemma Valid4(x: Scalar, rest: seq<byte>)
    requires 0x1_0000 <= x
    ensures ValidUtf8(Encode1(x) + rest) <==> ValidUtf8(rest)
  {
    var b := Encode1(x) + rest;
    assert b[4..] == rest && b[0] == 0xF0 + x / 262144;
    assert b[1] == Tail(x / 4096) && b[2] == Tail(x / 64) && b[3] == Tail(x);
    SecondOfFour(x);
  }

  lemma SecondOfFour(x: Scalar)
    requires 0x1_0000 <= x
    ensures x / 262144 == 0 ==> Tail(x / 4096) >= 0x90
    ensures x / 262144 == 4 ==> Tail(x / 4096) <= 0x8F
  {
  }

  lemma EncodeThen(x: Scalar, rest: seq<byte>)
    ensures ValidUtf8(Encode1(x) + rest) <==> ValidUtf8(rest)
  {
    if x < 0x80 { Valid1(x, rest); }
    else if x < 0x800 { Valid2(x, rest); }
    else if x < 0x1_0000 { Valid3(x, rest); }
    else { Valid4(x, rest); }
  }

  lemma {:induction false} EncodedIsValid(xs: seq<Scalar>)
    ensures ValidUtf8(Encoded(xs))
  {
    if xs == [] {
    } else {
      EncodedIsValid(xs[1..]);
      EncodeThen(xs[0], Encoded(xs[1..]));
    }
  }

  // ---- whatever passes is an encoding ----

  function Length1(b: seq<byte>): nat
    requires b != []
  {
    if b[0] < 0x80 then 1 else if b[0] < 0xE0 then 2 else if b[0] < 0xF0 then 3 else 4
  }

  lemma Decode2(b0: byte, b1: byte) returns (x: Scalar)
    requires 0xC2 <= b0 <= 0xDF && Continues(b1)
    ensures Encode1(x) == [b0, b1]
  {
    x := (b0 - 0xC0) * 64 + (b1 - 0x80);
  }

  lemma Decode3(b0: byte, b1: byte, b2: byte) returns (x: Scalar)
    requires 0xE0 <= b0 <= 0xEF && Continues(b1) && Continues(b2)
    requires (b0 == 0xE0 ==> b1 >= 0xA0) && (b0 == 0xED ==> b1 <= 0x9F)
    ensures Encode1(x) == [b0, b1, b2]
  {
    var y := (b0 - 0xE0) * 64 + (b1 - 0x80);
    x := y * 64 + (b2 - 0x80);
    assert x / 64 == y && x / 4096 == y / 64;
  }

  lemma Decode4(b0: byte, b1: byte, b2: byte, b3: byte) returns (x: Scalar)
    requires 0xF0 <= b0 <= 0xF4 && Continues(b1) && Continues(b2) && Continues(b3)
    requires (b0 == 0xF0 ==> b1 >= 0x90) && (b0 == 0xF4 ==> b1 <= 0x8F)
    ensures Encode1(x) == [b0, b1, b2, b3]
  {
    var y := (b0 - 0xF0) * 64 + (b1 - 0x80);
    var z := y * 64 + (b2 - 0x80);
    x := z * 64 + (b3 - 0x80);
    assert x / 64 == z && x / 4096 == z / 64 && z / 64 == y && x / 262144 == y / 64;
  }

  lemma DecodeFirst(b: seq<byte>) returns (x: Scalar)
    requires b != [] && ValidUtf8(b)
    ensures Length1(b) <= |b| && Encode1(x) == b[..Length1(b)] && ValidUtf8(b[Length1(b)..])
  {
    if b[0] < 0x80 {
      x := b[0];
    } else if b[0] < 0xE0 {
      x := Decode2(b[0], b[1]);
    } else if b[0] < 0xF0 {
      x := Decode3(b[0], b[1], b[2]);
    } else {
      x := Decode4(b[0], b[1], b[2], b[3]);
    }
  }

  lemma {:induction false} ValidIsEncoded(b: seq<byte>) returns (xs: seq<Scalar>)
    requires ValidUtf8(b)
    ensures Encoded(xs) == b
    decreases |b|
  {
    if b == [] {
      xs := [];
    } else {
      var x := DecodeFirst(b);
      var rest := ValidIsEncoded(b[Length1(b)..]);
      xs := [x] + rest;
      assert xs[1..] == rest;
    }
  }

  lemma ValidUtf8Iff(b: seq<byte>)
    ensures ValidUtf8(b) <==> exists xs: seq<Scalar> :: Encoded(xs) == b
  {
    if ValidUtf8(b) {
      var xs := ValidIsEncoded(b);
    }
    forall xs: seq<Scalar> | Encoded(xs) == b ensures ValidUtf8(b) {
      EncodedIsValid(xs);
    }
  }

  // ---- text followed by ASCII ----

  /** Appending a character below 128 changes nothing, even to a truncated sequence. */
  lemma {:induction false} ValidAppend(b: seq<byte>, c: byte)
    requires c < 0x80
    ensures ValidUtf8(b + [c]) <==> ValidUtf8(b)
    decreases |b|
  {
    if b == [] {
      assert b + [c] == [c] && [c][1..] == [];
    } else {
      var n := Length1(b);
      if n <= |b| {
        AppendLater(b, c, n);
        ValidAppend(b[n..], c);
      } else {
        TruncatedAppend(b, c);
      }
    }
  }

  lemma AppendLater(b: seq<byte>, c: byte, n: nat)
    requires b != [] && n == Length1(b) <= |b|
    ensures ValidUtf8(b[n..] + [c]) == ValidUtf8(b[n..]) ==> ValidUtf8(b + [c]) == ValidUtf8(b)
  {
    assert (b + [c])[n..] == b[n..] + [c];
    assert forall i :: 0 <= i < n ==> (b + [c])[i] == b[i];
  }

  lemma TruncatedAppend(b: seq<byte>, c: byte)
    requires b != [] && |b| < Length1(b) && c < 0x80
    ensures !ValidUtf8(b) && !ValidUtf8(b + [c])
  {
    assert (b + [c])[|b|] == c && (b + [c])[0] == b[0];
  }
}
