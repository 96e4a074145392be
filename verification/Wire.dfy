/** The fixed 16-byte message header: integer fields in either byte order, the
    frame size (src/client.rs) and serial patching (src/message.rs). */
module Wire {
  import opened Basics
  import opened Serials

  type byte = x: int | 0 <= x < 256

  const HEADER_LEN := 16
  const LITTLE: byte := 'l' as int
  const MAX_FIELDS := 0x400_0000   // 2^26, "Message Format"
  const MAX_MESSAGE := 0x800_0000  // 2^27, "Message Format"

  function ToLe(x: u32): (b: seq<byte>)
    ensures |b| == 4
  {
    [x % 256, (x / 0x100) % 256, (x / 0x1_0000) % 256, x / 0x100_0000]
  }

  function ToBe(x: u32): (b: seq<byte>)
    ensures |b| == 4
  {
    [x / 0x100_0000, (x / 0x1_0000) % 256, (x / 0x100) % 256, x % 256]
  }

  function FromLe(b0: byte, b1: byte, b2: byte, b3: byte): u32 {
    b0 + 0x100 * b1 + 0x1_0000 * b2 + 0x100_0000 * b3
  }

  /** Four bytes at `at`, most significant last when `little`. */
  function U32At(s: seq<byte>, at: nat, little: bool): u32
    requires at + 4 <= |s|
  {
    if little then FromLe(s[at], s[at + 1], s[at + 2], s[at + 3])
    else FromLe(s[at + 3], s[at + 2], s[at + 1], s[at])
  }

  function Encode(x: u32, little: bool): (b: seq<byte>)
    ensures |b| == 4
  {
    if little then ToLe(x) else ToBe(x)
  }

  lemma BytesOf(x: u32)
    ensures x == x % 256 + 0x100 * ((x / 0x100) % 256)
                 + 0x1_0000 * ((x / 0x1_0000) % 256) + 0x100_0000 * (x / 0x100_0000)
  {
    assert x / 0x1_0000 == (x / 0x100) / 256;
    assert x / 0x100_0000 == (x / 0x1_0000) / 256;
  }

  lemma EncodeDecodes(x: u32, little: bool)
    ensures U32At(Encode(x, little), 0, little) == x
  {
    BytesOf(x);
  }

  predicate IsLittle(s: seq<byte>)
    requires |s| >= HEADER_LEN
  {
    s[0] == LITTLE
  }

  function BodyLen(s: seq<byte>): u32 requires |s| >= HEADER_LEN { U32At(s, 4, IsLittle(s)) }
  function SerialOf(s: seq<byte>): u32 requires |s| >= HEADER_LEN { U32At(s, 8, IsLittle(s)) }
  function FieldsLen(s: seq<byte>): u32 requires |s| >= HEADER_LEN { U32At(s, 12, IsLittle(s)) }

  /** A number from its bytes, the least significant first. */
  function Number(a: int, b: int, c: int, d: int): int { a + 256 * b + 65536 * c + 16777216 * d }

  /** Where "Message Format" puts the three numbers, and their byte order. */
  lemma HeaderLayout(s: seq<byte>)
    requires |s| >= 16
    ensures s[0] == 108 ==>
              && BodyLen(s) == Number(s[4], s[5], s[6], s[7])
              && SerialOf(s) == Number(s[8], s[9], s[10], s[11])
              && FieldsLen(s) == Number(s[12], s[13], s[14], s[15])
    ensures s[0] != 108 ==>
              && BodyLen(s) == Number(s[7], s[6], s[5], s[4])
              && SerialOf(s) == Number(s[11], s[10], s[9], s[8])
              && FieldsLen(s) == Number(s[15], s[14], s[13], s[12])
  {
  }

  /** The fixed header of a little-endian method call with these two lengths. */
  function Header(fields: u32, body: u32): (h: seq<byte>)
    ensures |h| == HEADER_LEN
  {
    [LITTLE, 1, 0, 1] + ToLe(body) + ToLe(1) + ToLe(fields)
  }

  lemma HeaderLengths(fields: u32, body: u32)
    ensures FieldsLen(Header(fields, body)) == fields && BodyLen(Header(fields, body)) == body
  {
    BytesOf(fields);
    BytesOf(body);
  }

  /** `(x + 7) & !7` in wrapping 32-bit arithmetic. */
  function PadTo8(x: u32): u32 { var y := Wrap(x + 7); y - y % 8 }

  function WrappedSize(fields: u32, body: u32): u32 { Wrap(Wrap(16 + PadTo8(fields)) + body) }

  function Size(fields: u32, body: u32): nat { 16 + ((fields as int) + 7) / 8 * 8 + body }

  /** The frame size as computed, in wrapping 32-bit arithmetic. */
  function TotalSize(s: seq<byte>): u32
    requires |s| >= HEADER_LEN
  {
    WrappedSize(FieldsLen(s), BodyLen(s))
  }

  /** The frame size the header means. */
  function FrameSize(s: seq<byte>): nat
    requires |s| >= HEADER_LEN
  {
    Size(FieldsLen(s), BodyLen(s))
  }

  /** The body starts at the first multiple of 8 after the header fields and ends the
      message. */
  lemma BodyStartsAligned(s: seq<byte>)
    requires |s| >= 16
    ensures var start := FrameSize(s) - BodyLen(s);
            start % 8 == 0 && 16 + FieldsLen(s) <= start < 16 + FieldsLen(s) + 8
  {
    SizeAligned(FieldsLen(s), BodyLen(s));
  }

  lemma SizeAligned(fields: u32, body: u32)
    ensures var start := Size(fields, body) - body; start % 8 == 0 && 16 + fields <= start < 16 + fields + 8
  {
    RoundedUp(fields);
  }

  lemma RoundedUp(x: nat)
    ensures (x + 7) / 8 * 8 % 8 == 0 && x <= (x + 7) / 8 * 8 < x + 8
  {
    var q, r := (x + 7) / 8, (x + 7) % 8;
    assert x + 7 == 8 * q + r;
  }

  lemma PadWraps(x: u32)
    ensures PadTo8(x) == ((x as int) + 7) / 8 * 8 || PadTo8(x) == ((x as int) + 7) / 8 * 8 - TWO32
  {
  }

  lemma WrapOnce(x: nat)
    requires x < 2 * TWO32
    ensures Wrap(x) == if x < TWO32 then x else x - TWO32
  {
  }

  lemma SizeWraps(fields: u32, body: u32)
    ensures Size(fields, body) < 2 * TWO32 + 16
    ensures WrappedSize(fields, body) ==
            if Size(fields, body) < TWO32 then Size(fields, body)
            else if Size(fields, body) < 2 * TWO32 then Size(fields, body) - TWO32
            else Size(fields, body) - 2 * TWO32
  {
    PadWraps(fields);
    WrapOnce(16 + PadTo8(fields));
    WrapOnce(Wrap(16 + PadTo8(fields)) + body);
  }

  /** The computed size is the real one less 2^32 or 2^33 once it reaches those. */
  lemma TotalSizeWraps(s: seq<byte>)
    requires |s| >= HEADER_LEN
    ensures FrameSize(s) < 2 * TWO32 + HEADER_LEN
    ensures TotalSize(s) ==
            if FrameSize(s) < TWO32 then FrameSize(s)
            else if FrameSize(s) < 2 * TWO32 then FrameSize(s) - TWO32 else FrameSize(s) - 2 * TWO32
  {
    SizeWraps(FieldsLen(s), BodyLen(s));
  }

  /** The computed size is right exactly when the real one fits 32 bits. */
  lemma TotalSizeExactIff(s: seq<byte>)
    requires |s| >= HEADER_LEN
    ensures TotalSize(s) == FrameSize(s) <==> FrameSize(s) < TWO32
  {
    TotalSizeWraps(s);
  }

  /** Header and message within the limits of "Message Format". */
  predicate WithinLimits(s: seq<byte>)
    requires |s| >= HEADER_LEN
  {
    FieldsLen(s) <= MAX_FIELDS && FrameSize(s) <= MAX_MESSAGE
  }

  lemma LimitsPreventOverflow(s: seq<byte>)
    requires |s| >= HEADER_LEN && WithinLimits(s)
    ensures TotalSize(s) == FrameSize(s)
  {
    TotalSizeExactIff(s);
  }

  // ---- serial patching ----

  datatype MessageError = InvalidSerial | NoReplySerial | SendFailed

  /** `t` is `s` with another serial and nothing else changed. */
  ghost predicate SameButSerial(s: seq<byte>, t: seq<byte>) {
    |s| == |t| && forall i :: 0 <= i < |s| && !(8 <= i < 12) ==> t[i] == s[i]
  }

  method CloneMessageWithSerial(msg: seq<byte>, newSerial: u32) returns (r: Result<seq<byte>, MessageError>)
    requires |msg| >= HEADER_LEN
    ensures r.Err? <==> newSerial == 0
    ensures r.Err? ==> r.error == InvalidSerial
    ensures r.Ok? ==> SameButSerial(msg, r.value) && SerialOf(r.value) == newSerial
  {
    if newSerial == 0 {
      return Err(InvalidSerial);
    }
    var bytes := new byte[|msg|](i requires 0 <= i < |msg| => msg[i]);
    var little := bytes[0] == LITTLE;
    var serialBytes := Encode(newSerial, little);
    var i := 0;
    while i < 4
      invariant 0 <= i <= 4
      invariant forall k :: 0 <= k < |msg| && !(8 <= k < 8 + i) ==> bytes[k] == msg[k]
      invariant forall k :: 0 <= k < i ==> bytes[8 + k] == serialBytes[k]
    {
      bytes[8 + i] := serialBytes[i];
      i := i + 1;
    }
    EncodeDecodes(newSerial, little);
    assert forall k :: 0 <= k < 4 ==> bytes[..][8 + k] == serialBytes[k];
    r := Ok(bytes[..]);
  }

  /** So the patched message has the same byte order, field lengths and frame. */
  lemma PatchKeepsFrame(s: seq<byte>, t: seq<byte>)
    requires |s| >= HEADER_LEN && SameButSerial(s, t)
    ensures IsLittle(t) == IsLittle(s) && BodyLen(t) == BodyLen(s) && FieldsLen(t) == FieldsLen(s)
    ensures TotalSize(t) == TotalSize(s) && FrameSize(t) == FrameSize(s)
    ensures t[HEADER_LEN..] == s[HEADER_LEN..]
  {
    assert t[0] == s[0];
    assert forall i :: 4 <= i < 8 || 12 <= i < 16 ==> t[i] == s[i];
  }
}
