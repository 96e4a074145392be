/** Server side of the authentication protocol (src/auth.rs). A line is kept as its
    bytes, one character each; the tests made on it are on ASCII text. */
module Auth {
  import opened Basics
  import opened Decimal
  import opened Serials
  import opened Wire

  datatype AuthError = ExpectedNullByte | InvalidData | ExpectedBegin | UnexpectedEof | InvalidUtf8

  const BUF_READER_CAPACITY := 8192
  const NEWLINE: byte := 10
  const RETURN: byte := 13

  function Chars(b: seq<byte>): (s: string)
    ensures |s| == |b| && forall i :: 0 <= i < |s| ==> s[i] as int == b[i]
  {
    seq(|b|, i requires 0 <= i < |b| => b[i] as char)
  }

  predicate Ascii(s: string) { forall i :: 0 <= i < |s| ==> s[i] as int < 128 }

  function Bytes(s: string): (b: seq<byte>)
    requires Ascii(s)
    ensures |b| == |s| && forall i :: 0 <= i < |b| ==> b[i] == s[i] as int
  {
    seq(|s|, i requires 0 <= i < |s| => s[i] as int)
  }

  // ---- UIDs ----

  function HexValue(c: char): Option<nat> {
    if '0' <= c <= '9' then Some(c as int - '0' as int)
    else if 'a' <= c <= 'f' then Some(c as int - 'a' as int + 10)
    else if 'A' <= c <= 'F' then Some(c as int - 'A' as int + 10)
    else None
  }

  function HexChar(d: nat): (c: char)
    requires d < 16
    ensures c as int < 128 && c != '\n' && c != '\r'
  {
    if d < 10 then ('0' as int + d) as char else ('a' as int + (d - 10)) as char
  }

  function HexDecode(s: string): Option<string> {
    if s == [] then Some([])
    else if |s| == 1 then None
    else
      match (HexValue(s[0]), HexValue(s[1]), HexDecode(s[2..]))
      case (Some(hi), Some(lo), Some(rest)) =>
        if hi < 16 && lo < 16 then Some([(hi * 16 + lo) as char] + rest) else None
      case _ => None
  }

  function HexEncode(s: string): (h: string)
    requires Ascii(s)
    ensures |h| == 2 * |s| && Ascii(h) && forall i :: 0 <= i < |h| ==> h[i] != '\n' && h[i] != '\r'
  {
    if s == [] then []
    else [HexChar(s[0] as int / 16), HexChar(s[0] as int % 16)] + HexEncode(s[1..])
  }

  function ParseHexUid(hex: string): (uid: Option<nat>)
    ensures uid.Some? ==> uid.value < TWO32
  {
    match HexDecode(hex)
    case None => None
    case Some(text) => ParseUnsigned(text, TWO32 - 1)
  }

  function EncodeUid(uid: u32): (h: string)
    ensures |h| >= 2 && Ascii(h) && forall i :: 0 <= i < |h| ==> h[i] != '\n' && h[i] != '\r'
  {
    HexEncode(Digits(uid))
  }

  lemma HexCharValue(d: nat)
    requires d < 16
    ensures HexValue(HexChar(d)) == Some(d)
  {
  }

  lemma {:induction false} HexRoundTrip(s: string)
    requires Ascii(s)
    ensures HexDecode(HexEncode(s)) == Some(s)
  {
    if s == [] {
    } else {
      var x := s[0] as int;
      HexCharValue(x / 16);
      HexCharValue(x % 16);
      HexRoundTrip(s[1..]);
      assert HexEncode(s)[2..] == HexEncode(s[1..]);
      assert [s[0]] + s[1..] == s;
    }
  }

  /** Every 32-bit user id survives encoding and parsing. */
  lemma UidRoundTrip(uid: u32)
    ensures ParseHexUid(EncodeUid(uid)) == Some(uid)
  {
    HexRoundTrip(Digits(uid));
    ParseDigits(uid, TWO32 - 1);
  }

  // ---- lines ----

  /** Well-formed UTF-8, as `read_line` demands of every line. */
  predicate ValidUtf8(b: seq<byte>)
    decreases |b|
  {
    if b == [] then true
    else if b[0] < 0x80 then ValidUtf8(b[1..])
    else if 0xC2 <= b[0] <= 0xDF then |b| >= 2 && Continues(b[1]) && ValidUtf8(b[2..])
    else if 0xE0 <= b[0] <= 0xEF then
      && |b| >= 3 && Continues(b[1]) && Continues(b[2])
      && (b[0] == 0xE0 ==> b[1] >= 0xA0) && (b[0] == 0xED ==> b[1] <= 0x9F) && ValidUtf8(b[3..])
    else if 0xF0 <= b[0] <= 0xF4 then
      && |b| >= 4 && Continues(b[1]) && Continues(b[2]) && Continues(b[3])
      && (b[0] == 0xF0 ==> b[1] >= 0x90) && (b[0] == 0xF4 ==> b[1] <= 0x8F) && ValidUtf8(b[4..])
    else false
  }

  predicate Continues(b: byte) { 0x80 <= b <= 0xBF }

  /** The length of the first line with its newline, or of everything. */
  function LineLen(s: seq<byte>): (n: nat)
    ensures n <= |s| && (s != [] ==> n > 0)
  {
    if s == [] then 0 else if s[0] == NEWLINE then 1 else 1 + LineLen(s[1..])
  }

  predicate EndsLine(s: seq<byte>) { s != [] && s[|s| - 1] == NEWLINE }

  function StripEol(s: string): string {
    var t := if s != [] && s[|s| - 1] == '\n' then s[..|s| - 1] else s;
    if t != [] && t[|t| - 1] == '\r' then t[..|t| - 1] else t
  }

  function LineText(raw: seq<byte>): Result<string, AuthError> {
    if !ValidUtf8(raw) then Err(InvalidUtf8)
    else if StripEol(Chars(raw)) == "" then Err(UnexpectedEof)
    else Ok(StripEol(Chars(raw)))
  }

  /** `read_line` on the plain byte stream. */
  function TakeLine(s: seq<byte>): (r: Result<(string, seq<byte>), AuthError>)
    ensures r.Ok? ==> |r.value.1| < |s|
  {
    match LineText(s[..LineLen(s)])
    case Err(e) => Err(e)
    case Ok(text) => Ok((text, s[LineLen(s)..]))
  }

  // ---- the protocol on the plain byte stream ----

  datatype Outcome = Outcome(replies: seq<string>, result: Result<(u32, seq<byte>), AuthError>)

  function Reply(text: string, rest: Outcome): Outcome {
    Outcome([text] + rest.replies, rest.result)
  }

  function Fail(e: AuthError): Outcome { Outcome([], Err(e)) }

  function AwaitBegin(s: seq<byte>, uid: u32): Outcome {
    match TakeLine(s)
    case Err(e) => Fail(e)
    case Ok((line, rest)) => if line == "BEGIN" then Outcome([], Ok((uid, rest))) else Fail(ExpectedBegin)
  }

  function CompleteAuth(s: seq<byte>, uid: u32, guid: string): Outcome {
    Reply("OK " + guid + "\r\n",
      match TakeLine(s)
      case Err(e) => Fail(e)
      case Ok((line, rest)) =>
        if line == "NEGOTIATE_UNIX_FD" then Reply("AGREE_UNIX_FD\r\n", AwaitBegin(rest, uid))
        else if line == "BEGIN" then Outcome([], Ok((uid, rest)))
        else Fail(ExpectedBegin))
  }

  function WithUid(hex: string, rest: seq<byte>, guid: string): Outcome {
    match ParseHexUid(hex)
    case None => Fail(InvalidData)
    case Some(uid) => CompleteAuth(rest, uid, guid)
  }

  function Challenged(s: seq<byte>, guid: string, ownUid: u32): Outcome {
    match TakeLine(s)
    case Err(e) => Fail(e)
    case Ok((line, rest)) =>
      if "DATA " <= line then WithUid(line[5..], rest, guid)
      else if line == "DATA" then CompleteAuth(rest, ownUid, guid)
      else Fail(InvalidData)
  }

  /** Lines answered with a rejection, after which the client may try again. */
  predicate Rejected(line: string) {
    line == "AUTH" || "AUTH " <= line || line == "CANCEL" || line == "ERROR" || "ERROR " <= line
  }

  function AuthLines(s: seq<byte>, guid: string, ownUid: u32): Outcome
    decreases |s|
  {
    match TakeLine(s)
    case Err(e) => Fail(e)
    case Ok((line, rest)) =>
      if "AUTH EXTERNAL " <= line then WithUid(line[14..], rest, guid)
      else if line == "AUTH EXTERNAL" then Reply("DATA\r\n", Challenged(rest, guid, ownUid))
      else if Rejected(line) then Reply("REJECTED EXTERNAL\r\n", AuthLines(rest, guid, ownUid))
      else Fail(InvalidData)
  }

  function Authenticate(s: seq<byte>, guid: string, ownUid: u32): Outcome {
    if s == [] then Fail(UnexpectedEof)
    else if s[0] != 0 then Fail(ExpectedNullByte)
    else AuthLines(s[1..], guid, ownUid)
  }

  // ---- the buffered reader ----

  lemma {:induction false} LineLenConcat(a: seq<byte>, b: seq<byte>)
    ensures LineLen(a + b) == if EndsLine(a[..LineLen(a)]) then LineLen(a) else |a| + LineLen(b)
    ensures !EndsLine(a[..LineLen(a)]) ==> LineLen(a) == |a| && NEWLINE !in a
  {
    if a == [] {
      assert a + b == b;
    } else if a[0] != NEWLINE {
      LineLenConcat(a[1..], b);
      assert (a + b)[1..] == a[1..] + b;
      assert a[..LineLen(a)] == [a[0]] + a[1..][..LineLen(a[1..])];
      assert a == [a[0]] + a[1..];
    }
  }

  /** `raw` is the part of the first line of `s` already taken, `rest` what follows. */
  ghost predicate Consumed(s: seq<byte>, raw: seq<byte>, rest: seq<byte>) {
    s == raw + rest && LineLen(s) == |raw| + LineLen(rest)
  }

  lemma ConsumedAll(s: seq<byte>, raw: seq<byte>)
    requires Consumed(s, raw, [] + [])
    ensures raw == s[..LineLen(s)] && s[LineLen(s)..] == []
  {
  }

  lemma ConsumedOne(s: seq<byte>, raw: seq<byte>, buffer: seq<byte>, socket: seq<byte>)
    requires Consumed(s, raw, buffer + socket)
    ensures var n := LineLen(buffer);
            if EndsLine(buffer[..n])
            then raw + buffer[..n] == s[..LineLen(s)] && buffer[n..] + socket == s[LineLen(s)..]
            else n == |buffer| && Consumed(s, raw + buffer[..n], [] + socket)
  {
    var n := LineLen(buffer);
    LineLenConcat(buffer, socket);
    var taken, left := raw + buffer[..n], buffer[n..] + socket;
    Regroup(raw, buffer, n, socket);
    if EndsLine(buffer[..n]) {
      SplitAt(taken, left);
    } else {
      assert left == [] + socket && left == socket;
    }
  }

  lemma Regroup(raw: seq<byte>, buffer: seq<byte>, n: nat, socket: seq<byte>)
    requires n <= |buffer|
    ensures raw + (buffer + socket) == (raw + buffer[..n]) + (buffer[n..] + socket)
  {
  }

  lemma SplitAt(a: seq<byte>, b: seq<byte>)
    ensures a == (a + b)[..|a|] && b == (a + b)[|a|..]
  {
  }

  /** Reading a line gave `r` and left `rest`, as on the plain stream. */
  ghost predicate LineRead(s: seq<byte>, r: Result<string, AuthError>, rest: seq<byte>) {
    match TakeLine(s)
    case Ok((line, left)) => r == Ok(line) && rest == left
    case Err(e) => r == Err(e)
  }

  lemma FirstLineRead(s: seq<byte>)
    ensures LineRead(s, LineText(s[..LineLen(s)]), s[LineLen(s)..])
  {
  }

  class BufReader {
    var buffer: seq<byte>
    var socket: seq<byte>

    ghost function Stream(): seq<byte>
      reads this
    {
      buffer + socket
    }

    constructor (socket: seq<byte>)
      ensures Stream() == socket && buffer == []
    {
      buffer, this.socket := [], socket;
    }

    /** A read returns any positive number of the bytes that are to come, so every
        chunking of the stream is covered. */
    method FillBuf()
      modifies this
      ensures Stream() == old(Stream())
      ensures buffer == [] ==> socket == []
    {
      if buffer == [] && socket != [] {
        var n :| 0 < n <= |socket| && n <= BUF_READER_CAPACITY;
        assert socket == socket[..n] + socket[n..];
        buffer, socket := socket[..n], socket[n..];
      }
    }

    /** Bytes up to and including the next newline, or to the end of the stream. */
    method ReadUntilNewline() returns (raw: seq<byte>)
      modifies this
      ensures var s := old(Stream()); raw == s[..LineLen(s)] && Stream() == s[LineLen(s)..]
    {
      ghost var s := Stream();
      raw := [];
      while true
        invariant Consumed(s, raw, Stream())
        decreases |Stream()|
      {
        FillBuf();
        if buffer == [] {
          ConsumedAll(s, raw);
          return;
        }
        var n := LineLen(buffer);
        ConsumedOne(s, raw, buffer, socket);
        raw := raw + buffer[..n];
        if EndsLine(buffer[..n]) {
          buffer := buffer[n..];
          return;
        }
        buffer := [];
      }
    }

    method ReadLine() returns (r: Result<string, AuthError>)
      modifies this
      ensures LineRead(old(Stream()), r, Stream())
    {
      ghost var s := Stream();
      var raw := ReadUntilNewline();
      FirstLineRead(s);
      r := LineText(raw);
    }
  }

  // ---- the server ----

  /** The exchange came out as on the plain stream: same replies, same verdict, and on
      success `left` is what the plain protocol leaves. */
  ghost predicate Matches(o: Outcome, replies: seq<string>, r: Result<u32, AuthError>, left: seq<byte>) {
    && replies == o.replies
    && (r.Ok? ==> o.result == Ok((r.value, left)))
    && (r.Err? ==> o.result == Err(r.error))
  }

  class SaslAuth {
    const serverGuid: string

    constructor (guid: string)
      ensures serverGuid == guid
    {
      serverGuid := guid;
    }

    method FinishAuth(reader: BufReader, uid: u32) returns (replies: seq<string>, r: Result<u32, AuthError>)
      modifies reader
      ensures Matches(CompleteAuth(old(reader.Stream()), uid, serverGuid), replies, r, reader.Stream())
    {
      replies := ["OK " + serverGuid + "\r\n"];
      var line := reader.ReadLine();
      if line.Err? {
        return replies, Err(line.error);
      }
      if line.value == "NEGOTIATE_UNIX_FD" {
        replies := replies + ["AGREE_UNIX_FD\r\n"];
        line := reader.ReadLine();
        if line.Err? {
          return replies, Err(line.error);
        }
        if line.value != "BEGIN" {
          return replies, Err(ExpectedBegin);
        }
      } else if line.value != "BEGIN" {
        return replies, Err(ExpectedBegin);
      }
      r := Ok(uid);
    }

    method WithHexUid(reader: BufReader, hex: string) returns (replies: seq<string>, r: Result<u32, AuthError>)
      modifies reader
      ensures Matches(WithUid(hex, old(reader.Stream()), serverGuid), replies, r, reader.Stream())
    {
      var uid := ParseHexUid(hex);
      if uid.None? {
        return [], Err(InvalidData);
      }
      replies, r := FinishAuth(reader, uid.value);
    }

    method Challenge(reader: BufReader, ownUid: u32) returns (replies: seq<string>, r: Result<u32, AuthError>)
      modifies reader
      ensures Matches(Challenged(old(reader.Stream()), serverGuid, ownUid), replies, r, reader.Stream())
    {
      var line := reader.ReadLine();
      if line.Err? {
        return [], Err(line.error);
      }
      if "DATA " <= line.value {
        replies, r := WithHexUid(reader, line.value[5..]);
      } else if line.value == "DATA" {
        replies, r := FinishAuth(reader, ownUid);
      } else {
        return [], Err(InvalidData);
      }
    }

    /** `authenticate_server`: one byte straight from the socket, then buffered lines.
        Whatever the reads return, replies, verdict and leftover bytes are those of
        the protocol on the plain stream. */
    method AuthenticateServer(stream: seq<byte>, ownUid: u32)
      returns (reader: BufReader, replies: seq<string>, r: Result<u32, AuthError>)
      ensures fresh(reader)
      ensures Matches(Authenticate(stream, serverGuid, ownUid), replies, r, reader.Stream())
    {
      replies := [];
      if stream == [] {
        reader := new BufReader([]);
        return reader, [], Err(UnexpectedEof);
      }
      reader := new BufReader(stream[1..]);
      if stream[0] != 0 {
        return reader, [], Err(ExpectedNullByte);
      }
      ghost var o := AuthLines(stream[1..], serverGuid, ownUid);
      while true
        invariant fresh(reader) && After(o, replies, AuthLines(reader.Stream(), serverGuid, ownUid))
        decreases |reader.Stream()|
      {
        ghost var before := reader.Stream();
        var line := reader.ReadLine();
        if line.Err? {
          return reader, replies, Err(line.error);
        }
        var more: seq<string>;
        if "AUTH EXTERNAL " <= line.value {
          more, r := WithHexUid(reader, line.value[14..]);
          return reader, replies + more, r;
        } else if line.value == "AUTH EXTERNAL" {
          more, r := Challenge(reader, ownUid);
          AfterReply(o, replies, "DATA\r\n", Challenged(TakeLine(before).value.1, serverGuid, ownUid));
          return reader, replies + ["DATA\r\n"] + more, r;
        } else if Rejected(line.value) {
          AfterReply(o, replies, "REJECTED EXTERNAL\r\n", AuthLines(reader.Stream(), serverGuid, ownUid));
          replies := replies + ["REJECTED EXTERNAL\r\n"];
        } else {
          return reader, replies, Err(InvalidData);
        }
      }
    }
  }

  /** `replies` have been sent and `rest` is still to happen. */
  ghost predicate After(o: Outcome, replies: seq<string>, rest: Outcome) {
    o == Outcome(replies + rest.replies, rest.result)
  }

  lemma AfterReply(o: Outcome, replies: seq<string>, text: string, rest: Outcome)
    requires After(o, replies, Reply(text, rest))
    ensures After(o, replies + [text], rest)
  {
    assert replies + ([text] + rest.replies) == replies + [text] + rest.replies;
  }
}
