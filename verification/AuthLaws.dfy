/** What the authentication exchange amounts to: the server of the "Authentication
    Protocol" section as a state machine over lines, and what counts as a line, a user id
    and well-formed text. */
module AuthLaws {
  import opened Basics
  import opened Decimal
  import opened Serials
  import opened Wire
  import opened Auth
  import Utf8

  // ---- the server's states ----

  /** Waiting for AUTH, for DATA, or for BEGIN (perhaps after agreeing to pass file
      descriptors). */
  datatype Phase = AwaitingAuth | AwaitingData | AwaitingBegin(uid: u32, agreed: bool)

  datatype Move = Say(reply: string, next: Phase) | Accept(uid: u32) | Refuse(error: AuthError)

  /** Lines after which the client may try again. */
  predicate RetryLine(line: string) {
    || line == "AUTH" || line == "CANCEL" || line == "ERROR" || "ERROR " <= line
    || ("AUTH " <= line && line != "AUTH EXTERNAL" && !("AUTH EXTERNAL " <= line))
  }

  function Identified(hex: string, guid: string): Move {
    match ParseHexUid(hex)
    case None => Refuse(InvalidData)
    case Some(uid) => Say("OK " + guid + "\r\n", AwaitingBegin(uid, false))
  }

  function MoveOn(phase: Phase, line: string, guid: string, ownUid: u32): Move {
    match phase
    case AwaitingAuth =>
      if RetryLine(line) then Say("REJECTED EXTERNAL\r\n", AwaitingAuth)
      else if line == "AUTH EXTERNAL" then Say("DATA\r\n", AwaitingData)
      else if "AUTH EXTERNAL " <= line then Identified(line[14..], guid)
      else Refuse(InvalidData)
    case AwaitingData =>
      if line == "DATA" then Say("OK " + guid + "\r\n", AwaitingBegin(ownUid, false))
      else if "DATA " <= line then Identified(line[5..], guid)
      else Refuse(InvalidData)
    case AwaitingBegin(uid, agreed) =>
      if line == "BEGIN" then Accept(uid)
      else if line == "NEGOTIATE_UNIX_FD" && !agreed then Say("AGREE_UNIX_FD\r\n", AwaitingBegin(uid, true))
      else Refuse(ExpectedBegin)
  }

  /** The state machine driven by the lines of `s`. */
  function Drive(phase: Phase, s: seq<byte>, guid: string, ownUid: u32): Outcome
    decreases |s|
  {
    match TakeLine(s)
    case Err(e) => Fail(e)
    case Ok((line, rest)) =>
      match MoveOn(phase, line, guid, ownUid)
      case Say(reply, next) => Reply(reply, Drive(next, rest, guid, ownUid))
      case Accept(uid) => Outcome([], Ok((uid, rest)))
      case Refuse(e) => Fail(e)
  }

  lemma AwaitIsDrive(s: seq<byte>, uid: u32, guid: string, ownUid: u32)
    ensures AwaitBegin(s, uid) == Drive(AwaitingBegin(uid, true), s, guid, ownUid)
  {
  }

  lemma CompleteIsDrive(s: seq<byte>, uid: u32, guid: string, ownUid: u32)
    ensures CompleteAuth(s, uid, guid)
         == Reply("OK " + guid + "\r\n", Drive(AwaitingBegin(uid, false), s, guid, ownUid))
  {
    if TakeLine(s).Ok? {
      AwaitIsDrive(TakeLine(s).value.1, uid, guid, ownUid);
    }
  }

  /** Carrying out a move with `rest` still to be read. */
  function Play(move: Move, rest: seq<byte>, guid: string, ownUid: u32): Outcome {
    match move
    case Say(reply, next) => Reply(reply, Drive(next, rest, guid, ownUid))
    case Accept(uid) => Outcome([], Ok((uid, rest)))
    case Refuse(e) => Fail(e)
  }

  lemma UidIsPlayed(hex: string, rest: seq<byte>, guid: string, ownUid: u32)
    ensures WithUid(hex, rest, guid) == Play(Identified(hex, guid), rest, guid, ownUid)
  {
    match ParseHexUid(hex)
    case None =>
    case Some(uid) => CompleteIsDrive(rest, uid, guid, ownUid);
  }

  lemma ChallengedIsDrive(s: seq<byte>, guid: string, ownUid: u32)
    ensures Challenged(s, guid, ownUid) == Drive(AwaitingData, s, guid, ownUid)
  {
    if TakeLine(s).Ok? {
      var (line, rest) := TakeLine(s).value;
      if "DATA " <= line {
        UidIsPlayed(line[5..], rest, guid, ownUid);
      } else if line == "DATA" {
        CompleteIsDrive(rest, ownUid, guid, ownUid);
      }
    }
  }

  lemma RetryIsRejected(line: string)
    requires line != "AUTH EXTERNAL" && !("AUTH EXTERNAL " <= line)
    ensures Rejected(line) <==> RetryLine(line)
  {
  }

  lemma ExternalIsNoRetry(line: string)
    requires line == "AUTH EXTERNAL" || "AUTH EXTERNAL " <= line
    ensures !RetryLine(line)
  {
    assert line[..5] == "AUTH " && line[4] == ' ';
  }

  lemma {:induction false} LinesAreDrive(s: seq<byte>, guid: string, ownUid: u32)
    ensures AuthLines(s, guid, ownUid) == Drive(AwaitingAuth, s, guid, ownUid)
    decreases |s|
  {
    if TakeLine(s).Ok? {
      var (line, rest) := TakeLine(s).value;
      if "AUTH EXTERNAL " <= line {
        ExternalIsNoRetry(line);
        UidIsPlayed(line[14..], rest, guid, ownUid);
      } else if line == "AUTH EXTERNAL" {
        ExternalIsNoRetry(line);
        ChallengedIsDrive(rest, guid, ownUid);
      } else {
        RetryIsRejected(line);
        LinesAreDrive(rest, guid, ownUid);
      }
    }
  }

  /** After the null byte the server is that state machine: same replies, same verdict,
      same errors, same leftover, on every input. */
  lemma ServerFollowsProtocol(s: seq<byte>, guid: string, ownUid: u32)
    ensures Authenticate(s, guid, ownUid) ==
            if s == [] then Outcome([], Err(UnexpectedEof))
            else if s[0] == 0 then Drive(AwaitingAuth, s[1..], guid, ownUid)
            else Outcome([], Err(ExpectedNullByte))
  {
    if s != [] {
      LinesAreDrive(s[1..], guid, ownUid);
    }
  }

  // ---- lines ----

  /** How a line ends: the last two only at the end of the stream. */
  datatype Eol = CrLf | Lf | Cr | NoEol

  function EolBytes(eol: Eol): seq<byte> {
    match eol
    case CrLf => [13, 10]
    case Lf => [10]
    case Cr => [13]
    case NoEol => []
  }

  /** `a` is a whole line with its end taken off, and `rest` what follows. */
  ghost predicate SplitsOff(s: seq<byte>, a: seq<byte>, eol: Eol, rest: seq<byte>) {
    && s == a + EolBytes(eol) + rest && 10 !in a
    && (eol.Lf? || eol.NoEol? ==> a == [] || a[|a| - 1] != 13)
    && (eol.Cr? || eol.NoEol? ==> rest == [])
  }

  lemma LineLenOf(a: seq<byte>, rest: seq<byte>)
    requires NEWLINE !in a
    ensures LineLen(a + [NEWLINE] + rest) == |a| + 1
  {
    assert a + [NEWLINE] + rest == a + ([NEWLINE] + rest);
    assert forall i :: 0 <= i < |a| ==> a[i] != NEWLINE;
    LineLenConcat(a, [NEWLINE] + rest);
  }

  lemma LineLenAll(a: seq<byte>)
    requires NEWLINE !in a
    ensures LineLen(a) == |a|
  {
    LineLenConcat(a, []);
    assert a + [] == a;
    assert forall i :: 0 <= i < |a| ==> a[i] != NEWLINE;
  }

  lemma SplitLen(a: seq<byte>, eol: Eol, rest: seq<byte>)
    requires 10 !in a && (eol.Cr? || eol.NoEol? ==> rest == [])
    ensures LineLen(a + EolBytes(eol) + rest) == |a + EolBytes(eol)|
  {
    match eol
    case CrLf =>
      assert a + EolBytes(eol) + rest == (a + [13]) + [NEWLINE] + rest;
      LineLenOf(a + [13], rest);
    case Lf =>
      assert a + EolBytes(eol) + rest == a + [NEWLINE] + rest;
      LineLenOf(a, rest);
    case Cr =>
      assert a + EolBytes(eol) + rest == a + [13];
      LineLenAll(a + [13]);
    case NoEol =>
      assert a + EolBytes(eol) + rest == a;
      LineLenAll(a);
  }

  lemma StripEnd(a: seq<byte>, eol: Eol)
    requires 10 !in a && (eol.Lf? || eol.NoEol? ==> a == [] || a[|a| - 1] != 13)
    ensures StripEol(Chars(a + EolBytes(eol))) == Chars(a)
  {
    var raw := a + EolBytes(eol);
    var t := Chars(raw);
    assert forall i :: 0 <= i < |a| ==> t[i] == Chars(a)[i];
    assert a != [] ==> a[|a| - 1] in a;
    match eol
    case CrLf =>
      assert t[..|t| - 1][..|t| - 2] == Chars(a);
    case Lf =>
      assert t[..|t| - 1] == Chars(a);
    case Cr =>
      assert t[..|t| - 1] == Chars(a);
    case NoEol =>
      assert t == Chars(a);
  }

  lemma EolKeepsValid(a: seq<byte>, eol: Eol)
    ensures ValidUtf8(a + EolBytes(eol)) <==> ValidUtf8(a)
  {
    match eol
    case CrLf =>
      assert a + EolBytes(eol) == (a + [13]) + [10];
      Utf8.ValidAppend(a + [13], 10);
      Utf8.ValidAppend(a, 13);
    case Lf => Utf8.ValidAppend(a, 10);
    case Cr => Utf8.ValidAppend(a, 13);
    case NoEol => assert a + EolBytes(eol) == a;
  }

  /** Reading a line: the text before its end, if it is well-formed UTF-8 and not empty,
      and everything after its end is left. */
  lemma LineTaken(s: seq<byte>, a: seq<byte>, eol: Eol, rest: seq<byte>)
    requires SplitsOff(s, a, eol, rest)
    ensures TakeLine(s) == if !ValidUtf8(a) then Err(InvalidUtf8)
                           else if a == [] then Err(UnexpectedEof) else Ok((Chars(a), rest))
  {
    var raw := a + EolBytes(eol);
    SplitLen(a, eol, rest);
    assert s[..|raw|] == raw && s[|raw|..] == rest;
    StripEnd(a, eol);
    EolKeepsValid(a, eol);
    assert Chars(a) == "" <==> a == [];
  }

  lemma {:induction false} FirstNewline(s: seq<byte>)
    ensures var n := LineLen(s);
            if n > 0 && s[n - 1] == NEWLINE then NEWLINE !in s[..n - 1] else n == |s| && NEWLINE !in s
  {
    if s == [] {
    } else if s[0] == NEWLINE {
    } else {
      FirstNewline(s[1..]);
      var n := LineLen(s);
      assert s == [s[0]] + s[1..];
      if n > 1 && s[n - 1] == NEWLINE {
        assert s[..n - 1] == [s[0]] + s[1..][..n - 2];
      }
    }
  }

  /** Every stream splits off its first line in this way. */
  lemma EveryLine(s: seq<byte>) returns (a: seq<byte>, eol: Eol, rest: seq<byte>)
    ensures SplitsOff(s, a, eol, rest)
  {
    FirstNewline(s);
    var n := LineLen(s);
    rest := s[n..];
    var ended := n > 0 && s[n - 1] == NEWLINE;
    a := if ended then s[..n - 1] else s;
    var returned := a != [] && a[|a| - 1] == RETURN;
    eol := if ended then if returned then CrLf else Lf else if returned then Cr else NoEol;
    a := if returned then a[..|a| - 1] else a;
    assert s == a + EolBytes(eol) + rest;
  }

  // ---- user ids ----

  /** `c` is the hexadecimal digit for `d`, in either case. */
  predicate HexDigit(c: char, d: nat)
    requires d < 16
  {
    c == "0123456789abcdef"[d] || c == "0123456789ABCDEF"[d]
  }

  predicate PairAt(s: string, t: string, i: nat)
    requires i < |t| && 2 * i + 1 < |s|
  {
    var x := t[i] as int;
    x < 256 && HexDigit(s[2 * i], x / 16) && HexDigit(s[2 * i + 1], x % 16)
  }

  /** `s` spells the bytes of `t`, two digits each. */
  ghost predicate Spells(s: string, t: string) {
    |s| == 2 * |t| && forall i :: 0 <= i < |t| ==> PairAt(s, t, i)
  }

  lemma HexValueIff(c: char, d: nat)
    requires d < 16
    ensures HexValue(c) == Some(d) <==> HexDigit(c, d)
  {
  }

  lemma HexValueSmall(c: char)
    ensures HexValue(c).Some? ==> HexValue(c).value < 16
  {
  }

  lemma PairLater(s: string, t: string, i: nat)
    requires |s| == 2 * |t| && i + 1 < |t|
    ensures PairAt(s[2..], t[1..], i) == PairAt(s, t, i + 1)
  {
    assert t[1..][i] == t[i + 1] && s[2..][2 * i] == s[2 * (i + 1)] && s[2..][2 * i + 1] == s[2 * (i + 1) + 1];
  }

  lemma SpellsCons(s: string, t: string)
    requires |s| >= 2 && t != ""
    ensures Spells(s, t) <==> PairAt(s, t, 0) && Spells(s[2..], t[1..])
  {
    if |s| == 2 * |t| {
      forall i | 0 <= i < |t| - 1 ensures PairAt(s[2..], t[1..], i) == PairAt(s, t, i + 1) {
        PairLater(s, t, i);
      }
      if PairAt(s, t, 0) && Spells(s[2..], t[1..]) {
        forall i | 0 <= i < |t| ensures PairAt(s, t, i) {
          if i > 0 { assert PairAt(s[2..], t[1..], i - 1); }
        }
      }
    }
  }

  lemma PairOf(hi: nat, lo: nat, x: nat)
    requires hi < 16 && lo < 16
    ensures hi * 16 + lo == x <==> x < 256 && hi == x / 16 && lo == x % 16
  {
  }

  lemma {:induction false} HexDecodeIff(s: string, t: string)
    ensures HexDecode(s) == Some(t) <==> Spells(s, t)
    decreases |s|
  {
    if |s| < 2 {
    } else if t == "" {
      assert HexDecode(s).Some? ==> HexDecode(s).value != "";
    } else {
      SpellsCons(s, t);
      HexDecodeIff(s[2..], t[1..]);
      HexPair(s, t);
    }
  }

  function Both(c0: char, c1: char): Option<nat> {
    if HexValue(c0).Some? && HexValue(c1).Some? then Some(16 * HexValue(c0).value + HexValue(c1).value) else None
  }

  lemma BothIff(c0: char, c1: char, x: nat)
    ensures Both(c0, c1) == Some(x) <==> x < 256 && HexDigit(c0, x / 16) && HexDigit(c1, x % 16)
  {
    HexValueSmall(c0);
    HexValueSmall(c1);
    if x < 256 {
      HexValueIff(c0, x / 16);
      HexValueIff(c1, x % 16);
    }
    if HexValue(c0).Some? && HexValue(c1).Some? {
      PairOf(HexValue(c0).value, HexValue(c1).value, x);
    }
  }

  lemma HexUnfold(s: string)
    requires |s| >= 2
    ensures Both(s[0], s[1]).Some? ==> Both(s[0], s[1]).value < 256
    ensures HexDecode(s) ==
            if Both(s[0], s[1]).Some? && HexDecode(s[2..]).Some?
            then Some([Both(s[0], s[1]).value as char] + HexDecode(s[2..]).value) else None
  {
    HexValueSmall(s[0]);
    HexValueSmall(s[1]);
  }

  lemma ConsIs(c: char, rest: string, t: string)
    requires t != ""
    ensures [c] + rest == t <==> c == t[0] && rest == t[1..]
  {
    assert t == [t[0]] + t[1..];
    assert ([c] + rest)[1..] == rest;
  }

  lemma HexPair(s: string, t: string)
    requires |s| >= 2 && t != ""
    ensures HexDecode(s) == Some(t) <==>
            && t[0] as int < 256 && HexDigit(s[0], t[0] as int / 16) && HexDigit(s[1], t[0] as int % 16)
            && HexDecode(s[2..]) == Some(t[1..])
  {
    HexUnfold(s);
    BothIff(s[0], s[1], t[0] as int);
    var both, rest := Both(s[0], s[1]), HexDecode(s[2..]);
    if both.Some? && rest.Some? {
      ConsIs(both.value as char, rest.value, t);
    }
  }

  /** A user id is accepted exactly if its digits, in hexadecimal pairs of either case,
      spell a decimal numeral below 2^32, and it is that number. */
  lemma ParseHexUidIff(hex: string, uid: nat)
    ensures ParseHexUid(hex) == Some(uid) <==> exists text :: Spells(hex, text) && ParseUnsigned(text, TWO32 - 1) == Some(uid)
  {
    forall text ensures Spells(hex, text) <==> HexDecode(hex) == Some(text) {
      HexDecodeIff(hex, text);
    }
  }
}
