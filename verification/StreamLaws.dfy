/** From the first byte a client sends to the messages read from it. */
module StreamLaws {
  import opened Basics
  import opened Serials
  import opened Wire
  import opened Auth
  import opened AuthLaws
  import Framing

  // ---- what a successful authentication leaves ----

  /** A line starts at `j`. */
  predicate LineStart(s: seq<byte>, j: nat) {
    j <= |s| && (j == 0 || s[j - 1] == NEWLINE)
  }

  predicate IsBegin(s: seq<byte>) {
    TakeLine(s).Ok? && TakeLine(s).value.0 == "BEGIN"
  }

  /** The first line of `s` that is "BEGIN" starts at `k` and is followed by `rest`. */
  ghost predicate FirstBeginAt(s: seq<byte>, k: nat, rest: seq<byte>) {
    LineStart(s, k) && TakeLine(s[k..]) == Ok(("BEGIN", rest)) && NoLineBefore(s, k, IsBegin)
  }

  /** No line that starts before `k` is such a line. */
  ghost predicate NoLineBefore(s: seq<byte>, k: nat, such: seq<byte> -> bool)
    requires k <= |s|
  {
    forall j :: 0 <= j < k && LineStart(s, j) ==> !such(s[j..])
  }

  ghost predicate FirstBegin(s: seq<byte>, rest: seq<byte>) {
    exists k: nat :: FirstBeginAt(s, k, rest)
  }

  lemma {:induction false} LineEndsInNewline(s: seq<byte>)
    requires LineLen(s) < |s|
    ensures LineLen(s) > 0 && s[LineLen(s) - 1] == NEWLINE
  {
    if s[0] == NEWLINE {
    } else {
      LineEndsInNewline(s[1..]);
    }
  }

  lemma {:induction false} NoLineStartInside(s: seq<byte>, j: nat)
    requires 0 < j < LineLen(s)
    ensures !LineStart(s, j)
  {
    if j == 1 {
    } else {
      NoLineStartInside(s[1..], j - 1);
      assert s[1..][j - 2] == s[j - 1];
    }
  }

  lemma BeginsNow(s: seq<byte>, rest: seq<byte>)
    requires TakeLine(s) == Ok(("BEGIN", rest))
    ensures FirstBegin(s, rest)
  {
    assert s[0..] == s;
    assert FirstBeginAt(s, 0, rest);
  }

  lemma Shifted(s: seq<byte>, n: nat, k: nat)
    requires n + k <= |s|
    ensures s[n..][k..] == s[n + k..]
    ensures k > 0 ==> s[n..][k - 1] == s[n + k - 1]
  {
  }

  lemma LineStartLater(s: seq<byte>, n: nat, k: nat)
    requires n + k <= |s| && LineStart(s, n + k)
    ensures LineStart(s[n..], k)
  {
    Shifted(s, n, k);
  }

  lemma OneLineMoreAt(s: seq<byte>, n: nat, k: nat, such: seq<byte> -> bool, j: nat)
    requires n == LineLen(s) && n + k <= |s| && !such(s) && NoLineBefore(s[n..], k, such)
    requires j < n + k && LineStart(s, j)
    ensures !such(s[j..])
  {
    if j == 0 {
      assert s[0..] == s;
    } else if j < n {
      NoLineStartInside(s, j);
    } else {
      LineStartLater(s, n, j - n);
      Shifted(s, n, j - n);
    }
  }

  lemma OneLineMore(s: seq<byte>, n: nat, k: nat, such: seq<byte> -> bool)
    requires n == LineLen(s) && n + k <= |s| && !such(s) && NoLineBefore(s[n..], k, such)
    ensures NoLineBefore(s, n + k, such)
  {
    forall j | 0 <= j < n + k && LineStart(s, j) ensures !such(s[j..]) {
      OneLineMoreAt(s, n, k, such, j);
    }
  }

  lemma BeginsLater(s: seq<byte>, line: string, next: seq<byte>, rest: seq<byte>)
    requires TakeLine(s) == Ok((line, next)) && line != "BEGIN" && FirstBegin(next, rest)
    ensures FirstBegin(s, rest)
  {
    var k: nat :| FirstBeginAt(next, k, rest);
    var n := LineLen(s);
    assert next == s[n..] && next != [];
    LineEndsInNewline(s);
    Shifted(s, n, k);
    OneLineMore(s, n, k, IsBegin);
    assert FirstBeginAt(s, n + k, rest);
  }

  lemma FirstBeginUnique(s: seq<byte>, rest: seq<byte>, other: seq<byte>)
    requires FirstBegin(s, rest) && FirstBegin(s, other)
    ensures rest == other
  {
    var k: nat :| FirstBeginAt(s, k, rest);
    var m: nat :| FirstBeginAt(s, m, other);
    assert IsBegin(s[k..]) && IsBegin(s[m..]);
  }

  lemma CompleteLeavesAfterBegin(s: seq<byte>, uid: u32, guid: string)
    requires CompleteAuth(s, uid, guid).result.Ok?
    ensures CompleteAuth(s, uid, guid).result.value.0 == uid
    ensures FirstBegin(s, CompleteAuth(s, uid, guid).result.value.1)
  {
    var (line, next) := TakeLine(s).value;
    if line == "NEGOTIATE_UNIX_FD" {
      BeginsNow(next, TakeLine(next).value.1);
      BeginsLater(s, line, next, TakeLine(next).value.1);
    } else {
      BeginsNow(s, next);
    }
  }

  lemma NotBegin(line: string)
    requires "AUTH EXTERNAL " <= line || line == "AUTH EXTERNAL" || Rejected(line) || "DATA " <= line || line == "DATA"
    ensures line != "BEGIN"
  {
    if "AUTH EXTERNAL " <= line { SameStart("AUTH EXTERNAL ", line); }
    if "AUTH " <= line { SameStart("AUTH ", line); }
    if "ERROR " <= line { SameStart("ERROR ", line); }
    if "DATA " <= line { SameStart("DATA ", line); }
    assert line[0] in "ACED";
  }

  lemma SameStart(prefix: string, line: string)
    requires prefix != "" && prefix <= line
    ensures line != "" && line[0] == prefix[0]
  {
  }

  lemma UidLeavesAfterBegin(hex: string, s: seq<byte>, guid: string)
    requires WithUid(hex, s, guid).result.Ok?
    ensures FirstBegin(s, WithUid(hex, s, guid).result.value.1)
  {
    CompleteLeavesAfterBegin(s, ParseHexUid(hex).value, guid);
  }

  lemma ChallengeLeavesAfterBegin(s: seq<byte>, guid: string, ownUid: u32)
    requires Challenged(s, guid, ownUid).result.Ok?
    ensures FirstBegin(s, Challenged(s, guid, ownUid).result.value.1)
  {
    var (line, next) := TakeLine(s).value;
    if "DATA " <= line {
      UidLeavesAfterBegin(line[5..], next, guid);
    } else {
      CompleteLeavesAfterBegin(next, ownUid, guid);
    }
    NotBegin(line);
    BeginsLater(s, line, next, Challenged(s, guid, ownUid).result.value.1);
  }

  /** One line of the exchange: what it leaves, in terms of what comes after it. */
  lemma LineStep(s: seq<byte>, guid: string, ownUid: u32)
    requires AuthLines(s, guid, ownUid).result.Ok?
    ensures TakeLine(s).Ok?
    ensures var (line, next) := TakeLine(s).value;
            && line != "BEGIN"
            && AuthLines(s, guid, ownUid).result ==
               if "AUTH EXTERNAL " <= line then WithUid(line[14..], next, guid).result
               else if line == "AUTH EXTERNAL" then Challenged(next, guid, ownUid).result
               else AuthLines(next, guid, ownUid).result
  {
    NotBegin(TakeLine(s).value.0);
  }

  lemma {:induction false} LinesLeaveAfterBegin(s: seq<byte>, guid: string, ownUid: u32)
    requires AuthLines(s, guid, ownUid).result.Ok?
    ensures FirstBegin(s, AuthLines(s, guid, ownUid).result.value.1)
    decreases |s|
  {
    LineStep(s, guid, ownUid);
    var (line, next) := TakeLine(s).value;
    if "AUTH EXTERNAL " <= line {
      UidLeavesAfterBegin(line[14..], next, guid);
    } else if line == "AUTH EXTERNAL" {
      ChallengeLeavesAfterBegin(next, guid, ownUid);
    } else {
      LinesLeaveAfterBegin(next, guid, ownUid);
    }
    BeginsLater(s, line, next, AuthLines(s, guid, ownUid).result.value.1);
  }

  /** Successful authentication leaves exactly the bytes after the first BEGIN line,
      whatever line ends and spellings of the user id the client used. */
  lemma AuthLeavesAfterBegin(s: seq<byte>, guid: string, ownUid: u32)
    requires Authenticate(s, guid, ownUid).result.Ok?
    ensures s != [] && s[0] == 0
    ensures forall rest :: FirstBegin(s[1..], rest) <==> rest == Authenticate(s, guid, ownUid).result.value.1
  {
    var left := Authenticate(s, guid, ownUid).result.value.1;
    LinesLeaveAfterBegin(s[1..], guid, ownUid);
    forall rest | FirstBegin(s[1..], rest) ensures rest == left {
      FirstBeginUnique(s[1..], left, rest);
    }
  }

  // ---- every conforming handshake is accepted ----

  /** Text that can be sent as a line. */
  predicate Clean(text: string) {
    text != "" && Ascii(text) && (forall i :: 0 <= i < |text| ==> text[i] != '\n') && text[|text| - 1] != '\r'
  }

  function Line(text: string): seq<byte>
    requires Ascii(text)
  {
    Bytes(text) + [RETURN, NEWLINE]
  }

  lemma {:induction false} AsciiIsUtf8(b: seq<byte>)
    requires forall i :: 0 <= i < |b| ==> b[i] < 128
    ensures ValidUtf8(b)
  {
    if b == [] {
    } else {
      AsciiIsUtf8(b[1..]);
    }
  }

  lemma TakeLineOf(text: string, rest: seq<byte>)
    requires Clean(text)
    ensures TakeLine(Line(text) + rest) == Ok((text, rest))
  {
    var a := Bytes(text);
    assert Line(text) + rest == a + EolBytes(CrLf) + rest;
    AsciiIsUtf8(a);
    LineTaken(Line(text) + rest, a, CrLf, rest);
    assert Chars(a) == text;
  }

  predicate AllClean(lines: seq<string>) { forall i :: 0 <= i < |lines| ==> Clean(lines[i]) }

  function Send(lines: seq<string>): seq<byte>
    requires AllClean(lines)
  {
    if lines == [] then [] else assert Clean(lines[0]); Line(lines[0]) + Send(lines[1..])
  }

  lemma TakeFirst(first: string, lines: seq<string>, rest: seq<byte>)
    requires Clean(first) && AllClean(lines)
    ensures AllClean([first] + lines)
    ensures TakeLine(Send([first] + lines) + rest) == Ok((first, Send(lines) + rest))
  {
    var all := [first] + lines;
    assert all[1..] == lines;
    assert Send(all) + rest == Line(first) + (Send(lines) + rest);
    TakeLineOf(first, Send(lines) + rest);
  }

  datatype Mechanism = Direct(uid: u32) | Challenge(uid: u32) | SocketUid

  /** A client's handshake: lines that get rejected first, then EXTERNAL with the user
      id at once, or on challenge, or left to the socket; then perhaps negotiation. */
  datatype Handshake = Handshake(rejected: seq<string>, mechanism: Mechanism, negotiate: bool)

  predicate Retries(line: string) { Clean(line) && RetryLine(line) }

  function Begin(negotiate: bool): seq<string> {
    if negotiate then ["NEGOTIATE_UNIX_FD"] + ["BEGIN"] else ["BEGIN"]
  }

  function Offer(m: Mechanism, next: seq<string>): seq<string> {
    if m.Direct? then ["AUTH EXTERNAL " + EncodeUid(m.uid)] + next
    else ["AUTH EXTERNAL"] + ([Answer(m)] + next)
  }

  predicate AllRetry(lines: seq<string>) { forall i :: 0 <= i < |lines| ==> Retries(lines[i]) }

  predicate Conforms(h: Handshake) { AllRetry(h.rejected) }

  function UidOf(m: Mechanism, ownUid: u32): u32 {
    if m.SocketUid? then ownUid else m.uid
  }

  lemma CleanAppend(a: string, b: string)
    requires Ascii(a) && (forall i :: 0 <= i < |a| ==> a[i] != '\n') && Clean(b)
    ensures Clean(a + b)
  {
  }

  lemma BeginClean(negotiate: bool)
    ensures AllClean(Begin(negotiate)) && Clean("BEGIN")
  {
    if negotiate { NegotiateClean(); }
  }

  lemma NegotiateClean()
    ensures Clean("NEGOTIATE_UNIX_FD")
  {
  }

  lemma ExternalClean()
    ensures Clean("AUTH EXTERNAL")
  {
  }

  lemma ExternalUidClean(uid: u32)
    ensures Clean("AUTH EXTERNAL " + EncodeUid(uid))
  {
    CleanAppend("AUTH EXTERNAL ", EncodeUid(uid));
  }

  /** The client's answer to the challenge. */
  function Answer(m: Mechanism): string
    requires !m.Direct?
  {
    if m.SocketUid? then "DATA" else "DATA " + EncodeUid(m.uid)
  }

  lemma AnswerClean(m: Mechanism)
    requires !m.Direct?
    ensures Clean(Answer(m))
  {
    if m.Challenge? { CleanAppend("DATA ", EncodeUid(m.uid)); }
  }

  lemma OfferClean(m: Mechanism, next: seq<string>)
    requires AllClean(next)
    ensures AllClean(Offer(m, next))
  {
    if m.Direct? {
      ExternalUidClean(m.uid);
    } else {
      ExternalClean();
      AnswerClean(m);
    }
  }

  function Script(h: Handshake): (lines: seq<string>)
    requires Conforms(h)
    ensures AllClean(lines)
  {
    BeginClean(h.negotiate);
    OfferClean(h.mechanism, Begin(h.negotiate));
    h.rejected + Offer(h.mechanism, Begin(h.negotiate))
  }

  /** What an accepted client is told. */
  function Welcome(negotiate: bool, guid: string): seq<string> {
    ["OK " + guid + "\r\n"] + if negotiate then ["AGREE_UNIX_FD\r\n"] else []
  }

  function Rejections(n: nat): seq<string> { seq(n, _ => "REJECTED EXTERNAL\r\n") }

  /** The server's side of the script. */
  function Answers(h: Handshake, guid: string): seq<string> {
    Rejections(|h.rejected|) + ((if h.mechanism.Direct? then [] else ["DATA\r\n"]) + Welcome(h.negotiate, guid))
  }

  lemma BegunAtOnce(s: seq<byte>, rest: seq<byte>, uid: u32, guid: string)
    requires TakeLine(s) == Ok(("BEGIN", rest))
    ensures CompleteAuth(s, uid, guid) == Outcome(Welcome(false, guid), Ok((uid, rest)))
  {
  }

  lemma BegunAgreed(s: seq<byte>, next: seq<byte>, rest: seq<byte>, uid: u32, guid: string)
    requires TakeLine(s) == Ok(("NEGOTIATE_UNIX_FD", next)) && TakeLine(next) == Ok(("BEGIN", rest))
    ensures CompleteAuth(s, uid, guid) == Outcome(Welcome(true, guid), Ok((uid, rest)))
  {
    assert AwaitBegin(next, uid) == Outcome([], Ok((uid, rest)));
  }

  lemma BeginTaken(rest: seq<byte>)
    ensures AllClean(["BEGIN"]) && TakeLine(Send(["BEGIN"]) + rest) == Ok(("BEGIN", rest))
  {
    BeginClean(false);
    TakeFirst("BEGIN", [], rest);
    assert ["BEGIN"] + [] == ["BEGIN"] && [] + rest == rest;
  }

  lemma BeginAccepted(negotiate: bool, rest: seq<byte>, uid: u32, guid: string)
    requires AllClean(Begin(negotiate))
    ensures CompleteAuth(Send(Begin(negotiate)) + rest, uid, guid) == Outcome(Welcome(negotiate, guid), Ok((uid, rest)))
  {
    var last := Send(["BEGIN"]) + rest;
    BeginTaken(rest);
    if negotiate {
      NegotiateClean();
      TakeFirst("NEGOTIATE_UNIX_FD", ["BEGIN"], rest);
      BegunAgreed(Send(Begin(true)) + rest, last, rest, uid, guid);
    } else {
      BegunAtOnce(last, rest, uid, guid);
    }
  }

  lemma DirectAccepted(s: seq<byte>, uid: u32, next: seq<byte>, guid: string, ownUid: u32)
    requires TakeLine(s) == Ok(("AUTH EXTERNAL " + EncodeUid(uid), next))
    ensures AuthLines(s, guid, ownUid) == CompleteAuth(next, uid, guid)
  {
    var hex := EncodeUid(uid);
    UidRoundTrip(uid);
    assert ("AUTH EXTERNAL " + hex)[14..] == hex;
  }

  lemma AnswerAccepted(s: seq<byte>, m: Mechanism, next: seq<byte>, guid: string, ownUid: u32)
    requires !m.Direct? && TakeLine(s) == Ok((Answer(m), next))
    ensures Challenged(s, guid, ownUid) == CompleteAuth(next, UidOf(m, ownUid), guid)
  {
    if m.Challenge? {
      var hex := EncodeUid(m.uid);
      UidRoundTrip(m.uid);
      assert ("DATA " + hex)[5..] == hex;
    }
  }

  lemma OfferAccepted(m: Mechanism, next: seq<string>, rest: seq<byte>, guid: string, ownUid: u32)
    requires AllClean(next) && AllClean(Offer(m, next))
    ensures var accepted := CompleteAuth(Send(next) + rest, UidOf(m, ownUid), guid);
            AuthLines(Send(Offer(m, next)) + rest, guid, ownUid) ==
            if m.Direct? then accepted else Outcome(["DATA\r\n"] + accepted.replies, accepted.result)
  {
    var s := Send(Offer(m, next)) + rest;
    if m.Direct? {
      ExternalUidClean(m.uid);
      TakeFirst("AUTH EXTERNAL " + EncodeUid(m.uid), next, rest);
      DirectAccepted(s, m.uid, Send(next) + rest, guid, ownUid);
    } else {
      ExternalClean();
      AnswerClean(m);
      TakeFirst(Answer(m), next, rest);
      TakeFirst("AUTH EXTERNAL", [Answer(m)] + next, rest);
      AnswerAccepted(Send([Answer(m)] + next) + rest, m, Send(next) + rest, guid, ownUid);
    }
  }

  lemma RetryAccepted(s: seq<byte>, line: string, next: seq<byte>, guid: string, ownUid: u32)
    requires TakeLine(s) == Ok((line, next)) && Retries(line)
    ensures AuthLines(s, guid, ownUid) == Rebuffed(AuthLines(next, guid, ownUid))
  {
    if line == "AUTH EXTERNAL" || "AUTH EXTERNAL " <= line { ExternalIsNoRetry(line); }
    RetryIsRejected(line);
  }

  /** A rejection, then `o`. */
  function Rebuffed(o: Outcome): Outcome { Outcome(["REJECTED EXTERNAL\r\n"] + o.replies, o.result) }

  /** What authentication makes of these lines followed by `rest`. */
  function OutcomeOf(lines: seq<string>, rest: seq<byte>, guid: string, ownUid: u32): Outcome
    requires AllClean(lines)
  {
    AuthLines(Send(lines) + rest, guid, ownUid)
  }

  lemma FinalOffer(m: Mechanism, negotiate: bool, rest: seq<byte>, guid: string, ownUid: u32)
    requires AllClean(Offer(m, Begin(negotiate)))
    ensures OutcomeOf(Offer(m, Begin(negotiate)), rest, guid, ownUid)
         == Outcome((if m.Direct? then [] else ["DATA\r\n"]) + Welcome(negotiate, guid), Ok((UidOf(m, ownUid), rest)))
  {
    BeginClean(negotiate);
    BeginAccepted(negotiate, rest, UidOf(m, ownUid), guid);
    OfferAccepted(m, Begin(negotiate), rest, guid, ownUid);
  }

  lemma RetryFirst(line: string, lines: seq<string>, rest: seq<byte>, guid: string, ownUid: u32)
    requires Retries(line) && AllClean(lines)
    ensures AllClean([line] + lines)
    ensures OutcomeOf([line] + lines, rest, guid, ownUid) == Rebuffed(OutcomeOf(lines, rest, guid, ownUid))
  {
    TakeFirst(line, lines, rest);
    RetryAccepted(Send([line] + lines) + rest, line, Send(lines) + rest, guid, ownUid);
  }

  /** If one such line in front costs one rejection, many cost as many. */
  lemma {:induction false} RetriesAddUp(rejected: seq<string>, lines: seq<string>, such: string -> bool,
                                        sendable: seq<string> -> bool, f: seq<string> -> Outcome)
    requires (forall i :: 0 <= i < |rejected| ==> such(rejected[i])) && sendable(lines)
    requires forall line, ls {:trigger [line] + ls} ::
               such(line) && sendable(ls) ==> sendable([line] + ls) && f([line] + ls) == Rebuffed(f(ls))
    ensures sendable(rejected + lines)
    ensures f(rejected + lines) == Outcome(Rejections(|rejected|) + f(lines).replies, f(lines).result)
  {
    if rejected == [] {
      assert rejected + lines == lines;
      assert Rejections(0) + f(lines).replies == f(lines).replies;
    } else {
      var line, later := rejected[0], rejected[1..] + lines;
      RetriesAddUp(rejected[1..], lines, such, sendable, f);
      assert rejected + lines == [line] + later;
      OneRejection(|rejected|, f(lines).replies);
    }
  }

  lemma OneRejection(n: nat, more: seq<string>)
    requires n > 0
    ensures ["REJECTED EXTERNAL\r\n"] + (Rejections(n - 1) + more) == Rejections(n) + more
  {
  }

  lemma RetriesAccepted(rejected: seq<string>, lines: seq<string>, rest: seq<byte>, guid: string, ownUid: u32)
    requires AllRetry(rejected) && AllClean(lines)
    ensures AllClean(rejected + lines)
    ensures var o := OutcomeOf(lines, rest, guid, ownUid);
            OutcomeOf(rejected + lines, rest, guid, ownUid) == Outcome(Rejections(|rejected|) + o.replies, o.result)
  {
    var f := (ls: seq<string>) => if AllClean(ls) then OutcomeOf(ls, rest, guid, ownUid) else Fail(InvalidData);
    forall line, ls | Retries(line) && AllClean(ls)
      ensures AllClean([line] + ls) && f([line] + ls) == Rebuffed(f(ls))
    {
      RetryFirst(line, ls, rest, guid, ownUid);
    }
    RetriesAddUp(rejected, lines, Retries, AllClean, f);
  }

  lemma ScriptAccepted(h: Handshake, rest: seq<byte>, guid: string, ownUid: u32)
    requires Conforms(h)
    ensures OutcomeOf(Script(h), rest, guid, ownUid) == Outcome(Answers(h, guid), Ok((UidOf(h.mechanism, ownUid), rest)))
  {
    BeginClean(h.negotiate);
    OfferClean(h.mechanism, Begin(h.negotiate));
    RetriesAccepted(h.rejected, Offer(h.mechanism, Begin(h.negotiate)), rest, guid, ownUid);
    FinalOffer(h.mechanism, h.negotiate, rest, guid, ownUid);
  }

  lemma NullThenLines(s: seq<byte>, guid: string, ownUid: u32)
    ensures Authenticate([0] + s, guid, ownUid) == AuthLines(s, guid, ownUid)
  {
    assert ([0] + s)[1..] == s;
  }

  /** Every conforming handshake authenticates the user id it carries, is answered line by
      line as the protocol says, and whatever bytes follow it are left untouched. */
  lemma HandshakeAccepted(h: Handshake, rest: seq<byte>, guid: string, ownUid: u32)
    requires Conforms(h)
    ensures Authenticate([0] + (Send(Script(h)) + rest), guid, ownUid)
         == Outcome(Answers(h, guid), Ok((UidOf(h.mechanism, ownUid), rest)))
  {
    ScriptAccepted(h, rest, guid, ownUid);
    NullThenLines(Send(Script(h)) + rest, guid, ownUid);
  }

  // ---- whole sessions ----

  /** Accepting a client and reading it to the end: however the bytes were split between
      the authentication buffer and the socket, the messages are the frames of what
      authentication leaves on the plain stream. */
  method ServeClient(auth: SaslAuth, input: seq<byte>, ownUid: u32)
    returns (replies: seq<string>, uid: Result<u32, AuthError>, messages: seq<seq<byte>>, end: Framing.ReadOutcome)
    ensures replies == Authenticate(input, auth.serverGuid, ownUid).replies
    ensures match Authenticate(input, auth.serverGuid, ownUid).result
            case Err(e) => uid == Err(e) && messages == []
            case Ok((u, rest)) => uid == Ok(u) && (messages, end) == Framing.Frames(rest)
  {
    var reader: BufReader, result: Result<u32, AuthError>;
    reader, replies, result := auth.AuthenticateServer(input, ownUid);
    if result.Err? {
      return replies, Err(result.error), [], Framing.Closed;
    }
    var handler := new Framing.ClientHandler(reader.buffer, reader.socket);
    messages, end := handler.ReadAll();
    uid := Ok(result.value);
  }

  /** So a conforming client that sends its handshake and then any list of well-formed
      messages has exactly those messages read, and nothing else. */
  lemma SessionDeliversMessages(h: Handshake, messages: seq<seq<byte>>, guid: string, ownUid: u32)
    requires Conforms(h)
    requires forall i :: 0 <= i < |messages| ==> Framing.WellFormed(messages[i])
    ensures var input := [0] + (Send(Script(h)) + Framing.Concat(messages));
            var result := Authenticate(input, guid, ownUid).result;
            && result.Ok? && result.value.0 == UidOf(h.mechanism, ownUid)
            && Framing.Frames(result.value.1) == (messages, Framing.Closed)
  {
    HandshakeAccepted(h, Framing.Concat(messages), guid, ownUid);
    Framing.FramesOfConcat(messages, []);
    assert Framing.Concat(messages) + [] == Framing.Concat(messages);
  }

  /** The same for every accepted client, however it spelt its handshake: if messages
      within the limits of "Message Format" follow the first BEGIN line, they are what is
      read. */
  lemma AcceptedMessagesDelivered(s: seq<byte>, messages: seq<seq<byte>>, guid: string, ownUid: u32)
    requires Authenticate(s, guid, ownUid).result.Ok? && FirstBegin(s[1..], Framing.Concat(messages))
    requires forall i :: 0 <= i < |messages| ==> Framing.WithinFormat(messages[i])
    ensures Framing.Frames(Authenticate(s, guid, ownUid).result.value.1) == (messages, Framing.Closed)
  {
    AuthLeavesAfterBegin(s, guid, ownUid);
    forall i | 0 <= i < |messages| ensures Framing.WellFormed(messages[i]) {
      Framing.LimitsAreWellFormed(messages[i]);
    }
    Framing.FramesOfConcat(messages, []);
    assert Framing.Concat(messages) + [] == Framing.Concat(messages);
  }
}
