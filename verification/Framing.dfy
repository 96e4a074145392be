/** Reading length-prefixed messages from bytes left over by authentication followed
    by the socket (src/client.rs). */
module Framing {
  import opened Basics
  import opened Serials
  import opened Wire

  const READ_BUF := 16384

  /** How one read ends: a frame; the peer closed before a whole header; it closed
      inside a message; or a slice out of range because the size wrapped below 16. */
  datatype ReadOutcome = Frame(bytes: seq<byte>) | Closed | Truncated | Panicked

  /** One read on the plain byte stream, and what is left after a frame. */
  function ReadFrame(s: seq<byte>): ReadOutcome {
    if |s| < HEADER_LEN then Closed
    else
      var size := TotalSize(s);
      if size < HEADER_LEN then Panicked
      else if |s| < size then Truncated
      else Frame(s[..size])
  }

  /** All frames up to the first read that yields none, with that outcome. */
  function Frames(s: seq<byte>): (seq<seq<byte>>, ReadOutcome)
    decreases |s|
  {
    match ReadFrame(s)
    case Frame(f) =>
      var (rest, end) := Frames(s[|f|..]);
      ([f] + rest, end)
    case other => ([], other)
  }

  lemma FramesStep(s: seq<byte>)
    ensures !ReadFrame(s).Frame? ==> Frames(s) == ([], ReadFrame(s))
    ensures ReadFrame(s).Frame? ==>
              var f := ReadFrame(s).bytes;
              && 0 < |f| <= |s| && f == s[..|f|]
              && Frames(s) == ([f] + Frames(s[|f|..]).0, Frames(s[|f|..]).1)
  {
  }

  function Concat(frames: seq<seq<byte>>): seq<byte> {
    if frames == [] then [] else frames[0] + Concat(frames[1..])
  }

  lemma SamePrefixSize(m: seq<byte>, rest: seq<byte>)
    requires |m| >= HEADER_LEN
    ensures TotalSize(m + rest) == TotalSize(m)
  {
    var s := m + rest;
    assert forall i :: 0 <= i < 16 ==> s[i] == m[i];
  }

  /** One read on a stream whose header has been split off. */
  function AfterHeader(header: seq<byte>, rest: seq<byte>): ReadOutcome
    requires |header| == HEADER_LEN
  {
    var size := TotalSize(header);
    if size < HEADER_LEN then Panicked
    else if |rest| < size - HEADER_LEN then Truncated
    else Frame(header + rest[..size - HEADER_LEN])
  }

  lemma ReadFrameOf(header: seq<byte>, rest: seq<byte>)
    requires |header| == HEADER_LEN
    ensures ReadFrame(header + rest) == AfterHeader(header, rest)
  {
    SamePrefixSize(header, rest);
    var size := TotalSize(header);
    if HEADER_LEN <= size <= HEADER_LEN + |rest| {
      assert (header + rest)[..size] == header + rest[..size - HEADER_LEN];
    }
  }

  lemma RestFollows(header: seq<byte>, rest: seq<byte>, n: nat)
    requires n <= |rest|
    ensures header + rest == (header + rest[..n]) + rest[n..]
  {
  }

  class ClientHandler {
    var readBuf: seq<byte>
    var pendingData: seq<byte>
    var pendingPos: nat
    var socket: seq<byte>  // what the peer will still send before closing

    ghost predicate Valid()
      reads this
    {
      pendingPos <= |pendingData| && |readBuf| >= READ_BUF
    }

    /** The bytes still to be read, wherever they are buffered. */
    ghost function Remaining(): seq<byte>
      reads this
      requires Valid()
    {
      pendingData[pendingPos..] + socket
    }

    constructor (buffered: seq<byte>, socket: seq<byte>)
      ensures Valid() && Remaining() == buffered + socket
    {
      readBuf := seq(READ_BUF, _ => 0);
      pendingData, pendingPos := buffered, 0;
      this.socket := socket;
    }

    /** Up to `len` bytes of the pending data. */
    method TakePending(len: nat) returns (taken: seq<byte>)
      requires Valid()
      modifies this`pendingData, this`pendingPos
      ensures Valid() && |taken| <= len && old(Remaining()) == taken + Remaining()
      ensures |taken| < len ==> pendingData[pendingPos..] == []
    {
      taken := [];
      if pendingPos < |pendingData| {
        var pendingRemaining := pendingData[pendingPos..];
        var toCopy := if |pendingRemaining| < len then |pendingRemaining| else len;
        taken := pendingRemaining[..toCopy];
        pendingPos := pendingPos + toCopy;
        assert pendingRemaining == taken + pendingData[pendingPos..];
        if pendingPos >= |pendingData| {
          pendingData, pendingPos := [], 0;
        }
      }
    }

    /** Exactly `need` bytes of the socket, once the pending data is used up. */
    method FromSocket(need: nat) returns (read: Option<seq<byte>>)
      requires Valid() && (need > 0 ==> pendingData[pendingPos..] == [])
      modifies this`socket
      ensures Valid()
      ensures read.Some? <==> need <= |old(socket)|
      ensures read.Some? ==> |read.value| == need && old(Remaining()) == read.value + Remaining()
    {
      if need > |socket| {
        socket := [];
        return None;
      }
      read := Some(socket[..need]);
      assert Remaining() == socket[..need] + (pendingData[pendingPos..] + socket[need..]);
      socket := socket[need..];
    }

    /** `read_exact`: pending data first, then the socket. */
    method ReadExact(len: nat) returns (buf: Option<seq<byte>>)
      requires Valid()
      modifies this`pendingData, this`pendingPos, this`socket
      ensures Valid()
      ensures buf.Some? <==> len <= |old(Remaining())|
      ensures buf.Some? ==> |buf.value| == len && old(Remaining()) == buf.value + Remaining()
    {
      var filled := TakePending(len);
      var read := FromSocket(len - |filled|);
      if read.None? {
        return None;
      }
      Regroup(filled, read.value, Remaining());
      buf := Some(filled + read.value);
    }

    /** `read_exact_into_buf`: the same, into the read buffer at `offset`. */
    method ReadExactIntoBuf(offset: nat, len: nat) returns (ok: bool)
      requires Valid() && offset + len <= |readBuf|
      modifies this
      ensures Valid() && |readBuf| == |old(readBuf)|
      ensures ok <==> len <= |old(Remaining())|
      ensures ok ==> readBuf[..offset + len] == old(readBuf)[..offset] + old(Remaining())[..len]
                     && Remaining() == old(Remaining())[len..]
    {
      ghost var all := Remaining();
      var read := ReadExact(len);
      if read.None? {
        return false;
      }
      assert all[..len] == read.value && all[len..] == Remaining();
      readBuf := readBuf[..offset] + read.value + readBuf[offset + len..];
      ok := true;
    }

    /** One `read_message`, against the plain stream. */
    method ReadMessage() returns (r: ReadOutcome)
      requires Valid()
      modifies this
      ensures Valid() && r == ReadFrame(old(Remaining()))
      ensures r.Frame? ==> old(Remaining()) == r.bytes + Remaining()
    {
      var header := ReadExact(HEADER_LEN);
      if header.None? {
        return Closed;
      }
      ReadFrameOf(header.value, Remaining());
      var totalSize := TotalSize(header.value);
      Grow(totalSize);
      if totalSize < HEADER_LEN {
        return Panicked;
      }
      r := ReadBody(header.value, totalSize);
    }

    /** The buffer is enlarged to hold the message. */
    method Grow(size: nat)
      requires Valid()
      modifies this`readBuf
      ensures Valid() && |readBuf| >= size
    {
      if |readBuf| < size {
        readBuf := readBuf + seq(size - |readBuf|, _ => 0);
      }
    }

    /** The header is put in front of the rest of the message. */
    method ReadBody(header: seq<byte>, totalSize: nat) returns (r: ReadOutcome)
      requires Valid() && |header| == HEADER_LEN && HEADER_LEN <= totalSize <= |readBuf|
      modifies this
      ensures Valid()
      ensures var rest, remaining := old(Remaining()), totalSize - HEADER_LEN;
              if |rest| < remaining then r == Truncated
              else r == Frame(header + rest[..remaining]) && header + rest == r.bytes + Remaining()
    {
      ghost var rest := Remaining();
      readBuf := header + readBuf[HEADER_LEN..];
      assert readBuf[..HEADER_LEN] == header;
      var remaining := totalSize - HEADER_LEN;
      if remaining > 0 {
        var ok := ReadExactIntoBuf(HEADER_LEN, remaining);
        if !ok {
          return Truncated;
        }
      }
      assert readBuf[..totalSize] == header + rest[..remaining];
      RestFollows(header, rest, remaining);
      r := Frame(readBuf[..totalSize]);
    }

    /** The reading half of the client loop: read until a read yields no message. */
    method ReadAll() returns (messages: seq<seq<byte>>, end: ReadOutcome)
      requires Valid()
      modifies this
      ensures (messages, end) == Frames(old(Remaining()))
    {
      messages := [];
      ghost var all := Remaining();
      assert [] + Frames(all).0 == Frames(all).0;
      while true
        invariant Valid() && Reading(all, messages, Remaining())
        decreases |Remaining()|
      {
        ghost var before := Remaining();
        var r := ReadMessage();
        if !r.Frame? {
          ReadingEnds(all, messages, before);
          return messages, r;
        }
        ReadingOne(all, messages, before, r.bytes, Remaining());
        messages := messages + [r.bytes];
      }
    }
  }

  /** `messages` have been read and `rest` is still to come. */
  ghost predicate Reading(all: seq<byte>, messages: seq<seq<byte>>, rest: seq<byte>) {
    Frames(all) == (messages + Frames(rest).0, Frames(rest).1)
  }

  lemma ReadingOne(all: seq<byte>, messages: seq<seq<byte>>, before: seq<byte>, f: seq<byte>, rest: seq<byte>)
    requires Reading(all, messages, before) && ReadFrame(before) == Frame(f) && before == f + rest
    ensures Reading(all, messages + [f], rest) && |rest| < |before|
  {
    FramesStep(before);
    assert before[|f|..] == rest;
    assert messages + ([f] + Frames(rest).0) == messages + [f] + Frames(rest).0;
  }

  lemma ReadingEnds(all: seq<byte>, messages: seq<seq<byte>>, before: seq<byte>)
    requires Reading(all, messages, before) && !ReadFrame(before).Frame?
    ensures Frames(all) == (messages, ReadFrame(before))
  {
    FramesStep(before);
    assert messages + [] == messages;
  }

  // ---- laws ----

  /** What is left where the first read yields no frame. */
  function Unread(s: seq<byte>): seq<byte>
    decreases |s|
  {
    match ReadFrame(s)
    case Frame(f) => Unread(s[|f|..])
    case _ => s
  }

  lemma UnreadStep(s: seq<byte>)
    ensures Unread(s) == if ReadFrame(s).Frame? then Unread(s[|ReadFrame(s).bytes|..]) else s
  {
  }

  /** No byte is lost or repeated: the frames and the unread rest make up the stream. */
  lemma {:induction false} FramesPartitionStream(s: seq<byte>)
    ensures s == Concat(Frames(s).0) + Unread(s)
    ensures Frames(s).1 == ReadFrame(Unread(s)) && !Frames(s).1.Frame?
    decreases |s|
  {
    FramesStep(s);
    UnreadStep(s);
    var r := ReadFrame(s);
    if r.Frame? {
      var f, rest := r.bytes, s[|r.bytes|..];
      FramesPartitionStream(rest);
      ConcatCons(f, Frames(rest).0);
      Regroup(f, Concat(Frames(rest).0), Unread(rest));
    } else {
      assert [] + s == s;
    }
  }

  lemma Regroup(a: seq<byte>, b: seq<byte>, c: seq<byte>)
    ensures a + (b + c) == (a + b) + c
  {
  }

  lemma ConcatCons(f: seq<byte>, frames: seq<seq<byte>>)
    ensures Concat([f] + frames) == f + Concat(frames)
  {
    assert ([f] + frames)[1..] == frames;
  }

  /** A message as a peer sends it: a header whose size is the message's own. */
  predicate WellFormed(m: seq<byte>) {
    |m| >= HEADER_LEN && FrameSize(m) == |m| && |m| < TWO32
  }

  /** Framing inverts concatenation: any list of well-formed messages, followed by
      anything that is not a message, is read back exactly. */
  lemma {:induction false} FramesOfConcat(messages: seq<seq<byte>>, tail: seq<byte>)
    requires forall i :: 0 <= i < |messages| ==> WellFormed(messages[i])
    requires !ReadFrame(tail).Frame?
    ensures Frames(Concat(messages) + tail) == (messages, ReadFrame(tail))
  {
    if messages == [] {
      assert Concat(messages) + tail == tail;
    } else {
      var m, rest := messages[0], Concat(messages[1..]) + tail;
      assert Concat(messages) + tail == m + rest;
      TotalSizeExactIff(m);
      SamePrefixSize(m, rest);
      assert (m + rest)[..|m|] == m && (m + rest)[|m|..] == rest;
      FramesOfConcat(messages[1..], tail);
      assert [m] + messages[1..] == messages;
    }
  }

  /** A message that keeps the limits of "Message Format". */
  predicate WithinFormat(m: seq<byte>) {
    |m| >= HEADER_LEN && FrameSize(m) == |m| && WithinLimits(m)
  }

  lemma LimitsAreWellFormed(m: seq<byte>)
    requires WithinFormat(m)
    ensures WellFormed(m)
  {
  }

  /** How a read ends: a header that does not come, or a message that is cut off. */
  lemma ReadEnds(s: seq<byte>)
    ensures ReadFrame(s) == Closed <==> |s| < 16
    ensures ReadFrame(s) == Truncated <==> 16 <= |s| && 16 <= TotalSize(s) && |s| < TotalSize(s)
  {
  }

  /** What a read makes of the two length fields: a size that fits 32 bits is obeyed;
      one of 2^32 + 16 up to 2^33 yields a frame that is 2^32 bytes short; the remaining
      ones wrap below the header length and end in an out-of-range slice. */
  lemma ReadOutcomes(s: seq<byte>)
    requires |s| >= HEADER_LEN
    ensures var size := FrameSize(s);
            && (ReadFrame(s) == Panicked <==> TWO32 <= size < TWO32 + HEADER_LEN || 2 * TWO32 <= size)
            && (ReadFrame(s).Frame? && |ReadFrame(s).bytes| == size <==> size < TWO32 && size <= |s|)
            && (ReadFrame(s).Frame? && |ReadFrame(s).bytes| != size
                <==> TWO32 + HEADER_LEN <= size < 2 * TWO32 && size - TWO32 <= |s|)
            && (ReadFrame(s).Frame? ==> |ReadFrame(s).bytes| == size || |ReadFrame(s).bytes| == size - TWO32)
  {
    TotalSizeWraps(s);
  }

  /** The header with these lengths is taken for a whole message, and the header fields
      and body that follow it for further messages. */
  ghost predicate Misframed(fields: u32, body: u32) {
    forall rest :: Frames(Header(fields, body) + rest) == ([Header(fields, body)] + Frames(rest).0, Frames(rest).1)
  }

  /** Reading stops in an out-of-range slice at the header with these lengths. */
  ghost predicate Panics(fields: u32, body: u32) {
    forall rest :: Frames(Header(fields, body) + rest) == ([], Panicked)
  }

  lemma HeaderAlone(header: seq<byte>, rest: seq<byte>)
    requires |header| == HEADER_LEN && TotalSize(header) == HEADER_LEN
    ensures Frames(header + rest) == ([header] + Frames(rest).0, Frames(rest).1)
  {
    ReadFrameOf(header, rest);
    assert header + rest[..0] == header;
    FramesStep(header + rest);
    assert (header + rest)[HEADER_LEN..] == rest;
  }

  lemma WrapsToHeader(fields: u32, body: u32)
    requires Size(fields, body) == TWO32 + HEADER_LEN
    ensures Misframed(fields, body)
  {
    var header := Header(fields, body);
    HeaderLengths(fields, body);
    TotalSizeWraps(header);
    forall rest ensures Frames(header + rest) == ([header] + Frames(rest).0, Frames(rest).1) {
      HeaderAlone(header, rest);
    }
  }

  lemma WrapsBelowHeader(fields: u32, body: u32)
    requires TWO32 <= Size(fields, body) < TWO32 + HEADER_LEN
    ensures Panics(fields, body)
  {
    var header := Header(fields, body);
    HeaderLengths(fields, body);
    TotalSizeWraps(header);
    forall rest ensures Frames(header + rest) == ([], Panicked) {
      ReadFrameOf(header, rest);
      FramesStep(header + rest);
    }
  }

  /** Concrete lengths, both with an empty body: 2^32 - 1 bytes of header fields misframe
      the stream, 2^32 - 16 bytes end it. */
  lemma UncheckedLengthsFail()
    ensures Misframed(0xFFFF_FFFF, 0) && Panics(0xFFFF_FFF0, 0)
  {
    WrapsToHeader(0xFFFF_FFFF, 0);
    WrapsBelowHeader(0xFFFF_FFF0, 0);
  }

  /** Reading back any list of well-formed messages holds exactly because their sizes
      fit: a frame of 2^32 bytes or more is never read back as itself. */
  lemma OversizedNotReadBack(m: seq<byte>, rest: seq<byte>)
    requires |m| >= HEADER_LEN && FrameSize(m) == |m|
    ensures ReadFrame(m + rest) == Frame(m) <==> |m| < TWO32
  {
    TotalSizeExactIff(m);
    SamePrefixSize(m, rest);
    assert (m + rest)[..|m|] == m;
  }
}
