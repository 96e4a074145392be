/** The four name stores agree over every run, exactly as long as the container
    bus answers the forwarded calls favourably. */
module OwnershipLaws {
  import opened Basics
  import opened NameQueues
  import opened Routing
  import opened NameOwnership
  import QueueLaws

  /** Every queued client is connected. */
  ghost predicate QueuedConnected(lines: Lines, clients: map<ClientId, Client>) {
    forall n, i :: n in lines && 0 <= i < |lines[n]| ==> lines[n][i].client in clients
  }

  /** A name's primary has it among its owned names. */
  ghost predicate PrimariesOwn(lines: Lines, clients: map<ClientId, Client>) {
    forall n :: n in lines && lines[n] != [] && lines[n][0].client in clients ==> n in clients[lines[n][0].client].owned
  }

  /** Whoever lists a name as owned is in its line (a replaced owner keeps
      listing the name while it waits). */
  ghost predicate OwnersQueued(lines: Lines, clients: map<ClientId, Client>) {
    forall c, n :: c in clients && n in clients[c].owned ==> n in lines && Queued(lines[n], c)
  }

  ghost predicate QueuesAgree(lines: Lines, clients: map<ClientId, Client>) {
    QueuedConnected(lines, clients) && PrimariesOwn(lines, clients) && OwnersQueued(lines, clients)
  }

  /** The same names are held upstream, queued here and routed to the container;
      `foreign` are the container names that were there before any client asked. */
  ghost predicate StoresAgree(s: State, foreign: set<string>) {
    && s.upstream == s.lines.Keys
    && s.routes.container == foreign + s.lines.Keys && foreign !! s.lines.Keys
  }

  ghost predicate Agree(s: State, foreign: set<string>) {
    StoresAgree(s, foreign) && QueuesAgree(s.lines, s.clients)
  }

  ghost predicate Structure(s: State) {
    && WellFormed(s.lines) && NamedLines(s.lines) && NamedClients(s.clients)
    && (forall c :: c in s.clients ==> c < s.nextId)
  }

  ghost predicate Inv(s: State, foreign: set<string>) {
    Structure(s) && Agree(s, foreign)
  }

  /** The request would make the caller primary, so it is forwarded. */
  predicate Forwards(s: State, c: ClientId, n: string, flags: bv32) {
    var line := LineAt(s.lines, n);
    c in s.clients && !Queued(line, c)
    && (line == [] || (flags & REPLACE_EXISTING != 0 && line[0].allowReplacement))
  }

  /** The client is alone in the line, so leaving it is forwarded as a release. */
  predicate Alone(line: Line, c: ClientId) { |line| == 1 && line[0].client == c }

  /** The container bus cooperates with the step: a forwarded request is granted
      (never for a foreign name) or fails outright, and forwarded releases succeed. */
  ghost predicate Cooperates(s: State, step: Step, foreign: set<string>) {
    match step
    case Connect => true
    case Request(c, n, flags, answer) =>
      Forwards(s, c, n, flags) ==> (answer == Granted && n !in foreign) || answer == Failed
    case Release(c, n, released) => Alone(LineAt(s.lines, n), c) ==> released
    case Disconnect(c, failing, failingAgain) =>
      forall n :: n in s.lines && Alone(s.lines[n], c) ==> n !in failing || n !in failingAgain
  }

  // ---- line facts ----

  lemma AloneIsEmptied(line: Line, c: ClientId)
    requires Distinct(line) && line != []
    ensures Without(line, c) == [] <==> Alone(line, c)
    ensures Heads(line, c) ==> Without(line, c) == line[1..]
  {
    if Heads(line, c) { WithoutHead(line, c); } else { WithoutKeepsHead(line, c); }
  }

  lemma WithoutQueued(line: Line, c: ClientId, d: ClientId)
    ensures Queued(Without(line, c), d) <==> Queued(line, d) && d != c
  {
    WithoutMembers(line, c);
    var w := Without(line, c);
    if Queued(w, d) {
      var i :| 0 <= i < |w| && w[i].client == d;
      assert w[i] in line;
    }
    if Queued(line, d) && d != c {
      var i :| 0 <= i < |line| && line[i].client == d;
      assert line[i] in w;
    }
  }

  lemma WithoutQueuedAll(line: Line, c: ClientId)
    ensures forall d :: Queued(Without(line, c), d) <==> Queued(line, d) && d != c
  {
    forall d ensures Queued(Without(line, c), d) <==> Queued(line, d) && d != c {
      WithoutQueued(line, c, d);
    }
  }

  lemma ForwardsIff(s: State, c: ClientId, n: string, flags: bv32)
    requires WellFormed(s.lines) && c in s.clients
    ensures var e := Entry(c, s.clients[c].uniqueName, flags);
            var after := LineAt(Requested(s.lines, n, e, flags), n);
            && (Forwards(s, c, n, flags) <==> !Heads(LineAt(s.lines, n), c) && Heads(after, c))
            && (Forwards(s, c, n, flags) ==> after == [e] + LineAt(s.lines, n))
  {
    var e := Entry(c, s.clients[c].uniqueName, flags);
    JoinDistinct(LineAt(s.lines, n), e, flags);
  }

  // ---- what every step keeps whatever the bus answers ----

  lemma ReleasedStructure(lines: Lines, c: ClientId, n: string)
    requires WellFormed(lines) && NamedLines(lines)
    ensures WellFormed(Released(lines, n, c)) && NamedLines(Released(lines, n, c))
  {
    QueueLaws.NextWellFormed(lines, QueueLaws.Release(n, c));
    ReleasedNamed(lines, n, c);
  }

  lemma RequestStructure(s: State, c: ClientId, n: string, flags: bv32, answer: BusAnswer)
    requires Structure(s)
    ensures Structure(AfterRequest(s, c, n, flags, answer))
  {
    if c in s.clients {
      var e := Entry(c, s.clients[c].uniqueName, flags);
      QueueLaws.NextWellFormed(s.lines, QueueLaws.Request(n, e, flags));
      RequestedNamed(s.lines, n, c, flags);
      ReleasedStructure(Requested(s.lines, n, e, flags), c, n);
    }
  }

  lemma OwningNamed(clients: map<ClientId, Client>, c: ClientId, n: string)
    requires NamedClients(clients)
    ensures NamedClients(Own(clients, c, n)) && NamedClients(Disown(clients, c, n))
    ensures Own(clients, c, n).Keys == clients.Keys && Disown(clients, c, n).Keys == clients.Keys
  {
  }

  lemma ReleaseStructure(s: State, c: ClientId, n: string, released: bool)
    requires Structure(s)
    ensures Structure(AfterRelease(s, c, n, released))
  {
    var t := AfterRelease(s, c, n, released);
    ReleasedStructure(s.lines, c, n);
    OwningNamed(s.clients, c, n);
    var owner := HeadOwner(LineAt(t.lines, n));
    if owner.Some? { OwningNamed(Disown(s.clients, c, n), owner.value.0, n); }
    assert t.lines == Released(s.lines, n, c) && t.clients.Keys == s.clients.Keys && NamedClients(t.clients);
  }

  lemma DisconnectStructure(s: State, c: ClientId, failing: set<string>, failingAgain: set<string>)
    requires Structure(s)
    ensures Structure(AfterDisconnect(s, c, failing, failingAgain))
  {
    DepartedNamed(s.lines, c);
    forall n | n in s.lines ensures Distinct(Without(s.lines[n], c)) {
      WithoutDistinct(s.lines[n], c);
    }
  }

  lemma NextStructure(s: State, step: Step)
    requires Structure(s)
    ensures Structure(Next(s, step))
  {
    match step
    case Connect =>
    case Request(c, n, flags, answer) => RequestStructure(s, c, n, flags, answer);
    case Release(c, n, released) => ReleaseStructure(s, c, n, released);
    case Disconnect(c, failing, failingAgain) => DisconnectStructure(s, c, failing, failingAgain);
  }

  /** Only the line for `n` and who lists `n` change. */
  lemma OneLineChanges(lines: Lines, clients: map<ClientId, Client>, n: string, line: Line,
                       clients': map<ClientId, Client>)
    requires QueuesAgree(lines, clients)
    requires clients'.Keys == clients.Keys && line != []
    requires forall d :: d in clients ==> clients'[d].owned - {n} == clients[d].owned - {n}
    requires forall i :: 0 <= i < |line| ==> line[i].client in clients
    requires n in clients'[line[0].client].owned
    requires forall d :: d in clients && n in clients'[d].owned ==> Queued(line, d)
    ensures QueuesAgree(lines[n := line], clients')
  {
    var lines' := lines[n := line];
    forall d, m | d in clients' && m in clients'[d].owned ensures m in lines' && Queued(lines'[m], d) {
      if m != n { assert m in clients'[d].owned - {n}; }
    }
    forall m | m in lines' && lines'[m] != [] ensures m in clients'[lines'[m][0].client].owned {
      if m != n { assert m in clients[lines[m][0].client].owned - {n}; }
    }
  }

  // ---- requests ----

  lemma RequestQueues(s: State, c: ClientId, n: string, flags: bv32, foreign: set<string>)
    requires Inv(s, foreign) && c in s.clients && !Forwards(s, c, n, flags)
    ensures Agree(s.(lines := Requested(s.lines, n, Entry(c, s.clients[c].uniqueName, flags), flags)), foreign)
  {
    var line, e := LineAt(s.lines, n), Entry(c, s.clients[c].uniqueName, flags);
    var lines := Requested(s.lines, n, e, flags);
    if Join(line, e, flags) == line {
      assert lines == s.lines;
    } else {
      assert lines == s.lines[n := line + [e]];
      forall d | Queued(line, d) ensures Queued(line + [e], d) {
        var i :| 0 <= i < |line| && line[i].client == d;
        assert (line + [e])[i].client == d;
      }
      OneLineChanges(s.lines, s.clients, n, line + [e], s.clients);
    }
  }

  lemma FrontedQueues(lines: Lines, clients: map<ClientId, Client>, n: string, e: QueueEntry)
    requires QueuesAgree(lines, clients) && e.client in clients
    ensures QueuesAgree(lines[n := [e] + LineAt(lines, n)], Own(clients, e.client, n))
  {
    var line := LineAt(lines, n);
    forall d | Queued(line, d) ensures Queued([e] + line, d) {
      var i :| 0 <= i < |line| && line[i].client == d;
      assert ([e] + line)[i + 1].client == d;
    }
    assert ([e] + line)[0].client == e.client;
    OneLineChanges(lines, clients, n, [e] + line, Own(clients, e.client, n));
  }

  lemma RequestGranted(s: State, c: ClientId, n: string, flags: bv32, foreign: set<string>)
    requires Inv(s, foreign) && Forwards(s, c, n, flags)
    ensures Agree(AfterRequest(s, c, n, flags, Granted), foreign) <==> n !in foreign
  {
    ForwardsIff(s, c, n, flags);
    var e, t := Entry(c, s.clients[c].uniqueName, flags), AfterRequest(s, c, n, flags, Granted);
    FrontedQueues(s.lines, s.clients, n, e);
    assert t.lines == s.lines[n := [e] + LineAt(s.lines, n)];
    assert t.lines.Keys == s.lines.Keys + {n};
  }

  /** A refusal by the bus breaks the agreement, and the client is told it owns the name. */
  lemma RequestRefused(s: State, c: ClientId, n: string, flags: bv32, foreign: set<string>)
    requires Inv(s, foreign) && Forwards(s, c, n, flags)
    ensures !Agree(AfterRequest(s, c, n, flags, Refused), foreign)
    ensures RequestReply(s, c, n, flags, Refused) == Some(PRIMARY_OWNER)
  {
    ForwardsIff(s, c, n, flags);
    var t := AfterRequest(s, c, n, flags, Refused);
    assert Heads(t.lines[n], c) && n !in t.clients[c].owned;
  }

  lemma RequestFailed(s: State, c: ClientId, n: string, flags: bv32, foreign: set<string>)
    requires Inv(s, foreign) && Forwards(s, c, n, flags)
    ensures AfterRequest(s, c, n, flags, Failed) == s
  {
    ForwardsIff(s, c, n, flags);
    var line, e := LineAt(s.lines, n), Entry(c, s.clients[c].uniqueName, flags);
    QueueLaws.FrontedRelease(Requested(s.lines, n, e, flags), s.lines, n, e);
  }

  lemma RequestAgrees(s: State, c: ClientId, n: string, flags: bv32, answer: BusAnswer, foreign: set<string>)
    requires Inv(s, foreign)
    ensures Agree(AfterRequest(s, c, n, flags, answer), foreign)
            <==> Cooperates(s, Request(c, n, flags, answer), foreign)
  {
    if c in s.clients {
      ForwardsIff(s, c, n, flags);
      if !Forwards(s, c, n, flags) {
        RequestQueues(s, c, n, flags, foreign);
      } else {
        match answer
        case Granted => RequestGranted(s, c, n, flags, foreign);
        case Refused => RequestRefused(s, c, n, flags, foreign);
        case Failed => RequestFailed(s, c, n, flags, foreign);
      }
    }
  }

  /** With a cooperating bus the reply is the truth: 1 or 4 exactly for the primary owner, 2
      exactly for a client waiting in line, 3 exactly for one that is not in line, and an
      error exactly if the bus call failed. */
  lemma ReplyIsTrue(s: State, c: ClientId, n: string, flags: bv32, answer: BusAnswer, foreign: set<string>)
    requires Inv(s, foreign) && c in s.clients && Cooperates(s, Request(c, n, flags, answer), foreign)
    ensures var reply := RequestReply(s, c, n, flags, answer);
            var line := LineAt(AfterRequest(s, c, n, flags, answer).lines, n);
            && (reply == Some(1) || reply == Some(4) <==> Heads(line, c))
            && (reply == Some(2) <==> Queued(line, c) && !Heads(line, c))
            && (reply == Some(3) <==> !Queued(line, c) && !(Forwards(s, c, n, flags) && answer == Failed))
            && (reply == None <==> Forwards(s, c, n, flags) && answer == Failed)
  {
    ForwardsIff(s, c, n, flags);
    if Forwards(s, c, n, flags) && answer.Failed? {
      RequestFailed(s, c, n, flags, foreign);
    } else {
      var line := LineAt(AfterRequest(s, c, n, flags, answer).lines, n);
      assert Heads(line, c) ==> line[0].client == c;
    }
  }

  // ---- releases ----

  /** Whoever is left in a line was there before, hence is connected. */
  lemma LeftLine(s: State, c: ClientId, n: string)
    requires QueuedConnected(s.lines, s.clients) && n in s.lines
    ensures var w := Without(s.lines[n], c);
            forall i :: 0 <= i < |w| ==> w[i].client in s.clients && w[i].client != c
  {
    WithoutMembers(s.lines[n], c);
    var w := Without(s.lines[n], c);
    forall i | 0 <= i < |w| ensures w[i].client in s.clients && w[i].client != c {
      assert w[i] in s.lines[n] && w[i] in w;
    }
  }

  lemma LeftHead(s: State, c: ClientId, n: string)
    requires QueuedConnected(s.lines, s.clients) && n in s.lines && Without(s.lines[n], c) != []
    ensures var head := Without(s.lines[n], c)[0].client; head in s.clients && head != c
  {
    LeftLine(s, c, n);
    assert 0 < |Without(s.lines[n], c)|;
  }

  lemma WaitingQueues(s: State, c: ClientId, n: string)
    requires QueuesAgree(s.lines, s.clients) && n in s.lines && s.lines[n] != [] && !Heads(s.lines[n], c)
    ensures QueuesAgree(s.lines[n := Without(s.lines[n], c)], Disown(s.clients, c, n))
  {
    WithoutKeepsHead(s.lines[n], c);
    LeftLine(s, c, n);
    WithoutQueuedAll(s.lines[n], c);
    OneLineChanges(s.lines, s.clients, n, Without(s.lines[n], c), Disown(s.clients, c, n));
  }

  lemma AbsentQueues(s: State, c: ClientId, n: string)
    requires QueuesAgree(s.lines, s.clients) && n !in s.lines
    ensures QueuesAgree(s.lines, Disown(s.clients, c, n))
  {
    if c in s.clients {
      assert s.clients[c].owned - {n} == s.clients[c].owned;
      assert Disown(s.clients, c, n) == s.clients;
    }
  }

  lemma WaitingLeaves(s: State, c: ClientId, n: string, released: bool)
    requires WellFormed(s.lines) && !Heads(LineAt(s.lines, n), c)
    ensures AfterRelease(s, c, n, released)
         == s.(clients := Disown(s.clients, c, n),
               lines := if n in s.lines then s.lines[n := Without(s.lines[n], c)] else s.lines)
  {
    if n in s.lines {
      WithoutKeepsHead(s.lines[n], c);
    } else {
      assert Without([], c) == [];
      assert s.lines - {n} == s.lines;
    }
  }

  lemma ReleaseWaiting(s: State, c: ClientId, n: string, released: bool, foreign: set<string>)
    requires Inv(s, foreign) && !Heads(LineAt(s.lines, n), c)
    ensures Agree(AfterRelease(s, c, n, released), foreign)
  {
    WaitingLeaves(s, c, n, released);
    if n in s.lines {
      WaitingQueues(s, c, n);
      assert s.lines[n := Without(s.lines[n], c)].Keys == s.lines.Keys;
    } else {
      AbsentQueues(s, c, n);
    }
  }

  lemma PromotedQueues(s: State, c: ClientId, n: string)
    requires QueuesAgree(s.lines, s.clients) && n in s.lines && Without(s.lines[n], c) != []
    ensures var w := Without(s.lines[n], c);
            QueuesAgree(s.lines[n := w], Own(Disown(s.clients, c, n), w[0].client, n))
  {
    var w := Without(s.lines[n], c);
    LeftLine(s, c, n);
    WithoutQueuedAll(s.lines[n], c);
    assert Queued(w, w[0].client);
    OneLineChanges(s.lines, s.clients, n, w, Own(Disown(s.clients, c, n), w[0].client, n));
  }

  lemma ReleasePromotes(s: State, c: ClientId, n: string, released: bool, foreign: set<string>)
    requires Inv(s, foreign) && Heads(LineAt(s.lines, n), c) && !Alone(s.lines[n], c)
    ensures Agree(AfterRelease(s, c, n, released), foreign)
  {
    AloneIsEmptied(s.lines[n], c);
    PromotedQueues(s, c, n);
    var w := Without(s.lines[n], c);
    WithoutNamed(s.lines[n], c);
    assert w[0].uniqueName == UniqueName(w[0].client);
    assert AfterRelease(s, c, n, released).lines.Keys == s.lines.Keys;
  }

  lemma EmptiedQueues(lines: Lines, clients: map<ClientId, Client>, n: string, c: ClientId)
    requires QueuesAgree(lines, clients) && n in lines && Alone(lines[n], c)
    ensures QueuesAgree(lines - {n}, Disown(clients, c, n))
  {
    var clients' := Disown(clients, c, n);
    forall d | d in clients' && n in clients[d].owned ensures d == c {
      assert Queued(lines[n], d);
    }
  }

  lemma ReleaseAlone(s: State, c: ClientId, n: string, released: bool, foreign: set<string>)
    requires Inv(s, foreign) && n in s.lines && Alone(s.lines[n], c)
    ensures Agree(AfterRelease(s, c, n, released), foreign) <==> released
  {
    var t := AfterRelease(s, c, n, released);
    AloneIsEmptied(s.lines[n], c);
    EmptiedQueues(s.lines, s.clients, n, c);
    assert t.lines == s.lines - {n};
    assert n in s.upstream && c in s.clients;
  }

  lemma ReleaseAgrees(s: State, c: ClientId, n: string, released: bool, foreign: set<string>)
    requires Inv(s, foreign)
    ensures Agree(AfterRelease(s, c, n, released), foreign) <==> Cooperates(s, Release(c, n, released), foreign)
  {
    if !Heads(LineAt(s.lines, n), c) {
      ReleaseWaiting(s, c, n, released, foreign);
    } else if !Alone(s.lines[n], c) {
      ReleasePromotes(s, c, n, released, foreign);
    } else {
      ReleaseAlone(s, c, n, released, foreign);
    }
  }

  // ---- disconnects ----

  /** The names that go away with the client are those it is alone in. */
  function Gone(s: State, c: ClientId): set<string> {
    set n | n in s.lines && Alone(s.lines[n], c)
  }

  lemma GoneLines(s: State, c: ClientId)
    requires Structure(s)
    ensures Departed(s.lines, c).Keys == s.lines.Keys - Gone(s, c)
    ensures var hs := Handovers(s.lines, c, s.lines.Keys);
            Dropped(hs) == Gone(s, c) && Passed(hs) <= s.lines.Keys - Gone(s, c)
  {
    forall n | n in s.lines
      ensures Without(s.lines[n], c) == [] <==> Alone(s.lines[n], c)
    {
      AloneIsEmptied(s.lines[n], c);
    }
  }

  lemma GoneOwned(s: State, c: ClientId)
    requires Structure(s) && QueuesAgree(s.lines, s.clients)
    ensures var owned := if c in s.clients then s.clients[c].owned else {};
            (set n | n in owned && n !in Departed(s.lines, c)) == Gone(s, c)
  {
    GoneLines(s, c);
    var owned := if c in s.clients then s.clients[c].owned else {};
    forall n | n in Gone(s, c) ensures n in owned {
      assert s.lines[n][0].client == c;
    }
  }

  lemma DisconnectShape(s: State, c: ClientId, failing: set<string>, failingAgain: set<string>)
    requires Structure(s) && QueuesAgree(s.lines, s.clients)
    ensures var t, hs := AfterDisconnect(s, c, failing, failingAgain), Handovers(s.lines, c, s.lines.Keys);
            && t.lines.Keys == s.lines.Keys - Gone(s, c)
            && t.upstream == s.upstream - (Gone(s, c) - failing) - (Gone(s, c) - failingAgain)
            && t.routes.container == s.routes.container + Passed(hs) - Gone(s, c)
  {
    GoneLines(s, c);
    GoneOwned(s, c);
  }

  /** Two attempts leave nothing behind exactly when each member is in one of them. */
  lemma TwoAttempts(all: set<string>, gone: set<string>, failing: set<string>, failingAgain: set<string>)
    requires gone <= all
    ensures all - (gone - failing) - (gone - failingAgain) == all - gone
            <==> forall n :: n in gone ==> n !in failing || n !in failingAgain
  {
    if all - (gone - failing) - (gone - failingAgain) == all - gone {
      forall n | n in gone ensures n !in failing || n !in failingAgain {
        assert n !in all - gone;
      }
    }
  }

  lemma DisconnectStores(s: State, c: ClientId, failing: set<string>, failingAgain: set<string>, foreign: set<string>)
    requires Inv(s, foreign)
    ensures var t := AfterDisconnect(s, c, failing, failingAgain);
            && t.routes.container == foreign + t.lines.Keys && foreign !! t.lines.Keys
            && (t.upstream == t.lines.Keys <==> Cooperates(s, Disconnect(c, failing, failingAgain), foreign))
  {
    DisconnectShape(s, c, failing, failingAgain);
    GoneLines(s, c);
    var keys, gone := s.lines.Keys, Gone(s, c);
    TwoAttempts(keys, gone, failing, failingAgain);
    ForeignStay(foreign, keys, Passed(Handovers(s.lines, c, keys)), gone);
    assert Cooperates(s, Disconnect(c, failing, failingAgain), foreign)
      <==> forall n :: n in gone ==> n !in failing || n !in failingAgain;
  }

  lemma ForeignStay(foreign: set<string>, keys: set<string>, passed: set<string>, gone: set<string>)
    requires gone <= keys && passed <= keys - gone && foreign !! keys
    ensures foreign + keys + passed - gone == foreign + (keys - gone) && foreign !! keys - gone
  {
  }

  lemma DisconnectHeadOwns(s: State, c: ClientId, n: string)
    requires Structure(s) && n in Departed(s.lines, c)
    requires QueuedConnected(s.lines, s.clients) && PrimariesOwn(s.lines, s.clients)
    ensures var head := Departed(s.lines, c)[n][0].client;
            && head in s.clients && head != c
            && n in s.clients[head].owned + Inherited(Handovers(s.lines, c, s.lines.Keys), head)
  {
    var line, w := s.lines[n], Without(s.lines[n], c);
    assert Departed(s.lines, c)[n] == w && |w| > 0;
    LeftHead(s, c, n);
    if Heads(line, c) {
      assert Handovers(s.lines, c, s.lines.Keys)[n] == HeadOwner(w);
    } else {
      WithoutKeepsHead(line, c);
    }
  }

  lemma DisconnectLine(s: State, c: ClientId, n: string)
    requires Structure(s) && n in Departed(s.lines, c)
    requires QueuedConnected(s.lines, s.clients) && PrimariesOwn(s.lines, s.clients)
    ensures var line, clients := Departed(s.lines, c)[n], Inheriting(s.clients - {c}, Handovers(s.lines, c, s.lines.Keys));
            && (forall i :: 0 <= i < |line| ==> line[i].client in clients)
            && n in clients[line[0].client].owned
  {
    assert Departed(s.lines, c)[n] == Without(s.lines[n], c);
    LeftLine(s, c, n);
    DisconnectHeadOwns(s, c, n);
  }

  lemma DisconnectOwner(s: State, c: ClientId, d: ClientId, n: string)
    requires Structure(s) && OwnersQueued(s.lines, s.clients) && d in s.clients - {c}
    requires n in Inheriting(s.clients - {c}, Handovers(s.lines, c, s.lines.Keys))[d].owned
    ensures n in Departed(s.lines, c) && Queued(Departed(s.lines, c)[n], d)
  {
    if n in s.clients[d].owned {
      WithoutQueued(s.lines[n], c, d);
    } else {
      var w := Without(s.lines[n], c);
      assert HeadOwner(w).Some? && w[0].client == d;
    }
  }

  lemma DisconnectOwners(s: State, c: ClientId)
    requires Structure(s) && OwnersQueued(s.lines, s.clients)
    ensures OwnersQueued(Departed(s.lines, c), Inheriting(s.clients - {c}, Handovers(s.lines, c, s.lines.Keys)))
  {
    forall d, n | d in s.clients - {c} && n in Inheriting(s.clients - {c}, Handovers(s.lines, c, s.lines.Keys))[d].owned
      ensures n in Departed(s.lines, c) && Queued(Departed(s.lines, c)[n], d)
    {
      DisconnectOwner(s, c, d, n);
    }
  }

  lemma DisconnectQueues(s: State, c: ClientId)
    requires Structure(s) && QueuesAgree(s.lines, s.clients)
    ensures QueuesAgree(Departed(s.lines, c), Inheriting(s.clients - {c}, Handovers(s.lines, c, s.lines.Keys)))
  {
    var lines: Lines := Departed(s.lines, c);
    var clients := Inheriting(s.clients - {c}, Handovers(s.lines, c, s.lines.Keys));
    DisconnectOwners(s, c);
    forall n | n in lines
      ensures forall i :: 0 <= i < |lines[n]| ==> lines[n][i].client in clients
      ensures n in clients[lines[n][0].client].owned
    {
      DisconnectLine(s, c, n);
    }
  }

  lemma DisconnectAgrees(s: State, c: ClientId, failing: set<string>, failingAgain: set<string>, foreign: set<string>)
    requires Inv(s, foreign)
    ensures Agree(AfterDisconnect(s, c, failing, failingAgain), foreign)
            <==> Cooperates(s, Disconnect(c, failing, failingAgain), foreign)
  {
    DisconnectStores(s, c, failing, failingAgain, foreign);
    DisconnectQueues(s, c);
  }

  // ---- a failed release is made good at disconnect ----

  /** What a failed release leaves behind: the line is gone, the rest is as it was. */
  lemma FailedReleaseLeaves(s: State, c: ClientId, n: string)
    requires Structure(s) && n in s.lines && Alone(s.lines[n], c)
    ensures AfterRelease(s, c, n, false) == s.(lines := s.lines - {n})
  {
    AloneIsEmptied(s.lines[n], c);
  }

  lemma SameHandovers(s: State, c: ClientId, n: string)
    requires Structure(s) && n in s.lines && Alone(s.lines[n], c)
    ensures Departed(s.lines - {n}, c) == Departed(s.lines, c)
    ensures var rest := s.lines - {n};
            && n !in Handovers(rest, c, rest.Keys)
            && Handovers(s.lines, c, s.lines.Keys) == Handovers(rest, c, rest.Keys)[n := None]
  {
    AloneIsEmptied(s.lines[n], c);
  }

  lemma SameRegistry(unique: map<string, Route>, u: string, hs: HandoverMap, n: string)
    requires n !in hs
    ensures RegistryAfter(unique, u, hs) - {u} == RegistryAfter(unique, u, hs[n := None]) - {u}
  {
    SuccessorsGrow(hs, n, None);
    assert hs[n := None] != map[] by { assert n in hs[n := None]; }
    if hs == map[] {
      assert Successors(hs) == {};
    }
  }

  lemma SameInherited(clients: map<ClientId, Client>, hs: HandoverMap, n: string)
    requires n !in hs
    ensures Inheriting(clients, hs[n := None]) == Inheriting(clients, hs)
  {
    InheritingOne(clients, hs, n, None);
  }

  lemma SameNames(hs: HandoverMap, n: string)
    requires n !in hs
    ensures Passed(hs[n := None]) == Passed(hs) && Dropped(hs[n := None]) == Dropped(hs) + {n}
  {
  }

  lemma DisconnectAfterFailure(s: State, c: ClientId, n: string, failing: set<string>, failingAgain: set<string>)
    requires Structure(s) && QueuesAgree(s.lines, s.clients) && n in s.lines && Alone(s.lines[n], c)
    ensures AfterDisconnect(s.(lines := s.lines - {n}), c, failing, failingAgain)
         == AfterDisconnect(s, c, failing + {n}, failingAgain)
  {
    var rest := s.lines - {n};
    var hs, u := Handovers(rest, c, rest.Keys), UniqueName(c);
    SameHandovers(s, c, n);
    SameRegistry(s.routes.unique, u, hs, n);
    SameInherited(s.clients - {c}, hs, n);
    SameNames(hs, n);
    GoneOwned(s, c);
    GoneLines(s, c);
    assert n in Gone(s, c);
    assert Dropped(hs) - failing == Dropped(hs) + {n} - (failing + {n});
    assert s.routes.container + Passed(hs) - Dropped(hs) - Gone(s, c)
        == s.routes.container + Passed(hs) - (Dropped(hs) + {n}) - Gone(s, c);
  }

  /** A release that fails upstream breaks the agreement, and the client's disconnect
      restores it exactly if the bus cooperates then and the second try succeeds. */
  lemma FailedReleaseHeals(s: State, c: ClientId, n: string, failing: set<string>, failingAgain: set<string>,
                           foreign: set<string>)
    requires Inv(s, foreign) && n in s.lines && Alone(s.lines[n], c)
    ensures var broken := Next(s, Release(c, n, false));
            && !Inv(broken, foreign)
            && (Inv(Next(broken, Disconnect(c, failing, failingAgain)), foreign)
                <==> n !in failingAgain && Cooperates(s, Disconnect(c, failing, failingAgain), foreign))
  {
    ReleaseAlone(s, c, n, false, foreign);
    FailedReleaseLeaves(s, c, n);
    DisconnectAfterFailure(s, c, n, failing, failingAgain);
    DisconnectAgrees(s, c, failing + {n}, failingAgain, foreign);
    DisconnectStructure(s, c, failing + {n}, failingAgain);
  }

  // ---- runs ----

  /** One step keeps the stores in agreement exactly when the bus cooperates. */
  lemma StepAgreesIffBusCooperates(s: State, step: Step, foreign: set<string>)
    requires Inv(s, foreign)
    ensures Inv(Next(s, step), foreign) <==> Cooperates(s, step, foreign)
  {
    NextStructure(s, step);
    match step
    case Connect =>
    case Request(c, n, flags, answer) => RequestAgrees(s, c, n, flags, answer, foreign);
    case Release(c, n, released) => ReleaseAgrees(s, c, n, released, foreign);
    case Disconnect(c, failing, failingAgain) => DisconnectAgrees(s, c, failing, failingAgain, foreign);
  }

  function Run(s: State, steps: seq<Step>): State
    decreases steps
  {
    if steps == [] then s else Run(Next(s, steps[0]), steps[1..])
  }

  ghost predicate BusCooperates(s: State, steps: seq<Step>, foreign: set<string>)
    decreases steps
  {
    steps == [] || (Cooperates(s, steps[0], foreign) && BusCooperates(Next(s, steps[0]), steps[1..], foreign))
  }

  ghost predicate AlwaysInv(s: State, steps: seq<Step>, foreign: set<string>)
    decreases steps
  {
    Inv(s, foreign) && (steps == [] || AlwaysInv(Next(s, steps[0]), steps[1..], foreign))
  }

  /** Over every run from start-up, the stores agree at every point exactly when the
      bus cooperates with every step. */
  lemma {:induction false} StoresAgreeOverRuns(s: State, steps: seq<Step>, foreign: set<string>)
    requires Inv(s, foreign)
    ensures AlwaysInv(s, steps, foreign) <==> BusCooperates(s, steps, foreign)
    decreases steps
  {
    if steps == [] {
    } else {
      StepAgreesIffBusCooperates(s, steps[0], foreign);
      if Cooperates(s, steps[0], foreign) {
        StoresAgreeOverRuns(Next(s, steps[0]), steps[1..], foreign);
      }
    }
  }

  /** The multiplexer before any client, with the names the container bus listed. */
  function Startup(foreign: set<string>, host: set<string>, activatable: set<string>): State {
    State(1, map[], map[], Routes(foreign, host, activatable, map[]), {})
  }

  lemma StartupAgrees(foreign: set<string>, host: set<string>, activatable: set<string>)
    ensures Inv(Startup(foreign, host, activatable), foreign)
  {
  }

  /** So a client-held well-known name is always routed to the container. */
  lemma HeldNamesRouteToContainer(s: State, foreign: set<string>, n: string)
    requires Inv(s, foreign) && n in s.lines && !IsUniqueName(n)
    ensures RouteFor(s.routes, n) == Container
  {
  }

  // ---- unique names of primaries ----

  /** The head of the line is sent to by its unique name on the container. */
  ghost predicate RegisteredHead(routes: Routes, line: Line) {
    line != [] ==> RouteFor(routes, UniqueName(line[0].client)) == Container
  }

  /** Every primary can be reached by its unique name on the container. */
  ghost predicate PrimariesRegistered(s: State) {
    forall n :: n in s.lines ==> RegisteredHead(s.routes, s.lines[n])
  }

  /** The step releases the only place in a line of a client that heads another. */
  ghost predicate ForgetsPrimary(s: State, step: Step) {
    step.Release? && Alone(LineAt(s.lines, step.name), step.client)
    && exists m :: m in s.lines && m != step.name && Heads(s.lines[m], step.client)
  }

  lemma AppendedHeads(s: State, c: ClientId, n: string, flags: bv32)
    requires WellFormed(s.lines) && c in s.clients && !Forwards(s, c, n, flags)
    ensures var lines := Requested(s.lines, n, Entry(c, s.clients[c].uniqueName, flags), flags);
            forall m :: m in lines ==> m in s.lines && s.lines[m] != [] && lines[m][0] == s.lines[m][0]
  {
    var line, e := LineAt(s.lines, n), Entry(c, s.clients[c].uniqueName, flags);
    assert line != [];
    assert Join(line, e, flags) == line || Join(line, e, flags) == line + [e];
  }

  lemma GrantRegisters(s: State, c: ClientId, n: string, flags: bv32)
    requires Structure(s) && PrimariesRegistered(s) && Forwards(s, c, n, flags)
    ensures PrimariesRegistered(AfterRequest(s, c, n, flags, Granted))
  {
    ForwardsIff(s, c, n, flags);
    var t, u := AfterRequest(s, c, n, flags, Granted), UniqueName(c);
    assert t.routes.unique == s.routes.unique[u := Container];
    forall m | m in t.lines ensures RegisteredHead(t.routes, t.lines[m]) {
      if m == n {
        assert t.lines[m][0].client == c;
      } else {
        assert t.lines[m] == s.lines[m];
      }
    }
  }

  lemma RequestRegisters(s: State, c: ClientId, n: string, flags: bv32, answer: BusAnswer, foreign: set<string>)
    requires Inv(s, foreign) && PrimariesRegistered(s) && Cooperates(s, Request(c, n, flags, answer), foreign)
    ensures PrimariesRegistered(AfterRequest(s, c, n, flags, answer))
  {
    if c in s.clients {
      ForwardsIff(s, c, n, flags);
      if !Forwards(s, c, n, flags) {
        AppendedHeads(s, c, n, flags);
      } else if answer.Failed? {
        RequestFailed(s, c, n, flags, foreign);
      } else {
        GrantRegisters(s, c, n, flags);
      }
    }
  }

  lemma ReleaseRegisters(s: State, c: ClientId, n: string, released: bool, foreign: set<string>)
    requires Inv(s, foreign) && PrimariesRegistered(s) && Cooperates(s, Release(c, n, released), foreign)
    ensures PrimariesRegistered(AfterRelease(s, c, n, released)) <==> !ForgetsPrimary(s, Release(c, n, released))
  {
    var t := AfterRelease(s, c, n, released);
    if n in s.lines {
      AloneIsEmptied(s.lines[n], c);
      WithoutNamed(s.lines[n], c);
    }
    if n in s.lines && Alone(s.lines[n], c) {
      AloneRegisters(s, c, n, foreign);
    } else if !Heads(LineAt(s.lines, n), c) && n in s.lines {
      WithoutKeepsHead(s.lines[n], c);
    }
  }

  lemma AloneRegisters(s: State, c: ClientId, n: string, foreign: set<string>)
    requires Inv(s, foreign) && PrimariesRegistered(s) && n in s.lines && Alone(s.lines[n], c)
    ensures PrimariesRegistered(AfterRelease(s, c, n, true)) <==> !ForgetsPrimary(s, Release(c, n, true))
  {
    var t := AfterRelease(s, c, n, true);
    AloneIsEmptied(s.lines[n], c);
    assert s.lines[n][0].client in s.clients;
    assert t.lines == s.lines - {n} && t.routes.unique == s.routes.unique - {UniqueName(c)};
    forall m | m in t.lines ensures RegisteredHead(t.routes, t.lines[m]) <==> !Heads(t.lines[m], c) {
      if UniqueName(t.lines[m][0].client) == UniqueName(c) { UniqueNamesDiffer(t.lines[m][0].client, c); }
    }
    if ForgetsPrimary(s, Release(c, n, true)) {
      var m :| m in s.lines && m != n && Heads(s.lines[m], c);
      assert m in t.lines && !RegisteredHead(t.routes, t.lines[m]);
    }
  }

  lemma DisconnectUnique(s: State, c: ClientId, failing: set<string>, failingAgain: set<string>, u: string)
    requires u != UniqueName(c)
    requires u in Successors(Handovers(s.lines, c, s.lines.Keys))
          || (u in s.routes.unique && s.routes.unique[u] == Container)
    ensures var unique := AfterDisconnect(s, c, failing, failingAgain).routes.unique;
            u in unique && unique[u] == Container
  {
  }

  lemma DisconnectHead(s: State, c: ClientId, failing: set<string>, failingAgain: set<string>, n: string)
    requires Structure(s) && QueuedConnected(s.lines, s.clients) && n in Departed(s.lines, c)
    requires RegisteredHead(s.routes, s.lines[n])
    ensures RegisteredHead(AfterDisconnect(s, c, failing, failingAgain).routes, Departed(s.lines, c)[n])
  {
    var line, w, hs := s.lines[n], Departed(s.lines, c)[n], Handovers(s.lines, c, s.lines.Keys);
    LeftLine(s, c, n);
    WithoutNamed(line, c);
    var u := UniqueName(w[0].client);
    assert u != UniqueName(c) by {
      assert w == Without(line, c) && w[0].client != c;
      if u == UniqueName(c) { UniqueNamesDiffer(w[0].client, c); }
    }
    if Heads(line, c) {
      assert hs[n] == HeadOwner(w);
    } else {
      WithoutKeepsHead(line, c);
    }
    DisconnectUnique(s, c, failing, failingAgain, u);
  }

  lemma DisconnectRegisters(s: State, c: ClientId, failing: set<string>, failingAgain: set<string>, foreign: set<string>)
    requires Inv(s, foreign) && PrimariesRegistered(s)
    ensures PrimariesRegistered(AfterDisconnect(s, c, failing, failingAgain))
  {
    forall n | n in Departed(s.lines, c)
      ensures RegisteredHead(AfterDisconnect(s, c, failing, failingAgain).routes, Departed(s.lines, c)[n])
    {
      DisconnectHead(s, c, failing, failingAgain, n);
    }
  }

  /** A cooperating step keeps every primary registered exactly when it is not the
      release that forgets a client still heading another name. */
  lemma RegistryKeptIff(s: State, step: Step, foreign: set<string>)
    requires Inv(s, foreign) && PrimariesRegistered(s) && Cooperates(s, step, foreign)
    ensures PrimariesRegistered(Next(s, step)) <==> !ForgetsPrimary(s, step)
  {
    match step
    case Connect =>
    case Request(c, n, flags, answer) => RequestRegisters(s, c, n, flags, answer, foreign);
    case Release(c, n, released) => ReleaseRegisters(s, c, n, released, foreign);
    case Disconnect(c, failing, failingAgain) => DisconnectRegisters(s, c, failing, failingAgain, foreign);
  }

  ghost predicate AlwaysRegistered(s: State, steps: seq<Step>)
    decreases steps
  {
    PrimariesRegistered(s) && (steps == [] || AlwaysRegistered(Next(s, steps[0]), steps[1..]))
  }

  ghost predicate NeverForgets(s: State, steps: seq<Step>)
    decreases steps
  {
    steps == [] || (!ForgetsPrimary(s, steps[0]) && NeverForgets(Next(s, steps[0]), steps[1..]))
  }

  lemma {:induction false} RegistryKeptFrom(s: State, steps: seq<Step>, foreign: set<string>)
    requires Inv(s, foreign) && PrimariesRegistered(s) && BusCooperates(s, steps, foreign)
    ensures AlwaysRegistered(s, steps) <==> NeverForgets(s, steps)
    decreases steps
  {
    if steps == [] {
    } else {
      StepAgreesIffBusCooperates(s, steps[0], foreign);
      RegistryKeptIff(s, steps[0], foreign);
      if PrimariesRegistered(Next(s, steps[0])) {
        RegistryKeptFrom(Next(s, steps[0]), steps[1..], foreign);
      }
    }
  }

  /** Over every run from start-up with a cooperating bus, primaries stay registered at
      every point exactly while no client releases a name it is alone in line for and
      still heads another one. */
  lemma RegistryKeptOverRuns(steps: seq<Step>, foreign: set<string>, host: set<string>, activatable: set<string>)
    requires BusCooperates(Startup(foreign, host, activatable), steps, foreign)
    ensures var s := Startup(foreign, host, activatable);
            AlwaysRegistered(s, steps) <==> NeverForgets(s, steps)
  {
    StartupAgrees(foreign, host, activatable);
    RegistryKeptFrom(Startup(foreign, host, activatable), steps, foreign);
  }

  // ---- where each step leaves every client's unique name ----

  /** The client becomes the primary of some name. */
  ghost predicate Gains(before: Lines, after: Lines, d: ClientId) {
    exists n :: n in after && Heads(after[n], d) && !Heads(LineAt(before, n), d)
  }

  ghost predicate HeadsSome(lines: Lines, d: ClientId) { exists n :: n in lines && Heads(lines[n], d) }

  /** The client releases a name nobody else waits for, or goes while a primary. */
  ghost predicate Unregisters(s: State, step: Step, d: ClientId) {
    match step
    case Release(c, n, _) => c == d && Alone(LineAt(s.lines, n), d)
    case Disconnect(c, _, _) => c == d && HeadsSome(s.lines, d)
    case _ => false
  }

  ghost predicate RoutesFollow(s: State, step: Step, d: ClientId) {
    RouteFor(Next(s, step).routes, UniqueName(d)) ==
    if Gains(s.lines, Next(s, step).lines, d) then Container
    else if Unregisters(s, step, d) then Host
    else RouteFor(s.routes, UniqueName(d))
  }

  lemma RequestRoutes(s: State, c: ClientId, n: string, flags: bv32, answer: BusAnswer, foreign: set<string>, d: ClientId)
    requires Inv(s, foreign) && Cooperates(s, Request(c, n, flags, answer), foreign)
    ensures RoutesFollow(s, Request(c, n, flags, answer), d)
  {
    if c in s.clients {
      ForwardsIff(s, c, n, flags);
      if !Forwards(s, c, n, flags) {
        AppendedHeads(s, c, n, flags);
        assert !Gains(s.lines, AfterRequest(s, c, n, flags, answer).lines, d);
      } else if answer.Failed? {
        RequestFailed(s, c, n, flags, foreign);
      } else {
        GrantRoutes(s, c, n, flags, d);
      }
    }
  }

  lemma GrantRoutes(s: State, c: ClientId, n: string, flags: bv32, d: ClientId)
    requires Structure(s) && Forwards(s, c, n, flags)
    ensures RoutesFollow(s, Request(c, n, flags, Granted), d)
  {
    ForwardsIff(s, c, n, flags);
    var t := AfterRequest(s, c, n, flags, Granted);
    assert t.routes.unique == s.routes.unique[UniqueName(c) := Container];
    assert forall m :: m in t.lines && m != n ==> t.lines[m] == LineAt(s.lines, m);
    if d == c {
      assert Heads(t.lines[n], d) && !Heads(LineAt(s.lines, n), d);
    } else if UniqueName(d) == UniqueName(c) {
      UniqueNamesDiffer(d, c);
    }
  }

  lemma ReleaseRoutes(s: State, c: ClientId, n: string, released: bool, foreign: set<string>, d: ClientId)
    requires Inv(s, foreign) && Cooperates(s, Release(c, n, released), foreign)
    ensures RoutesFollow(s, Release(c, n, released), d)
  {
    var t := AfterRelease(s, c, n, released);
    assert forall m :: m in t.lines && m != n ==> t.lines[m] == LineAt(s.lines, m);
    if !Heads(LineAt(s.lines, n), c) {
      WaitingLeaves(s, c, n, released);
      if n in s.lines { WithoutKeepsHead(s.lines[n], c); }
      assert !Gains(s.lines, t.lines, d);
    } else if Alone(s.lines[n], c) {
      AloneIsEmptied(s.lines[n], c);
      assert !Gains(s.lines, t.lines, d);
      assert c == s.lines[n][0].client && c in s.clients;
      if UniqueName(d) == UniqueName(c) { UniqueNamesDiffer(d, c); }
    } else {
      PromoteRoutes(s, c, n, released, d);
    }
  }

  lemma PromoteRoutes(s: State, c: ClientId, n: string, released: bool, d: ClientId)
    requires Structure(s) && n in s.lines && Heads(s.lines[n], c) && !Alone(s.lines[n], c)
    ensures RoutesFollow(s, Release(c, n, released), d)
  {
    var t, w := AfterRelease(s, c, n, released), Without(s.lines[n], c);
    AloneIsEmptied(s.lines[n], c);
    WithoutNamed(s.lines[n], c);
    var next := w[0].client;
    assert w == s.lines[n][1..] && next == s.lines[n][1].client && next != c;
    assert t.routes.unique == s.routes.unique[UniqueName(next) := Container];
    assert forall m :: m in t.lines && m != n ==> t.lines[m] == LineAt(s.lines, m);
    if d == next {
      assert t.lines[n] == w && Heads(t.lines[n], d) && !Heads(LineAt(s.lines, n), d);
    } else if UniqueName(d) == UniqueName(next) {
      UniqueNamesDiffer(d, next);
    }
  }

  lemma GainsBySuccession(s: State, c: ClientId, d: ClientId)
    requires Structure(s)
    ensures Gains(s.lines, Departed(s.lines, c), d) <==> UniqueName(d) in Successors(Handovers(s.lines, c, s.lines.Keys))
  {
    var hs, after := Handovers(s.lines, c, s.lines.Keys), Departed(s.lines, c);
    forall n | n in after
      ensures Heads(after[n], d) && !Heads(s.lines[n], d)
              <==> n in hs && hs[n].Some? && hs[n].value.1 == UniqueName(d)
    {
      SucceedsAt(s, c, n, d);
    }
    forall n | n in hs && hs[n].Some? ensures n in after {
    }
  }

  lemma SucceedsAt(s: State, c: ClientId, n: string, d: ClientId)
    requires Structure(s) && n in Departed(s.lines, c)
    ensures var hs, after := Handovers(s.lines, c, s.lines.Keys), Departed(s.lines, c);
            Heads(after[n], d) && !Heads(s.lines[n], d)
            <==> n in hs && hs[n].Some? && hs[n].value.1 == UniqueName(d)
  {
    var line, w := s.lines[n], Without(s.lines[n], c);
    WithoutNamed(line, c);
    assert w[0].uniqueName == UniqueName(w[0].client);
    if UniqueName(w[0].client) == UniqueName(d) { UniqueNamesDiffer(w[0].client, d); }
    if Heads(line, c) {
      AloneIsEmptied(line, c);
      assert w == line[1..] && w[0].client == line[1].client != c;
    } else {
      WithoutKeepsHead(line, c);
    }
  }

  lemma NoSelfSuccession(s: State, c: ClientId)
    requires Structure(s)
    ensures UniqueName(c) !in Successors(Handovers(s.lines, c, s.lines.Keys))
  {
    HandoversSound(s.lines, c);
    NoneSucceedsItself(Handovers(s.lines, c, s.lines.Keys), UniqueName(c));
  }

  lemma HeadsReported(lines: Lines, c: ClientId)
    ensures HeadsSome(lines, c) <==> Handovers(lines, c, lines.Keys) != map[]
  {
    var hs := Handovers(lines, c, lines.Keys);
    if hs != map[] {
      var n :| n in hs;
      assert Heads(lines[n], c);
    }
    forall n | n in lines && Heads(lines[n], c) ensures n in hs {
    }
  }

  lemma GoneHeads(s: State, c: ClientId)
    ensures Gone(s, c) != {} ==> HeadsSome(s.lines, c)
  {
    if Gone(s, c) != {} {
      var n :| n in Gone(s, c);
      assert Heads(s.lines[n], c);
    }
  }

  lemma DisconnectRoutes(s: State, c: ClientId, failing: set<string>, failingAgain: set<string>, foreign: set<string>, d: ClientId)
    requires Inv(s, foreign)
    ensures RoutesFollow(s, Disconnect(c, failing, failingAgain), d)
  {
    var hs := Handovers(s.lines, c, s.lines.Keys);
    GainsBySuccession(s, c, d);
    NoSelfSuccession(s, c);
    GoneOwned(s, c);
    HeadsReported(s.lines, c);
    GoneHeads(s, c);
    if UniqueName(d) == UniqueName(c) { UniqueNamesDiffer(d, c); }
    RegistryRoutes(s, c, failing, failingAgain, d);
  }

  lemma RegistryRoutes(s: State, c: ClientId, failing: set<string>, failingAgain: set<string>, d: ClientId)
    requires Structure(s) && QueuesAgree(s.lines, s.clients)
    requires Gone(s, c) != {} ==> Handovers(s.lines, c, s.lines.Keys) != map[]
    requires UniqueName(c) !in Successors(Handovers(s.lines, c, s.lines.Keys))
    ensures var u, hs := UniqueName(d), Handovers(s.lines, c, s.lines.Keys);
            RouteFor(AfterDisconnect(s, c, failing, failingAgain).routes, u) ==
            if u in Successors(hs) then Container
            else if u == UniqueName(c) && hs != map[] then Host
            else RouteFor(s.routes, u)
  {
    GoneOwned(s, c);
  }

  /** A cooperating step sends a client's unique name to the container if it makes the
      client a primary, to the host if the client releases a name nobody else waits for or
      goes while a primary, and otherwise leaves it where it went. */
  lemma UniqueNameRoutes(s: State, step: Step, foreign: set<string>, d: ClientId)
    requires Inv(s, foreign) && Cooperates(s, step, foreign)
    ensures RoutesFollow(s, step, d)
  {
    match step
    case Connect => assert !Gains(s.lines, s.lines, d);
    case Request(c, n, flags, answer) => RequestRoutes(s, c, n, flags, answer, foreign, d);
    case Release(c, n, released) => ReleaseRoutes(s, c, n, released, foreign, d);
    case Disconnect(c, failing, failingAgain) => DisconnectRoutes(s, c, failing, failingAgain, foreign, d);
  }

  /** The state after client 1 connects and is granted two names. */
  function TwoNames(): State {
    var u, e := UniqueName(1), QueueEntry(1, UniqueName(1), false);
    State(2, map[1 := Client(u, {"a.b", "c.d"})], map["a.b" := [e], "c.d" := [e]],
          Routes({"a.b", "c.d"}, {}, {}, map[u := Container]), {"a.b", "c.d"})
  }

  lemma TwoNamesReached()
    ensures var owner := Next(Startup({}, {}, {}), Connect);
            Next(Next(owner, Request(1, "a.b", 0, Granted)), Request(1, "c.d", 0, Granted)) == TwoNames()
  {
    var u, e := UniqueName(1), QueueEntry(1, UniqueName(1), false);
    var one := Next(Next(Startup({}, {}, {}), Connect), Request(1, "a.b", 0, Granted));
    assert one.lines == map["a.b" := [e]];
    assert one.clients[1].owned == {"a.b"};
    assert one.clients == map[1 := Client(u, {"a.b"})];
    assert one.routes == Routes({"a.b"}, {}, {}, map[u := Container]);
    assert one == State(2, map[1 := Client(u, {"a.b"})], map["a.b" := [e]],
                        Routes({"a.b"}, {}, {}, map[u := Container]), {"a.b"});
    var two := Next(one, Request(1, "c.d", 0, Granted));
    assert two.lines == TwoNames().lines;
    assert two.clients[1].owned == {"a.b", "c.d"};
    assert two.clients == TwoNames().clients;
    assert two.routes == TwoNames().routes;
  }

  /** A client that owns two names and releases one is no longer routed to by its
      unique name, although it still is the primary of the other. */
  lemma ReleaseForgetsPrimary()
    ensures var end := Next(TwoNames(), Release(1, "a.b", true));
            Heads(LineAt(end.lines, "c.d"), 1) && RouteFor(end.routes, UniqueName(1)) == Host
  {
    var e := QueueEntry(1, UniqueName(1), false);
    assert Without([e], 1) == [];
  }
}
