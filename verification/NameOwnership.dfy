/** RequestName, ReleaseName and disconnect in the multiplexer
    (src/multiplexer.rs), where four stores must agree: the queues, each client's
    owned names, the routing table, and the names held on the container bus. */
module NameOwnership {
  import opened Basics
  import opened Decimal
  import opened NameQueues
  import opened Routing

  datatype Client = Client(uniqueName: string, owned: set<string>)

  /** How the container bus answers a forwarded RequestName: reply code 1 or 4, any
      other reply code, or an error. */
  datatype BusAnswer = Granted | Refused | Failed

  datatype State = State(nextId: ClientId, clients: map<ClientId, Client>, lines: Lines,
                         routes: Routes, upstream: set<string>)

  datatype Step =
    | Connect
    | Request(client: ClientId, name: string, flags: bv32, answer: BusAnswer)
    | Release(client: ClientId, name: string, released: bool)
    | Disconnect(client: ClientId, failing: set<string>, failingAgain: set<string>)

  function UniqueName(c: ClientId): (u: string)
    ensures u != "" && IsUniqueName(u)
  {
    ":mux." + Digits(c)
  }

  lemma UniqueNamesDiffer(c: ClientId, d: ClientId)
    requires UniqueName(c) == UniqueName(d)
    ensures c == d
  {
    assert UniqueName(c)[5..] == Digits(c) && UniqueName(d)[5..] == Digits(d);
    DigitsInjective(c, d);
  }

  // ---- the steps ----

  function Own(clients: map<ClientId, Client>, c: ClientId, n: string): map<ClientId, Client> {
    if c in clients then clients[c := clients[c].(owned := clients[c].owned + {n})] else clients
  }

  function Disown(clients: map<ClientId, Client>, c: ClientId, n: string): map<ClientId, Client> {
    if c in clients then clients[c := clients[c].(owned := clients[c].owned - {n})] else clients
  }

  /** The bus granted the name to the client called `u`. */
  function Acquire(s: State, c: ClientId, n: string, u: string): State {
    s.(routes := OwnerChanged(s.routes, Container, n, "", u), clients := Own(s.clients, c, n),
       upstream := s.upstream + {n})
  }

  function AfterRequest(s: State, c: ClientId, n: string, flags: bv32, answer: BusAnswer): State {
    if c !in s.clients then s
    else
      var u := s.clients[c].uniqueName;
      var lines := Requested(s.lines, n, Entry(c, u, flags), flags);
      if Heads(LineAt(s.lines, n), c) || !Heads(LineAt(lines, n), c) then s.(lines := lines)
      else match answer
        case Granted => Acquire(s.(lines := lines), c, n, u)
        case Refused => s.(lines := lines)
        case Failed => s.(lines := Released(lines, n, c))
  }

  /** The code sent back to the client; nothing for an unknown client, an error (None
      here too) when the bus call failed. */
  function RequestReply(s: State, c: ClientId, n: string, flags: bv32, answer: BusAnswer): Option<nat> {
    if c !in s.clients then None
    else
      var before := LineAt(s.lines, n);
      var after := LineAt(Requested(s.lines, n, Entry(c, s.clients[c].uniqueName, flags), flags), n);
      if answer.Failed? && Heads(after, c) && !Heads(before, c) then None else Some(RequestCode(before, after, c))
  }

  /** A waiter was promoted: the name stays on the bus and changes hands here. */
  function PassOn(s: State, c: ClientId, n: string, owner: Owner): State {
    s.(routes := OwnerChanged(s.routes, Container, n, "", owner.1),
       clients := Own(Disown(s.clients, c, n), owner.0, n))
  }

  /** The name was released on the bus. */
  function GiveUp(s: State, c: ClientId, n: string): State {
    s.(upstream := s.upstream - {n}, clients := Disown(s.clients, c, n),
       routes := if c in s.clients then OwnerChanged(s.routes, Container, n, s.clients[c].uniqueName, "") else s.routes)
  }

  function AfterRelease(s: State, c: ClientId, n: string, released: bool): State {
    var left := s.(lines := Released(s.lines, n, c));
    var owner := HeadOwner(LineAt(left.lines, n));
    if !Heads(LineAt(s.lines, n), c) then left.(clients := Disown(s.clients, c, n))
    else if owner.Some? then PassOn(left, c, n, owner.value)
    else if released then GiveUp(left, c, n)
    else left
  }

  function Passed(hs: HandoverMap): set<string> { set n | n in hs && hs[n].Some? }
  function Dropped(hs: HandoverMap): set<string> { set n | n in hs && hs[n].None? }
  function Successors(hs: HandoverMap): set<string> { set n | n in hs && hs[n].Some? :: hs[n].value.1 }
  function Inherited(hs: HandoverMap, k: ClientId): set<string> {
    set n | n in hs && hs[n].Some? && hs[n].value.0 == k
  }

  function Registry(unique: map<string, Route>, u: string, successors: set<string>): map<string, Route> {
    (unique - {u}) + (map x | x in successors :: Container)
  }

  function RegistryAfter(unique: map<string, Route>, u: string, hs: HandoverMap): map<string, Route> {
    if hs == map[] then unique else Registry(unique, u, Successors(hs))
  }

  /** Routes once the handovers of the client called `u` are carried out. */
  function Rerouted(r: Routes, u: string, hs: HandoverMap): Routes {
    r.(container := r.container + Passed(hs) - Dropped(hs),
       unique := RegistryAfter(r.unique, u, hs))
  }

  function Inheriting(clients: map<ClientId, Client>, hs: HandoverMap): map<ClientId, Client> {
    map k | k in clients :: clients[k].(owned := clients[k].owned + Inherited(hs, k))
  }

  function Forgotten(r: Routes, u: string, names: set<string>): Routes {
    if names == {} then r else r.(container := r.container - names, unique := r.unique - {u})
  }

  /** A name nobody else waits for is released upstream twice: as a change reported by
      the queues, which fails for the names in `failing`, and again as an owned name left
      over, which fails for those in `failingAgain`. */
  function AfterDisconnect(s: State, c: ClientId, failing: set<string>, failingAgain: set<string>): State {
    var hs := Handovers(s.lines, c, s.lines.Keys);
    var lines := Departed(s.lines, c);
    var owned := if c in s.clients then s.clients[c].owned else {};
    var leftover := set n | n in owned && n !in lines;
    s.(clients := Inheriting(s.clients - {c}, hs), lines := lines,
       routes := Forgotten(Rerouted(s.routes, UniqueName(c), hs), UniqueName(c), leftover),
       upstream := s.upstream - (Dropped(hs) - failing) - (leftover - failingAgain))
  }

  function Next(s: State, step: Step): State {
    match step
    case Connect =>
      s.(nextId := s.nextId + 1, clients := s.clients[s.nextId := Client(UniqueName(s.nextId), {})])
    case Request(c, n, flags, answer) => AfterRequest(s, c, n, flags, answer)
    case Release(c, n, released) => AfterRelease(s, c, n, released)
    case Disconnect(c, failing, failingAgain) => AfterDisconnect(s, c, failing, failingAgain)
  }

  // ---- the handlers ----

  /** Unique names are the ones issued with the client ids. */
  ghost predicate NamedClients(clients: map<ClientId, Client>) {
    forall c :: c in clients ==> clients[c].uniqueName == UniqueName(c)
  }

  ghost predicate NamedLine(line: Line) {
    forall i :: 0 <= i < |line| ==> line[i].uniqueName == UniqueName(line[i].client)
  }

  ghost predicate NamedLines(lines: Lines) {
    forall n :: n in lines ==> NamedLine(lines[n])
  }

  class Multiplexer {
    var nextId: ClientId
    var clients: map<ClientId, Client>
    const nameQueue: NameQueueManager
    const routingTable: RoutingTable
    var upstream: set<string>  // names the connection holds on the container bus

    ghost function Value(): State
      reads this, nameQueue, routingTable
    {
      State(nextId, clients, nameQueue.Value(), routingTable.Value(), upstream)
    }

    ghost predicate Valid()
      reads this, nameQueue
    {
      nameQueue.Valid() && NamedClients(clients) && NamedLines(nameQueue.Value())
    }

    constructor ()
      ensures Valid() && fresh(nameQueue) && fresh(routingTable)
      ensures Value() == State(1, map[], map[], NO_ROUTES, {})
    {
      nextId, clients, upstream := 1, map[], {};
      nameQueue := new NameQueueManager();
      routingTable := new RoutingTable();
    }

    /** Registration of a freshly accepted client under the next issued id. */
    method RegisterClient() returns (c: ClientId)
      requires Valid()
      modifies this`nextId, this`clients
      ensures Valid() && Value() == Next(old(Value()), Connect) && c == old(nextId)
    {
      c := nextId;
      nextId := nextId + 1;
      clients := clients[c := Client(UniqueName(c), {})];
    }

    method HandleRequestName(c: ClientId, name: string, flags: bv32, answer: BusAnswer) returns (reply: Option<nat>)
      requires Valid()
      modifies this`clients, this`upstream, nameQueue, routingTable
      ensures Valid() && Value() == Next(old(Value()), Request(c, name, flags, answer))
      ensures reply == RequestReply(old(Value()), c, name, flags, answer)
    {
      if c !in clients {
        return None;
      }
      var uniqueName := clients[c].uniqueName;
      ghost var lines := nameQueue.Value();
      var queueResult := nameQueue.RequestName(name, c, uniqueName, flags);
      RequestedNamed(lines, name, c, flags);
      reply := Some(queueResult.replyCode);
      if queueResult.forwardToBus {
        match answer {
          case Granted =>
            AcquireName(c, name, uniqueName);
          case Refused =>
          case Failed =>
            ghost var requested := nameQueue.Value();
            var _ := nameQueue.ReleaseName(name, c);
            ReleasedNamed(requested, name, c);
            reply := None;
        }
      }
    }

    method HandleReleaseName(c: ClientId, name: string, released: bool) returns (replyCode: nat)
      requires Valid()
      modifies this`clients, this`upstream, nameQueue, routingTable
      ensures Valid() && Value() == Next(old(Value()), Release(c, name, released))
      ensures replyCode == ReleaseCode(LineAt(old(nameQueue.Value()), name), c)
    {
      ghost var lines := nameQueue.Value();
      var queueResult := nameQueue.ReleaseName(name, c);
      ReleasedNamed(lines, name, c);
      if queueResult.newOwner.Some? {
        PassNameOn(c, name, queueResult.newOwner.value);
      } else if queueResult.forwardToBus {
        if released { GiveNameUp(c, name); }
      } else {
        LeaveQueue(c, name);
      }
      replyCode := queueResult.replyCode;
    }

    method AcquireName(c: ClientId, name: string, uniqueName: string)
      requires Valid() && c in clients
      modifies this`clients, this`upstream, routingTable
      ensures Valid() && Value() == Acquire(old(Value()), c, name, uniqueName)
    {
      upstream := upstream + {name};
      routingTable.OnContainerNameChange(name, "", uniqueName);
      clients := Own(clients, c, name);
    }

    method PassNameOn(c: ClientId, name: string, newOwner: Owner)
      requires Valid()
      modifies this`clients, routingTable
      ensures Valid() && Value() == PassOn(old(Value()), c, name, newOwner)
    {
      routingTable.OnContainerNameChange(name, "", newOwner.1);
      clients := Own(Disown(clients, c, name), newOwner.0, name);
    }

    method GiveNameUp(c: ClientId, name: string)
      requires Valid()
      modifies this`clients, this`upstream, routingTable
      ensures Valid() && Value() == GiveUp(old(Value()), c, name)
    {
      upstream := upstream - {name};
      if c in clients {
        routingTable.OnContainerNameChange(name, clients[c].uniqueName, "");
      }
      clients := Disown(clients, c, name);
    }

    method LeaveQueue(c: ClientId, name: string)
      requires Valid()
      modifies this`clients
      ensures Valid() && Value() == old(Value()).(clients := Disown(old(clients), c, name))
    {
      clients := Disown(clients, c, name);
    }

    /** The handovers are carried out in the order the queues reported them, and
        the owned names in any order. */
    method HandleDisconnect(c: ClientId, failing: set<string>, failingAgain: set<string>)
      requires Valid()
      modifies this`clients, this`upstream, nameQueue, routingTable
      ensures Valid() && Value() == Next(old(Value()), Disconnect(c, failing, failingAgain))
    {
      var uniqueName := UniqueName(c);
      ghost var s := Value();
      var owned := if c in clients then clients[c].owned else {};
      clients := clients - {c};
      var results := nameQueue.RemoveClient(c);
      ghost var hs := Handovers(s.lines, c, s.lines.Keys);
      DepartedNamed(s.lines, c);
      HandoversSound(s.lines, c);
      CarryOutAll(s, results, c, failing);
      ReleaseLeftovers(owned, uniqueName, failingAgain);
    }

    /** One ownership change from the queues: hand the name over or release it. */
    method CarryOut(ghost s: State, ghost done: HandoverMap, name: string, newOwner: Option<Owner>,
                    c: ClientId, failing: set<string>)
      requires name !in done && Sound(done[name := newOwner], UniqueName(c))
      requires Progress(s, c, failing, done, clients, routingTable.Value(), upstream)
      modifies this`clients, this`upstream, routingTable
      ensures Progress(s, c, failing, done[name := newOwner], clients, routingTable.Value(), upstream)
    {
      ProgressOne(s, c, failing, done, name, newOwner);
      var uniqueName := UniqueName(c);
      if newOwner.Some? {
        var (newOwnerId, newOwnerName) := newOwner.value;
        routingTable.OnContainerNameChange(name, uniqueName, newOwnerName);
        clients := Own(clients, newOwnerId, name);
      } else {
        routingTable.OnContainerNameChange(name, uniqueName, "");
        if name !in failing { upstream := upstream - {name}; }
      }
    }

    method CarryOutAll(ghost s: State, results: seq<Handover>, c: ClientId, failing: set<string>)
      requires |ToMap(results)| == |results| && Sound(ToMap(results), UniqueName(c))
      requires clients == s.clients - {c} && routingTable.Value() == s.routes && upstream == s.upstream
      modifies this`clients, this`upstream, routingTable
      ensures Progress(s, c, failing, ToMap(results), clients, routingTable.Value(), upstream)
    {
      ProgressNone(s, c, failing);
      for i := 0 to |results|
        invariant Progress(s, c, failing, ToMap(results[..i]), clients, routingTable.Value(), upstream)
      {
        PrefixSound(results, i, UniqueName(c));
        CarryOut(s, ToMap(results[..i]), results[i].0, results[i].1, c, failing);
      }
      assert results[..|results|] == results;
    }

    /** Names tracked as owned that no queue holds any more. */
    method ReleaseLeftovers(owned: set<string>, uniqueName: string, failing: set<string>)
      requires nameQueue.Valid() && uniqueName != ""
      modifies this`upstream, routingTable
      ensures var leftover := set n | n in owned && n !in nameQueue.Value();
              && routingTable.Value() == Forgotten(old(routingTable.Value()), uniqueName, leftover)
              && upstream == old(upstream) - (leftover - failing)
    {
      var todo := owned;
      ghost var done: set<string> := {};
      while todo != {}
        invariant todo <= owned && done == set n | n in owned - todo && n !in nameQueue.Value()
        invariant routingTable.Value() == Forgotten(old(routingTable.Value()), uniqueName, done)
        invariant upstream == old(upstream) - (done - failing)
      {
        var name :| name in todo;
        todo := todo - {name};
        var taken := nameQueue.NameHasOwner(name);
        if !taken {
          routingTable.OnContainerNameChange(name, uniqueName, "");
          if name !in failing { upstream := upstream - {name}; }
          done := done + {name};
        }
      }
      assert done == set n | n in owned && n !in nameQueue.Value();
    }
  }

  lemma RequestedNamed(lines: Lines, n: string, c: ClientId, flags: bv32)
    requires NamedLines(lines)
    ensures NamedLines(Requested(lines, n, Entry(c, UniqueName(c), flags), flags))
  {
  }

  lemma WithoutNamed(line: Line, c: ClientId)
    requires NamedLine(line)
    ensures NamedLine(Without(line, c))
  {
    WithoutMembers(line, c);
    var w := Without(line, c);
    forall i | 0 <= i < |w| ensures w[i].uniqueName == UniqueName(w[i].client) {
      assert w[i] in line;
    }
  }

  lemma ReleasedNamed(lines: Lines, n: string, c: ClientId)
    requires NamedLines(lines)
    ensures NamedLines(Released(lines, n, c))
  {
    WithoutNamed(LineAt(lines, n), c);
  }

  lemma DepartedNamed(lines: Lines, c: ClientId)
    requires NamedLines(lines)
    ensures NamedLines(Departed(lines, c))
  {
    forall n | n in lines ensures NamedLine(Without(lines[n], c)) {
      WithoutNamed(lines[n], c);
    }
  }

  /** Nothing is handed to the departing client. */
  ghost predicate Sound(hs: HandoverMap, u: string) {
    forall n :: n in hs && hs[n].Some? ==> hs[n].value.1 != u && hs[n].value.1 != ""
  }

  lemma HandoversSound(lines: Lines, c: ClientId)
    requires NamedLines(lines)
    ensures Sound(Handovers(lines, c, lines.Keys), UniqueName(c))
  {
    var hs := Handovers(lines, c, lines.Keys);
    forall n | n in hs && hs[n].Some? ensures hs[n].value.1 != UniqueName(c) && hs[n].value.1 != "" {
      var w := Without(lines[n], c);
      WithoutNamed(lines[n], c);
      WithoutMembers(lines[n], c);
      assert w[0] in w;
      if w[0].uniqueName == UniqueName(c) { UniqueNamesDiffer(w[0].client, c); }
    }
  }

  /** The stores part-way through a disconnect, with `done` carried out. */
  ghost predicate Progress(s: State, c: ClientId, failing: set<string>, done: HandoverMap,
                           clients: map<ClientId, Client>, routes: Routes, upstream: set<string>)
  {
    && Sound(done, UniqueName(c))
    && clients == Inheriting(s.clients - {c}, done)
    && routes == Rerouted(s.routes, UniqueName(c), done)
    && upstream == s.upstream - (Dropped(done) - failing)
  }

  lemma {:induction false} PrefixSound(results: seq<Handover>, i: nat, u: string)
    requires |ToMap(results)| == |results| && Sound(ToMap(results), u) && i < |results|
    ensures results[i].0 !in ToMap(results[..i])
    ensures ToMap(results[..i + 1]) == ToMap(results[..i])[results[i].0 := results[i].1]
    ensures Sound(ToMap(results[..i]), u) && Sound(ToMap(results[..i + 1]), u)
  {
    var k := |results| - 1;
    NoRepeats(results, k);
    ToMapSize(results[..k]);
    assert Sound(ToMap(results[..k]), u) by {
      forall n | n in ToMap(results[..k]) ensures ToMap(results)[n] == ToMap(results[..k])[n] {
      }
    }
    if i == k {
      assert results[..i + 1] == results;
    } else {
      PrefixSound(results[..k], i, u);
      assert results[..k][..i] == results[..i] && results[..k][..i + 1] == results[..i + 1];
    }
  }

  lemma SuccessorsGrow(done: HandoverMap, n: string, owner: Option<Owner>)
    requires n !in done
    ensures Successors(done[n := owner]) ==
            if owner.Some? then Successors(done) + {owner.value.1} else Successors(done)
  {
    var all := done[n := owner];
    assert n in all && all[n] == owner;
    forall y | y in Successors(done) ensures y in Successors(all) {
      var m :| m in done && done[m].Some? && done[m].value.1 == y;
      assert m in all && all[m] == done[m];
    }
  }

  lemma ReroutedOne(r: Routes, u: string, done: HandoverMap, n: string, owner: Option<Owner>)
    requires Sound(done[n := owner], u) && Sound(done, u) && n !in done && u != ""
    ensures OwnerChanged(Rerouted(r, u, done), Container, n, u, if owner.Some? then owner.value.1 else "")
         == Rerouted(r, u, done[n := owner])
  {
    RegistryGrows(r.unique, u, done, n, owner);
    assert done[n := owner][n] == owner;
    ContainerOne(r.container, done, n, owner);
  }

  lemma NoneSucceedsItself(done: HandoverMap, u: string)
    requires Sound(done, u)
    ensures u !in Successors(done)
  {
  }

  lemma RegistryGrows(unique: map<string, Route>, u: string, done: HandoverMap, n: string, owner: Option<Owner>)
    requires Sound(done[n := owner], u) && Sound(done, u) && n !in done && u != ""
    ensures Reregister(RegistryAfter(unique, u, done), u, if owner.Some? then owner.value.1 else "", Container)
         == RegistryAfter(unique, u, done[n := owner])
  {
    var all := done[n := owner];
    assert n in all && all[n] == owner;
    SuccessorsGrow(done, n, owner);
    NoneSucceedsItself(done, u);
    if done == map[] {
      assert Successors(done) == {};
      RegistryFirst(unique, u, if owner.Some? then owner.value.1 else "");
    } else {
      RegistryOne(unique, u, Successors(done), if owner.Some? then owner.value.1 else "");
    }
  }

  lemma ContainerOne(names: set<string>, done: HandoverMap, n: string, owner: Option<Owner>)
    requires n !in done
    requires owner.Some? ==> owner.value.1 != ""
    ensures var all := done[n := owner];
            NamesAfter(names + Passed(done) - Dropped(done), n, if owner.Some? then owner.value.1 else "")
            == names + Passed(all) - Dropped(all)
  {
  }

  lemma RegistryFirst(unique: map<string, Route>, u: string, x: string)
    requires x != u && u != ""
    ensures Reregister(unique, u, x, Container) == Registry(unique, u, if x == "" then {} else {x})
  {
  }

  lemma RegistryOne(unique: map<string, Route>, u: string, successors: set<string>, x: string)
    requires u !in successors && x != u && u != ""
    ensures Reregister(Registry(unique, u, successors), u, x, Container) ==
            Registry(unique, u, if x == "" then successors else successors + {x})
  {
    assert Registry(unique, u, successors) - {u} == Registry(unique, u, successors);
  }

  lemma InheritedOne(done: HandoverMap, n: string, owner: Option<Owner>, k: ClientId)
    requires n !in done
    ensures Inherited(done[n := owner], k) ==
            if owner.Some? && owner.value.0 == k then Inherited(done, k) + {n} else Inherited(done, k)
  {
  }

  lemma InheritingOne(clients: map<ClientId, Client>, done: HandoverMap, n: string, owner: Option<Owner>)
    requires n !in done
    ensures Inheriting(clients, done[n := owner]) ==
            if owner.Some? then Own(Inheriting(clients, done), owner.value.0, n) else Inheriting(clients, done)
  {
    var all := Inheriting(clients, done[n := owner]);
    var one := if owner.Some? then Own(Inheriting(clients, done), owner.value.0, n) else Inheriting(clients, done);
    forall k | k in clients ensures all[k] == one[k] {
      InheritedOne(done, n, owner, k);
    }
  }

  lemma DroppedOne(upstream: set<string>, failing: set<string>, done: HandoverMap, n: string, owner: Option<Owner>)
    requires n !in done
    ensures upstream - (Dropped(done[n := owner]) - failing) ==
            if owner.None? && n !in failing then upstream - (Dropped(done) - failing) - {n}
            else upstream - (Dropped(done) - failing)
  {
    assert Dropped(done[n := owner]) == if owner.None? then Dropped(done) + {n} else Dropped(done);
  }

  lemma ProgressOne(s: State, c: ClientId, failing: set<string>, done: HandoverMap, n: string, owner: Option<Owner>)
    requires Sound(done[n := owner], UniqueName(c)) && Sound(done, UniqueName(c)) && n !in done
    ensures
      var u := UniqueName(c);
      var clients := Inheriting(s.clients - {c}, done);
      var upstream := s.upstream - (Dropped(done) - failing);
      Progress(s, c, failing, done[n := owner],
               if owner.Some? then Own(clients, owner.value.0, n) else clients,
               OwnerChanged(Rerouted(s.routes, u, done), Container, n, u, if owner.Some? then owner.value.1 else ""),
               if owner.None? && n !in failing then upstream - {n} else upstream)
  {
    ReroutedOne(s.routes, UniqueName(c), done, n, owner);
    InheritingOne(s.clients - {c}, done, n, owner);
    DroppedOne(s.upstream, failing, done, n, owner);
  }

  lemma ProgressNone(s: State, c: ClientId, failing: set<string>)
    ensures Progress(s, c, failing, map[], s.clients - {c}, s.routes, s.upstream)
  {
    var clients := s.clients - {c};
    forall k | k in clients ensures clients[k].owned + Inherited(map[], k) == clients[k].owned {
    }
    assert s.routes.container + Passed(map[]) - Dropped(map[]) == s.routes.container;
  }
}
