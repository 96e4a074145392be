/** Name ownership queues (src/name_queue.rs).

    A queue is stored as an optional primary owner and a deque of waiters; its
    abstract value is the single line `[primary] + waiters`, and the manager's
    abstract value maps every name that has an owner to its line. */
module NameQueues {
  import opened Basics

  type ClientId = nat

  const ALLOW_REPLACEMENT: bv32 := 0x1
  const REPLACE_EXISTING: bv32 := 0x2
  const DO_NOT_QUEUE: bv32 := 0x4

  const PRIMARY_OWNER := 1
  const IN_QUEUE := 2
  const EXISTS := 3
  const ALREADY_OWNER := 4

  const RELEASED := 1
  const NON_EXISTENT := 2
  const NOT_OWNER := 3

  datatype QueueEntry = QueueEntry(client: ClientId, uniqueName: string, allowReplacement: bool)

  type Line = seq<QueueEntry>
  type Lines = map<string, Line>
  type Owner = (ClientId, string)

  datatype RequestResult =
    RequestResult(replyCode: nat, forwardToBus: bool, replacedOwner: Option<string>)
  datatype ReleaseResult =
    ReleaseResult(replyCode: nat, forwardToBus: bool, newOwner: Option<Owner>)

  // ---- lines ----

  predicate Queued(line: Line, c: ClientId) {
    exists i :: 0 <= i < |line| && line[i].client == c
  }

  predicate Heads(line: Line, c: ClientId) {
    line != [] && line[0].client == c
  }

  predicate Distinct(line: Line) {
    forall i, j :: 0 <= i < j < |line| ==> line[i].client != line[j].client
  }

  /** `retain(|e| e.client_id != c)` */
  function Without(line: Line, c: ClientId): (r: Line)
    ensures |r| <= |line|
  {
    if line == [] then []
    else if line[0].client == c then Without(line[1..], c)
    else [line[0]] + Without(line[1..], c)
  }

  function HeadOwner(line: Line): Option<Owner> {
    if line == [] then None else Some((line[0].client, line[0].uniqueName))
  }

  /** Where a request leaves the line: newcomers append, or prepend when they ask
      for replacement and the head allowed it. */
  function Join(line: Line, e: QueueEntry, flags: bv32): (r: Line)
    ensures r == line || r == line + [e] || r == [e] + line
  {
    if Queued(line, e.client) then line
    else if line == [] then [e]
    else if flags & REPLACE_EXISTING != 0 && line[0].allowReplacement then [e] + line
    else if flags & DO_NOT_QUEUE != 0 then line
    else line + [e]
  }

  function Entry(c: ClientId, uniqueName: string, flags: bv32): QueueEntry {
    QueueEntry(c, uniqueName, flags & ALLOW_REPLACEMENT != 0)
  }

  /** The reply code of a request, read off the line before and after it. */
  function RequestCode(before: Line, after: Line, c: ClientId): nat {
    if Heads(before, c) then ALREADY_OWNER
    else if Heads(after, c) then PRIMARY_OWNER
    else if Queued(after, c) then IN_QUEUE
    else EXISTS
  }

  function ReleaseCode(before: Line, c: ClientId): nat {
    if before == [] then NON_EXISTENT else if Queued(before, c) then RELEASED else NOT_OWNER
  }

  // ---- all lines ----

  /** No entry without a primary, and no client twice in a line. */
  ghost predicate WellFormed(lines: Lines) {
    forall n :: n in lines ==> lines[n] != [] && Distinct(lines[n])
  }

  function LineAt(lines: Lines, n: string): Line {
    if n in lines then lines[n] else []
  }

  function SetLine(lines: Lines, n: string, line: Line): Lines {
    if line == [] then lines - {n} else lines[n := line]
  }

  function Requested(lines: Lines, n: string, e: QueueEntry, flags: bv32): Lines {
    SetLine(lines, n, Join(LineAt(lines, n), e, flags))
  }

  function Released(lines: Lines, n: string, c: ClientId): Lines {
    SetLine(lines, n, Without(LineAt(lines, n), c))
  }

  function Departed(lines: Lines, c: ClientId): Lines {
    map n | n in lines && Without(lines[n], c) != [] :: Without(lines[n], c)
  }

  type Handover = (string, Option<Owner>)
  type HandoverMap = map<string, Option<Owner>>

  /** What a departure reports: each name the client headed, with the owner that
      heads it afterwards. */
  function Handovers(lines: Lines, c: ClientId, among: set<string>): HandoverMap {
    map n | n in among && n in lines && Heads(lines[n], c) :: HeadOwner(Without(lines[n], c))
  }

  function ToMap(report: seq<Handover>): HandoverMap {
    if report == [] then map[]
    else var k := |report| - 1; ToMap(report[..k])[report[k].0 := report[k].1]
  }

  /** The report lists the handovers, each once. */
  ghost predicate Lists(report: seq<Handover>, handovers: HandoverMap) {
    ToMap(report) == handovers && |report| == |handovers|
  }

  // ---- facts about lines ----

  lemma {:induction false} WithoutMembers(line: Line, c: ClientId)
    ensures forall e :: e in Without(line, c) <==> e in line && e.client != c
  {
    if line == [] {
    } else {
      WithoutMembers(line[1..], c);
      assert line == [line[0]] + line[1..];
    }
  }

  lemma {:induction false} WithoutAbsent(line: Line, c: ClientId)
    requires !Queued(line, c)
    ensures Without(line, c) == line
  {
    if line == [] {
    } else {
      assert line[0].client != c;
      forall i | 0 <= i < |line[1..]| ensures line[1..][i].client != c {
        assert line[1..][i] == line[i + 1];
      }
      WithoutAbsent(line[1..], c);
    }
  }

  lemma {:induction false} WithoutShrinks(line: Line, c: ClientId)
    ensures |Without(line, c)| < |line| <==> Queued(line, c)
    ensures !Queued(Without(line, c), c)
  {
    if Queued(line, c) {
      var i :| 0 <= i < |line| && line[i].client == c;
      if line[0].client != c {
        assert line[1..][i - 1] == line[i];
        WithoutShrinks(line[1..], c);
      }
    } else {
      WithoutAbsent(line, c);
    }
    WithoutMembers(line, c);
    var r := Without(line, c);
    forall k | 0 <= k < |r| ensures r[k].client != c {
      assert r[k] in r;
    }
  }

  /** In a line of distinct clients, dropping the head is the same as filtering
      its client out. */
  lemma WithoutHead(line: Line, c: ClientId)
    requires Distinct(line) && Heads(line, c)
    ensures Without(line, c) == line[1..]
  {
    assert !Queued(line[1..], c) by {
      forall i | 0 <= i < |line[1..]| ensures line[1..][i].client != c {
        assert line[1..][i] == line[i + 1];
      }
    }
    WithoutAbsent(line[1..], c);
  }

  lemma DistinctTail(line: Line)
    requires Distinct(line) && line != []
    ensures Distinct(line[1..]) && !Queued(line[1..], line[0].client)
  {
    var rest := line[1..];
    forall i, j | 0 <= i < j < |rest| ensures rest[i].client != rest[j].client {
      assert rest[i] == line[i + 1] && rest[j] == line[j + 1];
    }
    forall j | 0 <= j < |rest| ensures rest[j].client != line[0].client {
      assert rest[j] == line[j + 1];
    }
  }

  lemma DistinctCons(e: QueueEntry, rest: Line)
    requires Distinct(rest) && !Queued(rest, e.client)
    ensures Distinct([e] + rest)
  {
  }

  lemma WithoutQueues(line: Line, c: ClientId, d: ClientId)
    requires Queued(Without(line, c), d)
    ensures Queued(line, d)
  {
    WithoutMembers(line, c);
    var w := Without(line, c);
    var i :| 0 <= i < |w| && w[i].client == d;
    assert w[i] in line;
  }

  lemma {:induction false} WithoutDistinct(line: Line, c: ClientId)
    requires Distinct(line)
    ensures Distinct(Without(line, c))
  {
    if line == [] {
    } else {
      var e, rest := line[0], line[1..];
      DistinctTail(line);
      WithoutDistinct(rest, c);
      if Queued(Without(rest, c), e.client) { WithoutQueues(rest, c, e.client); }
      DistinctCons(e, Without(rest, c));
    }
  }

  lemma WithoutKeepsHead(line: Line, c: ClientId)
    requires line != [] && !Heads(line, c)
    ensures Without(line, c) == [line[0]] + Without(line[1..], c)
  {
  }

  lemma JoinDistinct(line: Line, e: QueueEntry, flags: bv32)
    requires Distinct(line)
    ensures Distinct(Join(line, e, flags)) && Join(line, e, flags) != []
  {
  }

  // ---- the manager ----

  datatype NameQueue = NameQueue(primaryOwner: Option<QueueEntry>, waiters: seq<QueueEntry>) {
    function Value(): Line {
      (if primaryOwner.Some? then [primaryOwner.value] else []) + waiters
    }

    predicate IsPrimaryOwner(c: ClientId) {
      primaryOwner.Some? && primaryOwner.value.client == c
    }

    predicate ContainsClient(c: ClientId) {
      IsPrimaryOwner(c) || exists i :: 0 <= i < |waiters| && waiters[i].client == c
    }

    /** Unique names of everyone in line, the primary first. */
    function AllOwners(): (r: seq<string>)
      ensures |r| == |Value()| && forall i :: 0 <= i < |r| ==> r[i] == Value()[i].uniqueName
    {
      (if primaryOwner.Some? then [primaryOwner.value.uniqueName] else [])
      + seq(|waiters|, i requires 0 <= i < |waiters| => waiters[i].uniqueName)
    }
  }

  lemma ContainsIsQueued(q: NameQueue, c: ClientId)
    ensures q.ContainsClient(c) <==> Queued(q.Value(), c)
  {
    var v, k := q.Value(), if q.primaryOwner.Some? then 1 else 0;
    if q.IsPrimaryOwner(c) {
      assert v[0].client == c;
    } else if q.ContainsClient(c) {
      var i :| 0 <= i < |q.waiters| && q.waiters[i].client == c;
      assert v[i + k] == q.waiters[i];
    }
    if Queued(v, c) {
      var i :| 0 <= i < |v| && v[i].client == c;
      if i >= k { assert q.waiters[i - k] == v[i]; }
    }
  }

  /** A departing client's effect on one queue: promote the next waiter, or drop
      it from the waiters. */
  function DropFrom(q: NameQueue, c: ClientId): NameQueue {
    if q.IsPrimaryOwner(c) then
      if q.waiters != [] then NameQueue(Some(q.waiters[0]), q.waiters[1..]) else NameQueue(None, [])
    else
      q.(waiters := Without(q.waiters, c))
  }

  lemma DropFromValue(q: NameQueue, c: ClientId)
    requires q.primaryOwner.Some? && Distinct(q.Value())
    ensures DropFrom(q, c).Value() == Without(q.Value(), c)
    ensures Distinct(Without(q.Value(), c))
    ensures DropFrom(q, c).primaryOwner.None? <==> Without(q.Value(), c) == []
  {
    var line := q.Value();
    assert line[1..] == q.waiters;
    WithoutDistinct(line, c);
    if q.IsPrimaryOwner(c) {
      WithoutHead(line, c);
    } else {
      WithoutKeepsHead(line, c);
    }
  }

  ghost function Values(queues: map<string, NameQueue>): Lines {
    map n | n in queues :: queues[n].Value()
  }

  ghost predicate Stored(queues: map<string, NameQueue>) {
    forall n :: n in queues ==> queues[n].primaryOwner.Some? && Distinct(queues[n].Value())
  }

  lemma StoreQueue(queues: map<string, NameQueue>, name: string, q: NameQueue)
    requires Stored(queues) && q.primaryOwner.Some? && Distinct(q.Value())
    ensures Stored(queues[name := q]) && q.Value() != []
    ensures Values(queues[name := q]) == SetLine(Values(queues), name, q.Value())
  {
  }

  /** Part-way through a departure: the queues in `done` are visited. */
  ghost predicate Visited(was: map<string, NameQueue>, queues: map<string, NameQueue>,
                          todo: set<string>, done: set<string>, c: ClientId)
  {
    && queues.Keys == was.Keys == todo + done && todo !! done
    && (forall n :: n in todo ==> queues[n] == was[n])
    && (forall n :: n in done ==> queues[n] == DropFrom(was[n], c))
  }

  lemma VisitedOne(was: map<string, NameQueue>, queues: map<string, NameQueue>,
                   todo: set<string>, done: set<string>, c: ClientId, name: string)
    requires Visited(was, queues, todo, done, c) && name in todo
    ensures queues[name] == was[name]
    ensures Visited(was, queues[name := DropFrom(was[name], c)], todo - {name}, done + {name}, c)
  {
  }

  class NameQueueManager {
    var queues: map<string, NameQueue>

    ghost function Value(): Lines
      reads this
    {
      Values(queues)
    }

    ghost predicate Valid()
      reads this
      ensures Valid() ==> WellFormed(Value())
    {
      Stored(queues)
    }

    constructor ()
      ensures Valid() && Value() == map[]
    {
      queues := map[];
    }

    method RequestName(name: string, c: ClientId, uniqueName: string, flags: bv32) returns (r: RequestResult)
      requires Valid()
      modifies this
      ensures Valid()
      ensures Value() == Requested(old(Value()), name, Entry(c, uniqueName, flags), flags)
      ensures var before, after := LineAt(old(Value()), name), LineAt(Value(), name);
              && r.replyCode == RequestCode(before, after, c)
              && r.forwardToBus == (Heads(after, c) && !Heads(before, c))
              && r.replacedOwner == (if r.forwardToBus && before != [] then Some(before[0].uniqueName) else None)
    {
      ghost var lines := Value();
      ghost var line := LineAt(lines, name);
      var entry := Entry(c, uniqueName, flags);
      JoinDistinct(line, entry, flags);
      var queue := if name in queues then queues[name] else NameQueue(None, []);
      assert queue.Value() == line;
      ContainsIsQueued(queue, c);
      if queue.IsPrimaryOwner(c) {
        assert Requested(lines, name, entry, flags) == lines;
        return RequestResult(ALREADY_OWNER, false, None);
      }
      if queue.ContainsClient(c) {
        assert Requested(lines, name, entry, flags) == lines;
        return RequestResult(IN_QUEUE, false, None);
      }
      if queue.primaryOwner.None? {
        queues := queues[name := queue.(primaryOwner := Some(entry))];
        assert queues[name].Value() == [entry];
        StoreQueue(old(queues), name, queues[name]);
        return RequestResult(PRIMARY_OWNER, true, None);
      }
      var current := queue.primaryOwner.value;
      if flags & REPLACE_EXISTING != 0 && current.allowReplacement {
        queues := queues[name := NameQueue(Some(entry), [current] + queue.waiters)];
        assert queues[name].Value() == [entry] + line;
        StoreQueue(old(queues), name, queues[name]);
        return RequestResult(PRIMARY_OWNER, true, Some(current.uniqueName));
      }
      if flags & DO_NOT_QUEUE != 0 {
        assert Requested(lines, name, entry, flags) == lines;
        return RequestResult(EXISTS, false, None);
      }
      queues := queues[name := queue.(waiters := queue.waiters + [entry])];
      assert queues[name].Value() == line + [entry];
      StoreQueue(old(queues), name, queues[name]);
      assert (line + [entry])[|line|].client == c;
      r := RequestResult(IN_QUEUE, false, None);
    }

    method ReleaseName(name: string, c: ClientId) returns (r: ReleaseResult)
      requires Valid()
      modifies this
      ensures Valid()
      ensures Value() == Released(old(Value()), name, c)
      ensures var before, after := LineAt(old(Value()), name), LineAt(Value(), name);
              && r.replyCode == ReleaseCode(before, c)
              && r.forwardToBus == (Heads(before, c) && after == [])
              && r.newOwner == (if Heads(before, c) then HeadOwner(after) else None)
    {
      ghost var lines := Value();
      if name !in queues {
        assert Released(lines, name, c) == lines;
        return ReleaseResult(NON_EXISTENT, false, None);
      }
      var queue := queues[name];
      assert lines[name] == queue.Value();
      ContainsIsQueued(queue, c);
      DropFromValue(queue, c);
      if queue.IsPrimaryOwner(c) {
        if queue.waiters != [] {
          var next := queue.waiters[0];
          queues := queues[name := NameQueue(Some(next), queue.waiters[1..])];
          StoreQueue(old(queues), name, DropFrom(queue, c));
          return ReleaseResult(RELEASED, false, Some((next.client, next.uniqueName)));
        } else {
          queues := queues - {name};
          assert Value() == lines - {name};
          return ReleaseResult(RELEASED, true, None);
        }
      }
      var waiters := Without(queue.waiters, c);
      WithoutShrinks(queue.waiters, c);
      queues := queues[name := queue.(waiters := waiters)];
      StoreQueue(old(queues), name, DropFrom(queue, c));
      if |waiters| < |queue.waiters| {
        return ReleaseResult(RELEASED, false, None);
      }
      r := ReleaseResult(NOT_OWNER, false, None);
    }

    /** One turn of the disconnect loop. */
    method DropFromQueue(ghost was: map<string, NameQueue>, ghost todo: set<string>, ghost done: set<string>,
                         name: string, c: ClientId, results: seq<Handover>)
      returns (results': seq<Handover>)
      requires Stored(was) && name in todo
      requires Visited(was, queues, todo, done, c) && Lists(results, Handovers(Values(was), c, done))
      modifies this
      ensures Visited(was, queues, todo - {name}, done + {name}, c)
      ensures Lists(results', Handovers(Values(was), c, done + {name}))
    {
      DropFromValue(was[name], c);
      ListsGrow(results, Values(was), c, done, name);
      VisitedOne(was, queues, todo, done, c, name);
      results' := results;
      var queue := queues[name];
      if queue.IsPrimaryOwner(c) {
        var newOwner: Option<Owner> := None;
        if queue.waiters != [] {
          var next := queue.waiters[0];
          queues := queues[name := NameQueue(Some(next), queue.waiters[1..])];
          newOwner := Some((next.client, next.uniqueName));
        } else {
          queues := queues[name := NameQueue(None, [])];
        }
        results' := results + [(name, newOwner)];
      } else {
        queues := queues[name := queue.(waiters := Without(queue.waiters, c))];
      }
    }

    /** The disconnect loop; the names are visited in any order, as a hash map
        iterates. */
    method DropFromAll(c: ClientId) returns (results: seq<Handover>)
      requires Valid()
      modifies this
      ensures Visited(old(queues), queues, {}, old(queues).Keys, c)
      ensures Lists(results, Handovers(Values(old(queues)), c, old(queues).Keys))
    {
      ghost var was := queues;
      results := [];
      var todo := queues.Keys;
      ghost var done: set<string> := {};
      while todo != {}
        invariant Visited(was, queues, todo, done, c) && Lists(results, Handovers(Values(was), c, done))
        decreases todo
      {
        var name :| name in todo;
        results := DropFromQueue(was, todo, done, name, c, results);
        todo, done := todo - {name}, done + {name};
      }
      assert done == was.Keys;
    }

    method RemoveClient(c: ClientId) returns (results: seq<Handover>)
      requires Valid()
      modifies this
      ensures Valid()
      ensures Value() == Departed(old(Value()), c)
      ensures Lists(results, Handovers(old(Value()), c, old(Value()).Keys))
    {
      results := DropFromAll(c);
      FinishDeparture(old(queues), queues, old(queues).Keys, c);
      assert Values(old(queues)).Keys == old(queues).Keys;
      queues := NonEmpty(queues);
    }

    method ListQueuedOwners(name: string) returns (owners: seq<string>)
      requires Valid()
      ensures var line := LineAt(Value(), name);
              |owners| == |line| && forall i :: 0 <= i < |line| ==> owners[i] == line[i].uniqueName
    {
      if name in queues {
        owners := queues[name].AllOwners();
      } else {
        owners := [];
      }
    }

    method NameHasOwner(name: string) returns (owned: bool)
      requires Valid()
      ensures owned == (name in Value())
    {
      owned := name in queues && queues[name].primaryOwner.Some?;
    }
  }

  function NonEmpty(queues: map<string, NameQueue>): map<string, NameQueue> {
    map n | n in queues && !(queues[n].primaryOwner.None? && queues[n].waiters == []) :: queues[n]
  }

  /** Once every queue is visited, dropping the empty ones leaves the departed lines. */
  lemma FinishDeparture(was: map<string, NameQueue>, queues: map<string, NameQueue>, done: set<string>, c: ClientId)
    requires Stored(was) && Visited(was, queues, {}, done, c)
    ensures Stored(NonEmpty(queues)) && Values(NonEmpty(queues)) == Departed(Values(was), c)
  {
    var left := NonEmpty(queues);
    var lines := Values(was);
    forall n
      ensures n in left <==> n in lines && Without(lines[n], c) != []
      ensures n in left ==> left[n].primaryOwner.Some? && Distinct(left[n].Value())
      ensures n in left ==> left[n].Value() == Without(lines[n], c)
    {
      if n in was { DropFromValue(was[n], c); }
    }
  }

  lemma ListsGrow(report: seq<Handover>, lines: Lines, c: ClientId, among: set<string>, name: string)
    requires Lists(report, Handovers(lines, c, among)) && name in lines && name !in among
    ensures Lists(if Heads(lines[name], c) then report + [(name, HeadOwner(Without(lines[name], c)))] else report,
                  Handovers(lines, c, among + {name}))
  {
    var one := HeadOwner(Without(lines[name], c));
    if Heads(lines[name], c) {
      assert (report + [(name, one)])[..|report|] == report;
      assert Handovers(lines, c, among + {name}) == Handovers(lines, c, among)[name := one];
    } else {
      assert Handovers(lines, c, among + {name}) == Handovers(lines, c, among);
    }
  }

  lemma {:induction false} ToMapSize(report: seq<Handover>)
    ensures |ToMap(report)| <= |report|
  {
    if report == [] {
    } else {
      var k := |report| - 1;
      ToMapSize(report[..k]);
      var m := ToMap(report[..k]);
      if report[k].0 in m { assert m[report[k].0 := report[k].1].Keys == m.Keys; }
    }
  }

  /** A report that lists each handover once never repeats a name. */
  lemma {:induction false} NoRepeats(report: seq<Handover>, i: nat)
    requires |ToMap(report)| == |report| && i < |report|
    ensures report[i].0 !in ToMap(report[..i])
    ensures report[i].0 in ToMap(report) && ToMap(report)[report[i].0] == report[i].1
  {
    var k := |report| - 1;
    var m := ToMap(report[..k]);
    ToMapSize(report[..k]);
    assert m[report[k].0 := report[k].1].Keys == m.Keys + {report[k].0};
    if i == k {
    } else {
      NoRepeats(report[..k], i);
      assert report[..k][..i] == report[..i] && report[..k][i] == report[i];
    }
  }
}
