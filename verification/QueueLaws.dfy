/** Laws of the name queues over whole runs of requests, releases and departures. */
module QueueLaws {
  import opened NameQueues

  datatype Step =
    | Request(name: string, entry: QueueEntry, flags: bv32)
    | Release(name: string, client: ClientId)
    | Depart(client: ClientId)

  function Next(lines: Lines, step: Step): Lines {
    match step
    case Request(n, e, flags) => Requested(lines, n, e, flags)
    case Release(n, c) => Released(lines, n, c)
    case Depart(c) => Departed(lines, c)
  }

  function Run(lines: Lines, steps: seq<Step>): Lines
    decreases steps
  {
    if steps == [] then lines else Run(Next(lines, steps[0]), steps[1..])
  }

  // ---- well-formedness ----

  lemma NextWellFormed(lines: Lines, step: Step)
    requires WellFormed(lines)
    ensures WellFormed(Next(lines, step))
  {
    match step
    case Request(n, e, flags) =>
      JoinDistinct(LineAt(lines, n), e, flags);
    case Release(n, c) =>
      WithoutDistinct(LineAt(lines, n), c);
    case Depart(c) =>
      forall n | n in lines ensures Distinct(Without(lines[n], c)) {
        WithoutDistinct(lines[n], c);
      }
  }

  /** Every reachable manager has a primary for each name and no client twice. */
  lemma {:induction false} RunWellFormed(lines: Lines, steps: seq<Step>)
    requires WellFormed(lines)
    ensures WellFormed(Run(lines, steps))
    decreases steps
  {
    if steps == [] {
    } else {
      NextWellFormed(lines, steps[0]);
      RunWellFormed(Next(lines, steps[0]), steps[1..]);
    }
  }

  /** One step moves a line by its own rule and leaves a line it does not name alone. */
  lemma NextLine(lines: Lines, step: Step, n: string)
    requires WellFormed(lines)
    ensures LineAt(Next(lines, step), n) ==
            match step
            case Request(m, e, flags) => if m == n then Join(LineAt(lines, n), e, flags) else LineAt(lines, n)
            case Release(m, c) => if m == n then Without(LineAt(lines, n), c) else LineAt(lines, n)
            case Depart(c) => Without(LineAt(lines, n), c)
  {
    if step.Request? { JoinDistinct(LineAt(lines, step.name), step.entry, step.flags); }
  }

  // ---- what each request and release does ----

  /** The newcomer may take the line over: nobody owns the name, or it asks to replace an
      owner that allows it. */
  predicate MayTakeOver(line: Line, flags: bv32) {
    line == [] || (flags & 2 != 0 && line[0].allowReplacement)
  }

  /** RequestName as "Message Bus Messages" has it: the reply, and the client's place. */
  ghost predicate RequestOutcome(line: Line, after: Line, c: ClientId, u: string, flags: bv32, code: nat) {
    var e := QueueEntry(c, u, flags & 1 != 0);
    if Queued(line, c) then after == line && code == if line[0].client == c then 4 else 2
    else if MayTakeOver(line, flags) then after == [e] + line && code == 1
    else if flags & 4 == 0 then after == line + [e] && code == 2
    else after == line && code == 3
  }

  /** ReleaseName: whoever was in line is gone, the others stay in their order. */
  ghost predicate ReleaseOutcome(line: Line, after: Line, c: ClientId, code: nat) {
    if line == [] then after == [] && code == 2
    else if Queued(line, c) then
      code == 1 && exists i :: 0 <= i < |line| && line[i].client == c && after == line[..i] + line[i + 1..]
    else after == line && code == 3
  }

  lemma {:induction false} WithoutOne(line: Line, i: nat)
    requires Distinct(line) && i < |line|
    ensures Without(line, line[i].client) == line[..i] + line[i + 1..]
  {
    DistinctTail(line);
    if i == 0 {
      WithoutAbsent(line[1..], line[0].client);
    } else {
      assert line[1..][i - 1] == line[i];
      assert line[0].client != line[i].client;
      WithoutOne(line[1..], i - 1);
      assert line[1..][..i - 1] == line[1..i] && line[1..][i..] == line[i + 1..];
      assert [line[0]] + line[1..i] == line[..i];
    }
  }

  lemma ReleaseOne(line: Line, c: ClientId)
    requires Distinct(line)
    ensures ReleaseOutcome(line, Without(line, c), c, ReleaseCode(line, c))
  {
    if Queued(line, c) {
      var i :| 0 <= i < |line| && line[i].client == c;
      WithoutOne(line, i);
    } else {
      WithoutAbsent(line, c);
    }
  }

  lemma RequestOne(line: Line, c: ClientId, u: string, flags: bv32)
    requires Distinct(line)
    ensures var after := Join(line, Entry(c, u, flags), flags);
            RequestOutcome(line, after, c, u, flags, RequestCode(line, after, c))
  {
    var after := Join(line, Entry(c, u, flags), flags);
    if !Queued(line, c) && !MayTakeOver(line, flags) && flags & 4 == 0 {
      assert after[|line|].client == c;
    }
  }

  lemma {:induction false} RunTo(lines: Lines, steps: seq<Step>, i: nat)
    requires i < |steps|
    ensures Run(lines, steps[..i + 1]) == Next(Run(lines, steps[..i]), steps[i])
    decreases i
  {
    if i == 0 {
      assert steps[..1][1..] == [];
    } else {
      assert steps[..i + 1][1..] == steps[1..][..i] && steps[..i][1..] == steps[1..][..i - 1];
      RunTo(Next(lines, steps[0]), steps[1..], i - 1);
    }
  }

  /** At every point of every run a request and a release do just that to their line. */
  lemma StepOutcomes(lines: Lines, steps: seq<Step>, i: nat, u: string)
    requires WellFormed(lines) && i < |steps|
    ensures var was, now := Run(lines, steps[..i]), Run(lines, steps[..i + 1]);
            match steps[i]
            case Request(n, e, flags) =>
              e == Entry(e.client, u, flags) ==>
                RequestOutcome(LineAt(was, n), LineAt(now, n), e.client, u, flags,
                               RequestCode(LineAt(was, n), LineAt(now, n), e.client))
            case Release(n, c) =>
              ReleaseOutcome(LineAt(was, n), LineAt(now, n), c, ReleaseCode(LineAt(was, n), c))
            case Depart(c) =>
              forall n :: ReleaseOutcome(LineAt(was, n), LineAt(now, n), c, ReleaseCode(LineAt(was, n), c))
  {
    var was := Run(lines, steps[..i]);
    RunWellFormed(lines, steps[..i]);
    RunTo(lines, steps, i);
    match steps[i]
    case Request(n, e, flags) =>
      NextLine(was, steps[i], n);
      RequestOne(LineAt(was, n), e.client, u, flags);
    case Release(n, c) =>
      NextLine(was, steps[i], n);
      ReleaseOne(LineAt(was, n), c);
    case Depart(c) =>
      forall n ensures ReleaseOutcome(LineAt(was, n), Without(LineAt(was, n), c), c, ReleaseCode(LineAt(was, n), c)) {
        ReleaseOne(LineAt(was, n), c);
      }
      forall n ensures LineAt(Next(was, steps[i]), n) == Without(LineAt(was, n), c) {
        NextLine(was, steps[i], n);
      }
  }

  // ---- who can unseat an owner ----

  /** The step takes the head of line `n` away: its own release or departure, or a
      newcomer asking to replace a head that allows it. */
  predicate Unseats(step: Step, line: Line, n: string)
    requires line != []
  {
    match step
    case Request(m, e, flags) =>
      m == n && !Queued(line, e.client) && flags & REPLACE_EXISTING != 0 && line[0].allowReplacement
    case Release(m, c) => m == n && c == line[0].client
    case Depart(c) => c == line[0].client
  }

  lemma HeadLostIffUnseated(lines: Lines, step: Step, n: string)
    requires WellFormed(lines) && n in lines
    ensures var after := LineAt(Next(lines, step), n);
            !(after != [] && after[0] == lines[n][0]) <==> Unseats(step, lines[n], n)
  {
    NextLine(lines, step, n);
    var line := lines[n];
    match step
    case Request(m, e, flags) =>
      if m == n && Unseats(step, line, n) {
        assert e.client != line[0].client;
      }
    case Release(m, c) =>
      if m == n { HeadAfterWithout(line, c); }
    case Depart(c) =>
      HeadAfterWithout(line, c);
  }

  lemma HeadAfterWithout(line: Line, c: ClientId)
    requires line != []
    ensures var after := Without(line, c);
            (after != [] && after[0] == line[0]) <==> line[0].client != c
  {
    if line[0].client == c {
      var r := Without(line, c);
      WithoutMembers(line, c);
      if r != [] { assert r[0] in r; }
    }
  }

  ghost predicate LeavesAlone(steps: seq<Step>, n: string, c: ClientId) {
    forall i :: 0 <= i < |steps| ==> steps[i] != Release(n, c) && steps[i] != Depart(c)
  }

  /** An owner that joined without ALLOW_REPLACEMENT stays primary through every
      run in which it neither releases the name nor departs. */
  lemma {:induction false} FirmOwnerStays(lines: Lines, steps: seq<Step>, n: string)
    requires WellFormed(lines) && n in lines && !lines[n][0].allowReplacement
    requires LeavesAlone(steps, n, lines[n][0].client)
    ensures n in Run(lines, steps) && Run(lines, steps)[n] != [] && Run(lines, steps)[n][0] == lines[n][0]
    decreases steps
  {
    if steps == [] {
    } else {
      NextWellFormed(lines, steps[0]);
      HeadLostIffUnseated(lines, steps[0], n);
      assert LeavesAlone(steps[1..], n, lines[n][0].client);
      FirmOwnerStays(Next(lines, steps[0]), steps[1..], n);
    }
  }

  // ---- order ----

  ghost predicate Before(line: Line, a: ClientId, b: ClientId) {
    exists i, j :: 0 <= i < j < |line| && line[i].client == a && line[j].client == b
  }

  lemma HeadBefore(line: Line, b: ClientId)
    requires line != [] && Queued(line[1..], b)
    ensures Before(line, line[0].client, b)
  {
    var j :| 0 <= j < |line[1..]| && line[1..][j].client == b;
    assert line[j + 1].client == b;
  }

  lemma TailBefore(line: Line, a: ClientId, b: ClientId)
    requires line != [] && Before(line[1..], a, b)
    ensures Before(line, a, b)
  {
    var rest := line[1..];
    var x, y :| 0 <= x < y < |rest| && rest[x].client == a && rest[y].client == b;
    assert line[x + 1] == rest[x] && line[y + 1] == rest[y];
  }

  /** Of two clients in order, the first heads the line or both are further back. */
  lemma BeforeCases(line: Line, a: ClientId, b: ClientId)
    requires Before(line, a, b)
    ensures line != [] && Queued(line[1..], b) && (line[0].client == a || Before(line[1..], a, b))
  {
    var i, j :| 0 <= i < j < |line| && line[i].client == a && line[j].client == b;
    var rest := line[1..];
    assert rest[j - 1] == line[j];
    if i > 0 {
      assert rest[i - 1] == line[i];
    }
  }

  lemma WithoutKeepsQueued(line: Line, c: ClientId, b: ClientId)
    requires Queued(line, b) && b != c
    ensures Queued(Without(line, c), b)
  {
    WithoutMembers(line, c);
    var i :| 0 <= i < |line| && line[i].client == b;
    assert line[i] in Without(line, c);
  }

  lemma {:induction false} WithoutKeepsOrder(line: Line, c: ClientId, a: ClientId, b: ClientId)
    requires Before(line, a, b) && a != c && b != c
    ensures Before(Without(line, c), a, b)
  {
    BeforeCases(line, a, b);
    var rest, w := line[1..], Without(line, c);
    if line[0].client == a {
      WithoutKeepsQueued(rest, c, b);
      assert w[1..] == Without(rest, c);
      HeadBefore(w, b);
    } else {
      WithoutKeepsOrder(rest, c, a, b);
      if line[0].client != c {
        assert w[1..] == Without(rest, c);
        TailBefore(w, a, b);
      }
    }
  }

  lemma JoinKeepsOrder(line: Line, e: QueueEntry, flags: bv32, a: ClientId, b: ClientId)
    requires Before(line, a, b)
    ensures Before(Join(line, e, flags), a, b)
  {
    var i, j :| 0 <= i < j < |line| && line[i].client == a && line[j].client == b;
    var front, back := [e] + line, line + [e];
    assert front[i + 1] == line[i] && front[j + 1] == line[j];
    assert back[i] == line[i] && back[j] == line[j];
  }

  lemma LeavingKeepsOrder(line: Line, c: ClientId, a: ClientId, b: ClientId)
    requires Before(line, a, b) && Queued(Without(line, c), a) && Queued(Without(line, c), b)
    ensures Before(Without(line, c), a, b)
  {
    WithoutShrinks(line, c);
    WithoutKeepsOrder(line, c, a, b);
  }

  lemma NextKeepsOrder(lines: Lines, step: Step, n: string, a: ClientId, b: ClientId)
    requires WellFormed(lines) && Before(LineAt(lines, n), a, b)
    requires Queued(LineAt(Next(lines, step), n), a) && Queued(LineAt(Next(lines, step), n), b)
    ensures Before(LineAt(Next(lines, step), n), a, b)
  {
    NextLine(lines, step, n);
    var line := LineAt(lines, n);
    if LineAt(Next(lines, step), n) != line {
      match step
      case Request(m, e, flags) => JoinKeepsOrder(line, e, flags, a, b);
      case Release(m, c) => LeavingKeepsOrder(line, c, a, b);
      case Depart(c) => LeavingKeepsOrder(line, c, a, b);
    }
  }

  /** The client is in the line for `n` at every point of the run. */
  ghost predicate StaysQueued(lines: Lines, steps: seq<Step>, n: string, c: ClientId)
    decreases steps
  {
    Queued(LineAt(lines, n), c) && (steps == [] || StaysQueued(Next(lines, steps[0]), steps[1..], n, c))
  }

  /** Two clients that both stay in a line never swap, over any run. */
  lemma {:induction false} OrderKept(lines: Lines, steps: seq<Step>, n: string, a: ClientId, b: ClientId)
    requires WellFormed(lines) && Before(LineAt(lines, n), a, b)
    requires StaysQueued(lines, steps, n, a) && StaysQueued(lines, steps, n, b)
    ensures Before(LineAt(Run(lines, steps), n), a, b)
    decreases steps
  {
    if steps == [] {
    } else {
      NextWellFormed(lines, steps[0]);
      NextKeepsOrder(lines, steps[0], n, a, b);
      OrderKept(Next(lines, steps[0]), steps[1..], n, a, b);
    }
  }

  // ---- departure is release everywhere ----

  function ReleasedEach(lines: Lines, c: ClientId, names: seq<string>): Lines
    decreases names
  {
    if names == [] then lines else ReleasedEach(Released(lines, names[0], c), c, names[1..])
  }

  lemma WithoutTwice(lines: Lines, c: ClientId, n: string, m: string)
    ensures Without(LineAt(Released(lines, n, c), m), c) == Without(LineAt(lines, m), c)
  {
    var w := Without(LineAt(lines, n), c);
    WithoutShrinks(LineAt(lines, n), c);
    WithoutAbsent(w, c);
  }

  lemma SameDeparted(a: Lines, b: Lines, c: ClientId)
    requires forall m :: Without(LineAt(a, m), c) == Without(LineAt(b, m), c)
    ensures Departed(a, c) == Departed(b, c)
  {
    var x, y := Departed(a, c), Departed(b, c);
    forall m ensures m in x <==> m in y {
      assert Without(LineAt(a, m), c) == Without(LineAt(b, m), c);
    }
    forall m | m in x ensures x[m] == y[m] {
      assert Without(LineAt(a, m), c) == Without(LineAt(b, m), c);
    }
  }

  lemma ReleasedThenDeparted(lines: Lines, c: ClientId, n: string)
    requires WellFormed(lines)
    ensures Departed(Released(lines, n, c), c) == Departed(lines, c)
    ensures !Queued(LineAt(Released(lines, n, c), n), c)
  {
    WithoutShrinks(LineAt(lines, n), c);
    forall m ensures Without(LineAt(Released(lines, n, c), m), c) == Without(LineAt(lines, m), c) {
      WithoutTwice(lines, c, n, m);
    }
    SameDeparted(Released(lines, n, c), lines, c);
  }

  /** Removing a client equals releasing, in any order, every name it queues for. */
  lemma {:induction false} DepartedIsReleasedEverywhere(lines: Lines, c: ClientId, names: seq<string>)
    requires WellFormed(lines)
    requires forall n :: n in lines && Queued(lines[n], c) ==> n in names
    ensures ReleasedEach(lines, c, names) == Departed(lines, c)
    decreases names
  {
    if names == [] {
      forall n | n in lines ensures Without(lines[n], c) == lines[n] {
        WithoutAbsent(lines[n], c);
      }
    } else {
      var after := Released(lines, names[0], c);
      NextWellFormed(lines, Release(names[0], c));
      ReleasedThenDeparted(lines, c, names[0]);
      forall n | n in after && Queued(after[n], c) ensures n in names[1..] {
        assert n in lines && after[n] == lines[n] && n in names;
      }
      DepartedIsReleasedEverywhere(after, c, names[1..]);
    }
  }

  // ---- rollback ----

  /** `ahead` is `lines` with `e` put in front of the line for `n`. */
  ghost predicate Fronted(ahead: Lines, lines: Lines, n: string, e: QueueEntry) {
    !Queued(LineAt(lines, n), e.client) && ahead == lines[n := [e] + LineAt(lines, n)]
  }

  ghost predicate DeparturesOfOthers(steps: seq<Step>, c: ClientId) {
    forall i :: 0 <= i < |steps| ==> !steps[i].Request? && steps[i].client != c
  }

  lemma WithoutBehind(line: Line, e: QueueEntry, c: ClientId)
    requires !Queued(line, e.client) && c != e.client
    ensures Without([e] + line, c) == [e] + Without(line, c)
    ensures !Queued(Without(line, c), e.client)
  {
    assert ([e] + line)[1..] == line;
    WithoutMembers(line, c);
    var w := Without(line, c);
    forall i | 0 <= i < |w| ensures w[i].client != e.client {
      assert w[i] in line;
    }
  }

  lemma FrontedLeave(ahead: Lines, lines: Lines, n: string, e: QueueEntry, m: string, c: ClientId)
    requires WellFormed(lines) && Fronted(ahead, lines, n, e) && c != e.client
    ensures Fronted(Released(ahead, m, c), Released(lines, m, c), n, e)
  {
    WithoutBehind(LineAt(lines, n), e, c);
    if m == n {
      assert LineAt(ahead, n) == [e] + LineAt(lines, n);
      assert LineAt(Released(lines, n, c), n) == Without(LineAt(lines, n), c);
    } else {
      assert LineAt(ahead, m) == LineAt(lines, m);
      assert LineAt(Released(lines, m, c), n) == LineAt(lines, n);
    }
  }

  lemma FrontedDepart(ahead: Lines, lines: Lines, n: string, e: QueueEntry, c: ClientId)
    requires WellFormed(lines) && Fronted(ahead, lines, n, e) && c != e.client
    ensures Fronted(Departed(ahead, c), Departed(lines, c), n, e)
  {
    WithoutBehind(LineAt(lines, n), e, c);
    var w := Without(LineAt(lines, n), c);
    assert LineAt(Departed(lines, c), n) == w;
    assert Departed(ahead, c) == Departed(lines, c)[n := [e] + w];
  }

  lemma FrontedStep(ahead: Lines, lines: Lines, n: string, e: QueueEntry, step: Step)
    requires WellFormed(lines) && Fronted(ahead, lines, n, e)
    requires !step.Request? && step.client != e.client
    ensures Fronted(Next(ahead, step), Next(lines, step), n, e)
  {
    if step.Release? {
      FrontedLeave(ahead, lines, n, e, step.name, step.client);
    } else {
      FrontedDepart(ahead, lines, n, e, step.client);
    }
  }

  lemma {:induction false} FrontedRun(ahead: Lines, lines: Lines, n: string, e: QueueEntry, steps: seq<Step>)
    requires WellFormed(lines) && Fronted(ahead, lines, n, e) && DeparturesOfOthers(steps, e.client)
    ensures Fronted(Run(ahead, steps), Run(lines, steps), n, e)
    decreases steps
  {
    if steps == [] {
    } else {
      FrontedStep(ahead, lines, n, e, steps[0]);
      NextWellFormed(lines, steps[0]);
      FrontedRun(Next(ahead, steps[0]), Next(lines, steps[0]), n, e, steps[1..]);
    }
  }

  lemma FrontedRelease(ahead: Lines, lines: Lines, n: string, e: QueueEntry)
    requires WellFormed(lines) && Fronted(ahead, lines, n, e)
    ensures Released(ahead, n, e.client) == lines
  {
    var rest := LineAt(lines, n);
    WithoutAbsent(rest, e.client);
    assert ([e] + rest)[1..] == rest;
    assert Without([e] + rest, e.client) == rest;
  }

  /** Rolling back a request that made the caller primary undoes it exactly: even
      when others depart in between, the map is the one their departures alone
      produce (with no departures, the map before the request). */
  lemma RollbackUndoesRequest(lines: Lines, n: string, e: QueueEntry, flags: bv32, others: seq<Step>)
    requires WellFormed(lines) && DeparturesOfOthers(others, e.client)
    requires !Heads(LineAt(lines, n), e.client) && Heads(LineAt(Requested(lines, n, e, flags), n), e.client)
    ensures Released(Run(Requested(lines, n, e, flags), others), n, e.client) == Run(lines, others)
  {
    var line := LineAt(lines, n);
    JoinDistinct(line, e, flags);
    assert Join(line, e, flags) == [e] + line;
    assert Fronted(Requested(lines, n, e, flags), lines, n, e);
    FrontedRun(Requested(lines, n, e, flags), lines, n, e, others);
    RunWellFormed(lines, others);
    FrontedRelease(Run(Requested(lines, n, e, flags), others), Run(lines, others), n, e);
  }
}
