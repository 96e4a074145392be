/** Whom a reply can reach, over every run of forwards, replies, cleanups,
    connects and disconnects. */
module ReplyLaws {
  import opened Basics
  import opened Serials
  import opened Routing
  import opened NameQueues
  import opened Router
  import opened OneShotTable
  import opened Traffic

  // ---- serials drawn ----

  /** Serials drawn on a bus so far; a forward that fails to send draws one too. */
  function Draws(es: Trail, route: Route): nat {
    if es == [] then 0
    else
      var n := |es| - 1;
      Draws(es[..n], route) + if es[n].event.Forward? && es[n].event.route == route then 1 else 0
  }

  lemma {:induction false} CounterFollowsDraws(es: Trail, limits: Timeouts, route: Route)
    ensures CounterOf(After(es, limits).core, route) == Counter(Draws(es, route))
  {
    if es == [] {
    } else {
      CounterFollowsDraws(es[..|es| - 1], limits, route);
    }
  }

  lemma {:induction false} DrawsGrow(es: Trail, route: Route, p: nat, q: nat)
    requires p < q <= |es|
    ensures Draws(es[..p], route) <= Draws(es[..q], route)
    ensures es[p].event.Forward? && es[p].event.route == route ==> Draws(es[..p], route) < Draws(es[..q], route)
  {
    assert es[..q][..q - 1] == es[..q - 1];
    if p == q - 1 {
    } else {
      DrawsGrow(es, route, p, q - 1);
    }
  }

  /** The event at `p` is a call that was sent. */
  predicate IsCall(es: Trail, p: nat) {
    p < |es| && es[p].event.Forward? && es[p].event.sent
  }

  /** The upstream serial of the call at `p`. */
  function SerialDrawn(es: Trail, p: nat): u32
    requires IsCall(es, p)
  {
    Serial(Draws(es[..p], es[p].event.route))
  }

  function KeyOf(es: Trail, p: nat): SerialKey
    requires IsCall(es, p)
  {
    SerialKey(es[p].event.route, SerialDrawn(es, p))
  }

  function CallAt(es: Trail, p: nat): PendingCall
    requires IsCall(es, p)
  {
    PendingCall(es[p].event.client, es[p].event.clientSerial, es[p].time)
  }

  lemma PutIsCall(es: Trail, limits: Timeouts, p: nat)
    requires p < |es|
    ensures CallOps(es, limits)[p].Put? <==> IsCall(es, p)
    ensures IsCall(es, p) ==> CallOps(es, limits)[p] == Put(KeyOf(es, p), CallAt(es, p))
  {
    OpsAt(es, limits, p);
    if IsCall(es, p) {
      CounterFollowsDraws(es[..p], limits, es[p].event.route);
    }
  }

  // ---- replies ----

  /** The call that the event at `t` answers. */
  ghost function CallOf(es: Trail, limits: Timeouts, t: nat): Option<nat>
    requires t < |es|
  {
    Answers(CallOps(es, limits), t)
  }

  /** The reply at `q` bears the serial of the call at `p`. */
  predicate AnsweredAt(es: Trail, p: nat, q: nat)
    requires IsCall(es, p) && q < |es|
  {
    es[q].event.Reply? && es[q].event.route == es[p].event.route && es[q].event.replySerial == Some(SerialDrawn(es, p))
  }

  /** The pending call that a reply is correlated with is the one that it answers. */
  lemma CorrelatedIsCall(es: Trail, limits: Timeouts, t: nat)
    requires t < |es|
    ensures var correlated := Correlated(After(es[..t], limits), es[t].event);
            && (CallOf(es, limits, t).Some? <==> correlated.Some?)
            && (correlated.Some? ==>
                  var p := CallOf(es, limits, t).value;
                  p < t && IsCall(es, p) && AnsweredAt(es, p, t) && correlated.value == CallAt(es, p))
  {
    OpsAt(es, limits, t);
    OpsMakeTables(es[..t], limits);
    if es[t].event.Reply? && es[t].event.replySerial.Some? {
      var ops := CallOps(es[..t], limits);
      var key := SerialKey(es[t].event.route, es[t].event.replySerial.value);
      OriginSound(ops, key);
      if Origin(ops, key).Some? {
        var p := Origin(ops, key).value;
        PutIsCall(es[..t], limits, p);
        assert es[..t][..p] == es[..p];
      }
    }
  }

  /** What the event at `t` delivers: the client and the serial put in its reply. */
  function Delivered(es: Trail, limits: Timeouts, t: nat): Option<(ClientId, u32)>
    requires t < |es|
  {
    Delivery(After(es[..t], limits), es[t].event)
  }

  /** A reply reaches a client only as the answer to a call of that client on that
      bus, under the serial that call was forwarded with; it carries the call's
      original serial, and the client is still connected. */
  lemma DeliveryAnswersACall(es: Trail, limits: Timeouts, t: nat)
    requires t < |es|
    ensures CallOf(es, limits, t).None? ==> Delivered(es, limits, t) == None
    ensures CallOf(es, limits, t).Some? ==>
              var p := CallOf(es, limits, t).value;
              && p < t && IsCall(es, p) && AnsweredAt(es, p, t)
              && Delivered(es, limits, t) ==
                 if es[p].event.client in After(es[..t], limits).connected
                 then Some((es[p].event.client, es[p].event.clientSerial)) else None
  {
    CorrelatedIsCall(es, limits, t);
  }

  /** Each forwarded call is answered at most once. */
  lemma CallAnsweredOnce(es: Trail, limits: Timeouts, t: nat, u: nat)
    requires t < u < |es| && CallOf(es, limits, t).Some?
    ensures CallOf(es, limits, u) != CallOf(es, limits, t)
  {
    AnsweredOnce(CallOps(es, limits), t, u);
  }

  // ---- when the answered call is the one the bus replied to ----

  /** A later call reuses the serial of the call at `p`. */
  predicate Supersedes(es: Trail, p: nat, q: nat)
    requires p < q && IsCall(es, p)
  {
    IsCall(es, q) && es[q].event.route == es[p].event.route
    && (Draws(es[..q], es[p].event.route) - Draws(es[..p], es[p].event.route)) % PERIOD == 0
  }

  /** By `now` the timeout has passed since `since` (a timeout of 0 always has). */
  predicate DueBy(since: Instant, timeout: nat, now: Instant) { since + timeout <= now || timeout == 0 }

  predicate TimedOutAt(es: Trail, limits: Timeouts, p: nat, q: nat)
    requires IsCall(es, p) && q < |es|
  {
    es[q].event == Cleanup && DueBy(es[p].time, limits.calls, es[q].time)
  }

  /** Between `p` and `t` the call at `p` is neither answered nor timed out, and its
      serial is not reused. */
  ghost predicate Outstanding(es: Trail, limits: Timeouts, p: nat, t: nat)
    requires IsCall(es, p) && t <= |es|
  {
    forall q :: p < q < t ==> !Supersedes(es, p, q) && !AnsweredAt(es, p, q) && !TimedOutAt(es, limits, p, q)
  }

  lemma SupersedesIff(es: Trail, limits: Timeouts, p: nat, q: nat)
    requires p < q < |es| && IsCall(es, p)
    ensures Supersedes(es, p, q) <==> IsCall(es, q) && KeyOf(es, q) == KeyOf(es, p)
  {
    if IsCall(es, q) && es[q].event.route == es[p].event.route {
      DrawsGrow(es, es[p].event.route, p, q);
      SerialsRepeatIff(Draws(es[..p], es[p].event.route), Draws(es[..q], es[p].event.route));
    }
  }

  /** While the call is still in the table, an event touches its entry exactly by
      reusing its serial, answering it or timing it out. */
  lemma TouchIff(es: Trail, limits: Timeouts, p: nat, q: nat)
    requires p < q < |es| && IsCall(es, p) && Untouched(CallOps(es, limits), KeyOf(es, p), p, q)
    ensures Touches(CallOps(es, limits)[q], KeyOf(es, p)) <==>
            Supersedes(es, p, q) || AnsweredAt(es, p, q) || TimedOutAt(es, limits, p, q)
  {
    OpsAt(es, limits, q);
    PutIsCall(es, limits, p);
    PutIsCall(es, limits, q);
    SupersedesIff(es, limits, p, q);
    var ops := CallOps(es[..q], limits);
    assert ops == CallOps(es, limits)[..q];
    OriginComplete(ops, KeyOf(es, p), p);
    OriginSound(ops, KeyOf(es, p));
    OpsMakeTables(es[..q], limits);
  }

  lemma {:induction false} OutstandingIsUntouched(es: Trail, limits: Timeouts, p: nat, t: nat)
    requires p < t <= |es| && IsCall(es, p)
    ensures Outstanding(es, limits, p, t) <==> Untouched(CallOps(es, limits), KeyOf(es, p), p, t)
    decreases t
  {
    if p == t - 1 {
    } else {
      OutstandingIsUntouched(es, limits, p, t - 1);
      if Untouched(CallOps(es, limits), KeyOf(es, p), p, t - 1) {
        TouchIff(es, limits, p, t - 1);
      }
    }
  }

  /** A reply bearing the serial of the call at `p` answers that call exactly when the
      call is outstanding: not yet answered or timed out, its serial not reused. */
  lemma ReplyAnswersItsCallIff(es: Trail, limits: Timeouts, p: nat, t: nat)
    requires p < t < |es| && IsCall(es, p) && AnsweredAt(es, p, t)
    ensures CallOf(es, limits, t) == Some(p) <==> Outstanding(es, limits, p, t)
  {
    OutstandingIsUntouched(es, limits, p, t);
    OpsAt(es, limits, t);
    PutIsCall(es, limits, p);
    var ops := CallOps(es, limits)[..t];
    assert ops[p] == CallOps(es, limits)[p];
    if Untouched(CallOps(es, limits), KeyOf(es, p), p, t) {
      OriginComplete(ops, KeyOf(es, p), p);
    }
    if CallOf(es, limits, t) == Some(p) {
      OriginSound(ops, KeyOf(es, p));
      forall q | p < q < t ensures !Touches(CallOps(es, limits)[q], KeyOf(es, p)) {
        assert ops[q] == CallOps(es, limits)[q];
      }
    }
  }

  /** In general a reply bearing that serial answers the call or one that reuses its
      serial, never an earlier one. */
  lemma ReplyAnswersCallOrReuse(es: Trail, limits: Timeouts, p: nat, t: nat)
    requires p < t < |es| && IsCall(es, p) && AnsweredAt(es, p, t)
    ensures CallOf(es, limits, t).Some? ==>
              var q := CallOf(es, limits, t).value;
              q == p || (p < q < t && Supersedes(es, p, q))
  {
    DeliveryAnswersACall(es, limits, t);
    OpsAt(es, limits, t);
    PutIsCall(es, limits, p);
    var ops := CallOps(es, limits)[..t];
    OriginSound(ops, KeyOf(es, p));
    assert ops[p] == CallOps(es, limits)[p] && Touches(ops[p], KeyOf(es, p));
    if CallOf(es, limits, t).Some? && CallOf(es, limits, t).value > p {
      SupersedesIff(es, limits, p, CallOf(es, limits, t).value);
    }
  }

  lemma TooFewDrawsToReuse(es: Trail, p: nat, q: nat)
    requires p < q < |es| && IsCall(es, p)
    requires Draws(es[..q], es[p].event.route) - Draws(es[..p], es[p].event.route) < PERIOD
    ensures !Supersedes(es, p, q)
  {
    DrawsGrow(es, es[p].event.route, p, q);
  }

  /** If fewer than 2^32 - 1 further calls are forwarded on the bus before the reply,
      it can answer no other call, so only the caller can receive it, under its own
      serial, and no other client ever does. */
  lemma ReplyReachesOnlyItsCaller(es: Trail, limits: Timeouts, p: nat, t: nat)
    requires p < t < |es| && IsCall(es, p) && AnsweredAt(es, p, t)
    requires Draws(es[..t], es[p].event.route) - Draws(es[..p], es[p].event.route) <= PERIOD
    ensures CallOf(es, limits, t) == None || CallOf(es, limits, t) == Some(p)
    ensures Delivered(es, limits, t) == None
         || Delivered(es, limits, t) == Some((es[p].event.client, es[p].event.clientSerial))
  {
    DeliveryAnswersACall(es, limits, t);
    ReplyAnswersCallOrReuse(es, limits, p, t);
    forall q: nat | p < q < t && IsCall(es, q) && es[q].event.route == es[p].event.route
      ensures !Supersedes(es, p, q)
    {
      DrawsGrow(es, es[p].event.route, q, t);
      TooFewDrawsToReuse(es, p, q);
    }
  }

  // ---- the bound is sharp ----

  /** Clients 1 and 2 connect and client 1 calls. */
  function Opening(): Trail {
    [At(0, Connect), At(0, Connect), At(0, Forward(1, 5, Host, true))]
  }

  /** Then client `c` draws `n` more serials for calls that fail to send. */
  function Busy(es: Trail, c: ClientId, n: nat): Trail {
    if n == 0 then es else Busy(es, c, n - 1) + [At(0, Forward(c, 7, Host, false))]
  }

  lemma OpeningFacts(limits: Timeouts)
    ensures Draws(Opening()[..2], Host) == 0 && Draws(Opening(), Host) == 1
    ensures After(Opening(), limits).connected == {1, 2}
  {
    var b := Opening();
    assert b[..2][..1] == [b[0]] && [b[0]][..0] == [];
    assert Draws([b[0]], Host) == 0;
    assert After([b[0]], limits).connected == {1} && After([b[0]], limits).nextId == 2;
    assert After(b[..2], limits).connected == {1, 2};
  }

  lemma OneMore(es: Trail, e: Timed, limits: Timeouts)
    ensures (es + [e])[..|es|] == es && After(es + [e], limits) == Step(After(es, limits), limits, e)
  {
    assert (es + [e])[..|es|] == es;
  }

  lemma OneMoreDraw(es: Trail, e: Timed)
    requires e.event.Forward? && e.event.route == Host
    ensures Draws(es + [e], Host) == Draws(es, Host) + 1
  {
    assert (es + [e])[..|es|] == es;
  }

  lemma ForwardKeepsConnected(es: Trail, e: Timed, limits: Timeouts)
    requires e.event.Forward?
    ensures After(es + [e], limits).connected == After(es, limits).connected
  {
    OneMore(es, e, limits);
  }

  lemma {:induction false} BusyGrows(es: Trail, c: ClientId, n: nat)
    ensures |Busy(es, c, n)| == |es| + n && es <= Busy(es, c, n)
  {
    if n == 0 {
    } else {
      BusyGrows(es, c, n - 1);
    }
  }

  lemma {:induction false} BusyDraws(es: Trail, c: ClientId, n: nat)
    ensures Draws(Busy(es, c, n), Host) == Draws(es, Host) + n
  {
    if n == 0 {
    } else {
      BusyDraws(es, c, n - 1);
      OneMoreDraw(Busy(es, c, n - 1), At(0, Forward(c, 7, Host, false)));
    }
  }

  /** What no forward changes is the same after the draws. */
  lemma {:induction false} BusyKeeps<T>(es: Trail, c: ClientId, n: nat, f: Trail -> T)
    requires forall es: Trail, e: Timed :: e.event.Forward? ==> f(es + [e]) == f(es)
    ensures f(Busy(es, c, n)) == f(es)
  {
    if n == 0 {
    } else {
      BusyKeeps(es, c, n - 1, f);
    }
  }

  lemma BusyConnected(es: Trail, c: ClientId, n: nat, limits: Timeouts)
    ensures After(Busy(es, c, n), limits).connected == After(es, limits).connected
  {
    var f := (es: Trail) => After(es, limits).connected;
    forall es: Trail, e: Timed | e.event.Forward? ensures f(es + [e]) == f(es) {
      ForwardKeepsConnected(es, e, limits);
    }
    BusyKeeps(es, c, n, f);
  }

  /** A call that reuses the serial of an earlier one gets the reply to it. */
  lemma NextReplyIsForReuse(es: Trail, limits: Timeouts, e: Timed, reply: Timed)
    requires e.event.Forward? && e.event.sent && e.event.client in After(es, limits).connected
    requires reply.event == Reply(e.event.route, Some(Serial(Draws(es, e.event.route))), OtherBody)
    ensures Delivered(es + [e] + [reply], limits, |es| + 1) == Some((e.event.client, e.event.clientSerial))
  {
    var all, q := es + [e] + [reply], |es|;
    assert all[..q] == es && all[..q + 1] == es + [e];
    ReplyAnswersItsCallIff(all, limits, q, q + 1);
    DeliveryAnswersACall(all, limits, q + 1);
    ForwardKeepsConnected(es, e, limits);
  }

  /** One serial further than the bound, the reply to client 1's call, still
      unanswered, is delivered to client 2. */
  lemma ReuseMisdelivers(limits: Timeouts)
    ensures var es := Busy(Opening(), 2, PERIOD - 1)
                      + [At(0, Forward(2, 9, Host, true))] + [At(0, Reply(Host, Some(1), OtherBody))];
            var t := |es| - 1;
            && IsCall(es, 2) && es[2].event.client == 1 && AnsweredAt(es, 2, t)
            && Draws(es[..t], Host) - Draws(es[..2], Host) == PERIOD + 1
            && Delivered(es, limits, t) == Some((2, 9))
  {
    var busy := Busy(Opening(), 2, PERIOD - 1);
    var e, reply := At(0, Forward(2, 9, Host, true)), At(0, Reply(Host, Some(1), OtherBody));
    var es := busy + [e] + [reply];
    BusyGrows(Opening(), 2, PERIOD - 1);
    BusyDraws(Opening(), 2, PERIOD - 1);
    BusyConnected(Opening(), 2, PERIOD - 1, limits);
    OpeningFacts(limits);
    SerialFormula(0);
    SerialFormula(PERIOD);
    NextReplyIsForReuse(busy, limits, e, reply);
    OneMoreDraw(busy, e);
    assert es[..|busy| + 1] == busy + [e] && es[2] == Opening()[2] && es[..2] == Opening()[..2];
  }

  // ---- departed clients ----

  lemma {:induction false} IdsBelowNext(es: Trail, limits: Timeouts)
    ensures forall c :: c in After(es, limits).connected ==> c < After(es, limits).nextId
  {
    if es == [] {
    } else {
      IdsBelowNext(es[..|es| - 1], limits);
    }
  }

  /** Client ids are never issued again. */
  lemma {:induction false} DepartedStaysGone(es: Trail, limits: Timeouts, d: nat, t: nat, c: ClientId)
    requires d < t <= |es| && es[d].event == Disconnect(c) && c in After(es[..d], limits).connected
    ensures c !in After(es[..t], limits).connected && c < After(es[..t], limits).nextId
  {
    IdsBelowNext(es[..d], limits);
    assert es[..t][..t - 1] == es[..t - 1];
    if d == t - 1 {
    } else {
      DepartedStaysGone(es, limits, d, t - 1, c);
    }
  }

  /** A reply to a departed client's call is delivered to nobody. */
  lemma DepartedGetsNoReply(es: Trail, limits: Timeouts, d: nat, t: nat)
    requires d < t < |es| && es[d].event.Disconnect? && es[d].event.client in After(es[..d], limits).connected
    requires CallOf(es, limits, t).Some? && CallOf(es, limits, t).value < |es|
    requires es[CallOf(es, limits, t).value].event.Forward?
    requires es[CallOf(es, limits, t).value].event.client == es[d].event.client
    ensures Delivered(es, limits, t) == None
  {
    DepartedStaysGone(es, limits, d, t, es[d].event.client);
    DeliveryAnswersACall(es, limits, t);
  }

  // ---- conservation ----

  /** Every call sent is answered, timed out, displaced by reuse of its serial, or
      still pending. */
  lemma CallsConserved(es: Trail, limits: Timeouts)
    ensures var ops := CallOps(es, limits);
            Puts(ops) == Taken(ops) + Swept(ops) + Overwritten(ops) + |After(es, limits).core.pending|
  {
    OpsMakeTables(es, limits);
    Conservation(CallOps(es, limits));
  }

  /** No pending call ever sees 2^32 - 1 or more serials drawn on its bus. */
  ghost predicate NoSerialReuse(es: Trail, limits: Timeouts) {
    forall p: nat, q: nat :: p < q < |es| && IsCall(es, p) && Outstanding(es, limits, p, q) ==>
      Draws(es[..q], es[p].event.route) - Draws(es[..p], es[p].event.route) < PERIOD
  }

  /** Every pending entry belongs to an outstanding call. */
  lemma PendingIsOutstanding(es: Trail, limits: Timeouts, q: nat, key: SerialKey)
    requires q < |es| && key in Table(CallOps(es[..q], limits))
    ensures exists p: nat :: p < q && IsCall(es, p) && KeyOf(es, p) == key && Outstanding(es, limits, p, q)
  {
    var ops := CallOps(es[..q], limits);
    OriginSound(ops, key);
    var p := Origin(ops, key).value;
    PutIsCall(es[..q], limits, p);
    assert es[..q][..p] == es[..p];
    OpsAt(es, limits, q);
    forall r | p < r < q ensures !Touches(CallOps(es, limits)[r], key) {
      assert ops[r] == CallOps(es, limits)[r];
    }
    OutstandingIsUntouched(es, limits, p, q);
  }

  lemma NoReuseStep(es: Trail, limits: Timeouts, q: nat)
    requires q < |es| && NoSerialReuse(es, limits) && IsCall(es, q)
    ensures KeyOf(es, q) !in Table(CallOps(es[..q], limits))
  {
    if KeyOf(es, q) in Table(CallOps(es[..q], limits)) {
      PendingIsOutstanding(es, limits, q, KeyOf(es, q));
    }
    forall p: nat | p < q && IsCall(es, p) && Outstanding(es, limits, p, q) ensures KeyOf(es, p) != KeyOf(es, q) {
      TooFewDrawsToReuse(es, p, q);
      SupersedesIff(es, limits, p, q);
    }
  }

  lemma {:induction false} NothingOverwritten(es: Trail, limits: Timeouts, n: nat)
    requires n <= |es| && NoSerialReuse(es, limits)
    ensures Overwritten(CallOps(es[..n], limits)) == 0
  {
    if n == 0 {
    } else {
      NothingOverwritten(es, limits, n - 1);
      var ops := CallOps(es[..n], limits);
      assert es[..n][..n - 1] == es[..n - 1];
      assert ops[..n - 1] == CallOps(es[..n - 1], limits);
      PutIsCall(es[..n], limits, n - 1);
      if IsCall(es, n - 1) {
        NoReuseStep(es, limits, n - 1);
      }
    }
  }

  /** Without serial reuse: calls sent = replies correlated + entries expired +
      entries pending, at every point of every run. */
  lemma CallsConservedExactly(es: Trail, limits: Timeouts)
    requires NoSerialReuse(es, limits)
    ensures var ops := CallOps(es, limits);
            Puts(ops) == Taken(ops) + Swept(ops) + |After(es, limits).core.pending|
  {
    assert es[..|es|] == es;
    NothingOverwritten(es, limits, |es|);
    CallsConserved(es, limits);
  }

  // ---- age ----

  /** The latest cleanup so far, counting start-up at time 0. */
  function LastCleanup(es: Trail): Instant {
    if es == [] then 0
    else var n := |es| - 1; if es[n].event == Cleanup then es[n].time else LastCleanup(es[..n])
  }

  ghost predicate Chronological(es: Trail) {
    forall i, j :: 0 <= i < j < |es| ==> es[i].time <= es[j].time
  }

  ghost predicate Young(pending: PendingMap, limits: Timeouts, at: Instant) {
    forall k :: k in pending ==> at < pending[k].timestamp + limits.calls
  }

  lemma YoungStep(w: World, limits: Timeouts, e: Timed, last: Instant)
    requires Young(w.core.pending, limits, last) && last <= e.time && limits.calls > 0
    ensures Young(Step(w, limits, e).core.pending, limits, if e.event == Cleanup then e.time else last)
  {
  }

  /** Every pending call is younger than the timeout was at the latest cleanup. */
  lemma {:induction false} YoungAtLastCleanup(es: Trail, limits: Timeouts)
    requires Chronological(es) && limits.calls > 0
    ensures Young(After(es, limits).core.pending, limits, LastCleanup(es))
    ensures es != [] ==> LastCleanup(es) <= es[|es| - 1].time
  {
    if es == [] {
    } else {
      var n := |es| - 1;
      YoungAtLastCleanup(es[..n], limits);
      var last := LastCleanup(es[..n]);
      assert last <= es[n].time;
      YoungStep(After(es[..n], limits), limits, es[n], last);
    }
  }

  /** If cleanups are at most `gap` apart, no pending call is ever as old as
      timeout + gap. */
  lemma PendingAgeBound(es: Trail, limits: Timeouts, gap: nat, now: Instant, k: SerialKey)
    requires Chronological(es) && limits.calls > 0 && now <= LastCleanup(es) + gap
    requires k in After(es, limits).core.pending
    ensures now < After(es, limits).core.pending[k].timestamp + limits.calls + gap
  {
    YoungAtLastCleanup(es, limits);
  }

  /** A clean-up drops exactly the calls whose timeout has passed, and keeps the rest. */
  lemma CleanupDropsDueCalls(es: Trail, limits: Timeouts, t: nat, k: SerialKey)
    requires t < |es| && es[t].event == Cleanup && k in After(es[..t], limits).core.pending
    ensures var call, after := After(es[..t], limits).core.pending[k], After(es[..t + 1], limits).core.pending;
            && (k in after <==> !DueBy(call.timestamp, limits.calls, es[t].time))
            && (k in after ==> after[k] == call)
  {
    assert es[..t + 1][..t] == es[..t];
  }
}
