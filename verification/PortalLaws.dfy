/** Whom a portal Response can reach, over every run of calls, replies, responses,
    clean-ups, connects and disconnects. */
module PortalLaws {
  import opened Basics
  import opened Serials
  import opened NameQueues
  import opened OneShotTable
  import opened PortalRequests
  import opened PortalPaths
  import opened Traffic
  import opened ReplyLaws
  import NameOwnership

  /** The reply at `p` answers a call and carries the request handle `path`. */
  ghost predicate Registers(es: Trail, limits: Timeouts, p: nat, path: string) {
    p < |es| && es[p].event.Reply? && RequestHandle(es[p].event.body) == Some(path) && CallOf(es, limits, p).Some?
  }

  /** A request handle is an object path under the portal's request directory, in a reply
      that is no error. */
  lemma HandleIff(body: ReplyBody, path: string)
    ensures RequestHandle(body) == Some(path)
            <==> body == ObjectPath(path) && "/org/freedesktop/portal/desktop/request/" <= path
  {
  }

  /** The client whose call the event at `p` answers. */
  ghost function CallerOf(es: Trail, limits: Timeouts, p: nat): (c: ClientId)
    requires p < |es| && CallOf(es, limits, p).Some?
    ensures var q := CallOf(es, limits, p).value; q < p && IsCall(es, q) && c == es[q].event.client
  {
    DeliveryAnswersACall(es, limits, p);
    es[CallOf(es, limits, p).value].event.client
  }

  ghost function RequestAt(es: Trail, limits: Timeouts, p: nat): PendingRequest
    requires p < |es| && CallOf(es, limits, p).Some?
  {
    PendingRequest(CallerOf(es, limits, p), es[p].time)
  }

  lemma PutIsRegistration(es: Trail, limits: Timeouts, p: nat, path: string)
    requires p < |es|
    ensures RequestOps(es, limits)[p].Put? && RequestOps(es, limits)[p].key == path <==> Registers(es, limits, p, path)
    ensures Registers(es, limits, p, path) ==> RequestOps(es, limits)[p] == Put(path, RequestAt(es, limits, p))
  {
    OpsAt(es, limits, p);
    CorrelatedIsCall(es, limits, p);
  }

  /** The registration that the Response at `t` is routed by. */
  ghost function RoutedBy(es: Trail, limits: Timeouts, t: nat): Option<nat>
    requires t < |es|
  {
    Answers(RequestOps(es, limits), t)
  }

  /** The client that the Response at `t` is sent to by the tracker, and as what. */
  function SentTo(es: Trail, limits: Timeouts, muxName: string, t: nat): Option<(ClientId, Signal)>
    requires t < |es|
  {
    if es[t].event.Response? then Routed(After(es[..t], limits), es[t].event.signal, muxName) else None
  }

  /** The event at `q` ends a registration of `path` by `r`: its client disconnects, the
      path is registered again or responded to, or the request times out. */
  ghost predicate Ends(es: Trail, limits: Timeouts, q: nat, path: string, r: PendingRequest)
    requires q < |es|
  {
    match es[q].event
    case Disconnect(c) => c == r.client
    case Reply(_, _, _) => Registers(es, limits, q, path)
    case Response(signal) => signal.path == path
    case Cleanup => DueBy(r.timestamp, limits.requests, es[q].time)
    case _ => false
  }

  /** Nothing between `p` and `t` ends that registration. */
  ghost predicate Standing(es: Trail, limits: Timeouts, p: nat, t: nat, path: string, r: PendingRequest)
    requires t <= |es|
  {
    forall q :: p < q < t ==> !Ends(es, limits, q, path, r)
  }

  /** While the registration is in the table, an event touches it exactly by ending it. */
  lemma TouchIsEnd(es: Trail, limits: Timeouts, p: nat, q: nat, path: string)
    requires p < q < |es| && Registers(es, limits, p, path) && Untouched(RequestOps(es, limits), path, p, q)
    ensures Touches(RequestOps(es, limits)[q], path) <==> Ends(es, limits, q, path, RequestAt(es, limits, p))
  {
    PutIsRegistration(es, limits, p, path);
    PutIsRegistration(es, limits, q, path);
    OpsAt(es, limits, q);
    var ops := RequestOps(es[..q], limits);
    assert ops == RequestOps(es, limits)[..q];
    OriginComplete(ops, path, p);
    OriginSound(ops, path);
    OpsMakeTables(es[..q], limits);
  }

  lemma {:induction false} StandingIsUntouched(es: Trail, limits: Timeouts, p: nat, t: nat, path: string)
    requires p < t <= |es| && Registers(es, limits, p, path)
    ensures Standing(es, limits, p, t, path, RequestAt(es, limits, p)) <==> Untouched(RequestOps(es, limits), path, p, t)
    decreases t
  {
    if p == t - 1 {
    } else {
      StandingIsUntouched(es, limits, p, t - 1, path);
      if Untouched(RequestOps(es, limits), path, p, t - 1) {
        TouchIsEnd(es, limits, p, t - 1, path);
      }
    }
  }

  lemma RoutedByStanding(es: Trail, limits: Timeouts, p: nat, t: nat)
    requires p < t < |es| && es[t].event.Response? && RoutedBy(es, limits, t) == Some(p)
    ensures Registers(es, limits, p, es[t].event.signal.path)
    ensures Standing(es, limits, p, t, es[t].event.signal.path, RequestAt(es, limits, p))
  {
    var ops, path := RequestOps(es, limits), es[t].event.signal.path;
    OpsAt(es, limits, t);
    PutIsRegistration(es, limits, p, path);
    OriginSound(ops[..t], path);
    assert ops[..t][p] == ops[p];
    assert Untouched(ops, path, p, t) by {
      forall q | p < q < t ensures !Touches(ops[q], path) { assert ops[..t][q] == ops[q]; }
    }
    StandingIsUntouched(es, limits, p, t, path);
  }

  lemma StandingRoutes(es: Trail, limits: Timeouts, p: nat, t: nat)
    requires p < t < |es| && es[t].event.Response? && Registers(es, limits, p, es[t].event.signal.path)
    requires Standing(es, limits, p, t, es[t].event.signal.path, RequestAt(es, limits, p))
    ensures RoutedBy(es, limits, t) == Some(p)
  {
    var ops, path := RequestOps(es, limits), es[t].event.signal.path;
    OpsAt(es, limits, t);
    PutIsRegistration(es, limits, p, path);
    StandingIsUntouched(es, limits, p, t, path);
    assert Untouched(ops[..t], path, p, t) by {
      forall q | p < q < t ensures !Touches(ops[..t][q], path) { assert ops[..t][q] == ops[q]; }
    }
    OriginComplete(ops[..t], path, p);
  }

  /** A Response is routed by a registration of its path exactly while that is standing;
      in particular only by the latest one. */
  lemma RoutedByIff(es: Trail, limits: Timeouts, p: nat, t: nat)
    requires p < t < |es| && es[t].event.Response?
    ensures RoutedBy(es, limits, t) == Some(p) <==>
            && Registers(es, limits, p, es[t].event.signal.path)
            && Standing(es, limits, p, t, es[t].event.signal.path, RequestAt(es, limits, p))
  {
    if RoutedBy(es, limits, t) == Some(p) {
      RoutedByStanding(es, limits, p, t);
    } else if Registers(es, limits, p, es[t].event.signal.path) {
      if Standing(es, limits, p, t, es[t].event.signal.path, RequestAt(es, limits, p)) {
        StandingRoutes(es, limits, p, t);
      }
    }
  }

  /** A Response routed by a registration goes to the client of that registration, if
      connected; without one the tracker sends it to nobody. */
  lemma RegistrationDecides(es: Trail, limits: Timeouts, muxName: string, t: nat)
    requires t < |es| && es[t].event.Response?
    ensures RoutedBy(es, limits, t).None? ==> SentTo(es, limits, muxName, t) == None
    ensures RoutedBy(es, limits, t).Some? ==>
              var p, signal := RoutedBy(es, limits, t).value, es[t].event.signal;
              && p < t && Registers(es, limits, p, signal.path)
              && SentTo(es, limits, muxName, t) ==
                 if CallerOf(es, limits, p) in After(es[..t], limits).connected
                 then Some((CallerOf(es, limits, p),
                            Readdressed(signal, muxName, NameOwnership.UniqueName(CallerOf(es, limits, p)))))
                 else None
  {
    var path := es[t].event.signal.path;
    OpsAt(es, limits, t);
    OpsMakeTables(es[..t], limits);
    var ops := RequestOps(es[..t], limits);
    OriginSound(ops, path);
    if RoutedBy(es, limits, t).Some? {
      var p := RoutedBy(es, limits, t).value;
      assert ops[p] == RequestOps(es, limits)[p];
      PutIsRegistration(es, limits, p, path);
    }
  }

  /** The reply at `p` registered the path for a call of client `c`, that registration is
      still standing at `t`, and the client is connected. */
  ghost predicate Owed(es: Trail, limits: Timeouts, p: nat, t: nat, path: string, c: ClientId) {
    && p < t <= |es| && Registers(es, limits, p, path) && CallerOf(es, limits, p) == c
    && Standing(es, limits, p, t, path, PendingRequest(c, es[p].time)) && c in After(es[..t], limits).connected
  }

  /** A Response is sent to a client exactly if the path was the handle in the reply to
      a call of that client, the latest such reply, and nothing has ended the request. */
  lemma ResponseGoesToCallerIff(es: Trail, limits: Timeouts, muxName: string, t: nat, c: ClientId)
    requires t < |es| && es[t].event.Response?
    ensures (SentTo(es, limits, muxName, t).Some? && SentTo(es, limits, muxName, t).value.0 == c)
            <==> exists p: nat :: Owed(es, limits, p, t, es[t].event.signal.path, c)
  {
    var path := es[t].event.signal.path;
    RegistrationDecides(es, limits, muxName, t);
    if RoutedBy(es, limits, t).Some? {
      var p := RoutedBy(es, limits, t).value;
      RoutedByIff(es, limits, p, t);
      assert CallerOf(es, limits, p) == c && c in After(es[..t], limits).connected ==> Owed(es, limits, p, t, path, c);
    }
    forall p: nat | Owed(es, limits, p, t, path, c) ensures RoutedBy(es, limits, t) == Some(p) {
      RoutedByIff(es, limits, p, t);
    }
  }

  /** The client sent the Response was sent the reply with the handle too, under its own
      serial, if it was connected then. */
  lemma ReplyCameFirst(es: Trail, limits: Timeouts, p: nat, t: nat, path: string, c: ClientId)
    requires Owed(es, limits, p, t, path, c) && c in After(es[..p], limits).connected
    ensures Delivered(es, limits, p) == Some((c, es[CallOf(es, limits, p).value].event.clientSerial))
  {
    DeliveryAnswersACall(es, limits, p);
  }

  /** Each registration routes at most one Response, and each call gets at most one. */
  lemma CallGetsOneResponse(es: Trail, limits: Timeouts, t: nat, u: nat)
    requires t < u < |es| && es[t].event.Response? && es[u].event.Response?
    requires RoutedBy(es, limits, t).Some? && RoutedBy(es, limits, u).Some?
    ensures RoutedBy(es, limits, t) != RoutedBy(es, limits, u)
    ensures var p, r := RoutedBy(es, limits, t).value, RoutedBy(es, limits, u).value;
            p < |es| && r < |es| && CallOf(es, limits, p) != CallOf(es, limits, r)
  {
    AnsweredOnce(RequestOps(es, limits), t, u);
    RegistrationDecides(es, limits, "", t);
    RegistrationDecides(es, limits, "", u);
    var p, r := RoutedBy(es, limits, t).value, RoutedBy(es, limits, u).value;
    if p < r {
      CallAnsweredOnce(es, limits, p, r);
    } else {
      CallAnsweredOnce(es, limits, r, p);
    }
  }

  /** If fewer than 2^32 - 1 further calls are forwarded on the bus before the reply with
      the handle, the Response can reach only the client of the call replied to. */
  lemma ResponseReachesOnlyItsCaller(es: Trail, limits: Timeouts, muxName: string, q: nat, p: nat, t: nat)
    requires q < p < t < |es| && IsCall(es, q) && AnsweredAt(es, q, p)
    requires Draws(es[..p], es[q].event.route) - Draws(es[..q], es[q].event.route) <= PERIOD
    requires es[t].event.Response? && RoutedBy(es, limits, t) == Some(p)
    ensures SentTo(es, limits, muxName, t) == None || SentTo(es, limits, muxName, t).value.0 == es[q].event.client
  {
    ReplyReachesOnlyItsCaller(es, limits, q, p);
    RegistrationDecides(es, limits, muxName, t);
  }

  /** The whole round: an outstanding call is answered with a handle on the multiplexer's
      request path; the Response on that path, while the request stands, reaches the
      caller, addressed to it and on its own request path. */
  lemma PortalRoundTrip(es: Trail, limits: Timeouts, a: nat, b: nat, token: string, q: nat, p: nat, t: nat)
    requires q < p < t < |es| && IsCall(es, q) && AnsweredAt(es, q, p) && Outstanding(es, limits, q, p)
    requires var path := RequestPath(Component(BusName(a, b)), token);
             && es[p].event.body == ObjectPath(path)
             && es[t].event.Response? && es[t].event.signal.path == path
             && Standing(es, limits, p, t, path, PendingRequest(es[q].event.client, es[p].time))
    requires Element(token) && !Contains(token, Component(BusName(a, b)))
    requires es[q].event.client in After(es[..t], limits).connected
    ensures var c, signal := es[q].event.client, es[t].event.signal;
            SentTo(es, limits, BusName(a, b), t) ==
            Some((c, signal.(destination := Some(NameOwnership.UniqueName(c)),
                             path := RequestPath(Component(NameOwnership.UniqueName(c)), token))))
  {
    ReplyAnswersItsCallIff(es, limits, q, p);
    HandleOf(Component(BusName(a, b)), token);
    RoutedByIff(es, limits, p, t);
    RegistrationDecides(es, limits, BusName(a, b), t);
    DeliveredPath(a, b, es[q].event.client, token);
  }

  lemma HandleOf(component: string, token: string)
    ensures RequestHandle(ObjectPath(RequestPath(component, token))) == Some(RequestPath(component, token))
  {
  }

  // ---- age ----

  /** A clean-up drops exactly the requests whose timeout has passed: none younger than the
      timeout is ever swept. */
  lemma CleanupDropsDueRequests(es: Trail, limits: Timeouts, t: nat, path: string)
    requires t < |es| && es[t].event == Cleanup && path in After(es[..t], limits).requests
    ensures var r, after := After(es[..t], limits).requests[path], After(es[..t + 1], limits).requests;
            && (path in after <==> !DueBy(r.timestamp, limits.requests, es[t].time))
            && (path in after ==> after[path] == r)
  {
    assert es[..t + 1][..t] == es[..t];
  }

  ghost predicate Fresh(requests: Requests, timeout: nat, at: Instant) {
    forall path :: path in requests ==> at < requests[path].timestamp + timeout
  }

  lemma FreshStep(w: World, limits: Timeouts, e: Timed, last: Instant)
    requires Fresh(w.requests, limits.requests, last) && last <= e.time && limits.requests > 0
    ensures Fresh(Step(w, limits, e).requests, limits.requests, if e.event == Cleanup then e.time else last)
  {
  }

  lemma {:induction false} FreshAtLastCleanup(es: Trail, limits: Timeouts)
    requires Chronological(es) && limits.requests > 0
    ensures Fresh(After(es, limits).requests, limits.requests, LastCleanup(es))
    ensures es != [] ==> LastCleanup(es) <= es[|es| - 1].time
  {
    if es == [] {
    } else {
      var n := |es| - 1;
      FreshAtLastCleanup(es[..n], limits);
      assert LastCleanup(es[..n]) <= es[n].time;
      FreshStep(After(es[..n], limits), limits, es[n], LastCleanup(es[..n]));
    }
  }

  /** If clean-ups are at most `gap` apart, no tracked request is ever as old as
      timeout + gap. */
  lemma RequestAgeBound(es: Trail, limits: Timeouts, gap: nat, now: Instant, path: string)
    requires Chronological(es) && limits.requests > 0 && now <= LastCleanup(es) + gap
    requires path in After(es, limits).requests
    ensures now < After(es, limits).requests[path].timestamp + limits.requests + gap
  {
    FreshAtLastCleanup(es, limits);
  }
}
