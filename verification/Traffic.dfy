/** Calls, replies and portal responses passing through the multiplexer
    (src/multiplexer.rs): the pending calls and the portal requests registered from
    their replies, as one state machine. */
module Traffic {
  import opened Basics
  import opened Serials
  import opened Wire
  import opened Routing
  import opened NameQueues
  import opened OneShotTable
  import opened Router
  import opened PortalRequests
  import opened PortalPaths
  import NameOwnership

  /** What a reply carries: an error, a single object path, or anything else. */
  datatype ReplyBody = Failure | ObjectPath(path: string) | OtherBody

  function RequestHandle(body: ReplyBody): Option<string> {
    if body.ObjectPath? && REQUEST_PREFIX <= body.path then Some(body.path) else None
  }

  datatype Event =
    | Connect
    | Disconnect(client: ClientId)
    | Forward(client: ClientId, clientSerial: u32, route: Route, sent: bool)
    | Reply(route: Route, replySerial: Option<u32>, body: ReplyBody)
    | Response(signal: Signal)
    | Cleanup

  datatype Timed = At(time: Instant, event: Event)

  type Trail = seq<Timed>

  datatype Timeouts = Timeouts(calls: nat, requests: nat)

  datatype World = World(core: Core, requests: Requests, connected: set<ClientId>, nextId: ClientId)

  /** The pending call a reply is correlated with. */
  function Correlated(w: World, e: Event): Option<PendingCall> {
    if e.Reply? && e.replySerial.Some? && SerialKey(e.route, e.replySerial.value) in w.core.pending
    then Some(w.core.pending[SerialKey(e.route, e.replySerial.value)]) else None
  }

  /** The event as an operation on the pending calls. */
  function CallOp(w: World, limits: Timeouts, e: Timed): Op<SerialKey, PendingCall> {
    match e.event
    case Forward(c, serial, route, true) =>
      Put(SerialKey(route, Draw(CounterOf(w.core, route)).0), PendingCall(c, serial, e.time))
    case Reply(route, Some(s), _) => Take(SerialKey(route, s))
    case Cleanup => Sweep(Expired(w.core.pending, limits.calls, e.time))
    case _ => Skip
  }

  /** The event as an operation on the portal requests. */
  function RequestOp(w: World, limits: Timeouts, e: Timed): Op<string, PendingRequest> {
    match e.event
    case Disconnect(c) => Sweep(OfClient(w.requests, c))
    case Reply(_, _, body) =>
      if RequestHandle(body).Some? && Correlated(w, e.event).Some?
      then Put(RequestHandle(body).value, PendingRequest(Correlated(w, e.event).value.client, e.time)) else Skip
    case Response(signal) => Take(signal.path)
    case Cleanup => Sweep(Stale(w.requests, limits.requests, e.time))
    case _ => Skip
  }

  function CoreStep(w: World, limits: Timeouts, e: Timed): Core {
    match e.event
    case Forward(c, serial, route, sent) => Forwarded(w.core, c, serial, route, sent, e.time)
    case _ => w.core.(pending := Apply(w.core.pending, CallOp(w, limits, e)))
  }

  function Step(w: World, limits: Timeouts, e: Timed): World {
    var w' := w.(core := CoreStep(w, limits, e), requests := Apply(w.requests, RequestOp(w, limits, e)));
    match e.event
    case Connect => w'.(connected := w.connected + {w.nextId}, nextId := w.nextId + 1)
    case Disconnect(c) => w'.(connected := w.connected - {c})
    case _ => w'
  }

  /** Whom a reply is sent to, and the reply serial it is given. */
  function Delivery(w: World, e: Event): Option<(ClientId, u32)> {
    match Correlated(w, e)
    case Some(call) => if call.client in w.connected then Some((call.client, call.clientSerial)) else None
    case None => None
  }

  /** Whom a tracked Response is sent to, and the signal it becomes. */
  function Routed(w: World, signal: Signal, muxName: string): Option<(ClientId, Signal)> {
    if signal.path in w.requests && w.requests[signal.path].client in w.connected
    then
      var c := w.requests[signal.path].client;
      Some((c, Readdressed(signal, muxName, NameOwnership.UniqueName(c))))
    else None
  }

  // ---- the multiplexer ----

  class Multiplexer {
    const router: MessageRouter
    const portalRequests: PortalRequestTracker
    const muxName: string  // its unique name on the host bus
    var connected: set<ClientId>
    var nextId: ClientId

    ghost predicate Valid() { router.Valid() }

    ghost function Limits(): Timeouts {
      Timeouts(router.serialMap.timeout, portalRequests.timeout)
    }

    function Value(): World
      reads this, portalRequests, router.containerSerials, router.hostSerials, router.serialMap
    {
      World(router.Value(), portalRequests.requests, connected, nextId)
    }

    constructor (limits: Timeouts, muxName: string)
      ensures Valid() && Limits() == limits && this.muxName == muxName
      ensures Value() == START
      ensures fresh(portalRequests) && fresh(router.containerSerials) && fresh(router.hostSerials)
      ensures fresh(router.serialMap)
    {
      router := new MessageRouter(limits.calls);
      portalRequests := new PortalRequestTracker(limits.requests);
      this.muxName := muxName;
      connected, nextId := {}, 1;
    }

    method RegisterClient(ghost now: Instant) returns (c: ClientId)
      modifies this
      ensures Value() == Step(old(Value()), Limits(), At(now, Connect)) && c == old(nextId)
    {
      c := nextId;
      connected, nextId := connected + {c}, nextId + 1;
    }

    method UnregisterClient(c: ClientId, ghost now: Instant)
      modifies this, portalRequests
      ensures Value() == Step(old(Value()), Limits(), At(now, Disconnect(c)))
    {
      connected := connected - {c};
      var _ := portalRequests.RemoveClient(c);
    }

    method ForwardCall(client: ClientId, msg: seq<byte>, route: Route, sent: bool, now: Instant)
      returns (r: Result<seq<byte>, MessageError>)
      requires Valid() && |msg| >= HEADER_LEN
      modifies router.containerSerials, router.hostSerials, router.serialMap
      ensures Value() == Step(old(Value()), Limits(), At(now, Forward(client, SerialOf(msg), route, sent)))
      ensures sent ==> r.Ok? && SameButSerial(msg, r.value)
                       && SerialOf(r.value) == Draw(CounterOf(old(Value()).core, route)).0
    {
      r := router.ForwardMethodCall(client, msg, route, sent, now);
    }

    /** The reply branch of `handle_bus_message`: correlate, register a portal handle,
        and send to the client, if it is still connected, under its own serial. */
    method HandleReply(route: Route, replySerial: Option<u32>, body: ReplyBody, now: Instant)
      returns (delivery: Option<(ClientId, u32)>)
      requires Valid()
      modifies router.serialMap, portalRequests
      ensures Value() == Step(old(Value()), Limits(), At(now, Reply(route, replySerial, body)))
      ensures delivery == Delivery(old(Value()), Reply(route, replySerial, body))
    {
      var correlated := router.HandleReply(route, replySerial);
      delivery := None;
      if correlated.Ok? && correlated.value.Some? {
        var (client, clientSerial) := correlated.value.value;
        var handle := RequestHandle(body);
        if handle.Some? {
          portalRequests.Register(handle.value, client, now);
        }
        if client in connected {
          delivery := Some((client, clientSerial));
        }
      }
    }

    /** The portal branch of `handle_bus_message`. An untracked Response is left to the
        match rules; a tracked one goes to its client, if connected, and to nobody else. */
    method HandleResponse(signal: Signal, ghost now: Instant)
      returns (tracked: bool, delivery: Option<(ClientId, Signal)>)
      modifies portalRequests
      ensures Value() == Step(old(Value()), Limits(), At(now, Response(signal)))
      ensures tracked <==> signal.path in old(Value()).requests
      ensures delivery == Routed(old(Value()), signal, muxName)
    {
      var client := portalRequests.LookupAndRemove(signal.path);
      tracked, delivery := client.Some?, None;
      if client.Some? && client.value in connected {
        delivery := Some((client.value, Readdressed(signal, muxName, NameOwnership.UniqueName(client.value))));
      }
    }

    /** The periodic clean-up of both tables. */
    method RunCleanup(now: Instant)
      requires Valid()
      modifies router.serialMap, portalRequests
      ensures Value() == Step(old(Value()), Limits(), At(now, Cleanup))
    {
      var _ := router.serialMap.CleanupExpired(now);
      var _ := portalRequests.CleanupExpired(now);
    }
  }

  // ---- runs ----

  const START := World(Core(1, 1, map[]), map[], {}, 1)

  function After(es: Trail, limits: Timeouts): World {
    if es == [] then START
    else var n := |es| - 1; Step(After(es[..n], limits), limits, es[n])
  }

  function CallOps(es: Trail, limits: Timeouts): (ops: seq<Op<SerialKey, PendingCall>>)
    ensures |ops| == |es|
  {
    if es == [] then []
    else var n := |es| - 1; CallOps(es[..n], limits) + [CallOp(After(es[..n], limits), limits, es[n])]
  }

  function RequestOps(es: Trail, limits: Timeouts): (ops: seq<Op<string, PendingRequest>>)
    ensures |ops| == |es|
  {
    if es == [] then []
    else var n := |es| - 1; RequestOps(es[..n], limits) + [RequestOp(After(es[..n], limits), limits, es[n])]
  }

  lemma OpsLast(es: Trail, limits: Timeouts)
    requires es != []
    ensures var n := |es| - 1;
            && CallOps(es, limits)[n] == CallOp(After(es[..n], limits), limits, es[n])
            && RequestOps(es, limits)[n] == RequestOp(After(es[..n], limits), limits, es[n])
            && CallOps(es, limits)[..n] == CallOps(es[..n], limits)
            && RequestOps(es, limits)[..n] == RequestOps(es[..n], limits)
  {
  }

  lemma {:induction false} OpsAt(es: Trail, limits: Timeouts, i: nat)
    requires i < |es|
    ensures CallOps(es, limits)[i] == CallOp(After(es[..i], limits), limits, es[i])
    ensures RequestOps(es, limits)[i] == RequestOp(After(es[..i], limits), limits, es[i])
    ensures CallOps(es, limits)[..i] == CallOps(es[..i], limits)
    ensures RequestOps(es, limits)[..i] == RequestOps(es[..i], limits)
  {
    var n := |es| - 1;
    OpsLast(es, limits);
    if i == n {
    } else {
      OpsAt(es[..n], limits, i);
      assert es[..n][..i] == es[..i];
      assert CallOps(es, limits)[..i] == CallOps(es[..n], limits)[..i];
      assert RequestOps(es, limits)[..i] == RequestOps(es[..n], limits)[..i];
    }
  }

  /** The two tables are the histories of their operations. */
  lemma {:induction false} OpsMakeTables(es: Trail, limits: Timeouts)
    ensures After(es, limits).core.pending == Table(CallOps(es, limits))
    ensures After(es, limits).requests == Table(RequestOps(es, limits))
  {
    if es == [] {
    } else {
      var n := |es| - 1;
      OpsMakeTables(es[..n], limits);
      OpsLast(es, limits);
    }
  }
}
