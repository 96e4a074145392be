/** Forwarding method calls under fresh serials and correlating their replies
    (src/serial_map.rs, src/router.rs). */
module Router {
  import opened Basics
  import opened Serials
  import opened Wire
  import opened Routing
  import opened NameQueues

  datatype PendingCall = PendingCall(client: ClientId, clientSerial: u32, timestamp: Instant)
  datatype SerialKey = SerialKey(route: Route, serial: u32)

  type PendingMap = map<SerialKey, PendingCall>

  /** `duration_since` saturates at zero. */
  function Age(call: PendingCall, now: Instant): nat {
    if now > call.timestamp then now - call.timestamp else 0
  }

  function Expired(pending: PendingMap, timeout: nat, now: Instant): set<SerialKey> {
    set k | k in pending && Age(pending[k], now) >= timeout
  }

  class SerialMap {
    var pending: PendingMap
    const timeout: nat

    constructor (timeout: nat)
      ensures pending == map[] && this.timeout == timeout
    {
      pending := map[];
      this.timeout := timeout;
    }

    method Insert(route: Route, forwardedSerial: u32, client: ClientId, clientSerial: u32, now: Instant)
      modifies this
      ensures pending == old(pending)[SerialKey(route, forwardedSerial) := PendingCall(client, clientSerial, now)]
    {
      pending := pending[SerialKey(route, forwardedSerial) := PendingCall(client, clientSerial, now)];
    }

    method Remove(route: Route, replySerial: u32) returns (call: Option<PendingCall>)
      modifies this
      ensures var key := SerialKey(route, replySerial);
              && call == (if key in old(pending) then Some(old(pending)[key]) else None)
              && pending == old(pending) - {key}
    {
      var key := SerialKey(route, replySerial);
      call := if key in pending then Some(pending[key]) else None;
      pending := pending - {key};
    }

    method CleanupExpired(now: Instant) returns (count: nat)
      modifies this
      ensures pending == old(pending) - Expired(old(pending), timeout, now)
      ensures count == |Expired(old(pending), timeout, now)|
    {
      var before := |pending|;
      ghost var was, dead := pending, Expired(pending, timeout, now);
      pending := map k | k in pending && Age(pending[k], now) < timeout :: pending[k];
      assert pending == was - dead;
      assert was.Keys == pending.Keys + dead && pending.Keys !! dead;
      count := before - |pending|;
    }
  }

  /** What the router remembers: a serial counter per bus and the pending calls. */
  datatype Core = Core(container: u32, host: u32, pending: PendingMap)

  function CounterOf(core: Core, route: Route): u32 {
    match route
    case Container => core.container
    case Host => core.host
  }

  function WithCounter(core: Core, route: Route, counter: u32): Core {
    match route
    case Container => core.(container := counter)
    case Host => core.(host := counter)
  }

  /** A serial is drawn for every forward; the call is recorded once it is sent. */
  function Forwarded(core: Core, client: ClientId, clientSerial: u32, route: Route, sent: bool, now: Instant): Core {
    var (serial, counter) := Draw(CounterOf(core, route));
    var drawn := WithCounter(core, route, counter);
    if sent
    then drawn.(pending := core.pending[SerialKey(route, serial) := PendingCall(client, clientSerial, now)])
    else drawn
  }

  class MessageRouter {
    const containerSerials: SerialGenerator
    const hostSerials: SerialGenerator
    const serialMap: SerialMap

    ghost predicate Valid() {
      containerSerials != hostSerials
    }

    function Value(): Core
      reads containerSerials, hostSerials, serialMap
    {
      Core(containerSerials.counter, hostSerials.counter, serialMap.pending)
    }

    constructor (timeout: nat)
      ensures Valid() && Value() == Core(1, 1, map[]) && serialMap.timeout == timeout
      ensures fresh(containerSerials) && fresh(hostSerials) && fresh(serialMap)
    {
      containerSerials := new SerialGenerator();
      hostSerials := new SerialGenerator();
      serialMap := new SerialMap(timeout);
    }

    /** The forwarded bytes differ from the client's only in the serial, which is
        the one recorded; the invalid-serial rejection cannot happen. */
    method ForwardMethodCall(client: ClientId, msg: seq<byte>, route: Route, sent: bool, now: Instant)
      returns (r: Result<seq<byte>, MessageError>)
      requires Valid() && |msg| >= HEADER_LEN
      modifies containerSerials, hostSerials, serialMap
      ensures Value() == Forwarded(old(Value()), client, SerialOf(msg), route, sent, now)
      ensures r == Err(SendFailed) <==> !sent
      ensures sent ==> r.Ok? && SameButSerial(msg, r.value)
                       && SerialOf(r.value) == Draw(CounterOf(old(Value()), route)).0
    {
      var generator := if route == Container then containerSerials else hostSerials;
      var clientSerial := SerialOf(msg);
      var forwardedSerial := generator.Next();
      var forwarded := CloneMessageWithSerial(msg, forwardedSerial);
      if !sent {
        return Err(SendFailed);
      }
      serialMap.Insert(route, forwardedSerial, client, clientSerial, now);
      r := forwarded;
    }

    method HandleReply(route: Route, replySerial: Option<u32>)
      returns (r: Result<Option<(ClientId, u32)>, MessageError>)
      requires Valid()
      modifies serialMap
      ensures replySerial.None? ==> r == Err(NoReplySerial) && Value() == old(Value())
      ensures replySerial.Some? ==>
                var key, was := SerialKey(route, replySerial.value), old(Value());
                && Value() == was.(pending := was.pending - {key})
                && r == Ok(if key in was.pending
                           then Some((was.pending[key].client, was.pending[key].clientSerial)) else None)
    {
      if replySerial.None? {
        return Err(NoReplySerial);
      }
      var pending := serialMap.Remove(route, replySerial.value);
      if pending.Some? {
        return Ok(Some((pending.value.client, pending.value.clientSerial)));
      }
      r := Ok(None);
    }
  }
}
