/** One-shot tracking of portal requests (src/portal_request.rs). */
module PortalRequests {
  import opened Basics
  import opened NameQueues
  import opened OneShotTable

  datatype PendingRequest = PendingRequest(client: ClientId, timestamp: Instant)

  type Requests = map<string, PendingRequest>

  function Elapsed(p: PendingRequest, now: Instant): nat {
    if now > p.timestamp then now - p.timestamp else 0
  }

  function Stale(requests: Requests, timeout: nat, now: Instant): set<string> {
    set path | path in requests && Elapsed(requests[path], now) >= timeout
  }

  function OfClient(requests: Requests, c: ClientId): set<string> {
    set path | path in requests && requests[path].client == c
  }

  class PortalRequestTracker {
    var requests: Requests
    const timeout: nat

    constructor (timeout: nat)
      ensures requests == map[] && this.timeout == timeout
    {
      requests := map[];
      this.timeout := timeout;
    }

    method Register(path: string, c: ClientId, now: Instant)
      modifies this
      ensures requests == Apply(old(requests), Put(path, PendingRequest(c, now)))
    {
      requests := requests[path := PendingRequest(c, now)];
    }

    /** The client to route a Response to; the entry is used up. */
    method LookupAndRemove(path: string) returns (client: Option<ClientId>)
      modifies this
      ensures requests == Apply(old(requests), Take(path))
      ensures client == if path in old(requests) then Some(old(requests)[path].client) else None
    {
      if path in requests {
        client := Some(requests[path].client);
        requests := requests - {path};
      } else {
        client := None;
        assert requests == requests - {path};
      }
    }

    method CleanupExpired(now: Instant) returns (count: nat)
      modifies this
      ensures requests == Apply(old(requests), Sweep(Stale(old(requests), timeout, now)))
      ensures count == |Stale(old(requests), timeout, now)|
    {
      var before := |requests|;
      ghost var was, dead := requests, Stale(requests, timeout, now);
      requests := map p | p in requests && Elapsed(requests[p], now) < timeout :: requests[p];
      assert requests == was - dead;
      SweepSize(was, dead);
      assert dead * was.Keys == dead;
      count := before - |requests|;
    }

    method RemoveClient(c: ClientId) returns (count: nat)
      modifies this
      ensures requests == Apply(old(requests), Sweep(OfClient(old(requests), c)))
      ensures count == |OfClient(old(requests), c)|
    {
      var before := |requests|;
      ghost var was, dead := requests, OfClient(requests, c);
      requests := map p | p in requests && requests[p].client != c :: requests[p];
      assert requests == was - dead;
      SweepSize(was, dead);
      assert dead * was.Keys == dead;
      count := before - |requests|;
    }
  }
}
