/** The in-memory sliding-window rate limiter: per client, the timestamps of
    the requests admitted during the last 60 seconds. Timestamps are whole
    seconds; each dispatch is one atomic step. */
module RateLimit {
  import opened Wrappers
  import Seqs

  /** Length of the window, in seconds. */
  const WindowSize: int := 60

  /** Paths served without counting. */
  const ExemptPaths: seq<string> := ["/", "/health", "/docs", "/redoc", "/openapi.json"]

  /** The client's address, or "unknown" when the connection has none. */
  function ClientId(host: Option<string>): (id: string)
    ensures host.Some? ==> id == host.value
    ensures host.None? ==> id == "unknown"
  {
    host.GetOr("unknown")
  }

  function InWindow(now: int): int -> bool
  {
    (t: int) => now - t < WindowSize
  }

  /** The timestamps still inside the window at `now`, in their original order. */
  function Prune(times: seq<int>, now: int): seq<int>
  {
    Seqs.Filter(times, InWindow(now))
  }

  /** Pruning keeps exactly the timestamps less than a window old, each as
      often as it occurs, and never reorders them. */
  lemma PruneKeepsExactlyRecent(times: seq<int>, more: seq<int>, now: int, t: int)
    ensures t in Prune(times, now) <==> t in times && now - t < WindowSize
    ensures multiset(Prune(times, now))[t] == if now - t < WindowSize then multiset(times)[t] else 0
    ensures Prune(times + more, now) == Prune(times, now) + Prune(more, now)
  {
    Seqs.FilterMultiset(times, InWindow(now), t);
    Seqs.FilterConcat(times, more, InWindow(now));
  }

  /** Pruning at an earlier instant and then at a later one is the same as
      pruning once at the later one. */
  lemma PruneLater(times: seq<int>, earlier: int, later: int)
    requires earlier <= later
    ensures Prune(Prune(times, earlier), later) == Prune(times, later)
  {
    Seqs.FilterFilter(times, InWindow(earlier), InWindow(later), InWindow(later));
  }

  /** How many timestamps a client's list may hold. */
  function Capacity(requestsPerMinute: int): nat
  {
    if requestsPerMinute < 0 then 0 else requestsPerMinute
  }

  /** What `dispatch` does with one request. */
  datatype Decision =
    | Bypass
    | Rejected(limit: int, retryAfter: int)
    | Admitted(limit: int, remaining: int, reset: int)

  class InMemoryRateLimiter {
    const requestsPerMinute: int
    var requests: map<string, seq<int>>

    /** No client ever holds more timestamps than the limit. */
    ghost predicate Valid()
      reads this
    {
      forall c :: c in requests ==> |requests[c]| <= Capacity(requestsPerMinute)
    }

    constructor (requestsPerMinute: int)
      ensures this.requestsPerMinute == requestsPerMinute
      ensures requests == map[] && Valid()
    {
      this.requestsPerMinute := requestsPerMinute;
      requests := map[];
    }

    /** `_cleanup_old_requests`: rebuilds the client's list from the
        timestamps still in the window; other clients are untouched. */
    method CleanupOldRequests(clientId: string, now: int)
      modifies this
      ensures requests == if clientId in old(requests)
                          then old(requests)[clientId := Prune(old(requests)[clientId], now)]
                          else old(requests)
    {
      if clientId in requests {
        var times := requests[clientId];
        var kept := [];
        var i := 0;
        while i < |times|
          invariant 0 <= i <= |times|
          invariant kept == Prune(times[..i], now)
          invariant requests == old(requests)
        {
          Seqs.FilterConcat(times[..i], [times[i]], InWindow(now));
          assert times[..i + 1] == times[..i] + [times[i]];
          if now - times[i] < WindowSize {
            kept := kept + [times[i]];
          }
          i := i + 1;
        }
        assert times[..i] == times;
        requests := requests[clientId := kept];
      }
    }

    /** `dispatch`: exempt paths pass uncounted; otherwise the client's list is
        pruned (and created empty if absent), a full list rejects with 429 and
        records nothing, and an admitted request appends `now`. */
    method Dispatch(path: string, host: Option<string>, now: int) returns (d: Decision)
      requires Valid()
      modifies this
      ensures Valid()
      ensures path in ExemptPaths ==> d == Bypass && requests == old(requests)
      ensures path !in ExemptPaths ==>
        var c := ClientId(host);
        var kept := if c in old(requests) then Prune(old(requests)[c], now) else [];
        if |kept| >= requestsPerMinute then
          d == Rejected(requestsPerMinute, 60) && requests == old(requests)[c := kept]
        else
          d == Admitted(requestsPerMinute, requestsPerMinute - |kept| - 1, now + WindowSize)
          && requests == old(requests)[c := kept + [now]]
      ensures d.Admitted? ==> 0 <= d.remaining < requestsPerMinute
    {
      if path in ExemptPaths {
        return Bypass;
      }
      var clientId := ClientId(host);
      CleanupOldRequests(clientId, now);
      if clientId !in requests {
        requests := requests[clientId := []];
      }
      var count := |requests[clientId]|;
      if count >= requestsPerMinute {
        return Rejected(requestsPerMinute, 60);
      }
      requests := requests[clientId := requests[clientId] + [now]];
      d := Admitted(requestsPerMinute, requestsPerMinute - |requests[clientId]|, now + WindowSize);
    }
  }
}
