/** gateway/internal/handler/handler.go: the part of `check` after the limiter has decided. */
module Handlers {
  import opened Counter
  import opened Envelopes
  import opened HashStore
  import opened Sums
  import opened Wrappers

  const WINDOW_SECONDS := 60

  datatype Decision = Decision(allowed: bool, remaining: int, retryMs: int)

  /** The global cap: a sum above it overrides the local decision, and the hint points at the next window. */
  function GlobalVerdict(local: Decision, sum: int, globalLimit: int, window: int, nowMs: int): Decision {
    if sum > globalLimit then Decision(false, 0, Max(0, (window + 1) * WINDOW_SECONDS * 1000 - nowMs)) else local
  }

  // What one request brings, and the clock readings taken while it is served.
  datatype Request = Request(tier: string, user: string, globalLimit: int, nowSeconds: nat, tsMs: int, nowMs: int)

  class Gateway {
    const region: string
    const redis: Redis
    var published: seq<Envelope>

    constructor (region: string, redis: Redis)
      ensures this.region == region && this.redis == redis && published == []
    {
      this.region := region;
      this.redis := redis;
      published := [];
    }

    method SumSlots(slots: Hash) returns (sum: int)
      ensures sum == Sum(slots)
    {
      sum := 0;
      var rest := slots;
      while rest != map[]
        invariant Sum(slots) == sum + Sum(rest)
        decreases rest.Keys
      {
        var r :| r in rest;
        SumRemove(rest, r);
        sum := sum + rest[r];
        rest := rest - {r};
      }
    }

    /** The increment runs whatever the local decision was. An error of HINCRBY or HGETALL skips the global
        check and leaves the local decision standing; a failed limiter denies and touches nothing. */
    method Check(local: Decision, limiterFailed: bool, req: Request, incrLink: Link, readLink: Link, sent: bool)
      returns (d: Decision)
      modifies this, redis
      ensures limiterFailed ==> d == Decision(false, 0, 1000) && redis.hashes == old(redis.hashes)
      ensures !limiterFailed ==>
                var key := GlobalKey(req.tier, req.user, req.nowSeconds / 60);
                redis.hashes == if incrLink == Down then old(redis.hashes)
                                else Incremented(old(redis.hashes), key, region)
      ensures forall k, f :: Slot(redis.hashes, k, f)
                          == Slot(old(redis.hashes), k, f)
                             + if && k == GlobalKey(req.tier, req.user, req.nowSeconds / 60) && f == region
                                  && !limiterFailed && incrLink != Down
                               then 1 else 0
      ensures !limiterFailed && (incrLink != Up || readLink != Up) ==> d == local
      ensures !limiterFailed && incrLink == Up && readLink == Up ==>
                var window := req.nowSeconds / 60;
                var total := Sum(HashAt(redis.hashes, GlobalKey(req.tier, req.user, window)));
                && (d.allowed <==> local.allowed && total <= req.globalLimit)
                && (total <= req.globalLimit ==> d == local)
                && (total > req.globalLimit ==>
                      && d.remaining == 0 && d.retryMs >= 0
                      && (d.retryMs == (window + 1) * 60000 - req.nowMs || (d.retryMs == 0 && (window + 1) * 60000 < req.nowMs)))
                && d == GlobalVerdict(local, total, req.globalLimit, window, req.nowMs)
      ensures limiterFailed || incrLink != Up || !sent ==> published == old(published)
      ensures !limiterFailed && incrLink == Up && sent ==>
                var window := req.nowSeconds / 60;
                published == old(published)
                           + [CounterEnvelope(req.tier, req.user, window, region,
                                              Slot(redis.hashes, GlobalKey(req.tier, req.user, window), region),
                                              req.tsMs)]
    {
      if limiterFailed {
        return Decision(false, 0, 1000);
      }
      d := local;
      var window := req.nowSeconds / WINDOW_SECONDS;
      var key := GlobalKey(req.tier, req.user, window);
      if incrLink == Down {
        return;
      }
      var slot := redis.HIncrBy(key, region);
      if incrLink == ReplyLost {
        return;
      }
      if sent {
        published := published + [CounterEnvelope(req.tier, req.user, window, region, slot, req.tsMs)];
      }
      if readLink != Up {
        return;
      }
      var slots := redis.HGetAll(key);
      var sum := SumSlots(slots);
      if sum > req.globalLimit {
        var retryMs := (window + 1) * 60 * 1000 - req.nowMs;
        d := Decision(false, 0, if retryMs < 0 then 0 else retryMs);
      }
    }
  }

  /** The hint of a global denial is exact while the window lasts: waiting that long enters the next window,
      waiting any less does not. */
  lemma GlobalRetryIsExact(local: Decision, sum: int, limit: int, window: int, nowMs: int, waitMs: nat)
    requires sum > limit
    requires window * 60000 <= nowMs < (window + 1) * 60000
    ensures var hint := GlobalVerdict(local, sum, limit, window, nowMs).retryMs;
            && 1 <= hint <= 60000
            && (waitMs < hint <==> (nowMs + waitMs) / 60000 <= window)
  {
    var hint := (window + 1) * 60000 - nowMs;
    if waitMs < hint {
      assert (nowMs + waitMs) / 60000 == window;
    } else {
      assert nowMs + waitMs >= (window + 1) * 60000;
      assert (nowMs + waitMs) / 60000 >= window + 1;
    }
  }
}
