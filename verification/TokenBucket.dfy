/** gateway/internal/limiter/token_bucket.lua: the token bucket script on one key. Token amounts are scaled
    by 60000, which makes every quantity of the script an integer: a request costs 60000, a millisecond
    refills `limit`, and a full bucket holds 60000 times `burst`. */
module TokenBuckets {
  import opened Wrappers

  const UNIT := 60000
  const TTL_MS := 120000

  // The stored hash: scaled tokens and the latest clock reading.
  datatype Stored = Stored(tokens: int, lastRefillMs: int)

  datatype Reply = Reply(allowed: bool, remaining: int, retryAfterMs: int)

  function CeilDiv(a: int, b: int): int
    requires b > 0
  {
    (a + b - 1) / b
  }

  // Step 2 of the script: the tokens after refilling, the clock never counted backwards.
  function Refilled(st: Stored, limit: int, burst: int, nowMs: int): int {
    if limit > 0 then Min(burst * UNIT, st.tokens + Max(0, nowMs - st.lastRefillMs) * limit) else st.tokens
  }

  // An absent key reads as a full bucket refilled now.
  function Loaded(stored: Option<Stored>, burst: int, nowMs: int): Stored {
    if stored.Some? then stored.value else Stored(burst * UNIT, nowMs)
  }

  /** One call of the script: the hash it stores and the reply it returns. */
  function Call(stored: Option<Stored>, limit: int, burst: int, nowMs: int): (Stored, Reply) {
    var st := Loaded(stored, burst, nowMs);
    var t := Refilled(st, limit, burst, nowMs);
    var last := Max(st.lastRefillMs, nowMs);
    if t >= UNIT then (Stored(t - UNIT, last), Reply(true, (t - UNIT) / UNIT, 0))
    else (Stored(t, last), Reply(false, t / UNIT, if limit > 0 then CeilDiv(UNIT - t, limit) else -1))
  }

  // ----- stretches of calls on one key that does not expire

  // One call as it reaches the script: overrides and policies change the limit and the burst between calls.
  datatype Ask = Ask(nowMs: int, limit: int, burst: int)

  function After(st: Option<Stored>, asks: seq<Ask>): Option<Stored> {
    if asks == [] then st
    else
      var a := asks[|asks| - 1];
      Some(Call(After(st, asks[..|asks| - 1]), a.limit, a.burst, a.nowMs).0)
  }

  function Allowed(st: Option<Stored>, asks: seq<Ask>): nat {
    if asks == [] then 0
    else
      var before, a := asks[..|asks| - 1], asks[|asks| - 1];
      Allowed(st, before) + if Call(After(st, before), a.limit, a.burst, a.nowMs).1.allowed then 1 else 0
  }

  // What one call can refill: its own limit times the milliseconds its clock advances.
  function Earned(st: Stored, a: Ask): int {
    Max(0, a.nowMs - st.lastRefillMs) * Max(0, a.limit)
  }

  // The refill of all the calls, each at its own limit.
  function Refill(st: Stored, asks: seq<Ask>): int {
    if asks == [] then 0
    else Refill(st, asks[..|asks| - 1]) + Earned(After(Some(st), asks[..|asks| - 1]).value, asks[|asks| - 1])
  }

  // Policies are validated to have a burst of at least 0.
  ghost predicate BurstsOk(asks: seq<Ask>) {
    forall i | 0 <= i < |asks| :: asks[i].burst >= 0
  }

  lemma CallLedger(st: Stored, a: Ask)
    requires a.burst >= 0 && st.tokens >= 0
    ensures var (end, reply) := Call(Some(st), a.limit, a.burst, a.nowMs);
            && end.tokens >= 0 && end.lastRefillMs == Max(st.lastRefillMs, a.nowMs)
            && (if reply.allowed then UNIT else 0) + end.tokens <= st.tokens + Earned(st, a)
  {
    assert Earned(st, a) >= 0;
  }

  /** The ledger: along any calls at any clock readings, even backward ones, and with limits and bursts that
      change from call to call, the tokens spent and the tokens left are covered by the tokens at the start and
      what each call's advance of the running maximum clock refills at that call's limit. */
  lemma {:induction false} Ledger(st: Stored, asks: seq<Ask>)
    requires BurstsOk(asks) && st.tokens >= 0
    ensures var end := After(Some(st), asks).value;
            && end.lastRefillMs >= st.lastRefillMs && end.tokens >= 0
            && Allowed(Some(st), asks) * UNIT + end.tokens <= st.tokens + Refill(st, asks)
  {
    if asks == [] {
    } else {
      var before := asks[..|asks| - 1];
      Ledger(st, before);
      CallLedger(After(Some(st), before).value, asks[|asks| - 1]);
    }
  }

  lemma {:induction false} RefillIsBounded(st: Stored, asks: seq<Ask>, most: nat)
    requires forall i | 0 <= i < |asks| :: asks[i].limit <= most
    ensures 0 <= Refill(st, asks) <= most * (After(Some(st), asks).value.lastRefillMs - st.lastRefillMs)
  {
    if asks == [] {
    } else {
      var before, a := asks[..|asks| - 1], asks[|asks| - 1];
      RefillIsBounded(st, before, most);
      var mid := After(Some(st), before).value;
      var advance := Max(0, a.nowMs - mid.lastRefillMs);
      ProductBound(advance, Max(0, a.limit), most);
      AddAdvance(most, mid.lastRefillMs - st.lastRefillMs, advance);
    }
  }

  lemma ProductBound(x: nat, y: nat, most: nat)
    requires y <= most
    ensures 0 <= x * y <= most * x
  {
    assert x * (most - y) >= 0;
    assert x * (most - y) == x * most - x * y;
  }

  lemma AddAdvance(most: nat, x: int, y: int)
    ensures most * x + most * y == most * (x + y)
  {
  }

  lemma RefillIsElapsed(st: Stored, limit: int, burst: nat, now: int)
    requires limit > 0 && 0 <= st.tokens <= burst * UNIT
    ensures 0 <= st.tokens <= Refilled(st, limit, burst, now)
    ensures Refilled(st, limit, burst, now) <= st.tokens + (Max(st.lastRefillMs, now) - st.lastRefillMs) * limit
    ensures Refilled(st, limit, burst, now) <= burst * UNIT
  {
    assert Max(0, now - st.lastRefillMs) == Max(st.lastRefillMs, now) - st.lastRefillMs;
    assert Max(0, now - st.lastRefillMs) * limit >= 0;
  }

  // The tokens never exceed the deepest burst asked for, nor what was there at the start.
  lemma {:induction false} TokensStayWithin(st: Stored, asks: seq<Ask>, most: nat)
    requires 0 <= st.tokens <= most * UNIT
    requires forall i | 0 <= i < |asks| :: 0 <= asks[i].burst <= most
    ensures 0 <= After(Some(st), asks).value.tokens <= most * UNIT
  {
    if asks == [] {
    } else {
      TokensStayWithin(st, asks[..|asks| - 1], most);
      CallLedger(After(Some(st), asks[..|asks| - 1]).value, asks[|asks| - 1]);
    }
  }

  /** The rate bound. A stretch of calls on a live key that holds at most `burst` tokens admits at most
      burst + limit * advance / 60000 of them, where limit is the largest any of the calls asked for and advance
      is how far the latest stored clock reading moved. */
  lemma {:induction false} RateBound(st: Stored, limit: nat, burst: nat, asks: seq<Ask>)
    requires BurstsOk(asks) && 0 <= st.tokens <= burst * UNIT
    requires forall i | 0 <= i < |asks| :: asks[i].limit <= limit
    ensures var advance := After(Some(st), asks).value.lastRefillMs - st.lastRefillMs;
            Allowed(Some(st), asks) <= burst + limit * advance / UNIT
    ensures (forall i | 0 <= i < |asks| :: asks[i].burst <= burst) ==>
              After(Some(st), asks).value.tokens <= burst * UNIT
  {
    if forall i | 0 <= i < |asks| :: asks[i].burst <= burst {
      TokensStayWithin(st, asks, burst);
    }
    Ledger(st, asks);
    RefillIsBounded(st, asks, limit);
    var m := limit * (After(Some(st), asks).value.lastRefillMs - st.lastRefillMs);
    assert (Allowed(Some(st), asks) - burst) * UNIT <= m;
    QuotientBound(Allowed(Some(st), asks) - burst, m);
  }

  lemma QuotientBound(x: int, m: int)
    requires x * UNIT <= m
    ensures x <= m / UNIT
  {
  }

  // Every state the script stores keeps the precondition of the bound.
  lemma StoredIsWithinBurst(stored: Option<Stored>, limit: int, burst: nat, now: int)
    requires stored.Some? ==> 0 <= stored.value.tokens <= burst * UNIT
    ensures 0 <= Call(stored, limit, burst, now).0.tokens <= burst * UNIT
  {
    if limit > 0 {
      RefillIsElapsed(Loaded(stored, burst, now), limit, burst, now);
    }
  }

  /** Without a refill rate the bucket only drains: whatever the clock and the bursts do, the tokens spent and
      left are exactly those at the start, and once a call is denied every later one is. */
  lemma {:induction false} NoRefillDrains(st: Stored, asks: seq<Ask>)
    requires st.tokens >= 0 && forall i | 0 <= i < |asks| :: asks[i].limit <= 0
    ensures var end := After(Some(st), asks).value;
            && end.tokens >= 0
            && Allowed(Some(st), asks) * UNIT + end.tokens == st.tokens
            && Allowed(Some(st), asks) == Min(|asks|, st.tokens / UNIT)
  {
    if asks == [] {
    } else {
      NoRefillDrains(st, asks[..|asks| - 1]);
    }
  }

  // ----- the retry hint

  /** A denial's hint is exact. After a denial at a clock reading not behind the bucket, calls at any
      readings before now + hint, in any order, are all denied, and whatever such calls were made in
      between, the call at now + hint is allowed. */
  lemma {:induction false} RetryHintIsExact(st: Stored, limit: int, burst: nat, now: int, polls: seq<Ask>)
    requires limit > 0 && burst >= 1 && st.tokens >= 0
    requires now >= st.lastRefillMs && !Call(Some(st), limit, burst, now).1.allowed
    requires forall i | 0 <= i < |polls| :: polls[i].limit == limit && polls[i].burst == burst
    requires forall i | 0 <= i < |polls| :: polls[i].nowMs < now + Call(Some(st), limit, burst, now).1.retryAfterMs
    ensures var (denied, reply) := Call(Some(st), limit, burst, now);
            var polled := After(Some(denied), polls);
            && reply.retryAfterMs >= 1
            && Allowed(Some(denied), polls) == 0
            && now <= polled.value.lastRefillMs < now + reply.retryAfterMs
            && polled.value.tokens == denied.tokens + (polled.value.lastRefillMs - now) * limit
            && (forall t | t < now + reply.retryAfterMs :: !Call(polled, limit, burst, t).1.allowed)
            && (forall t | t >= now + reply.retryAfterMs :: Call(polled, limit, burst, t).1.allowed)
  {
    var (denied, reply) := Call(Some(st), limit, burst, now);
    var due := now + reply.retryAfterMs;
    HintMeaning(UNIT - denied.tokens, limit);
    if polls == [] {
      assert After(Some(denied), polls) == Some(denied);
      assert (denied.lastRefillMs - now) * limit == 0;
      PollsFollowTheClock(denied, denied, limit, burst, now, reply.retryAfterMs);
    } else {
      var before, t := polls[..|polls| - 1], polls[|polls| - 1].nowMs;
      RetryHintIsExact(st, limit, burst, now, before);
      var mid := After(Some(denied), before).value;
      assert t < due;
      PollAdvances(denied, mid, limit, burst, now, reply.retryAfterMs, t);
      var end := Call(Some(mid), limit, burst, t).0;
      PollsFollowTheClock(denied, end, limit, burst, now, reply.retryAfterMs);
    }
  }

  // What the hint means: the deficit is made up in exactly that many milliseconds.
  lemma HintMeaning(deficit: int, limit: int)
    requires deficit > 0 && limit > 0
    ensures CeilDiv(deficit, limit) >= 1
    ensures forall ms: int :: ms >= CeilDiv(deficit, limit) <==> ms * limit >= deficit
  {
    CeilDivCovers(deficit, limit);
    forall ms: int
      ensures ms >= CeilDiv(deficit, limit) <==> ms * limit >= deficit
    {
      CoversFrom(CeilDiv(deficit, limit), ms, deficit, limit);
    }
    CoversFrom(CeilDiv(deficit, limit), 0, deficit, limit);
  }

  lemma CeilDivCovers(a: int, b: int)
    requires b > 0
    ensures CeilDiv(a, b) * b >= a && (CeilDiv(a, b) - 1) * b < a
  {
    var q, r := (a + b - 1) / b, (a + b - 1) % b;
    assert a + b - 1 == q * b + r;
    assert (q - 1) * b == q * b - b;
  }

  // h is the least number of steps that covers a, so any other covers it just when it is at least h.
  lemma CoversFrom(h: int, ms: int, a: int, b: int)
    requires b > 0 && h * b >= a && (h - 1) * b < a
    ensures ms >= h <==> ms * b >= a
  {
    if ms >= h {
      TimesMonotone(h, ms, b);
    } else {
      TimesMonotone(ms, h - 1, b);
    }
  }

  lemma TimesMonotone(x: int, y: int, b: int)
    requires b > 0 && x <= y
    ensures x * b <= y * b
  {
    assert (y - x) * b >= 0;
    assert (y - x) * b == y * b - x * b;
  }

  // `mid` holds what `denied` would at its clock: denied polls in between have lost nothing.
  ghost predicate OnSchedule(denied: Stored, mid: Stored, limit: int, now: int, hint: int) {
    && now <= mid.lastRefillMs < now + hint
    && mid.tokens == denied.tokens + (mid.lastRefillMs - now) * limit
  }

  lemma RefillOnSchedule(denied: Stored, mid: Stored, limit: int, burst: nat, now: int, hint: int, t: int)
    requires limit > 0 && burst >= 1 && 0 <= denied.tokens < UNIT && denied.lastRefillMs == now
    requires hint == CeilDiv(UNIT - denied.tokens, limit)
    requires OnSchedule(denied, mid, limit, now, hint)
    ensures Refilled(mid, limit, burst, t) == Min(burst * UNIT, denied.tokens + (Max(mid.lastRefillMs, t) - now) * limit)
    ensures t < now + hint ==> Refilled(mid, limit, burst, t) == denied.tokens + (Max(mid.lastRefillMs, t) - now) * limit < UNIT
    ensures t >= now + hint ==> Refilled(mid, limit, burst, t) >= UNIT
  {
    HintMeaning(UNIT - denied.tokens, limit);
    var elapsed, total := Max(0, t - mid.lastRefillMs), Max(mid.lastRefillMs, t) - now;
    assert elapsed == total - (mid.lastRefillMs - now);
    assert elapsed * limit == total * limit - (mid.lastRefillMs - now) * limit;
    assert total >= hint <==> total * limit >= UNIT - denied.tokens;
  }

  lemma PollAdvances(denied: Stored, mid: Stored, limit: int, burst: nat, now: int, hint: int, t: int)
    requires limit > 0 && burst >= 1 && 0 <= denied.tokens < UNIT && denied.lastRefillMs == now
    requires hint == CeilDiv(UNIT - denied.tokens, limit)
    requires OnSchedule(denied, mid, limit, now, hint) && t < now + hint
    ensures !Call(Some(mid), limit, burst, t).1.allowed
    ensures OnSchedule(denied, Call(Some(mid), limit, burst, t).0, limit, now, hint)
  {
    RefillOnSchedule(denied, mid, limit, burst, now, hint, t);
  }

  lemma PollsFollowTheClock(denied: Stored, mid: Stored, limit: int, burst: nat, now: int, hint: int)
    requires limit > 0 && burst >= 1 && 0 <= denied.tokens < UNIT && denied.lastRefillMs == now
    requires hint == CeilDiv(UNIT - denied.tokens, limit)
    requires OnSchedule(denied, mid, limit, now, hint)
    ensures forall t :: Call(Some(mid), limit, burst, t).1.allowed <==> t >= now + hint
  {
    forall t
      ensures Call(Some(mid), limit, burst, t).1.allowed <==> t >= now + hint
    {
      RefillOnSchedule(denied, mid, limit, burst, now, hint, t);
    }
  }

  /** When the hint of a denial can be relied on: coming back exactly then is allowed if and only if the
      bucket can hold a token at all and the denied call's clock was not behind the bucket's. */
  lemma HintHonouredIff(st: Stored, limit: int, burst: int, now: int)
    requires limit > 0 && st.tokens >= 0
    requires !Call(Some(st), limit, burst, now).1.allowed
    ensures var (denied, reply) := Call(Some(st), limit, burst, now);
            var back := now + reply.retryAfterMs;
            (Call(Some(denied), limit, burst, back).1.allowed <==> burst >= 1 && now >= st.lastRefillMs)
  {
    var (denied, reply) := Call(Some(st), limit, burst, now);
    var hint := reply.retryAfterMs;
    if burst >= 1 {
      assert Max(0, now - st.lastRefillMs) * limit >= 0;
      HintMeaning(UNIT - denied.tokens, limit);
      var elapsed := Max(0, now + hint - denied.lastRefillMs);
      assert elapsed >= hint <==> now >= st.lastRefillMs;
      assert elapsed >= hint <==> elapsed * limit >= UNIT - denied.tokens;
    }
  }

  class Bucket {
    var stored: Option<Stored>
    // The calls since the key was absent.
    ghost var asks: seq<Ask>

    constructor ()
      ensures Valid() && asks == []
    {
      stored, asks := None, [];
    }

    ghost predicate Valid()
      reads this
    {
      stored == After(None, asks)
    }

    method Script(limit: int, burst: int, nowMs: int) returns (reply: Reply)
      modifies this`stored
      ensures stored == Some(Call(old(stored), limit, burst, nowMs).0)
      ensures reply == Call(old(stored), limit, burst, nowMs).1
    {
      var tokens, lastRefillMs := burst * UNIT, nowMs;
      if stored.Some? {
        tokens, lastRefillMs := stored.value.tokens, stored.value.lastRefillMs;
      }
      var elapsedMs := nowMs - lastRefillMs;
      if elapsedMs < 0 {
        elapsedMs := 0;
      }
      if limit > 0 {
        tokens := Min(burst * UNIT, tokens + elapsedMs * limit);
      }
      var allowed, retryAfterMs := false, 0;
      if tokens >= UNIT {
        tokens := tokens - UNIT;
        allowed := true;
      } else if limit > 0 {
        retryAfterMs := CeilDiv(UNIT - tokens, limit);
      } else {
        retryAfterMs := -1;
      }
      var newRefillMs := lastRefillMs;
      if nowMs > newRefillMs {
        newRefillMs := nowMs;
      }
      stored := Some(Stored(tokens, newRefillMs));
      reply := Reply(allowed, tokens / UNIT, retryAfterMs);
    }

    /** One call: it is allowed if and only if no stretch of calls that ends in it has used up the tokens it
        began with and what was refilled since, and it replies with what is left. */
    method Run(limit: int, burst: int, nowMs: int) returns (reply: Reply)
      requires Valid()
      modifies this
      ensures Valid() && asks == old(asks) + [Ask(nowMs, limit, burst)]
      ensures stored == Some(Call(old(stored), limit, burst, nowMs).0)
      ensures reply == Call(old(stored), limit, burst, nowMs).1
      ensures reply == ReplyAt(None, asks, |asks| - 1) && RepliesExactly(None, asks, |asks| - 1)
    {
      reply := Script(limit, burst, nowMs);
      OneMoreAsk(asks, Ask(nowMs, limit, burst));
      asks := asks + [Ask(nowMs, limit, burst)];
    }
  }

  // ----- exactly which calls are admitted

  /** The latest clock reading the first n calls show, from that of the start on. */
  ghost function Clock(start: int, asks: seq<Ask>, n: nat): int
    requires n <= |asks|
  {
    if n == 0 then start else Max(Clock(start, asks, n - 1), asks[n - 1].nowMs)
  }

  /** What the first n calls refill if nothing overflows: each its limit times the advance of the clock. */
  ghost function Gains(start: int, asks: seq<Ask>, n: nat): int
    requires n <= |asks|
  {
    if n == 0 then 0
    else
      Gains(start, asks, n - 1)
      + (Clock(start, asks, n) - Clock(start, asks, n - 1)) * Max(0, asks[n - 1].limit)
  }

  function ReplyAt(st: Option<Stored>, asks: seq<Ask>, n: nat): Reply
    requires n < |asks|
  {
    Call(After(st, asks[..n]), asks[n].limit, asks[n].burst, asks[n].nowMs).1
  }

  /** How many of the first n calls were allowed. */
  ghost function Taken(st: Option<Stored>, asks: seq<Ask>, n: nat): nat
    requires n <= |asks|
  {
    if n == 0 then 0 else Taken(st, asks, n - 1) + if ReplyAt(st, asks, n - 1).allowed then 1 else 0
  }

  // An absent key starts full, at the first call's clock reading.
  ghost function Start(st: Option<Stored>, asks: seq<Ask>): Stored
    requires asks != []
  {
    match st
    case Some(stored) => stored
    case None => Stored(asks[0].burst * UNIT, asks[0].nowMs)
  }

  /** The balance of call n if nothing overflowed since the start. */
  ghost function FromStart(st: Option<Stored>, asks: seq<Ask>, n: nat): int
    requires n < |asks|
  {
    Start(st, asks).tokens + Gains(Start(st, asks).lastRefillMs, asks, n + 1) - UNIT * Taken(st, asks, n)
  }

  /** The balance of call n if call k filled the bucket up and nothing overflowed since. */
  ghost function FromFull(st: Option<Stored>, asks: seq<Ask>, k: nat, n: nat): int
    requires k <= n < |asks|
  {
    var clock := Start(st, asks).lastRefillMs;
    asks[k].burst * UNIT + (Gains(clock, asks, n + 1) - Gains(clock, asks, k + 1))
    - UNIT * (Taken(st, asks, n) - Taken(st, asks, k))
  }

  /** v is the least of the balances of call n: from the start, and from every call that refills. */
  ghost predicate IsBalance(st: Option<Stored>, asks: seq<Ask>, n: nat, v: int)
    requires n < |asks|
  {
    && v <= FromStart(st, asks, n)
    && (forall k | 0 <= k <= n && asks[k].limit > 0 :: v <= FromFull(st, asks, k, n))
    && (v == FromStart(st, asks, n) || exists k | 0 <= k <= n && asks[k].limit > 0 :: v == FromFull(st, asks, k, n))
  }

  /** Call n can be paid for out of every stretch of calls that ends in it. */
  ghost predicate Affordable(st: Option<Stored>, asks: seq<Ask>, n: nat)
    requires n < |asks|
  {
    && UNIT <= FromStart(st, asks, n)
    && forall k | 0 <= k <= n && asks[k].limit > 0 :: UNIT <= FromFull(st, asks, k, n)
  }

  // What a reply says of the balance v: the whole tokens left, or when the one missing will be there.
  ghost predicate Accounts(reply: Reply, v: int, limit: int) {
    && (reply.allowed ==> reply.remaining * UNIT <= v - UNIT < (reply.remaining + 1) * UNIT && reply.retryAfterMs == 0)
    && (!reply.allowed ==> reply.remaining * UNIT <= v < (reply.remaining + 1) * UNIT)
    && (!reply.allowed && limit > 0 ==>
          v + reply.retryAfterMs * limit >= UNIT > v + (reply.retryAfterMs - 1) * limit)
    && (!reply.allowed && limit <= 0 ==> reply.retryAfterMs == -1)
  }

  /** Call n is allowed if and only if it is affordable, and its reply accounts for the least of its balances. */
  ghost predicate RepliesExactly(st: Option<Stored>, asks: seq<Ask>, n: nat)
    requires n < |asks|
  {
    && (ReplyAt(st, asks, n).allowed <==> Affordable(st, asks, n))
    && exists v :: IsBalance(st, asks, n, v) && Accounts(ReplyAt(st, asks, n), v, asks[n].limit)
  }

  // The tokens the script decides call n by.
  ghost function Held(st: Option<Stored>, asks: seq<Ask>, n: nat): int
    requires n < |asks|
  {
    Refilled(Loaded(After(st, asks[..n]), asks[n].burst, asks[n].nowMs), asks[n].limit, asks[n].burst, asks[n].nowMs)
  }

  lemma {:induction false} AfterOne(st: Option<Stored>, asks: seq<Ask>, n: nat)
    requires n < |asks|
    ensures var held, clock := Held(st, asks, n), Loaded(After(st, asks[..n]), asks[n].burst, asks[n].nowMs).lastRefillMs;
            && (ReplyAt(st, asks, n).allowed <==> held >= UNIT)
            && After(st, asks[..n + 1])
            == Some(Stored(held - if held >= UNIT then UNIT else 0, Max(clock, asks[n].nowMs)))
  {
    assert asks[..n + 1][..n] == asks[..n];
  }

  // What the script reads for call n: the start, or what the call before left.
  lemma {:induction false} HeldStep(st: Option<Stored>, asks: seq<Ask>, n: nat)
    requires n < |asks|
    ensures var start := Start(st, asks);
            var found := Loaded(After(st, asks[..n]), asks[n].burst, asks[n].nowMs);
            && found.lastRefillMs == Clock(start.lastRefillMs, asks, n)
            && found.tokens == (if n == 0 then start.tokens
                                else Held(st, asks, n - 1) - if ReplyAt(st, asks, n - 1).allowed then UNIT else 0)
  {
    if n == 0 {
      assert asks[..0] == [];
    } else {
      HeldStep(st, asks, n - 1);
      AfterOne(st, asks, n - 1);
    }
  }

  lemma {:induction false} HeldIs(st: Option<Stored>, asks: seq<Ask>, n: nat)
    requires n < |asks|
    ensures var start := Start(st, asks);
            var before := if n == 0 then start.tokens
                          else Held(st, asks, n - 1) - if ReplyAt(st, asks, n - 1).allowed then UNIT else 0;
            var gain := Gains(start.lastRefillMs, asks, n + 1) - Gains(start.lastRefillMs, asks, n);
            && Held(st, asks, n) == (if asks[n].limit > 0 then Min(asks[n].burst * UNIT, before + gain) else before)
            && (asks[n].limit <= 0 ==> gain == 0)
  {
    HeldStep(st, asks, n);
    var clock := Clock(Start(st, asks).lastRefillMs, asks, n);
    assert Max(clock, asks[n].nowMs) - clock == Max(0, asks[n].nowMs - clock);
  }

  // By how much call n moves the balances that reach back before it.
  ghost function Moved(st: Option<Stored>, asks: seq<Ask>, n: nat): int
    requires 0 < n < |asks|
  {
    var clock := Start(st, asks).lastRefillMs;
    Gains(clock, asks, n + 1) - Gains(clock, asks, n) - if ReplyAt(st, asks, n - 1).allowed then UNIT else 0
  }

  lemma {:induction false} BalancesMove(st: Option<Stored>, asks: seq<Ask>, k: nat, n: nat)
    requires k < n < |asks|
    ensures FromStart(st, asks, n) == FromStart(st, asks, n - 1) + Moved(st, asks, n)
    ensures FromFull(st, asks, k, n) == FromFull(st, asks, k, n - 1) + Moved(st, asks, n)
  {
  }

  lemma {:induction false} BalanceStep(st: Option<Stored>, asks: seq<Ask>, n: nat, u: int, v: int)
    requires 0 < n < |asks| && IsBalance(st, asks, n - 1, u)
    requires v == if asks[n].limit > 0 then Min(asks[n].burst * UNIT, u + Moved(st, asks, n)) else u + Moved(st, asks, n)
    ensures IsBalance(st, asks, n, v)
  {
    forall k: nat | k < n
      ensures FromFull(st, asks, k, n) == FromFull(st, asks, k, n - 1) + Moved(st, asks, n)
    {
      BalancesMove(st, asks, k, n);
    }
    BalancesMove(st, asks, 0, n);
    assert FromFull(st, asks, n, n) == asks[n].burst * UNIT;
    if u != FromStart(st, asks, n - 1) {
      var k: nat :| k <= n - 1 && asks[k].limit > 0 && u == FromFull(st, asks, k, n - 1);
      assert u + Moved(st, asks, n) == FromFull(st, asks, k, n);
    }
  }

  lemma {:induction false} HeldIsBalance(st: Option<Stored>, asks: seq<Ask>, n: nat)
    requires n < |asks|
    ensures IsBalance(st, asks, n, Held(st, asks, n))
  {
    if n == 0 {
      HeldAtStart(st, asks);
    } else {
      HeldIsBalance(st, asks, n - 1);
      HeldMoves(st, asks, n);
      BalanceStep(st, asks, n, Held(st, asks, n - 1), Held(st, asks, n));
    }
  }

  lemma {:induction false} HeldAtStart(st: Option<Stored>, asks: seq<Ask>)
    requires asks != []
    ensures IsBalance(st, asks, 0, Held(st, asks, 0))
  {
    HeldIs(st, asks, 0);
    assert FromFull(st, asks, 0, 0) == asks[0].burst * UNIT;
  }

  lemma {:induction false} HeldMoves(st: Option<Stored>, asks: seq<Ask>, n: nat)
    requires 0 < n < |asks|
    ensures var moved := Held(st, asks, n - 1) + Moved(st, asks, n);
            Held(st, asks, n) == if asks[n].limit > 0 then Min(asks[n].burst * UNIT, moved) else moved
  {
    HeldIs(st, asks, n);
  }

  /** Exactly which calls are admitted, for calls at any clock readings, even backward ones, with limits and
      bursts that change from call to call: a call is allowed if and only if it can be paid for out of the start
      and out of every full bucket before it, each with the refill since and less the calls allowed since. What
      the reply says is the whole tokens of the least of these balances. */
  lemma {:induction false} AdmissionIsExact(st: Option<Stored>, asks: seq<Ask>, n: nat)
    requires n < |asks|
    ensures RepliesExactly(st, asks, n)
  {
    var v := Held(st, asks, n);
    HeldIsBalance(st, asks, n);
    LeastDecides(st, asks, n, v);
    CallAccounts(After(st, asks[..n]), asks[n].limit, asks[n].burst, asks[n].nowMs);
    assert ReplyAt(st, asks, n).allowed <==> v >= UNIT;
  }

  lemma {:induction false} LeastDecides(st: Option<Stored>, asks: seq<Ask>, n: nat, v: int)
    requires n < |asks| && IsBalance(st, asks, n, v)
    ensures Affordable(st, asks, n) <==> UNIT <= v
  {
  }

  lemma CallAccounts(st: Option<Stored>, limit: int, burst: int, now: int)
    ensures Accounts(Call(st, limit, burst, now).1, Refilled(Loaded(st, burst, now), limit, burst, now), limit)
  {
    var v, reply := Refilled(Loaded(st, burst, now), limit, burst, now), Call(st, limit, burst, now).1;
    if !reply.allowed && limit > 0 {
      HintMeaning(UNIT - v, limit);
      assert reply.retryAfterMs * limit >= UNIT - v;
      assert (reply.retryAfterMs - 1) * limit < UNIT - v;
    }
  }

  lemma {:induction false} OneMoreAsk(asks: seq<Ask>, a: Ask)
    ensures var (end, reply) := Call(After(None, asks), a.limit, a.burst, a.nowMs);
            && After(None, asks + [a]) == Some(end)
            && ReplyAt(None, asks + [a], |asks|) == reply && RepliesExactly(None, asks + [a], |asks|)
  {
    assert (asks + [a])[..|asks|] == asks;
    AdmissionIsExact(None, asks + [a], |asks|);
  }

  /** `remaining` is a promise: of the calls that follow at clock readings not later than the bucket's, at the
      same limit and burst, exactly that many are allowed. */
  lemma {:induction false} RemainingIsExact(st: Stored, limit: int, burst: nat, now: int, polls: seq<Ask>)
    requires st.tokens >= 0
    requires forall i | 0 <= i < |polls| ::
               polls[i].limit == limit && polls[i].burst == burst && polls[i].nowMs <= Max(st.lastRefillMs, now)
    ensures var (end, reply) := Call(Some(st), limit, burst, now);
            Allowed(Some(end), polls) == Min(|polls|, reply.remaining)
  {
    CallLedger(st, Ask(now, limit, burst));
    DrainsAsHeld(Call(Some(st), limit, burst, now).0, limit, burst, polls);
  }

  lemma {:induction false} DrainsAsHeld(st: Stored, limit: int, burst: nat, polls: seq<Ask>)
    requires 0 <= st.tokens && (limit > 0 ==> st.tokens <= burst * UNIT)
    requires forall i | 0 <= i < |polls| ::
               polls[i].limit == limit && polls[i].burst == burst && polls[i].nowMs <= st.lastRefillMs
    ensures Allowed(Some(st), polls) == Min(|polls|, st.tokens / UNIT)
    ensures After(Some(st), polls) == Some(Stored(st.tokens - UNIT * Min(|polls|, st.tokens / UNIT), st.lastRefillMs))
  {
    if polls == [] {
    } else {
      DrainsAsHeld(st, limit, burst, polls[..|polls| - 1]);
    }
  }

  // ----- expiry of the key after 120 s without a call

  // What the script finds at `now` when its last call was at lastCallMs and idle keys expire.
  function Expiring(st: Option<Stored>, lastCallMs: int, now: int): Option<Stored> {
    if now - lastCallMs >= TTL_MS then None else st
  }

  // The replies along the calls when an idle key expires, and the state they leave.
  function RunExpiring(limit: int, burst: int, times: seq<int>): (Option<Stored>, seq<Reply>) {
    if times == [] then (None, [])
    else
      var n := |times| - 1;
      var (st, replies) := RunExpiring(limit, burst, times[..n]);
      var found := if n == 0 then None else Expiring(st, times[n - 1], times[n]);
      var (end, reply) := Call(found, limit, burst, times[n]);
      (Some(end), replies + [reply])
  }

  // The same calls on a key that never expires.
  function RunForever(limit: int, burst: int, times: seq<int>): (Option<Stored>, seq<Reply>) {
    if times == [] then (None, [])
    else
      var n := |times| - 1;
      var (st, replies) := RunForever(limit, burst, times[..n]);
      var (end, reply) := Call(st, limit, burst, times[n]);
      (Some(end), replies + [reply])
  }

  ghost predicate Nondecreasing(times: seq<int>) {
    forall i, j | 0 <= i < j < |times| :: times[i] <= times[j]
  }

  ghost predicate ExpiryInvisible(limit: int, burst: int, times: seq<int>) {
    RunExpiring(limit, burst, times).1 == RunForever(limit, burst, times).1
  }

  lemma {:induction false} ExpiryKeepsReplies(limit: int, burst: nat, times: seq<int>)
    requires limit > 0 && burst <= 2 * limit && Nondecreasing(times)
    ensures RunExpiring(limit, burst, times) == RunForever(limit, burst, times)
    ensures times != [] ==>
              var st := RunForever(limit, burst, times).0.value;
              st.lastRefillMs == times[|times| - 1] && 0 <= st.tokens <= burst * UNIT
  {
    if times == [] {
    } else {
      var n := |times| - 1;
      ExpiryKeepsReplies(limit, burst, times[..n]);
      var st := RunForever(limit, burst, times[..n]).0;
      StoredIsWithinBurst(st, limit, burst, times[n]);
      if n > 0 && times[n] - times[n - 1] >= TTL_MS {
        assert times[..n][n - 1] == times[n - 1];
        IdleRefills(st.value, limit, burst, times[n]);
      }
    }
  }

  // After 120 s idle the bucket is full, exactly as a fresh one.
  lemma IdleRefills(st: Stored, limit: int, burst: nat, now: int)
    requires limit > 0 && burst <= 2 * limit && st.tokens >= 0
    requires now - st.lastRefillMs >= TTL_MS
    ensures Call(Some(st), limit, burst, now) == Call(None, limit, burst, now)
  {
    assert Max(0, now - st.lastRefillMs) * limit >= TTL_MS * limit;
    assert burst * UNIT <= TTL_MS * limit;
  }

  // The history that tells the two apart when the burst is too deep: drain the bucket, then wait 120 s.
  function DrainThenWait(burst: nat): seq<int> {
    seq(burst, _ => 0) + [TTL_MS]
  }

  lemma {:induction false} Draining(limit: int, burst: nat, n: nat)
    requires limit > 0 && 1 <= n <= burst
    ensures var times := seq(n, _ => 0);
            && RunForever(limit, burst, times) == RunExpiring(limit, burst, times)
            && RunForever(limit, burst, times).0 == Some(Stored((burst - n) * UNIT, 0))
  {
    var times := seq(n, _ => 0);
    if n == 1 {
      assert times[..0] == [];
    } else {
      Draining(limit, burst, n - 1);
      assert times[..n - 1] == seq(n - 1, _ => 0);
    }
  }

  lemma DeepBurstIsVisible(limit: int, burst: nat)
    requires limit > 0 && burst > 2 * limit
    ensures Nondecreasing(DrainThenWait(burst)) && !ExpiryInvisible(limit, burst, DrainThenWait(burst))
  {
    var times := DrainThenWait(burst);
    var drained := seq(burst, _ => 0);
    Draining(limit, burst, burst);
    assert times[..burst] == drained && times[burst - 1] == 0 && times[burst] == TTL_MS;
    var kept := Call(Some(Stored(0, 0)), limit, burst, TTL_MS).1;
    var renewed := Call(None, limit, burst, TTL_MS).1;
    assert kept.remaining == 2 * limit - 1 && renewed.remaining == burst - 1;
    var f, x := RunForever(limit, burst, times).1, RunExpiring(limit, burst, times).1;
    assert f[|f| - 1] == kept && x[|x| - 1] == renewed;
  }

  /** Expiry of an idle key is invisible in every history of calls with a nondecreasing clock exactly when
      the burst is at most two minutes' refill. */
  lemma ExpiryInvisibleIff(limit: int, burst: nat)
    requires limit > 0
    ensures (forall times | Nondecreasing(times) :: ExpiryInvisible(limit, burst, times)) <==> burst <= 2 * limit
  {
    if burst <= 2 * limit {
      forall times | Nondecreasing(times)
        ensures ExpiryInvisible(limit, burst, times)
      {
        ExpiryKeepsReplies(limit, burst, times);
      }
    } else {
      DeepBurstIsVisible(limit, burst);
    }
  }
}
