/** Time: with the keys' real times to live no own slot lapses while its window is still being read, so the bounds on
    admissions need no hypothesis about expiry. Times are seconds on a region's own clock. */
module Timing {
  import opened Bounds
  import opened Counter
  import opened HashStore
  import opened Protocol
  import opened Safety
  import opened Wrappers

  const WINDOW_SECONDS := 60
  const GATEWAY_TTL := 120
  const SYNC_TTL := 300

  // at[i] is the time of event i; the clock of each region does not run backwards.
  ghost predicate Timed(run: Run, at: seq<int>) {
    && |at| == |run.events|
    && forall i, j | 0 <= i < j < |run.events| && RegionOf(run.events[i]) == RegionOf(run.events[j]) :: at[i] <= at[j]
  }

  // The event increments the key at the region; its EXPIRE follows it.
  predicate Increments(e: Event, region: string, key: string) {
    e.Increment? && e.region == region && RequestKey(e) == key
  }

  // The event carries out a write of the key by the region's relay, which may set the key to live on.
  predicate WritesKey(s: State, e: Event, region: string, key: string)
    requires Enabled(s, e)
  {
    && (e.Apply? || (e.ApplyError? && e.carriedOut))
    && e.region == region && s.nodes[region].todo[0].key == key
  }

  ghost predicate RanOutSince(run: Run, at: seq<int>, j: int, i: int, region: string, key: string)
    requires run.Linked() && Timed(run, at)
  {
    && 0 <= j < i < |run.events|
    && ((Increments(run.events[j], region, key) && at[i] >= at[j] + GATEWAY_TTL)
        || (WritesKey(run.states[j], run.events[j], region, key) && at[i] >= at[j] + SYNC_TTL))
  }

  /** A key can lapse only when the time some command gave it has run out: the gateway's 120 s, given at or after an
      increment, or the relay's 300 s, given with a write. */
  ghost predicate LapsesInTime(run: Run, at: seq<int>, region: string, key: string)
    requires run.Linked() && Timed(run, at)
  {
    forall i {:trigger run.events[i]} | 0 <= i < |run.events| && run.events[i] == Expire(region, key) ::
      exists j :: RanOutSince(run, at, j, i, region, key)
  }

  /** How a region serves the requests of a window: it counts them after reading a clock that says the window has
      begun, and reads the hash less than a minute after the window ends; peers' clocks are at most three minutes
      ahead, so their slots come no earlier than that. */
  ghost predicate Served(run: Run, at: seq<int>, region: string, key: string, window: int)
    requires run.Linked() && Timed(run, at)
  {
    forall i {:trigger run.events[i]} | 0 <= i < |run.events| ::
      && (Increments(run.events[i], region, key) ==> at[i] >= window * WINDOW_SECONDS)
      && (WritesKey(run.states[i], run.events[i], region, key) ==> at[i] >= (window - 3) * WINDOW_SECONDS)
      && (ReadsKey(run.events[i], region, key) ==> at[i] < (window + 2) * WINDOW_SECONDS)
  }

  predicate ReadsKey(e: Event, region: string, key: string) {
    e.Read? && e.ticket.region == region && e.ticket.key == key
  }

  ghost predicate OnTime(run: Run, at: seq<int>, region: string, key: string, window: int)
    requires run.Linked()
  {
    Timed(run, at) && LapsesInTime(run, at, region, key) && Served(run, at, region, key, window)
  }

  lemma LapseIsLate(run: Run, at: seq<int>, i: nat, region: string, key: string, window: int)
    requires run.Linked() && OnTime(run, at, region, key, window)
    requires i < |run.events| && run.events[i] == Expire(region, key)
    ensures at[i] >= (window + 2) * WINDOW_SECONDS
  {
    var j :| RanOutSince(run, at, j, i, region, key);
    assert run.events[j] == run.events[j];
  }

  lemma WipedStep(s: State, e: Event, region: string, key: string)
    requires Enabled(s, e) && (region, key) in Step(s, e).wiped
    ensures (region, key) in s.wiped || e == Expire(region, key)
  {
  }

  ghost predicate LapsedBefore(run: Run, i: nat, region: string, key: string)
    requires i <= |run.events|
  {
    exists j {:trigger run.events[j]} :: 0 <= j < i && run.events[j] == Expire(region, key)
  }

  // A lost own slot was lost by an expiry before.
  lemma {:induction false} WipedHasLapsed(run: Run, i: nat, region: string, key: string)
    requires run.Valid() && i < |run.states| && (region, key) in run.states[i].wiped
    ensures LapsedBefore(run, i, region, key)
  {
    if i == 0 {
    } else {
      WipedStep(run.states[i - 1], run.events[i - 1], region, key);
      if run.events[i - 1] != Expire(region, key) {
        WipedHasLapsed(run, i - 1, region, key);
      }
    }
  }

  lemma NoReadAfterLapse(run: Run, at: seq<int>, j: nat, i: nat, region: string, key: string, window: int)
    requires run.Linked() && OnTime(run, at, region, key, window)
    requires j < i < |run.events| && run.events[j] == Expire(region, key)
    ensures !ReadsKey(run.events[i], region, key)
  {
    LapseIsLate(run, at, j, region, key, window);
    assert RegionOf(run.events[j]) == RegionOf(run.events[i]) ==> at[j] <= at[i];
  }

  /** The own slot outlives its window: whenever a region reads the hash for a request of the window, its own slot
      is intact. */
  lemma OwnSlotIsIntact(run: Run, at: seq<int>, i: nat, region: string, key: string, window: int)
    requires run.Valid() && OnTime(run, at, region, key, window)
    requires i < |run.events| && ReadsKey(run.events[i], region, key)
    ensures (region, key) !in run.states[i].wiped
  {
    if (region, key) in run.states[i].wiped {
      WipedHasLapsed(run, i, region, key);
      var j: nat :| j < i && run.events[j] == Expire(region, key);
      NoReadAfterLapse(run, at, j, i, region, key, window);
    }
  }

  // ----- the bounds without a hypothesis about expiry

  lemma OtherEventsKeepCount(s: State, e: Event, region: string, key: string, g: int)
    requires Enabled(s, e) && !ReadsKey(e, region, key)
    ensures CheckedCount(Step(s, e).log, region, key, g) == CheckedCount(s.log, region, key, g)
  {
    if Answer(s, e) == [] {
      assert s.log + Answer(s, e) == s.log;
    } else {
      assert (s.log + Answer(s, e))[..|s.log|] == s.log;
    }
  }

  lemma ReadKeepsWiped(run: Run, i: nat, region: string, key: string)
    requires run.Linked() && i < |run.events| && ReadsKey(run.events[i], region, key)
    ensures run.states[i + 1].wiped == run.states[i].wiped
  {
  }

  /** Bounded over-allow with the real times to live: a region admits, at any time and under any interleaving, at most
      the global limit for a key, plus one request for each check an error skipped. */
  lemma TimedRegionBound(run: Run, at: seq<int>, i: nat, region: string, key: string, window: int, g: int)
    requires run.Valid() && OnTime(run, at, region, key, window) && i < |run.states|
    ensures CheckedCount(run.states[i].log, region, key, g) <= Max(0, g)
    ensures AllowedCount(run.states[i].log, region, key, g) <= Max(0, g) + SkippedCount(run.states[i].log, region, key, g)
  {
    TimedCheckedBound(run, at, i, region, key, window, g);
    CountsAddUp(run.states[i].log, region, key, g);
  }

  lemma {:induction false} TimedCheckedBound(run: Run, at: seq<int>, i: nat, region: string, key: string, window: int,
                                             g: int)
    requires run.Valid() && OnTime(run, at, region, key, window) && i < |run.states|
    ensures CheckedCount(run.states[i].log, region, key, g) <= Max(0, g)
  {
    if i == 0 {
      NothingChecked(run.states[0], region, key, g);
    } else {
      TimedCheckedBound(run, at, i - 1, region, key, window, g);
      TimedStep(run, at, i - 1, region, key, window, g);
    }
  }

  lemma NothingChecked(s: State, region: string, key: string, g: int)
    requires Init(s)
    ensures CheckedCount(s.log, region, key, g) == 0
  {
  }

  lemma TimedStep(run: Run, at: seq<int>, i: nat, region: string, key: string, window: int, g: int)
    requires run.Valid() && OnTime(run, at, region, key, window) && i < |run.events|
    requires CheckedCount(run.states[i].log, region, key, g) <= Max(0, g)
    ensures CheckedCount(run.states[i + 1].log, region, key, g) <= Max(0, g)
  {
    if ReadsKey(run.events[i], region, key) {
      BoundAfterRead(run, at, i, region, key, window, g);
    } else {
      OtherEventKeepsBound(run, i, region, key, g);
    }
  }

  lemma BoundAfterRead(run: Run, at: seq<int>, i: nat, region: string, key: string, window: int, g: int)
    requires run.Valid() && OnTime(run, at, region, key, window)
    requires i < |run.events| && ReadsKey(run.events[i], region, key)
    ensures CheckedCount(run.states[i + 1].log, region, key, g) <= Max(0, g)
  {
    OwnSlotIsIntact(run, at, i, region, key, window);
    ReadKeepsWiped(run, i, region, key);
    RegionBound(run, i + 1, region, key, g);
  }

  lemma OtherEventKeepsBound(run: Run, i: nat, region: string, key: string, g: int)
    requires run.Linked() && i < |run.events| && !ReadsKey(run.events[i], region, key)
    ensures CheckedCount(run.states[i + 1].log, region, key, g) == CheckedCount(run.states[i].log, region, key, g)
  {
    OtherEventsKeepCount(run.states[i], run.events[i], region, key, g);
  }

  /** So all R regions together admit at most R times the limit, plus the skipped checks. */
  lemma TimedGlobalBound(run: Run, at: seq<int>, i: nat, key: string, window: int, g: int)
    requires run.Valid() && i < |run.states|
    requires forall r | r in REGIONS :: OnTime(run, at, r, key, window)
    ensures var log := run.states[i].log;
            TotalAllowed(log, key, g) <= |REGIONS| * Max(0, g) + SkippedCount(log, "us", key, g)
                                         + SkippedCount(log, "eu", key, g) + SkippedCount(log, "asia", key, g)
  {
    TimedRegionBound(run, at, i, "us", key, window, g);
    TimedRegionBound(run, at, i, "eu", key, window, g);
    TimedRegionBound(run, at, i, "asia", key, window, g);
    LogNamesRegions(run, i);
    TotalAddsUp(run.states[i].log, key, g);
    ThreeTimes(Max(0, g));
  }
}
