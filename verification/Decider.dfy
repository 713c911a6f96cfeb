/** agent/decider.py: the rules engine with 60 s hysteresis. Times, rates and shares are reals. Only the free
    tier of a region is ever changed, so a region's state is its free tier's. */
module Deciders {
  import opened Wrappers

  const REGIONS: seq<string> := ["us", "eu", "asia"]
  const FREE_CAPACITY := 60.0
  const FREE_LIMIT := 100
  const FREE_BURST := 20
  const HYSTERESIS := 60.0
  const SPIKE := 0.80
  const ANOMALY_SPIKE := 0.60
  const RECOVERY := 0.50
  const NOISY_SHARE := 0.30
  const OVERRIDE_TTL := 120.0

  datatype TierState = TierState(limit: int, writtenAt: real, throttled: bool)

  datatype Prediction = Prediction(rps: real, anomaly: bool)

  datatype TopUser = TopUser(tier: string, user: string, share: real)

  // A policy write of a region, throttling or restoring its free tier.
  datatype PolicyWrite = PolicyWrite(limit: int, burst: int, throttle: bool, at: real)

  /** What the engine remembers, and what it has written: the policies of each region and the times of each
      user's overrides, in order. */
  datatype Mind = Mind(state: map<string, TierState>, overrides: map<string, real>,
                       policies: map<string, seq<PolicyWrite>>, overrideTimes: map<string, seq<real>>)

  datatype Tick = Tick(now: real, predictions: map<string, Prediction>, topUsers: map<string, seq<TopUser>>)

  function Threshold(p: Prediction): real {
    if p.anomaly then ANOMALY_SPIKE else SPIKE
  }

  function PoliciesOf(m: Mind, region: string): seq<PolicyWrite> {
    if region in m.policies then m.policies[region] else []
  }

  function OverridesOf(m: Mind, user: string): seq<real> {
    if user in m.overrideTimes then m.overrideTimes[user] else []
  }

  // Rules 1 and 2: the policy to write for a region, if any.
  function CapacityRule(st: TierState, p: Prediction, now: real): Option<PolicyWrite> {
    var age := now - st.writtenAt;
    if p.rps > Threshold(p) * FREE_CAPACITY && !st.throttled && age > HYSTERESIS then
      var limit := Max(10, (st.limit as real * 0.70).Floor);
      Some(PolicyWrite(limit, Max(5, limit / 5), true, now))
    else if st.throttled && p.rps < RECOVERY * FREE_CAPACITY && age > HYSTERESIS then
      Some(PolicyWrite(FREE_LIMIT, FREE_BURST, false, now))
    else None
  }

  function CapacityAfter(m: Mind, region: string, predictions: map<string, Prediction>, now: real): Mind {
    if region !in predictions || region !in m.state then m
    else
      var write := CapacityRule(m.state[region], predictions[region], now);
      if write.None? then m
      else
        var w := write.value;
        m.(state := m.state[region := TierState(w.limit, now, w.throttle)],
           policies := m.policies[region := PoliciesOf(m, region) + [w]])
  }

  /** When a region's policy is turned over: predicted above 48 requests a second (36 if anomalous) when it is not
      throttled, or below 30 when it is, and more than 60 s after the last write. */
  predicate Turns(throttled: bool, p: Prediction, age: real) {
    age > 60.0 && if throttled then p.rps < 30.0 else p.rps > if p.anomaly then 36.0 else 48.0
  }

  // Rule 3 for one listed user: the last override defaults to time 0.
  predicate Overrides(m: Mind, top: TopUser, now: real) {
    top.share > NOISY_SHARE
    && now - (if top.user in m.overrides then m.overrides[top.user] else 0.0) > HYSTERESIS
  }

  function NoisyStep(m: Mind, top: TopUser, now: real): Mind {
    if Overrides(m, top, now) then
      m.(overrides := m.overrides[top.user := now],
         overrideTimes := m.overrideTimes[top.user := OverridesOf(m, top.user) + [now]])
    else m
  }

  function NoisyAfter(m: Mind, tops: seq<TopUser>, now: real): Mind {
    if tops == [] then m else NoisyStep(NoisyAfter(m, tops[..|tops| - 1], now), tops[|tops| - 1], now)
  }

  function TopsOf(t: Tick, region: string): seq<TopUser> {
    if region in t.topUsers then t.topUsers[region] else []
  }

  // What a tick does in one region.
  function RegionTurn(m: Mind, t: Tick, region: string): Mind {
    NoisyAfter(CapacityAfter(m, region, t.predictions, t.now), TopsOf(t, region), t.now)
  }

  // One tick over the first n regions.
  function DecideAfter(m: Mind, t: Tick, n: nat): Mind
    requires n <= |REGIONS|
  {
    if n == 0 then m
    else RegionTurn(DecideAfter(m, t, n - 1), t, REGIONS[n - 1])
  }

  class Decider {
    var state: map<string, TierState>
    var overrides: map<string, real>
    var policies: map<string, seq<PolicyWrite>>
    var overrideTimes: map<string, seq<real>>

    constructor (now: real)
      ensures Now() == Start(now)
    {
      state := map r | r in REGIONS :: TierState(FREE_LIMIT, now, false);
      overrides := map[];
      policies := map[];
      overrideTimes := map[];
    }

    ghost function Now(): Mind
      reads this
    {
      Mind(state, overrides, policies, overrideTimes)
    }

    method CheckCapacity(region: string, predictions: map<string, Prediction>, now: real)
      modifies this
      ensures Now() == CapacityAfter(old(Now()), region, predictions, now)
      ensures PoliciesOf(Now(), region) == PoliciesOf(old(Now()), region)
           <==> !(&& region in predictions && region in old(state)
                  && Turns(old(state)[region].throttled, predictions[region], now - old(state)[region].writtenAt))
    {
      if region !in predictions || region !in state {
        return;
      }
      var p, st := predictions[region], state[region];
      var age := now - st.writtenAt;
      var threshold := if p.anomaly then ANOMALY_SPIKE else SPIKE;
      if p.rps > threshold * FREE_CAPACITY && !st.throttled && age > HYSTERESIS {
        var limit := Max(10, (st.limit as real * 0.70).Floor);
        WritePolicy(region, PolicyWrite(limit, Max(5, limit / 5), true, now));
        state := state[region := TierState(limit, now, true)];
      } else if st.throttled && p.rps < RECOVERY * FREE_CAPACITY && age > HYSTERESIS {
        WritePolicy(region, PolicyWrite(FREE_LIMIT, FREE_BURST, false, now));
        state := state[region := TierState(FREE_LIMIT, now, false)];
      }
    }

    method WritePolicy(region: string, w: PolicyWrite)
      modifies this`policies
      ensures policies == old(policies)[region := PoliciesOf(old(Now()), region) + [w]]
    {
      policies := policies[region := (if region in policies then policies[region] else []) + [w]];
    }

    method CheckNoisyNeighbor(tops: seq<TopUser>, now: real)
      modifies this
      ensures Now() == NoisyAfter(old(Now()), tops, now)
    {
      for i := 0 to |tops|
        invariant Now() == NoisyAfter(old(Now()), tops[..i], now)
      {
        assert tops[..i + 1][..i] == tops[..i];
        var user := tops[i].user;
        if tops[i].share > NOISY_SHARE {
          var last := if user in overrides then overrides[user] else 0.0;
          if now - last > HYSTERESIS {
            overrideTimes := overrideTimes[user := (if user in overrideTimes then overrideTimes[user] else []) + [now]];
            overrides := overrides[user := now];
          }
        }
      }
      assert tops[..|tops|] == tops;
    }

    method Decide(t: Tick)
      modifies this
      ensures Now() == DecideAfter(old(Now()), t, |REGIONS|)
    {
      for n := 0 to |REGIONS|
        invariant Now() == DecideAfter(old(Now()), t, n)
      {
        var region := REGIONS[n];
        CheckCapacity(region, t.predictions, t.now);
        CheckNoisyNeighbor(if region in t.topUsers then t.topUsers[region] else [], t.now);
      }
    }
  }

  ghost function Start(now: real): Mind {
    Mind(map r | r in REGIONS :: TierState(FREE_LIMIT, now, false), map[], map[], map[])
  }

  /** The engine after a run of ticks, whatever the clock shows at them. */
  ghost function Run(start: real, ticks: seq<Tick>): Mind {
    if ticks == [] then Start(start)
    else DecideAfter(Run(start, ticks[..|ticks| - 1]), ticks[|ticks| - 1], |REGIONS|)
  }

  // ----- no flapping

  ghost predicate Spaced(times: seq<real>) {
    forall i | 0 < i < |times| :: times[i] - times[i - 1] > HYSTERESIS
  }

  ghost predicate Alternates(ws: seq<PolicyWrite>) {
    forall i | 0 <= i < |ws| ::
      && (ws[i].throttle <==> i % 2 == 0)
      && ws[i].limit == (if ws[i].throttle then 70 else FREE_LIMIT)
      && ws[i].burst == (if ws[i].throttle then 14 else FREE_BURST)
  }

  ghost predicate WritesSpaced(ws: seq<PolicyWrite>) {
    forall i | 0 < i < |ws| :: ws[i].at - ws[i - 1].at > HYSTERESIS
  }

  // A region's state is that of its last write; before the first, that of the start.
  ghost predicate RegionOk(m: Mind, start: real, region: string) {
    region in m.state ==>
      var ws, st := PoliciesOf(m, region), m.state[region];
      && Alternates(ws) && WritesSpaced(ws)
      && (ws != [] ==> ws[0].at - start > HYSTERESIS)
      && (st.throttled <==> |ws| % 2 == 1)
      && st.limit == (if st.throttled then 70 else FREE_LIMIT)
      && st.writtenAt == (if ws == [] then start else ws[|ws| - 1].at)
  }

  lemma CapacityKeepsRegion(m: Mind, start: real, r: string, region: string, predictions: map<string, Prediction>,
                            now: real)
    requires RegionOk(m, start, r)
    ensures RegionOk(CapacityAfter(m, region, predictions, now), start, r)
  {
    if region == r && region in predictions && region in m.state {
      assert 100 as real * 0.70 == 70.0;
      var ws, st := PoliciesOf(m, region), m.state[region];
      var write := CapacityRule(st, predictions[region], now);
      if write.Some? && write.value.throttle {
        assert st.limit as real * 0.70 == 70.0;
        assert (st.limit as real * 0.70).Floor == 70;
      }
    }
  }

  lemma {:induction false} NoisyKeepsPolicies(m: Mind, tops: seq<TopUser>, now: real)
    ensures NoisyAfter(m, tops, now).state == m.state && NoisyAfter(m, tops, now).policies == m.policies
  {
    if tops == [] {
    } else {
      NoisyKeepsPolicies(m, tops[..|tops| - 1], now);
    }
  }

  lemma RegionTurnKeepsRegion(m: Mind, start: real, t: Tick, region: string, r: string)
    requires RegionOk(m, start, r)
    ensures RegionOk(RegionTurn(m, t, region), start, r) && RegionTurn(m, t, region).state.Keys == m.state.Keys
  {
    CapacityKeepsRegion(m, start, r, region, t.predictions, t.now);
    NoisyKeepsPolicies(CapacityAfter(m, region, t.predictions, t.now), TopsOf(t, region), t.now);
  }

  lemma {:induction false} TickKeepsRegion(m: Mind, start: real, t: Tick, n: nat, r: string)
    requires n <= |REGIONS| && RegionOk(m, start, r)
    ensures RegionOk(DecideAfter(m, t, n), start, r)
    ensures DecideAfter(m, t, n).state.Keys == m.state.Keys
  {
    if n == 0 {
    } else {
      TickKeepsRegion(m, start, t, n - 1, r);
      RegionTurnKeepsRegion(DecideAfter(m, t, n - 1), start, t, REGIONS[n - 1], r);
    }
  }

  lemma {:induction false} RunKeepsRegion(start: real, ticks: seq<Tick>, r: string)
    ensures RegionOk(Run(start, ticks), start, r)
    ensures Run(start, ticks).state.Keys == (set q | q in REGIONS)
  {
    if ticks == [] {
    } else {
      RunKeepsRegion(start, ticks[..|ticks| - 1], r);
      TickKeepsRegion(Run(start, ticks[..|ticks| - 1]), start, ticks[|ticks| - 1], |REGIONS|, r);
    }
  }

  // ----- exactly when a policy is written

  // The seconds since the region's last write, or since the start.
  function Age(start: real, ws: seq<PolicyWrite>, now: real): real {
    now - if ws == [] then start else ws[|ws| - 1].at
  }

  lemma CapacityIsTurn(m: Mind, start: real, region: string, predictions: map<string, Prediction>, now: real)
    requires RegionOk(m, start, region) && region in m.state
    ensures var ws := PoliciesOf(m, region);
            var throttled := |ws| % 2 == 1;
            (PoliciesOf(CapacityAfter(m, region, predictions, now), region)
             == if region in predictions && Turns(throttled, predictions[region], Age(start, ws, now))
                then ws + [if throttled then PolicyWrite(100, 20, false, now) else PolicyWrite(70, 14, true, now)]
                else ws)
  {
    assert SPIKE * FREE_CAPACITY == 48.0 && ANOMALY_SPIKE * FREE_CAPACITY == 36.0 && RECOVERY * FREE_CAPACITY == 30.0;
    assert 100 as real * 0.70 == 70.0 && (100 as real * 0.70).Floor == 70;
  }

  // Where a region stands: its state and the policies written for it.
  ghost function Standing(m: Mind, region: string): (TierState, seq<PolicyWrite>)
    requires region in m.state
  {
    (m.state[region], PoliciesOf(m, region))
  }

  lemma TurnOf(m: Mind, t: Tick, r: string, region: string)
    requires region in m.state
    ensures region in RegionTurn(m, t, r).state
    ensures Standing(RegionTurn(m, t, r), region)
         == if r == region then Standing(CapacityAfter(m, region, t.predictions, t.now), region) else Standing(m, region)
  {
    NoisyKeepsPolicies(CapacityAfter(m, r, t.predictions, t.now), TopsOf(t, r), t.now);
  }

  lemma CapacityByStanding(m: Mind, mid: Mind, region: string, predictions: map<string, Prediction>, now: real)
    requires region in m.state && region in mid.state && Standing(m, region) == Standing(mid, region)
    ensures Standing(CapacityAfter(m, region, predictions, now), region)
         == Standing(CapacityAfter(mid, region, predictions, now), region)
  {
  }

  // A tick changes where a region stands in the region's own turn only.
  lemma OneTurnEach(m: Mind, t: Tick, region: string)
    requires region in m.state && region in REGIONS
    ensures region in DecideAfter(m, t, |REGIONS|).state
    ensures Standing(DecideAfter(m, t, |REGIONS|), region)
         == Standing(CapacityAfter(m, region, t.predictions, t.now), region)
  {
    var a := RegionTurn(m, t, REGIONS[0]);
    var b := RegionTurn(a, t, REGIONS[1]);
    assert DecideAfter(m, t, 0) == m && DecideAfter(m, t, 1) == a && DecideAfter(m, t, 2) == b;
    TurnOf(m, t, REGIONS[0], region);
    TurnOf(a, t, REGIONS[1], region);
    TurnOf(b, t, REGIONS[2], region);
    if region == REGIONS[1] {
      CapacityByStanding(m, a, region, t.predictions, t.now);
    } else if region == REGIONS[2] {
      CapacityByStanding(m, b, region, t.predictions, t.now);
    }
  }

  /** Exactly when a tick writes a policy. After any run, whatever the clock shows, a tick throttles a region to 70
      with burst 14 if and only if the region is not throttled, its prediction is above 48 requests a second (36 if
      anomalous) and its last write or the start is more than 60 s back; it restores 100 with burst 20 if and only
      if the region is throttled, its prediction is below 30 and more than 60 s have passed; and it writes nothing
      else. */
  lemma {:induction false} TickWritesIff(start: real, ticks: seq<Tick>, region: string)
    requires ticks != [] && region in REGIONS
    ensures var n, t := |ticks| - 1, ticks[|ticks| - 1];
            var before, after := PoliciesOf(Run(start, ticks[..n]), region), PoliciesOf(Run(start, ticks), region);
            var throttled := |before| % 2 == 1;
            var since := t.now - if before == [] then start else before[|before| - 1].at;
            && (after == before + [PolicyWrite(70, 14, true, t.now)]
                <==> && !throttled && since > 60.0 && region in t.predictions
                     && t.predictions[region].rps > if t.predictions[region].anomaly then 36.0 else 48.0)
            && (after == before + [PolicyWrite(100, 20, false, t.now)]
                <==> throttled && since > 60.0 && region in t.predictions && t.predictions[region].rps < 30.0)
            && (|| after == before
                || after == before + [PolicyWrite(70, 14, true, t.now)]
                || after == before + [PolicyWrite(100, 20, false, t.now)])
  {
    var n, t := |ticks| - 1, ticks[|ticks| - 1];
    var m := Run(start, ticks[..n]);
    RunKeepsRegion(start, ticks[..n], region);
    OneTurnEach(m, t, region);
    CapacityIsTurn(m, start, region, t.predictions, t.now);
    DistinctWrites(PoliciesOf(m, region), t.now);
  }

  lemma DistinctWrites(ws: seq<PolicyWrite>, now: real)
    ensures var throttled, restored := ws + [PolicyWrite(70, 14, true, now)], ws + [PolicyWrite(100, 20, false, now)];
            throttled != ws && restored != ws && throttled != restored
  {
    assert (ws + [PolicyWrite(70, 14, true, now)])[|ws|].throttle;
    assert !(ws + [PolicyWrite(100, 20, false, now)])[|ws|].throttle;
  }

  function TimesOf(ws: seq<PolicyWrite>): seq<real> {
    seq(|ws|, i requires 0 <= i < |ws| => ws[i].at)
  }

  // How many of the times fall in [a, b].
  function CountWithin(times: seq<real>, a: real, b: real): nat {
    if times == [] then 0
    else CountWithin(times[..|times| - 1], a, b) + if a <= times[|times| - 1] <= b then 1 else 0
  }

  lemma {:induction false} SpacedIncreases(times: seq<real>, i: nat, j: nat)
    requires Spaced(times) && i < j < |times|
    ensures times[j] - times[i] > HYSTERESIS
  {
    if i + 1 < j {
      SpacedIncreases(times, i, j - 1);
    }
  }

  lemma {:induction false} NoneWithin(times: seq<real>, a: real, b: real)
    requires forall i | 0 <= i < |times| :: !(a <= times[i] <= b)
    ensures CountWithin(times, a, b) == 0
  {
    if times == [] {
    } else {
      var before := times[..|times| - 1];
      assert forall i | 0 <= i < |before| :: before[i] == times[i];
      NoneWithin(before, a, b);
    }
  }

  lemma {:induction false} SameWithin(times: seq<real>, a: real, b: real, c: real)
    requires b <= c && forall i | 0 <= i < |times| :: times[i] <= b || c < times[i]
    ensures CountWithin(times, a, b) == CountWithin(times, a, c)
  {
    if times == [] {
    } else {
      var before := times[..|times| - 1];
      assert forall i | 0 <= i < |before| :: before[i] == times[i];
      SameWithin(before, a, b, c);
    }
  }

  /** Times more than 60 s apart number at most floor(T / 60) + 1 in any T seconds. */
  lemma {:induction false} SpacedCount(times: seq<real>, a: real, b: real)
    requires Spaced(times) && a <= b
    ensures CountWithin(times, a, b) <= ((b - a) / HYSTERESIS).Floor + 1
    decreases |times|
  {
    assert (b - a) / HYSTERESIS >= 0.0;
    if times == [] {
    } else {
      var n := |times| - 1;
      var before, x := times[..n], times[n];
      assert Spaced(before);
      forall i | 0 <= i < n
        ensures before[i] == times[i] < x - HYSTERESIS
      {
        SpacedIncreases(times, i, n);
      }
      if a <= x <= b {
        SameWithin(before, a, x - HYSTERESIS, b);
        assert (x - HYSTERESIS - a) / HYSTERESIS == (x - a) / HYSTERESIS - 1.0;
        assert (x - a) / HYSTERESIS <= (b - a) / HYSTERESIS;
        if x - HYSTERESIS >= a {
          SpacedCount(before, a, x - HYSTERESIS);
        } else {
          NoneWithin(before, a, x - HYSTERESIS);
        }
      } else {
        SpacedCount(before, a, b);
      }
    }
  }

  /** No flapping. Over any run of ticks, even with a clock that jumps, each region's policy writes strictly
      alternate throttle (70, burst 14) and recovery (100, burst 20), the first comes more than 60 s after
      the start and each more than 60 s after the one before, so at most floor(T / 60) + 1 fall in any T
      seconds; and the free limit in force is 70 or 100 accordingly. */
  lemma {:induction false} NoFlapping(start: real, ticks: seq<Tick>, region: string, a: real, b: real)
    requires region in REGIONS && a <= b
    ensures var m := Run(start, ticks);
            && region in m.state
            && Alternates(PoliciesOf(m, region)) && WritesSpaced(PoliciesOf(m, region))
            && (PoliciesOf(m, region) != [] ==> PoliciesOf(m, region)[0].at - start > HYSTERESIS)
            && m.state[region].limit == (if m.state[region].throttled then 70 else 100)
            && (m.state[region].throttled <==> |PoliciesOf(m, region)| % 2 == 1)
            && CountWithin(TimesOf(PoliciesOf(m, region)), a, b) <= ((b - a) / HYSTERESIS).Floor + 1
  {
    RunKeepsRegion(start, ticks, region);
    SpacedCount(TimesOf(PoliciesOf(Run(start, ticks), region)), a, b);
  }

  // ----- overrides

  ghost predicate UserOk(m: Mind, user: string) {
    && Spaced(OverridesOf(m, user))
    && (user in m.overrides <==> OverridesOf(m, user) != [])
    && (user in m.overrides ==> m.overrides[user] == OverridesOf(m, user)[|OverridesOf(m, user)| - 1])
  }

  lemma CapacityKeepsOverrides(m: Mind, region: string, predictions: map<string, Prediction>, now: real, user: string)
    ensures OverridesOf(CapacityAfter(m, region, predictions, now), user) == OverridesOf(m, user)
    ensures UserOk(m, user) ==> UserOk(CapacityAfter(m, region, predictions, now), user)
  {
  }

  // The user's last override, or time 0, is more than 60 s before now.
  predicate Due(times: seq<real>, now: real) {
    now - (if times == [] then 0.0 else times[|times| - 1]) > 60.0
  }

  // One override is added for a listed user who is due.
  function Added(times: seq<real>, listed: bool, now: real): seq<real> {
    if listed && Due(times, now) then times + [now] else times
  }

  // One of the listed top users is the user, with more than 30% of the tier's traffic.
  ghost predicate Listed(tops: seq<TopUser>, user: string) {
    exists top :: top in tops && top.user == user && top.share > 0.30
  }

  // Some region lists the user so.
  ghost predicate Hot(t: Tick, user: string) {
    exists r :: r in REGIONS && Listed(TopsOf(t, r), user)
  }

  lemma {:induction false} NoisyAddsIff(m: Mind, tops: seq<TopUser>, now: real, user: string)
    requires UserOk(m, user)
    ensures UserOk(NoisyAfter(m, tops, now), user)
    ensures OverridesOf(NoisyAfter(m, tops, now), user)
         == Added(OverridesOf(m, user), Listed(tops, user), now)
  {
    if tops == [] {
    } else {
      var n := |tops| - 1;
      assert tops == tops[..n] + [tops[n]];
      NoisyAddsIff(m, tops[..n], now, user);
      assert Listed(tops, user) <==> Listed(tops[..n], user) || (tops[n].user == user && tops[n].share > 0.30) by {
        assert tops[n] in tops;
      }
      NoisyAddsOne(NoisyAfter(m, tops[..n], now), tops[n], now, user);
    }
  }

  lemma NoisyAddsOne(m: Mind, top: TopUser, now: real, user: string)
    requires UserOk(m, user)
    ensures UserOk(NoisyStep(m, top, now), user)
    ensures OverridesOf(NoisyStep(m, top, now), user)
         == Added(OverridesOf(m, user), top.user == user && top.share > 0.30, now)
  {
  }

  // One of the first n regions lists the user so.
  ghost predicate HotSoFar(t: Tick, n: nat, user: string)
    requires n <= |REGIONS|
  {
    exists i | 0 <= i < n :: Listed(TopsOf(t, REGIONS[i]), user)
  }

  lemma HotByIndex(t: Tick, user: string)
    ensures Hot(t, user) <==> HotSoFar(t, |REGIONS|, user)
  {
    if Hot(t, user) {
      var r :| r in REGIONS && Listed(TopsOf(t, r), user);
      var i :| 0 <= i < |REGIONS| && REGIONS[i] == r;
    }
  }

  lemma TurnAddsIff(m: Mind, t: Tick, region: string, user: string)
    requires UserOk(m, user)
    ensures UserOk(RegionTurn(m, t, region), user)
    ensures OverridesOf(RegionTurn(m, t, region), user)
         == Added(OverridesOf(m, user), Listed(TopsOf(t, region), user), t.now)
  {
    CapacityKeepsOverrides(m, region, t.predictions, t.now, user);
    NoisyAddsIff(CapacityAfter(m, region, t.predictions, t.now), TopsOf(t, region), t.now, user);
  }

  lemma {:induction false} TickAddsIff(m: Mind, t: Tick, n: nat, user: string)
    requires n <= |REGIONS| && UserOk(m, user)
    ensures UserOk(DecideAfter(m, t, n), user)
    ensures OverridesOf(DecideAfter(m, t, n), user) == Added(OverridesOf(m, user), HotSoFar(t, n, user), t.now)
  {
    if n == 0 {
    } else {
      TickAddsIff(m, t, n - 1, user);
      TurnAddsIff(DecideAfter(m, t, n - 1), t, REGIONS[n - 1], user);
      assert HotSoFar(t, n, user) <==> HotSoFar(t, n - 1, user) || Listed(TopsOf(t, REGIONS[n - 1]), user);
    }
  }

  /** Overrides of one user are more than 60 s apart, across all regions and tiers and for any clock. */
  lemma {:induction false} OverridesAreSpaced(start: real, ticks: seq<Tick>, user: string)
    ensures UserOk(Run(start, ticks), user)
  {
    if ticks == [] {
    } else {
      OverridesAreSpaced(start, ticks[..|ticks| - 1], user);
      TickAddsIff(Run(start, ticks[..|ticks| - 1]), ticks[|ticks| - 1], |REGIONS|, user);
    }
  }

  /** Exactly when a tick writes an override. After any run a tick writes one override for a user if and only if
      some region lists the user above 30% of a tier's traffic and the user's last override, or time 0, is more
      than 60 s back; otherwise it writes none. */
  lemma {:induction false} TickOverridesIff(start: real, ticks: seq<Tick>, user: string)
    requires ticks != []
    ensures var n, t := |ticks| - 1, ticks[|ticks| - 1];
            var before, after := OverridesOf(Run(start, ticks[..n]), user), OverridesOf(Run(start, ticks), user);
            var since := t.now - if before == [] then 0.0 else before[|before| - 1];
            after == if Hot(t, user) && since > 60.0 then before + [t.now] else before
  {
    var n := |ticks| - 1;
    OverridesAreSpaced(start, ticks[..n], user);
    TickAddsIff(Run(start, ticks[..n]), ticks[n], |REGIONS|, user);
    HotByIndex(ticks[n], user);
  }

  // Every tick is less than 60 s after the one before, lists the user above the share, and is not earlier.
  ghost predicate KeptHot(ticks: seq<Tick>, user: string) {
    && (forall i | 0 <= i < |ticks| :: Hot(ticks[i], user))
    && forall i | 0 < i < |ticks| :: 0.0 <= ticks[i].now - ticks[i - 1].now < HYSTERESIS
  }

  // At instant x some override written at or before x has not reached its 120 s expiry.
  ghost predicate Alive(times: seq<real>, x: real) {
    exists i :: 0 <= i < |times| && times[i] <= x < times[i] + OVERRIDE_TTL
  }

  // After a tick at which the user is hot, the last override was written at most 60 s before it.
  lemma {:induction false} LastIsRecent(start: real, ticks: seq<Tick>, user: string)
    requires ticks != [] && Hot(ticks[|ticks| - 1], user) && OverridesOf(Run(start, ticks), user) != []
    ensures var after := OverridesOf(Run(start, ticks), user);
            ticks[|ticks| - 1].now - after[|after| - 1] <= HYSTERESIS
  {
    TickOverridesIff(start, ticks, user);
  }

  /** Override coverage. While a user stays above the share at every tick and ticks are under 60 s apart,
      the user's override key, once written, is alive at every instant until 60 s after the last tick. */
  lemma {:induction false} OverrideNeverLapses(start: real, ticks: seq<Tick>, user: string, x: real)
    requires ticks != [] && KeptHot(ticks, user)
    requires OverridesOf(Run(start, ticks), user) != []
    requires OverridesOf(Run(start, ticks), user)[0] <= x < ticks[|ticks| - 1].now + HYSTERESIS
    ensures Alive(OverridesOf(Run(start, ticks), user), x)
    decreases |ticks|
  {
    var after := OverridesOf(Run(start, ticks), user);
    LastIsRecent(start, ticks, user);
    if x >= after[|after| - 1] {
      LastIsAlive(after, x);
    } else {
      BeforeLastTick(start, ticks, user, x);
      OverrideNeverLapses(start, ticks[..|ticks| - 1], user, x);
      AliveLonger(OverridesOf(Run(start, ticks[..|ticks| - 1]), user), after, x);
    }
  }

  lemma LastIsAlive(times: seq<real>, x: real)
    requires times != [] && times[|times| - 1] <= x < times[|times| - 1] + OVERRIDE_TTL
    ensures Alive(times, x)
  {
  }

  // An instant before the last override belongs to the ticks before the last.
  lemma {:induction false} BeforeLastTick(start: real, ticks: seq<Tick>, user: string, x: real)
    requires ticks != [] && KeptHot(ticks, user)
    requires var after := OverridesOf(Run(start, ticks), user);
             after != [] && after[0] <= x < after[|after| - 1]
    ensures var before := OverridesOf(Run(start, ticks[..|ticks| - 1]), user);
            && |ticks| > 1 && KeptHot(ticks[..|ticks| - 1], user) && before != []
            && before[0] <= x < ticks[|ticks| - 2].now + HYSTERESIS
            && before <= OverridesOf(Run(start, ticks), user)
  {
    LatestAtMost(start, ticks, user);
    TickOverridesIff(start, ticks, user);
    PrefixKeptHot(ticks, user);
    NothingAtStart(start, user);
  }

  lemma NothingAtStart(start: real, user: string)
    ensures OverridesOf(Run(start, []), user) == []
  {
  }

  lemma {:induction false} AliveLonger(before: seq<real>, after: seq<real>, x: real)
    requires before <= after && Alive(before, x)
    ensures Alive(after, x)
  {
    var i :| 0 <= i < |before| && before[i] <= x < before[i] + OVERRIDE_TTL;
    assert after[i] == before[i];
  }

  lemma {:induction false} PrefixKeptHot(ticks: seq<Tick>, user: string)
    requires ticks != [] && KeptHot(ticks, user)
    ensures KeptHot(ticks[..|ticks| - 1], user)
  {
  }

  // No override is later than the last tick.
  lemma {:induction false} LatestAtMost(start: real, ticks: seq<Tick>, user: string)
    requires ticks != [] && KeptHot(ticks, user)
    ensures forall i | 0 <= i < |OverridesOf(Run(start, ticks), user)| ::
              OverridesOf(Run(start, ticks), user)[i] <= ticks[|ticks| - 1].now
  {
    var n := |ticks| - 1;
    TickOverridesIff(start, ticks, user);
    if n == 0 {
    } else {
      PrefixKeptHot(ticks, user);
      LatestAtMost(start, ticks[..n], user);
    }
  }
}
