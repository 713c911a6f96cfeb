/** Bounded over-allow: how many requests all the regions together can admit against one global limit. */
module Bounds {
  import opened GCounters
  import opened HashStore
  import opened Protocol
  import opened Safety
  import opened Sums
  import opened Wrappers

  // ----- counting verdicts

  // The admissions of a region for a key whose requests carried a global limit of at most g.
  predicate Admits(v: Verdict, region: string, key: string, g: int) {
    v.region == region && v.key == key && v.allowed && v.limit <= g
  }

  // Those that went through the global check, and those an error let skip it.
  function CheckedCount(log: seq<Verdict>, region: string, key: string, g: int): nat {
    if log == [] then 0
    else
      var v := log[|log| - 1];
      CheckedCount(log[..|log| - 1], region, key, g) + if v.checked && Admits(v, region, key, g) then 1 else 0
  }

  function SkippedCount(log: seq<Verdict>, region: string, key: string, g: int): nat {
    if log == [] then 0
    else
      var v := log[|log| - 1];
      SkippedCount(log[..|log| - 1], region, key, g) + if !v.checked && Admits(v, region, key, g) then 1 else 0
  }

  function AllowedCount(log: seq<Verdict>, region: string, key: string, g: int): nat {
    if log == [] then 0
    else
      var v := log[|log| - 1];
      AllowedCount(log[..|log| - 1], region, key, g) + if Admits(v, region, key, g) then 1 else 0
  }

  // The allowed verdicts of all regions for a key.
  function TotalAllowed(log: seq<Verdict>, key: string, g: int): nat {
    if log == [] then 0
    else
      var v := log[|log| - 1];
      TotalAllowed(log[..|log| - 1], key, g) + if v.key == key && v.allowed && v.limit <= g then 1 else 0
  }

  ghost function Ordinals(log: seq<Verdict>, region: string, key: string, g: int): set<nat> {
    set v | v in log && v.checked && Admits(v, region, key, g) :: v.ordinal
  }

  /** Checked admissions have distinct ordinals, so counting them counts a set. */
  lemma {:induction false} CountIsCardinality(log: seq<Verdict>, region: string, key: string, g: int)
    requires forall i, j | 0 <= i < j < |log| :: !SameTicket(log[i], log[j])
    requires forall v | v in log :: v.checked ==> v.ordinal >= 1
    ensures CheckedCount(log, region, key, g) == |Ordinals(log, region, key, g)|
  {
    if log == [] {
    } else {
      var n := |log| - 1;
      var before, v := log[..n], log[n];
      assert log == before + [v];
      CountIsCardinality(before, region, key, g);
      OrdinalsLast(log, region, key, g);
      if v.checked && Admits(v, region, key, g) {
        forall u | u in before && u.checked && Admits(u, region, key, g)
          ensures u.ordinal != v.ordinal
        {
          var i :| 0 <= i < n && before[i] == u;
          assert !SameTicket(log[i], log[n]);
        }
        assert v.ordinal !in Ordinals(before, region, key, g);
      }
    }
  }

  lemma {:induction false} OrdinalsLast(log: seq<Verdict>, region: string, key: string, g: int)
    requires log != []
    ensures var v := log[|log| - 1];
            Ordinals(log, region, key, g) == Ordinals(log[..|log| - 1], region, key, g)
                                           + if v.checked && Admits(v, region, key, g) then {v.ordinal} else {}
  {
    var before, v := log[..|log| - 1], log[|log| - 1];
    assert log == before + [v];
  }

  lemma {:induction false} BoundedSet(s: set<nat>, n: nat)
    requires forall x | x in s :: 1 <= x <= n
    ensures |s| <= n
  {
    if n == 0 {
      assert s == {};
    } else {
      BoundedSet(s - {n}, n - 1);
      assert |s| <= |s - {n}| + 1;
    }
  }

  lemma {:induction false} CountsAddUp(log: seq<Verdict>, region: string, key: string, g: int)
    ensures AllowedCount(log, region, key, g) == CheckedCount(log, region, key, g) + SkippedCount(log, region, key, g)
  {
    if log == [] {
    } else {
      CountsAddUp(log[..|log| - 1], region, key, g);
    }
  }

  lemma {:induction false} TotalAddsUp(log: seq<Verdict>, key: string, g: int)
    requires forall v | v in log :: v.region in REGIONS
    ensures TotalAllowed(log, key, g)
         == AllowedCount(log, "us", key, g) + AllowedCount(log, "eu", key, g) + AllowedCount(log, "asia", key, g)
  {
    if log == [] {
    } else {
      assert log == log[..|log| - 1] + [log[|log| - 1]];
      TotalAddsUp(log[..|log| - 1], key, g);
      assert log[|log| - 1] in log;
    }
  }

  // ----- the bounds

  lemma CheckedAdmissionsAreBounded(s: State, region: string, key: string, g: int)
    requires Inv(s)
    ensures CheckedCount(s.log, region, key, g) <= Issued(s.issued, region, key)
    ensures (region, key) !in s.wiped ==> CheckedCount(s.log, region, key, g) <= Max(0, g)
  {
    forall v | v in s.log
      ensures VerdictOk(v, s.issued, s.wiped)
    {
    }
    CountIsCardinality(s.log, region, key, g);
    BoundedSet(Ordinals(s.log, region, key, g), Issued(s.issued, region, key));
    if (region, key) !in s.wiped {
      BoundedSet(Ordinals(s.log, region, key, g), Max(0, g));
    }
  }

  /** Bounded over-allow. Under any interleaving, loss, repetition, reordering, partition and restart, a
      region whose own slot of the key has not expired admits at most the global limit, plus one request
      for each check an error skipped. */
  lemma {:induction false} RegionBound(run: Run, i: nat, region: string, key: string, g: int)
    requires run.Valid() && i < |run.states|
    requires (region, key) !in run.states[i].wiped
    ensures var log := run.states[i].log;
            && CheckedCount(log, region, key, g) <= Max(0, g)
            && AllowedCount(log, region, key, g) <= Max(0, g) + SkippedCount(log, region, key, g)
  {
    RunsAreSafe(run, i);
    CheckedAdmissionsAreBounded(run.states[i], region, key, g);
    CountsAddUp(run.states[i].log, region, key, g);
  }

  /** So all R regions together admit at most R times the limit, plus the skipped checks. */
  lemma {:induction false} GlobalBound(run: Run, i: nat, key: string, g: int)
    requires run.Valid() && i < |run.states|
    requires forall r | r in REGIONS :: (r, key) !in run.states[i].wiped
    ensures var log := run.states[i].log;
            TotalAllowed(log, key, g) <= |REGIONS| * Max(0, g) + SkippedCount(log, "us", key, g)
                                         + SkippedCount(log, "eu", key, g) + SkippedCount(log, "asia", key, g)
  {
    RegionBound(run, i, "us", key, g);
    RegionBound(run, i, "eu", key, g);
    RegionBound(run, i, "asia", key, g);
    LogNamesRegions(run, i);
    TotalAddsUp(run.states[i].log, key, g);
    ThreeTimes(Max(0, g));
  }

  lemma {:induction false} LogNamesRegions(run: Run, i: nat)
    requires run.Valid() && i < |run.states|
    ensures forall v | v in run.states[i].log :: v.region in REGIONS
  {
    RunsAreSafe(run, i);
    var s := run.states[i];
    forall v | v in s.log
      ensures v.region in REGIONS
    {
      assert VerdictOk(v, s.issued, s.wiped);
    }
  }

  lemma ThreeTimes(n: nat)
    ensures |REGIONS| * n == n + n + n
  {
    assert |REGIONS| == 3;
  }

  // ----- the bound by what the last admitting read could not see

  lemma SumOfThree(m: map<string, int>)
    requires m.Keys <= REGIONS
    ensures Sum(m) == Get(m, "us") + Get(m, "eu") + Get(m, "asia")
  {
    var e, a := m - {"us"}, m - {"us"} - {"eu"};
    var z := a - {"asia"};
    assert z == map[];
    if "us" in m {
      SumRemove(m, "us");
    } else {
      assert e == m;
    }
    if "eu" in e {
      SumRemove(e, "eu");
    } else {
      assert a == e;
    }
    if "asia" in a {
      SumRemove(a, "asia");
    } else {
      assert z == a;
    }
  }

  // The increments of the other regions that a region's replica does not show yet.
  ghost function HiddenPeers(s: State, region: string, key: string): int
    requires region in s.nodes
  {
    Sum(Hidden(s.nodes[region].store, s.issued, region, key))
  }

  ghost function Hidden(store: Store, counts: Counts, region: string, key: string): map<string, int> {
    Lag(IssuedSlots(counts, key), HashAt(store, key), region)
  }

  // What each other region has issued and the hash h does not show.
  ghost function Lag(issued: map<string, int>, h: Hash, region: string): map<string, int> {
    map f | f in issued && f != region :: issued[f] - Get(h, f)
  }

  lemma Difference(h: Hash, m: map<string, int>, region: string)
    requires m.Keys == REGIONS && h.Keys <= REGIONS && region in REGIONS
    requires Get(h, region) == m[region]
    ensures Sum(m) == Sum(h) + Sum(Lag(m, h, region))
  {
    SumOfThree(h);
    SumOfThree(m);
    SumOfThree(Lag(m, h, region));
  }

  lemma TrueIsVisiblePlusHidden(store: Store, counts: Counts, region: string, key: string)
    requires HashAt(store, key).Keys <= REGIONS && region in REGIONS
    requires Slot(store, key, region) == Issued(counts, region, key)
    ensures TrueTotal(counts, key) == Sum(HashAt(store, key)) + Sum(Hidden(store, counts, region, key))
  {
    Difference(HashAt(store, key), IssuedSlots(counts, key), region);
  }

  lemma VisibleAndHidden(s: State, t: Ticket)
    requires ValuesOk(s) && OwnOk(s) && t.region in REGIONS && (t.region, t.key) !in s.wiped
    ensures TrueTotal(s.issued, t.key) == VisibleSum(s, t) + HiddenPeers(s, t.region, t.key)
  {
    var n := s.nodes[t.region];
    assert NodeOk(t.region, n, s.issued);
    assert Slot(n.store, t.key, t.region) == Issued(s.issued, t.region, t.key);
    TrueIsVisiblePlusHidden(n.store, s.issued, t.region, t.key);
  }

  // Every checked admission of a key, whatever limit it carried.
  function CheckedTotal(log: seq<Verdict>, key: string): nat {
    if log == [] then 0
    else
      var v := log[|log| - 1];
      CheckedTotal(log[..|log| - 1], key) + if v.checked && v.allowed && v.key == key then 1 else 0
  }

  lemma {:induction false} CheckedTotalAddsUp(log: seq<Verdict>, key: string, g: int)
    requires forall v | v in log :: v.region in REGIONS && v.limit <= g
    ensures CheckedTotal(log, key)
         == CheckedCount(log, "us", key, g) + CheckedCount(log, "eu", key, g) + CheckedCount(log, "asia", key, g)
  {
    if log == [] {
    } else {
      assert log == log[..|log| - 1] + [log[|log| - 1]];
      CheckedTotalAddsUp(log[..|log| - 1], key, g);
      assert log[|log| - 1] in log;
    }
  }

  lemma {:induction false} LargestLimit(log: seq<Verdict>) returns (g: int)
    ensures forall v | v in log :: v.limit <= g
  {
    if log == [] {
      g := 0;
    } else {
      var h := LargestLimit(log[..|log| - 1]);
      g := Max(h, log[|log| - 1].limit);
      assert log == log[..|log| - 1] + [log[|log| - 1]];
    }
  }

  lemma AdmissionsAreIncrements(s: State, key: string)
    requires Inv(s)
    ensures CheckedTotal(s.log, key) <= TrueTotal(s.issued, key)
  {
    forall v | v in s.log
      ensures v.region in REGIONS
    {
      assert VerdictOk(v, s.issued, s.wiped);
    }
    var g := LargestLimit(s.log);
    CheckedTotalAddsUp(s.log, key, g);
    CheckedAdmissionsAreBounded(s, "us", key, g);
    CheckedAdmissionsAreBounded(s, "eu", key, g);
    CheckedAdmissionsAreBounded(s, "asia", key, g);
    SumOfThree(IssuedSlots(s.issued, key));
  }

  // The event answers a request for the key with a checked admission.
  ghost predicate AdmitsNow(s: State, e: Event, key: string)
    requires Enabled(s, e)
  {
    e.Read? && e.ticket.key == key && Answer(s, e)[0].allowed
  }

  ghost predicate AdmitsAt(run: Run, m: nat, key: string)
    requires run.Linked() && m < |run.events|
  {
    AdmitsNow(run.states[m], run.events[m], key)
  }

  // No event from i on and before j admits a request for the key after the global check.
  ghost predicate NoAdmission(run: Run, i: nat, j: nat, key: string)
    requires run.Linked() && j <= |run.events|
  {
    forall m {:trigger AdmitsAt(run, m, key)} | i <= m < j :: !AdmitsAt(run, m, key)
  }

  lemma {:induction false} QuietLogsKeepTotal(run: Run, i: nat, j: nat, key: string)
    requires run.Linked() && i <= j < |run.states| && NoAdmission(run, i, j, key)
    ensures CheckedTotal(run.states[j].log, key) == CheckedTotal(run.states[i].log, key)
  {
    if i == j {
    } else {
      QuietLogsKeepTotal(run, i, j - 1, key);
      assert !AdmitsAt(run, j - 1, key);
      OtherEventsKeepTotal(run.states[j - 1], run.events[j - 1], key);
    }
  }

  lemma OtherEventsKeepTotal(s: State, e: Event, key: string)
    requires Enabled(s, e) && !AdmitsNow(s, e, key)
    ensures CheckedTotal(Step(s, e).log, key) == CheckedTotal(s.log, key)
  {
    if Answer(s, e) != [] {
      assert (s.log + Answer(s, e))[..|s.log|] == s.log;
    } else {
      assert s.log + Answer(s, e) == s.log;
    }
  }

  lemma AdmittingReadBound(s: State, t: Ticket)
    requires Inv(s) && t in s.pending && t.region in REGIONS && (t.region, t.key) !in s.wiped
    requires ReadVerdict(s, t).allowed
    ensures TrueTotal(s.issued, t.key) <= s.pending[t].limit + HiddenPeers(s, t.region, t.key)
  {
    VisibleAndHidden(s, t);
  }

  // The limit of a waiting request plus the peer increments that a read for it cannot see.
  ghost function Sight(s: State, t: Ticket): int {
    if t in s.pending && t.region in s.nodes then s.pending[t].limit + HiddenPeers(s, t.region, t.key) else 0
  }

  lemma AdmittingStepBound(s: State, e: Event, key: string)
    requires Inv(s) && Enabled(s, e) && AdmitsNow(s, e, key) && (e.ticket.region, key) !in s.wiped
    ensures e.ticket in s.pending && e.ticket.region in s.nodes
    ensures TrueTotal(Step(s, e).issued, key) <= Sight(s, e.ticket)
  {
    assert Answer(s, e) == [ReadVerdict(s, e.ticket)];
    AdmittingReadBound(s, e.ticket);
  }

  lemma AdmittingEventBound(run: Run, i: nat, key: string)
    requires run.Valid() && i < |run.events| && AdmitsAt(run, i, key)
    requires (run.events[i].ticket.region, key) !in run.states[i].wiped
    ensures run.events[i].ticket in run.states[i].pending && run.events[i].ticket.region in run.states[i].nodes
    ensures TrueTotal(run.states[i + 1].issued, key) <= Sight(run.states[i], run.events[i].ticket)
  {
    RunsAreSafe(run, i);
    AdmittingStepBound(run.states[i], run.events[i], key);
  }

  lemma AdmissionsAtMostIncrements(run: Run, i: nat, key: string)
    requires run.Valid() && i < |run.states|
    ensures CheckedTotal(run.states[i].log, key) <= TrueTotal(run.states[i].issued, key)
  {
    RunsAreSafe(run, i);
    AdmissionsAreIncrements(run.states[i], key);
  }

  lemma AdmittingEventTotal(run: Run, i: nat, key: string)
    requires run.Valid() && i < |run.events| && AdmitsAt(run, i, key)
    requires (run.events[i].ticket.region, key) !in run.states[i].wiped
    ensures run.events[i].ticket in run.states[i].pending && run.events[i].ticket.region in run.states[i].nodes
    ensures CheckedTotal(run.states[i + 1].log, key) <= Sight(run.states[i], run.events[i].ticket)
  {
    AdmittingEventBound(run, i, key);
    AdmissionsAtMostIncrements(run, i + 1, key);
  }

  /** The sharper bound: at any time, the checked admissions of a key number at most the limit of the last
      one plus the peer increments that its read could not see. With every replica up to date at that read
      the total is within the limit. */
  lemma LastReadBound(run: Run, i: nat, j: nat, key: string)
    requires run.Valid() && i < j < |run.states|
    requires AdmitsAt(run, i, key) && NoAdmission(run, i + 1, j, key)
    requires (run.events[i].ticket.region, key) !in run.states[i].wiped
    ensures run.events[i].ticket in run.states[i].pending && run.events[i].ticket.region in run.states[i].nodes
    ensures CheckedTotal(run.states[j].log, key) <= Sight(run.states[i], run.events[i].ticket)
  {
    AdmittingEventTotal(run, i, key);
    QuietLogsKeepTotal(run, i + 1, j, key);
  }
}
