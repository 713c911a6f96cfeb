/** No state is beyond repair: from every reachable state some continuation without increments and expiry,
    in which each region restarts its sync process and makes one pass that is delivered everywhere, ends with
    all replicas equal to what was issued. So the hypotheses of convergence can always be met. */
module Reachability {
  import opened Convergence
  import opened Envelopes
  import opened HashStore
  import opened Protocol
  import opened Relays
  import opened Reconcilers
  import opened Runs
  import opened Safety
  import opened Sums
  import opened Text
  import opened Wrappers

  // ----- what a continuation cannot undo

  lemma PassStays(run: Run, longer: Run, origin: string, window: int, p: nat, q: nat)
    requires Continues(run, longer) && PassAt(run, origin, window, p, q)
    ensures PassAt(longer, origin, window, p, q)
  {
    SamePrefix(run, longer, p);
    SamePrefix(run, longer, q);
    forall i | p < i < q
      ensures !Interrupts(longer.events[i], origin)
    {
      SamePrefix(run, longer, i);
    }
  }

  lemma DeliveryStays(run: Run, longer: Run, region: string, env: Envelope, i: nat, j: nat)
    requires run.Linked() && longer.Linked() && Continues(run, longer) && DeliveredAt(run, region, env, i, j)
    ensures DeliveredAt(longer, region, env, i, j)
  {
    SamePrefix(run, longer, i);
    SamePrefix(run, longer, j);
    forall m | i < m < j
      ensures !Loses(longer.events[m], region)
    {
      SamePrefix(run, longer, m);
    }
  }

  // Every envelope of the set reaches the region after state a.
  ghost predicate AllReach(run: Run, a: nat, region: string, envs: set<Envelope>)
    requires run.Linked()
  {
    forall env {:trigger Reaches(run, a, region, env)} | env in envs :: Reaches(run, a, region, env)
  }

  lemma ReachStays(run: Run, longer: Run, a: nat, region: string, envs: set<Envelope>)
    requires run.Linked() && longer.Linked() && Continues(run, longer) && AllReach(run, a, region, envs)
    ensures AllReach(longer, a, region, envs)
  {
    forall env | env in envs
      ensures Reaches(longer, a, region, env)
    {
      assert Reaches(run, a, region, env);
      var i: nat, j: nat :| a <= i && DeliveredAt(run, region, env, i, j);
      DeliveryStays(run, longer, region, env, i, j);
    }
  }

  lemma {:induction false} SentStays(run: Run, i: nat, j: nat)
    requires run.Linked() && i <= j < |run.states|
    ensures run.states[i].sent <= run.states[j].sent
  {
    if i == j {
    } else {
      SentStays(run, i, j - 1);
      StepGrows(run.states[j - 1], run.events[j - 1]);
    }
  }

  // ----- sync processes with nothing to do

  ghost predicate Idle(s: State) {
    && s.nodes.Keys == REGIONS
    && forall r {:trigger s.nodes[r]} | r in REGIONS :: IdleNode(s.nodes[r])
  }

  predicate IdleNode(n: Node) {
    n.rules == {} && n.todo == [] && n.sweep.None?
  }

  lemma RestartAll(run: Run) returns (longer: Run)
    requires run.Valid()
    ensures longer.Valid() && Continues(run, longer) && Idle(longer.Last())
  {
    Regions(run, |run.states| - 1);
    var us := RestartOne(run, "us");
    var eu := RestartOne(us, "eu");
    longer := RestartOne(eu, "asia");
    ContinuesOn(run, us, eu);
    ContinuesOn(run, eu, longer);
  }

  lemma RestartOne(run: Run, r: string) returns (longer: Run)
    requires run.Valid() && r in REGIONS
    ensures longer.Valid() && Continues(run, longer) && longer.Last().nodes.Keys == REGIONS
    ensures IdleNode(longer.Last().nodes[r])
    ensures forall o | o in REGIONS && o != r :: o in run.Last().nodes && longer.Last().nodes[o] == run.Last().nodes[o]
  {
    Regions(run, |run.states| - 1);
    longer := Plus(run, Restart(r));
    PlusContinues(run, Restart(r));
  }

  // ----- one pass

  // The origin is in a pass over the window, with the cells `unseen` still to come; the others are idle.
  ghost predicate Sweeping(s: State, origin: string, window: int, unseen: set<Cell>) {
    && s.nodes.Keys == REGIONS && origin in REGIONS
    && (forall r {:trigger s.nodes[r]} | r in REGIONS && r != origin :: IdleNode(s.nodes[r]))
    && var n := s.nodes[origin];
       && n.rules == {} && n.todo == [] && n.sweep.Some?
       && n.sweep.value.window == window && n.sweep.value.unseen == unseen
  }

  ghost predicate Uninterrupted(run: Run, origin: string, p: nat) {
    forall i {:trigger run.events[i]} | p < i < |run.events| :: !Interrupts(run.events[i], origin)
  }

  lemma MakePass(run: Run, origin: string, window: int) returns (longer: Run, q: nat)
    requires run.Valid() && Idle(run.Last()) && origin in REGIONS
    ensures longer.Valid() && Continues(run, longer) && Idle(longer.Last())
    ensures PassAt(longer, origin, window, |run.events|, q)
  {
    var started := Begin(run, origin, window);
    var scanned := ScanRest(started, origin, window, |run.events|, ScannedCells(run.Last().nodes[origin].store, window));
    ContinuesOn(run, started, scanned);
    SamePrefix(started, scanned, |run.events|);
    longer := Finish(scanned, origin, window);
    ContinuesOn(run, scanned, longer);
    q := |scanned.events|;
    PassMade(scanned, longer, origin, window, |run.events|);
  }

  lemma PassMade(scanned: Run, longer: Run, origin: string, window: int, p: nat)
    requires Continues(scanned, longer) && |longer.events| == |scanned.events| + 1
    requires p < |scanned.events| && scanned.events[p] == StartSweep(origin, window)
    requires longer.events[|scanned.events|] == EndSweep(origin, 0) && Uninterrupted(scanned, origin, p)
    ensures PassAt(longer, origin, window, p, |scanned.events|)
  {
    SamePrefix(scanned, longer, p);
    forall i | p < i < |scanned.events|
      ensures !Interrupts(longer.events[i], origin)
    {
      SamePrefix(scanned, longer, i);
    }
  }

  lemma Begin(run: Run, origin: string, window: int) returns (longer: Run)
    requires run.Valid() && Idle(run.Last()) && origin in REGIONS
    ensures longer.Valid() && Continues(run, longer)
    ensures |longer.events| == |run.events| + 1 && longer.events[|run.events|] == StartSweep(origin, window)
    ensures Sweeping(longer.Last(), origin, window, ScannedCells(run.Last().nodes[origin].store, window))
  {
    assert IdleNode(run.Last().nodes[origin]);
    longer := Plus(run, StartSweep(origin, window));
    PlusContinues(run, StartSweep(origin, window));
  }

  lemma ScanOne(run: Run, origin: string, window: int, p: nat, unseen: set<Cell>, c: Cell) returns (longer: Run)
    requires run.Valid() && Sweeping(run.Last(), origin, window, unseen)
    requires c in unseen && ColonFree(c.0) && ColonFree(c.1) && p < |run.events| && Uninterrupted(run, origin, p)
    ensures longer.Valid() && Continues(run, longer) && Sweeping(longer.Last(), origin, window, unseen - {c})
    ensures |longer.events| == |run.events| + 1 && Uninterrupted(longer, origin, p)
  {
    ScanKeepsSweeping(run.Last(), origin, window, unseen, c);
    longer := Plus(run, Scan(origin, c, 0));
    PlusContinues(run, Scan(origin, c, 0));
  }

  lemma ScanKeepsSweeping(s: State, origin: string, window: int, unseen: set<Cell>, c: Cell)
    requires Sweeping(s, origin, window, unseen) && ColonFree(c.0) && ColonFree(c.1)
    ensures Enabled(s, Scan(origin, c, 0))
    ensures Sweeping(Step(s, Scan(origin, c, 0)), origin, window, unseen - {c})
  {
  }

  lemma {:induction false} ScanRest(run: Run, origin: string, window: int, p: nat, unseen: set<Cell>)
    returns (longer: Run)
    requires run.Valid() && Sweeping(run.Last(), origin, window, unseen)
    requires forall c: Cell | c in unseen :: ColonFree(c.0) && ColonFree(c.1)
    requires p < |run.events| && Uninterrupted(run, origin, p)
    ensures longer.Valid() && Continues(run, longer) && Sweeping(longer.Last(), origin, window, {})
    ensures Uninterrupted(longer, origin, p)
    decreases unseen
  {
    if unseen == {} {
      longer := run;
    } else {
      var c :| c in unseen;
      var scanned := ScanOne(run, origin, window, p, unseen, c);
      longer := ScanRest(scanned, origin, window, p, unseen - {c});
      ContinuesOn(run, scanned, longer);
    }
  }

  lemma Finish(run: Run, origin: string, window: int) returns (longer: Run)
    requires run.Valid() && Sweeping(run.Last(), origin, window, {})
    ensures longer.Valid() && Continues(run, longer) && Idle(longer.Last())
    ensures |longer.events| == |run.events| + 1 && longer.events[|run.events|] == EndSweep(origin, 0)
  {
    longer := Plus(run, EndSweep(origin, 0));
    PlusContinues(run, EndSweep(origin, 0));
  }

  // ----- one delivery

  lemma {:induction false} OrderExists(keys: set<Cell>) returns (order: seq<Cell>)
    ensures Lists(order, keys)
    decreases keys
  {
    if keys == {} {
      order := [];
    } else {
      var c :| c in keys;
      var rest := OrderExists(keys - {c});
      order := rest + [c];
    }
  }

  // The region's relay is working on a message; all else is idle.
  ghost predicate Working(s: State, d: string, left: nat) {
    && s.nodes.Keys == REGIONS && d in REGIONS
    && (forall r {:trigger s.nodes[r]} | r in REGIONS && r != d :: IdleNode(s.nodes[r]))
    && s.nodes[d].rules == {} && s.nodes[d].sweep.None? && |s.nodes[d].todo| == left
  }

  ghost predicate NothingLost(run: Run, d: string, i: nat) {
    forall m {:trigger run.events[m]} | i < m < |run.events| :: !Loses(run.events[m], d)
  }

  lemma {:induction false} WorkThrough(run: Run, d: string, i: nat, left: nat) returns (longer: Run)
    requires run.Valid() && Working(run.Last(), d, left) && i < |run.events| && NothingLost(run, d, i)
    ensures longer.Valid() && Continues(run, longer) && Working(longer.Last(), d, 0) && NothingLost(longer, d, i)
    decreases left
  {
    if left == 0 {
      longer := run;
    } else {
      PlusContinues(run, Apply(d));
      longer := WorkThrough(Plus(run, Apply(d)), d, i, left - 1);
      ContinuesOn(run, Plus(run, Apply(d)), longer);
    }
  }

  lemma DeliverOne(run: Run, d: string, env: Envelope) returns (longer: Run)
    requires run.Valid() && Idle(run.Last()) && d in REGIONS
    requires env in run.Last().sent && env.ReconcileEnvelope? && env.origin != d
    ensures longer.Valid() && Continues(run, longer) && Idle(longer.Last())
    ensures Reaches(longer, |run.events|, d, env)
  {
    var order := OrderExists(env.slots.Keys);
    var e := Deliver(d, env, order);
    assert IdleNode(run.Last().nodes[d]);
    PlusContinues(run, e);
    var i, given := |run.events|, Plus(run, e);
    longer := WorkThrough(given, d, i, |order|);
    ContinuesOn(run, given, longer);
    SamePrefix(run, longer, |run.states| - 1);
    SamePrefix(given, longer, i);
    assert DeliveredAt(longer, d, env, i, |longer.states| - 1);
  }

  lemma {:induction false} DeliverSet(run: Run, a: nat, d: string, envs: set<Envelope>) returns (longer: Run)
    requires run.Valid() && Idle(run.Last()) && d in REGIONS && a <= |run.events|
    requires envs <= run.Last().sent
    requires forall env | env in envs :: env.ReconcileEnvelope? && env.origin != d
    ensures longer.Valid() && Continues(run, longer) && Idle(longer.Last())
    ensures AllReach(longer, a, d, envs)
    decreases envs
  {
    if envs == {} {
      longer := run;
    } else {
      var env :| env in envs;
      var first := DeliverOne(run, d, env);
      SentStays(first, |run.states| - 1, |first.states| - 1);
      SamePrefix(run, first, |run.states| - 1);
      longer := DeliverSet(first, a, d, envs - {env});
      ContinuesOn(run, first, longer);
      ReachFrom(first, a, |run.events|, d, env);
      ReachStays(first, longer, a, d, {env});
      assert Reaches(longer, a, d, env);
    }
  }

  lemma ReachFrom(run: Run, a: nat, b: nat, d: string, env: Envelope)
    requires run.Linked() && a <= b && Reaches(run, b, d, env)
    ensures AllReach(run, a, d, {env})
  {
    var i: nat, j: nat :| b <= i && DeliveredAt(run, d, env, i, j);
    assert a <= i;
  }

  // The reconcile envelopes ever published by the other regions.
  ghost function ForRegion(s: State, d: string): set<Envelope> {
    set env | env in s.sent && env.ReconcileEnvelope? && env.origin != d
  }

  lemma DeliverAll(run: Run, a: nat) returns (longer: Run)
    requires run.Valid() && Idle(run.Last()) && a <= |run.events|
    ensures longer.Valid() && Continues(run, longer)
    ensures forall d | d in REGIONS :: AllReach(longer, a, d, ForRegion(run.Last(), d))
  {
    var us := DeliverTo(run, run, a, "us");
    var eu := DeliverTo(run, us, a, "eu");
    longer := DeliverTo(run, eu, a, "asia");
    ReachStays(us, eu, a, "us", ForRegion(run.Last(), "us"));
    ReachStays(eu, longer, a, "us", ForRegion(run.Last(), "us"));
    ReachStays(eu, longer, a, "eu", ForRegion(run.Last(), "eu"));
  }

  lemma DeliverTo(run: Run, soFar: Run, a: nat, d: string) returns (longer: Run)
    requires run.Valid() && soFar.Valid() && Continues(run, soFar) && Idle(soFar.Last())
    requires a <= |run.events| && d in REGIONS
    ensures longer.Valid() && Continues(soFar, longer) && Continues(run, longer) && Idle(longer.Last())
    ensures AllReach(longer, a, d, ForRegion(run.Last(), d))
  {
    SentStays(soFar, |run.states| - 1, |soFar.states| - 1);
    SamePrefix(run, soFar, |run.states| - 1);
    longer := DeliverSet(soFar, a, d, ForRegion(run.Last(), d));
    ContinuesOn(run, soFar, longer);
  }

  // ----- the whole continuation

  // Some uninterrupted pass of the region begins after event a.
  ghost predicate Passed(run: Run, a: nat, origin: string, window: int) {
    exists p, q :: a <= p && PassAt(run, origin, window, p, q)
  }

  lemma PassedStays(run: Run, longer: Run, a: nat, origin: string, window: int)
    requires Continues(run, longer) && Passed(run, a, origin, window)
    ensures Passed(longer, a, origin, window)
  {
    var p: nat, q: nat :| a <= p && PassAt(run, origin, window, p, q);
    PassStays(run, longer, origin, window, p, q);
  }

  lemma OnePass(run: Run, a: nat, origin: string, window: int) returns (longer: Run)
    requires run.Valid() && Idle(run.Last()) && origin in REGIONS && a <= |run.events|
    ensures longer.Valid() && Continues(run, longer) && Idle(longer.Last())
    ensures Passed(longer, a, origin, window)
  {
    var q: nat;
    longer, q := MakePass(run, origin, window);
  }

  ghost predicate AllPassed(run: Run, a: nat, origins: set<string>, window: int) {
    forall r {:trigger Passed(run, a, r, window)} | r in origins :: Passed(run, a, r, window)
  }

  lemma AllPassedStay(run: Run, longer: Run, a: nat, origins: set<string>, window: int)
    requires Continues(run, longer) && AllPassed(run, a, origins, window)
    ensures AllPassed(longer, a, origins, window)
  {
    forall r | r in origins
      ensures Passed(longer, a, r, window)
    {
      PassedStays(run, longer, a, r, window);
    }
  }

  lemma {:induction false} MakePasses(run: Run, a: nat, origins: set<string>, window: int) returns (longer: Run)
    requires run.Valid() && Idle(run.Last()) && origins <= REGIONS && a <= |run.events|
    ensures longer.Valid() && Continues(run, longer) && Idle(longer.Last())
    ensures AllPassed(longer, a, origins, window)
    decreases origins
  {
    if origins == {} {
      longer := run;
    } else {
      var r :| r in origins;
      var before := MakePasses(run, a, origins - {r}, window);
      longer := OnePass(before, a, r, window);
      AllPassedStay(before, longer, a, origins - {r}, window);
      ContinuesOn(run, before, longer);
    }
  }

  lemma AnnouncedIsKept(passed: Run, longer: Run, i: nat, env: Envelope, d: string)
    requires passed.Linked() && longer.Linked() && Continues(passed, longer) && i < |passed.events|
    requires env in SentBy(longer.states[i], longer.events[i]) && env.ReconcileEnvelope? && env.origin != d
    ensures env in ForRegion(passed.Last(), d)
  {
    SamePrefix(passed, longer, i);
    PublishedIsKept(passed, i, env);
  }

  lemma PublishedIsKept(run: Run, i: nat, env: Envelope)
    requires run.Linked() && i < |run.events| && env in SentBy(run.states[i], run.events[i])
    ensures env in run.Last().sent
  {
    assert run.states[i + 1] == Step(run.states[i], run.events[i]);
    SentStays(run, i + 1, |run.states| - 1);
  }

  lemma PassIsDelivered(passed: Run, longer: Run, a: nat, origin: string, window: int)
    requires passed.Linked() && longer.Linked() && Continues(passed, longer)
    requires Passed(passed, a, origin, window)
    requires forall d | d in REGIONS :: AllReach(longer, a, d, ForRegion(passed.Last(), d))
    ensures Reconciled(longer, a, origin, window)
  {
    var p: nat, q: nat :| a <= p && PassAt(passed, origin, window, p, q);
    PassStays(passed, longer, origin, window, p, q);
    forall i, env, d | p <= i <= q && i < |longer.events| && env in SentBy(longer.states[i], longer.events[i])
                       && d in REGIONS && d != origin
      ensures env.ReconcileEnvelope? && env.origin == origin ==> Reaches(longer, a, d, env)
    {
      if env.ReconcileEnvelope? && env.origin == origin {
        AnnouncedIsKept(passed, longer, i, env, d);
        assert AllReach(longer, a, d, ForRegion(passed.Last(), d));
      }
    }
    assert PassReaches(longer, a, origin, p, q);
  }

  /** From every reachable state there is a quiet continuation after which convergence applies. */
  lemma CanReconcile(run: Run, window: int) returns (longer: Run)
    requires run.Valid()
    ensures longer.Valid() && Continues(run, longer)
    ensures AllReconciled(longer, |run.events|, window)
  {
    var idle := RestartAll(run);
    var passed := MakePasses(idle, |run.events|, REGIONS, window);
    longer := DeliverAll(passed, |run.events|);
    forall origin | origin in REGIONS
      ensures Reconciled(longer, |run.events|, origin, window)
    {
      assert Passed(passed, |run.events|, origin, window);
      PassIsDelivered(passed, longer, |run.events|, origin, window);
    }
    ContinuesOn(run, idle, passed);
    ContinuesOn(run, passed, longer);
  }

  lemma {:induction false} QuietKeepsCounts(run: Run, i: nat, j: nat)
    requires run.Linked() && i <= j < |run.states| && QuietFrom(run, i)
    ensures run.states[j].issued == run.states[i].issued && run.states[j].wiped == run.states[i].wiped
  {
    if i == j {
    } else {
      QuietKeepsCounts(run, i, j - 1);
      assert Quiet(run.events[j - 1]);
    }
  }

  /** No state is beyond repair. Whatever was lost, dropped, partitioned or left in a buffer, from every
      reachable state the protocol has a continuation without further increments after which, for every cell
      with colon-free tier and user whose own slots are intact, every region shows exactly what each region
      had issued and sums to the true total. */
  lemma CanAlwaysConverge(run: Run, window: int) returns (longer: Run)
    requires run.Valid()
    ensures longer.Valid() && Continues(run, longer)
    ensures forall c: Cell, d | ColonFree(c.0) && ColonFree(c.1) && d in REGIONS
                                && Intact(run.Last(), CellKey(c, window)) ::
              ShowsIssued(longer.Last(), run.Last(), d, CellKey(c, window))
  {
    longer := CanReconcile(run, window);
    forall c: Cell, d | ColonFree(c.0) && ColonFree(c.1) && d in REGIONS
                        && Intact(run.Last(), CellKey(c, window))
      ensures ShowsIssued(longer.Last(), run.Last(), d, CellKey(c, window))
    {
      HasConverged(run, longer, window, c, d);
    }
  }

  // Region d shows in state t, slot by slot and in sum, what the regions had issued of the key by state s.
  ghost predicate ShowsIssued(t: State, s: State, d: string, key: string) {
    && d in t.nodes
    && (forall f | f in REGIONS :: Seen(t, d, key, f) == Issued(s.issued, f, key))
    && Sum(HashAt(t.nodes[d].store, key)) == TrueTotal(s.issued, key)
  }

  lemma HasConverged(run: Run, longer: Run, window: int, c: Cell, d: string)
    requires run.Valid() && longer.Valid() && Continues(run, longer)
    requires AllReconciled(longer, |run.events|, window)
    requires ColonFree(c.0) && ColonFree(c.1) && d in REGIONS && Intact(run.Last(), CellKey(c, window))
    ensures ShowsIssued(longer.Last(), run.Last(), d, CellKey(c, window))
  {
    NothingMoreIssued(run, longer);
    EverySlotConverges(longer, |run.events|, window, c, d);
    SumsAgree(longer, |longer.states| - 1, d, CellKey(c, window));
    forall f | f in REGIONS
      ensures UpToDate(longer.Last(), d, CellKey(c, window), f)
    {
    }
  }

  lemma NothingMoreIssued(run: Run, longer: Run)
    requires run.Valid() && longer.Valid() && Continues(run, longer)
    ensures QuietFrom(longer, |run.events|)
    ensures longer.Last().issued == run.Last().issued && longer.Last().wiped == run.Last().wiped
  {
    SamePrefix(run, longer, |run.events|);
    QuietKeepsCounts(longer, |run.events|, |longer.states| - 1);
  }
}
