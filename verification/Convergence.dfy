/** Reconciliation is the correctness mechanism: after any losses, overflows, partitions and restarts, one
    complete pass per region that is delivered and worked through everywhere brings all replicas together. */
module Convergence {
  import opened Counter
  import opened Envelopes
  import opened HashStore
  import opened Protocol
  import opened Reconcilers
  import opened Relays
  import opened Safety
  import opened Sums
  import opened Text
  import opened Wrappers
  import Bounds

  // From state a on, no slot is incremented and no key expires.
  ghost predicate QuietFrom(run: Run, a: nat) {
    forall i | a <= i < |run.events| :: Quiet(run.events[i])
  }

  // The event ends or loses a pass of the region.
  predicate Interrupts(e: Event, region: string) {
    (e.EndSweep? || e.AbortSweep? || e.Restart?) && e.region == region
  }

  /** A pass of `origin` over the window runs from event p to event q without being interrupted. */
  ghost predicate PassAt(run: Run, origin: string, window: int, p: nat, q: nat) {
    && p < q < |run.events|
    && run.events[p] == StartSweep(origin, window)
    && run.events[q].EndSweep? && run.events[q].region == origin
    && forall i | p < i < q :: !Interrupts(run.events[i], origin)
  }

  // The event takes a write from the region's relay without carrying it out.
  predicate Loses(e: Event, region: string) {
    (e.ApplyError? || e.Restart?) && e.region == region
  }

  /** Event i delivers the envelope past the region's rules, and by state j the relay has worked through it
      with no failed write and no restart. */
  ghost predicate DeliveredAt(run: Run, region: string, env: Envelope, i: nat, j: nat)
    requires run.Linked()
  {
    && i < j < |run.states|
    && run.events[i].Deliver? && run.events[i].region == region && run.events[i].env == env
    && !Drops(run.states[i].nodes[region], region, env)
    && region in run.states[j].nodes && run.states[j].nodes[region].todo == []
    && forall m | i < m < j :: !Loses(run.events[m], region)
  }

  predicate Expires(e: Event, region: string) {
    e.Expire? && e.region == region
  }

  // No key of the region expires between the two states.
  ghost predicate NothingExpires(run: Run, region: string, i: nat, j: nat) {
    forall m {:trigger run.events[m]} | i <= m < j && m < |run.events| :: !Expires(run.events[m], region)
  }

  ghost predicate Reaches(run: Run, a: nat, region: string, env: Envelope)
    requires run.Linked()
  {
    exists i, j :: a <= i && DeliveredAt(run, region, env, i, j)
  }

  /** After state a the region makes one whole pass, all of whose chunks reach every other region. */
  ghost predicate Reconciled(run: Run, a: nat, origin: string, window: int)
    requires run.Linked()
  {
    exists p, q :: a <= p && PassAt(run, origin, window, p, q) && PassReaches(run, a, origin, p, q)
  }

  ghost predicate PassReaches(run: Run, a: nat, origin: string, p: nat, q: nat)
    requires run.Linked()
  {
    forall i, env, d | p <= i <= q && i < |run.events| && env in SentBy(run.states[i], run.events[i])
                       && d in REGIONS && d != origin ::
      env.ReconcileEnvelope? && env.origin == origin ==> Reaches(run, a, d, env)
  }

  // ----- slots in a quiet run

  lemma Regions(run: Run, i: nat)
    requires run.Valid() && i < |run.states|
    ensures run.states[i].nodes.Keys == REGIONS
  {
    RunsAreSafe(run, i);
  }

  // The slot of region f that region r's Redis shows for key k.
  ghost function Seen(s: State, r: string, k: string, f: string): int {
    if r in s.nodes then Slot(s.nodes[r].store, k, f) else 0
  }

  // One quiet step: a region's own slot stays, and no slot goes down.
  lemma QuietStep(run: Run, i: nat, r: string, k: string, f: string)
    requires run.Valid() && i < |run.events| && Quiet(run.events[i]) && r in REGIONS
    ensures Seen(run.states[i + 1], r, k, r) == Seen(run.states[i], r, k, r)
    ensures Seen(run.states[i], r, k, f) <= Seen(run.states[i + 1], r, k, f)
  {
    RunsAreSafe(run, i);
    var s, e := run.states[i], run.events[i];
    SyncKeepsOwnSlots(s, e, r, k);
    SlotsOnlyGrow(s, e, r, k, f);
  }

  lemma {:induction false} QuietRun(run: Run, i: nat, j: nat, r: string, k: string, f: string)
    requires run.Valid() && i <= j < |run.states| && QuietFrom(run, i) && r in REGIONS
    ensures Seen(run.states[j], r, k, r) == Seen(run.states[i], r, k, r)
    ensures Seen(run.states[i], r, k, f) <= Seen(run.states[j], r, k, f)
  {
    if i == j {
    } else {
      QuietRun(run, i, j - 1, r, k, f);
      QuietStep(run, j - 1, r, k, f);
    }
  }

  lemma {:induction false} SlotsStay(run: Run, i: nat, j: nat, r: string, k: string, f: string)
    requires run.Valid() && i <= j < |run.states| && NothingExpires(run, r, i, j) && r in REGIONS
    ensures Seen(run.states[i], r, k, f) <= Seen(run.states[j], r, k, f)
  {
    if i == j {
    } else {
      SlotsStay(run, i, j - 1, r, k, f);
      RunsAreSafe(run, j - 1);
      assert !Expires(run.events[j - 1], r);
      SlotsOnlyGrow(run.states[j - 1], run.events[j - 1], r, k, f);
    }
  }

  lemma SeenIsBelow(run: Run, i: nat, d: string, g: string, key: string)
    requires run.Valid() && i < |run.states| && d in REGIONS
    ensures 0 <= Seen(run.states[i], d, key, g) <= Issued(run.states[i].issued, g, key)
  {
    var s := run.states[i];
    RunsAreSafe(run, i);
    assert NodeOk(d, s.nodes[d], s.issued);
    assert 0 <= Slot(s.nodes[d].store, key, g) <= Issued(s.issued, g, key);
  }

  lemma OwnIsExact(run: Run, i: nat, g: string, key: string)
    requires run.Valid() && i < |run.states| && g in REGIONS && (g, key) !in run.states[i].wiped
    ensures Seen(run.states[i], g, key, g) == Issued(run.states[i].issued, g, key)
  {
    RunsAreSafe(run, i);
  }

  // ----- the relay works a message off

  ghost predicate DoneOrTodo(n: Node, ws: seq<Write>) {
    forall w | w in ws :: w in n.todo || Slot(n.store, w.key, w.region) >= w.value
  }

  lemma RelayMakesProgress(n: Node, e: Event, ws: seq<Write>)
    requires NodeEnabled(n, e) && DoneOrTodo(n, ws)
    requires !Loses(e, RegionOf(e)) && !e.Expire?
    requires forall w | w in n.todo :: w.value >= 0
    ensures DoneOrTodo(NodeAfter(n, e), ws)
  {
    var m := NodeAfter(n, e);
    forall w | w in ws
      ensures w in m.todo || Slot(m.store, w.key, w.region) >= w.value
    {
      if CountsOne(e) {
        assert Slot(m.store, w.key, w.region) >= Slot(n.store, w.key, w.region);
      } else if e.Apply? {
        assert n.todo[0].value >= 0;
        assert n.todo == [n.todo[0]] + n.todo[1..];
        MaxMergedSlots(n.store, n.todo[0].key, n.todo[0].region, n.todo[0].value, w.key, w.region);
      }
    }
  }

  // In state m every write of ws is queued in the region or already in its store.
  ghost predicate Progressed(run: Run, m: nat, region: string, ws: seq<Write>)
    requires m < |run.states|
  {
    region in run.states[m].nodes && DoneOrTodo(run.states[m].nodes[region], ws)
  }

  lemma RelayStep(run: Run, m: nat, region: string, ws: seq<Write>)
    requires run.Valid() && m < |run.events| && region in REGIONS
    requires !Expires(run.events[m], region) && !Loses(run.events[m], region)
    requires Progressed(run, m, region, ws)
    ensures Progressed(run, m + 1, region, ws)
  {
    var s, e := run.states[m], run.events[m];
    Regions(run, m + 1);
    RunsAreSafe(run, m);
    assert NodeOk(region, s.nodes[region], s.issued);
    if RegionOf(e) == region {
      RelayMakesProgress(s.nodes[region], e, ws);
    }
  }

  lemma {:induction false} RelayRun(run: Run, region: string, ws: seq<Write>, i: nat, j: nat)
    requires run.Valid() && region in REGIONS && i <= j < |run.states| && NothingExpires(run, region, i, j)
    requires forall m {:trigger run.events[m]} | i <= m < j :: !Loses(run.events[m], region)
    requires Progressed(run, i, region, ws)
    ensures Progressed(run, j, region, ws)
  {
    if i == j {
    } else {
      RelayRun(run, region, ws, i, j - 1);
      RelayStep(run, j - 1, region, ws);
    }
  }

  lemma DeliveryProgress(run: Run, region: string, env: Envelope, i: nat, j: nat)
    requires run.Valid() && region in REGIONS
    requires DeliveredAt(run, region, env, i, j) && NothingExpires(run, region, i, j)
    ensures Progressed(run, j, region, WritesOf(env, run.events[i].order))
  {
    FirstStep(run.states[i], run.events[i], region);
    RelayRun(run, region, WritesOf(env, run.events[i].order), i + 1, j);
  }

  lemma FirstStep(s: State, e: Event, region: string)
    requires Enabled(s, e) && e.Deliver? && e.region == region && !Drops(s.nodes[region], region, e.env)
    ensures DoneOrTodo(Step(s, e).nodes[region], WritesOf(e.env, e.order))
  {
  }

  /** A counter message that is worked off while requests keep counting leaves its one slot at least as high
      as it says, and as it was. */
  lemma CounterDeliveryApplies(run: Run, region: string, env: Envelope, i: nat, j: nat)
    requires run.Valid() && region in REGIONS
    requires DeliveredAt(run, region, env, i, j) && NothingExpires(run, region, i, j) && env.CounterEnvelope?
    ensures region in run.states[j].nodes
    ensures Seen(run.states[j], region, GlobalKey(env.tier, env.user, env.window), env.region) >= env.value
    ensures Seen(run.states[j], region, GlobalKey(env.tier, env.user, env.window), env.region)
         >= Seen(run.states[i], region, GlobalKey(env.tier, env.user, env.window), env.region)
  {
    DeliveryProgress(run, region, env, i, j);
    var w := Write(GlobalKey(env.tier, env.user, env.window), env.region, env.value);
    assert WritesOf(env, run.events[i].order)[0] == w;
    SlotsStay(run, i, j, region, w.key, w.region);
  }

  /** A delivery that is worked off leaves every slot of the envelope at least as high as it says. */
  lemma DeliveryApplies(run: Run, region: string, env: Envelope, i: nat, j: nat, c: Cell)
    requires run.Valid() && region in REGIONS && NothingExpires(run, region, i, j)
    requires DeliveredAt(run, region, env, i, j) && env.ReconcileEnvelope? && c in env.slots
    ensures region in run.states[j].nodes
    ensures Seen(run.states[j], region, CellKey(c, env.window), env.origin) >= env.slots[c]
  {
    DeliveryProgress(run, region, env, i, j);
    var order := run.events[i].order;
    assert OrderOf(env, order);
    var x :| 0 <= x < |order| && order[x] == c;
    assert WritesOf(env, order)[x] == SlotWrite(env, c);
  }

  // ----- a pass covers every cell with an own slot

  ghost predicate Carries(env: Envelope, origin: string, window: int, c: Cell, value: int) {
    env.ReconcileEnvelope? && env.origin == origin && env.window == window && c in env.slots && env.slots[c] == value
  }

  ghost predicate SentBetween(run: Run, p: nat, i: nat, origin: string, window: int, c: Cell, value: int)
    requires run.Linked() && i <= |run.events|
  {
    exists j, env :: p <= j < i && env in SentBy(run.states[j], run.events[j]) && Carries(env, origin, window, c, value)
  }

  ghost predicate Gathered(n: Node, window: int, c: Cell, value: int) {
    && n.sweep.Some? && n.sweep.value.window == window
    && (c in n.sweep.value.unseen || (c in n.sweep.value.pass.chunk && n.sweep.value.pass.chunk[c] == value))
  }

  // The node is in the pass, and the cell is still to come, in the chunk, or already announced.
  ghost predicate OnTrack(n: Node, window: int) {
    n.sweep.Some? && n.sweep.value.window == window
  }

  lemma ScanKeepsCell(n: Node, e: Event, window: int, c: Cell, value: int)
    requires e.Scan? && NodeEnabled(n, e) && Gathered(n, window, c, value)
    requires value > 0 && Slot(n.store, CellKey(c, window), e.region) == value
    ensures Gathered(NodeAfter(n, e), window, c, value)
         || exists env :: env in Announced(n, e) && Carries(env, e.region, window, c, value)
  {
    var sw := n.sweep.value;
    var v := ViewOf(n, e.cell);
    if CarriesOwn(e.region, v) {
      var chunk := sw.pass.chunk[e.cell := v.slots[e.region]];
      if |chunk| >= CHUNK_SIZE {
        var env := ChunkEnvelope(e.region, window, e.tsMs, chunk);
        assert env in Announced(n, e);
        if e.cell == c || c !in sw.unseen {
          assert Carries(env, e.region, window, c, value);
        }
      }
    }
  }

  lemma OthersKeepSweep(n: Node, e: Event)
    requires NodeEnabled(n, e) && n.sweep.Some?
    requires !Interrupts(e, RegionOf(e)) && !e.Scan?
    ensures NodeAfter(n, e).sweep == n.sweep
  {
  }

  lemma StartGathers(n: Node, e: Event, c: Cell)
    requires e.StartSweep? && NodeEnabled(n, e)
    requires ColonFree(c.0) && ColonFree(c.1)
    requires CellKey(c, e.window) in n.store
    ensures c in NodeAfter(n, e).sweep.value.unseen && NodeAfter(n, e).sweep.value.window == e.window
  {
    ScanIsExact(CellKey(c, e.window), e.window, c.0, c.1);
  }

  // One step of an uninterrupted pass of the region keeps the cell on its way or announces it.
  lemma PassStep(s: State, e: Event, origin: string, window: int, c: Cell, value: int)
    requires Enabled(s, e) && origin in s.nodes && OnTrack(s.nodes[origin], window)
    requires !Interrupts(e, origin) && value > 0
    requires Seen(s, origin, CellKey(c, window), origin) == value
    ensures OnTrack(Step(s, e).nodes[origin], window)
    ensures Gathered(s.nodes[origin], window, c, value) ==>
              || Gathered(Step(s, e).nodes[origin], window, c, value)
              || exists env :: env in SentBy(s, e) && Carries(env, origin, window, c, value)
  {
    var n := s.nodes[origin];
    if RegionOf(e) == origin {
      if !e.Scan? {
        OthersKeepSweep(n, e);
      } else if Gathered(n, window, c, value) {
        ScanKeepsCell(n, e, window, c, value);
        if env :| env in Announced(n, e) && Carries(env, origin, window, c, value) {
          assert env in SentBy(s, e);
        }
      }
    }
  }

  // In state i the pass is under way, and the cell is still to come, in the chunk, or already announced.
  ghost predicate OnTheWay(run: Run, origin: string, window: int, p: nat, i: nat, c: Cell, value: int)
    requires run.Linked() && i < |run.states|
  {
    && origin in run.states[i].nodes
    && OnTrack(run.states[i].nodes[origin], window)
    && (Gathered(run.states[i].nodes[origin], window, c, value)
        || SentBetween(run, p, i, origin, window, c, value))
  }

  lemma StaysOnTheWay(run: Run, origin: string, window: int, p: nat, i: nat, c: Cell, value: int)
    requires run.Linked() && p <= i < |run.events| && OnTheWay(run, origin, window, p, i, c, value)
    requires !Interrupts(run.events[i], origin) && value > 0
    requires Seen(run.states[i], origin, CellKey(c, window), origin) == value
    ensures OnTheWay(run, origin, window, p, i + 1, c, value)
  {
    PassStep(run.states[i], run.events[i], origin, window, c, value);
    assert SentBetween(run, p, i, origin, window, c, value) ==> SentBetween(run, p, i + 1, origin, window, c, value);
  }

  lemma {:induction false} PassProgress(run: Run, origin: string, window: int, p: nat, q: nat, i: nat, c: Cell,
                                        value: int)
    requires run.Valid() && origin in REGIONS && PassAt(run, origin, window, p, q) && QuietFrom(run, p)
    requires p < i <= q && ColonFree(c.0) && ColonFree(c.1) && value > 0
    requires origin in run.states[p].nodes
    requires Seen(run.states[p], origin, CellKey(c, window), origin) == value
    ensures OnTheWay(run, origin, window, p, i, c, value)
  {
    if i == p + 1 {
      StartGathers(run.states[p].nodes[origin], run.events[p], c);
    } else {
      PassProgress(run, origin, window, p, q, i - 1, c, value);
      PassGoesOn(run, origin, window, p, q, i - 1, c, value);
    }
  }

  lemma PassGoesOn(run: Run, origin: string, window: int, p: nat, q: nat, i: nat, c: Cell, value: int)
    requires run.Valid() && origin in REGIONS && PassAt(run, origin, window, p, q) && QuietFrom(run, p)
    requires p < i < q && value > 0 && OnTheWay(run, origin, window, p, i, c, value)
    requires Seen(run.states[p], origin, CellKey(c, window), origin) == value
    ensures OnTheWay(run, origin, window, p, i + 1, c, value)
  {
    QuietRun(run, p, i, origin, CellKey(c, window), origin);
    assert !Interrupts(run.events[i], origin);
    StaysOnTheWay(run, origin, window, p, i, c, value);
  }

  /** A complete pass announces the own slot of every colon-free cell that has one. */
  lemma PassCovers(run: Run, origin: string, window: int, p: nat, q: nat, c: Cell)
    requires run.Valid() && origin in REGIONS && PassAt(run, origin, window, p, q) && QuietFrom(run, p)
    requires ColonFree(c.0) && ColonFree(c.1) && origin in run.states[p].nodes
    requires Seen(run.states[p], origin, CellKey(c, window), origin) > 0
    ensures SentBetween(run, p, q + 1, origin, window, c,
                        Seen(run.states[p], origin, CellKey(c, window), origin))
  {
    var key := CellKey(c, window);
    var value := Seen(run.states[p], origin, key, origin);
    PassProgress(run, origin, window, p, q, q, c, value);
    QuietRun(run, p, q, origin, key, origin);
    if !SentBetween(run, p, q, origin, window, c, value) {
      var s, e := run.states[q], run.events[q];
      var sw := s.nodes[origin].sweep.value;
      assert key in s.nodes[origin].store;
      assert c !in sw.unseen;
      var env := ChunkEnvelope(origin, window, e.tsMs, sw.pass.chunk);
      assert env in SentBy(s, e) && Carries(env, origin, window, c, value);
    }
  }

  // ----- convergence

  lemma ChunkArrives(run: Run, a: nat, d: string, env: Envelope, c: Cell)
    requires run.Valid() && QuietFrom(run, a) && d in REGIONS
    requires Reaches(run, a, d, env) && env.ReconcileEnvelope? && c in env.slots
    ensures Seen(run.Last(), d, CellKey(c, env.window), env.origin) >= env.slots[c]
  {
    var i: nat, j: nat :| a <= i && DeliveredAt(run, d, env, i, j);
    DeliveryArrives(run, a, d, env, i, j, c);
  }

  lemma DeliveryArrives(run: Run, a: nat, d: string, env: Envelope, i: nat, j: nat, c: Cell)
    requires run.Valid() && QuietFrom(run, a) && d in REGIONS
    requires a <= i && DeliveredAt(run, d, env, i, j) && env.ReconcileEnvelope? && c in env.slots
    ensures Seen(run.Last(), d, CellKey(c, env.window), env.origin) >= env.slots[c]
  {
    QuietNeverExpires(run, a, d, i, j);
    DeliveryApplies(run, d, env, i, j, c);
    QuietFromLater(run, a, j);
    QuietRun(run, j, |run.states| - 1, d, CellKey(c, env.window), env.origin);
  }

  lemma QuietFromLater(run: Run, a: nat, b: nat)
    requires a <= b && QuietFrom(run, a)
    ensures QuietFrom(run, b)
  {
  }

  lemma QuietNeverExpires(run: Run, a: nat, region: string, i: nat, j: nat)
    requires a <= i && QuietFrom(run, a)
    ensures NothingExpires(run, region, i, j)
  {
  }

  lemma PassArrives(run: Run, a: nat, origin: string, d: string, window: int, p: nat, q: nat, c: Cell)
    requires run.Valid() && a <= p && QuietFrom(run, a)
    requires origin in REGIONS && d in REGIONS && d != origin
    requires PassAt(run, origin, window, p, q) && PassReaches(run, a, origin, p, q)
    requires ColonFree(c.0) && ColonFree(c.1)
    requires Seen(run.states[p], origin, CellKey(c, window), origin) > 0
    ensures Seen(run.Last(), d, CellKey(c, window), origin) >= Seen(run.states[p], origin, CellKey(c, window), origin)
  {
    var value := Seen(run.states[p], origin, CellKey(c, window), origin);
    PassCovers(run, origin, window, p, q, c);
    var x, env :| p <= x < q + 1 && env in SentBy(run.states[x], run.events[x])
                  && Carries(env, origin, window, c, value);
    assert Reaches(run, a, d, env);
    ChunkArrives(run, a, d, env, c);
  }

  lemma PassBringsUp(run: Run, a: nat, origin: string, d: string, window: int, p: nat, q: nat, c: Cell)
    requires run.Valid() && a <= p && QuietFrom(run, a)
    requires origin in REGIONS && d in REGIONS && d != origin
    requires PassAt(run, origin, window, p, q) && PassReaches(run, a, origin, p, q)
    requires ColonFree(c.0) && ColonFree(c.1)
    ensures Seen(run.Last(), d, CellKey(c, window), origin) >= Seen(run.Last(), origin, CellKey(c, window), origin)
  {
    if Seen(run.states[p], origin, CellKey(c, window), origin) > 0 {
      PassArrives(run, a, origin, d, window, p, q, c);
    }
    StillCaughtUp(run, p, origin, d, CellKey(c, window));
  }

  // In a quiet run the own slot is at the end what it was when the pass began.
  lemma StillCaughtUp(run: Run, p: nat, origin: string, d: string, key: string)
    requires run.Valid() && p < |run.states| && QuietFrom(run, p) && origin in REGIONS && d in REGIONS
    requires Seen(run.states[p], origin, key, origin) > 0
         ==> Seen(run.Last(), d, key, origin) >= Seen(run.states[p], origin, key, origin)
    ensures Seen(run.Last(), d, key, origin) >= Seen(run.Last(), origin, key, origin)
  {
    QuietRun(run, p, |run.states| - 1, origin, key, origin);
    SeenIsBelow(run, |run.states| - 1, d, origin, key);
  }

  lemma OneSlotConverges(run: Run, a: nat, origin: string, d: string, window: int, c: Cell)
    requires run.Valid() && a < |run.states| && QuietFrom(run, a)
    requires origin in REGIONS && d in REGIONS && d != origin
    requires Reconciled(run, a, origin, window)
    requires ColonFree(c.0) && ColonFree(c.1)
    ensures Seen(run.Last(), d, CellKey(c, window), origin) >= Seen(run.Last(), origin, CellKey(c, window), origin)
  {
    var p: nat, q: nat :| a <= p && PassAt(run, origin, window, p, q) && PassReaches(run, a, origin, p, q);
    PassBringsUp(run, a, origin, d, window, p, q, c);
  }

  ghost predicate AllReconciled(run: Run, a: nat, window: int)
    requires run.Linked()
  {
    forall origin {:trigger Reconciled(run, a, origin, window)} | origin in REGIONS ::
      Reconciled(run, a, origin, window)
  }

  // No own slot of the key was lost.
  ghost predicate Intact(s: State, key: string) {
    forall r | r in REGIONS :: (r, key) !in s.wiped
  }

  // A replica whose slot has caught up with the intact own slot shows what was issued.
  lemma CaughtUp(run: Run, i: nat, d: string, g: string, key: string)
    requires run.Valid() && i < |run.states| && d in REGIONS && g in REGIONS
    requires (g, key) !in run.states[i].wiped
    requires Seen(run.states[i], d, key, g) >= Seen(run.states[i], g, key, g)
    ensures UpToDate(run.states[i], d, key, g)
  {
    SeenIsBelow(run, i, d, g, key);
    OwnIsExact(run, i, g, key);
  }

  lemma GapCloses(run: Run, a: nat, window: int, c: Cell, d: string, g: string)
    requires run.Valid() && a < |run.states| && QuietFrom(run, a) && AllReconciled(run, a, window)
    requires ColonFree(c.0) && ColonFree(c.1) && d in REGIONS && g in REGIONS
    ensures Seen(run.Last(), d, CellKey(c, window), g) >= Seen(run.Last(), g, CellKey(c, window), g)
  {
    if g != d {
      OneSlotConverges(run, a, g, d, window, c);
    }
  }

  lemma EverySlotConverges(run: Run, a: nat, window: int, c: Cell, d: string)
    requires run.Valid() && a < |run.states| && QuietFrom(run, a)
    requires AllReconciled(run, a, window) && Intact(run.Last(), CellKey(c, window))
    requires ColonFree(c.0) && ColonFree(c.1) && d in REGIONS
    ensures AllUpToDate(run.Last(), d, CellKey(c, window))
  {
    forall g | g in REGIONS
      ensures UpToDate(run.Last(), d, CellKey(c, window), g)
    {
      GapCloses(run, a, window, c, d, g);
      CaughtUp(run, |run.states| - 1, d, g, CellKey(c, window));
    }
  }

  /** Convergence. Take any reachable state, after any losses, buffer overflows, partitions and restarts. If
      increments stop and keys do not expire from then on, and each region's pass over a window reaches
      every other region, then for every cell of the window with colon-free tier and user whose own slots
      are intact all replicas hold exactly what each region issued, and every gateway sees the true total. */
  lemma ReplicasConverge(run: Run, a: nat, window: int, c: Cell, d: string, f: string)
    requires run.Valid() && a < |run.states| && QuietFrom(run, a)
    requires AllReconciled(run, a, window) && Intact(run.Last(), CellKey(c, window))
    requires ColonFree(c.0) && ColonFree(c.1) && d in REGIONS && f in REGIONS
    ensures run.Last().nodes.Keys == REGIONS
    ensures UpToDate(run.Last(), d, CellKey(c, window), f)
    ensures Sum(HashAt(run.Last().nodes[d].store, CellKey(c, window))) == TrueTotal(run.Last().issued, CellKey(c, window))
  {
    EverySlotConverges(run, a, window, c, d);
    SumsAgree(run, |run.states| - 1, d, CellKey(c, window));
  }

  ghost predicate UpToDate(s: State, d: string, key: string, g: string) {
    Seen(s, d, key, g) == Issued(s.issued, g, key)
  }

  ghost predicate AllUpToDate(s: State, d: string, key: string) {
    forall g {:trigger UpToDate(s, d, key, g)} | g in REGIONS :: UpToDate(s, d, key, g)
  }

  lemma SumsAgree(run: Run, i: nat, d: string, key: string)
    requires run.Valid() && i < |run.states| && d in REGIONS
    requires AllUpToDate(run.states[i], d, key)
    ensures run.states[i].nodes.Keys == REGIONS
    ensures Sum(HashAt(run.states[i].nodes[d].store, key)) == TrueTotal(run.states[i].issued, key)
  {
    var s := run.states[i];
    RunsAreSafe(run, i);
    assert NodeOk(d, s.nodes[d], s.issued);
    assert UpToDate(s, d, key, "us") && UpToDate(s, d, key, "eu") && UpToDate(s, d, key, "asia");
    Bounds.SumOfThree(HashAt(s.nodes[d].store, key));
    Bounds.SumOfThree(IssuedSlots(s.issued, key));
  }

  // ----- ids with a colon

  lemma ColonKeyIsNoCellKey(tier: string, user: string, window: int, c: Cell, w: int)
    requires !ColonFree(tier) || !ColonFree(user)
    requires ColonFree(c.0) && ColonFree(c.1)
    ensures GlobalKey(tier, user, window) != CellKey(c, w)
  {
    ColonsOfGlobalKey(tier, user, window);
    ColonsOfGlobalKey(c.0, c.1, w);
    ColonFreeIffNoColons(tier);
    ColonFreeIffNoColons(user);
    ColonFreeIffNoColons(c.0);
    ColonFreeIffNoColons(c.1);
  }

  // Delivers a counter message for the key to the region.
  ghost predicate BringsCount(e: Event, region: string, key: string) {
    && e.Deliver? && e.region == region && e.env.CounterEnvelope?
    && GlobalKey(e.env.tier, e.env.user, e.env.window) == key
  }

  ghost predicate NothingQueued(n: Node, key: string) {
    forall w | w in n.todo :: w.key != key
  }

  lemma NodeIgnoresKey(n: Node, e: Event, tier: string, user: string, window: int, f: string)
    requires !ColonFree(tier) || !ColonFree(user)
    requires NodeEnabled(n, e) && Quiet(e) && NothingQueued(n, GlobalKey(tier, user, window))
    requires forall w | w in n.todo :: w.value >= 0
    requires !BringsCount(e, RegionOf(e), GlobalKey(tier, user, window))
    requires e.Deliver? && e.env.ReconcileEnvelope? ==> forall c | c in e.env.slots :: ColonFree(c.0) && ColonFree(c.1)
    ensures NothingQueued(NodeAfter(n, e), GlobalKey(tier, user, window))
    ensures Slot(NodeAfter(n, e).store, GlobalKey(tier, user, window), f)
         == Slot(n.store, GlobalKey(tier, user, window), f)
  {
    var key := GlobalKey(tier, user, window);
    if e.Apply? || e.ApplyError? {
      assert n.todo[0].value >= 0 && n.todo[0].key != key;
      MaxMergedSlots(n.store, n.todo[0].key, n.todo[0].region, n.todo[0].value, key, f);
    }
    if e.Deliver? && e.env.ReconcileEnvelope? && !Drops(n, e.region, e.env) {
      forall w | w in WritesOf(e.env, e.order)
        ensures w.key != key
      {
        var x :| 0 <= x < |e.order| && w == SlotWrite(e.env, e.order[x]);
        ColonKeyIsNoCellKey(tier, user, window, e.order[x], e.env.window);
      }
    }
  }

  /** The other side: reconciliation never moves a replica of an id with a colon. Once increments stop, the
      slots a region holds for such a key change only if a counter message for it is delivered there,
      however many passes are made and delivered. */
  lemma {:induction false} ColonIdsAreNotReconciled(run: Run, a: nat, j: nat, d: string, tier: string, user: string,
                                                    window: int, f: string)
    requires run.Valid() && a <= j < |run.states| && QuietFrom(run, a) && d in REGIONS
    requires !ColonFree(tier) || !ColonFree(user)
    requires d in run.states[a].nodes && NothingQueued(run.states[a].nodes[d], GlobalKey(tier, user, window))
    requires NoCountComes(run, a, j, d, GlobalKey(tier, user, window))
    ensures d in run.states[j].nodes
    ensures NothingQueued(run.states[j].nodes[d], GlobalKey(tier, user, window))
    ensures Seen(run.states[j], d, GlobalKey(tier, user, window), f)
         == Seen(run.states[a], d, GlobalKey(tier, user, window), f)
  {
    if a == j {
    } else {
      ColonIdsAreNotReconciled(run, a, j - 1, d, tier, user, window, f);
      assert !CountComes(run, j - 1, d, GlobalKey(tier, user, window));
      EventIgnoresKey(run, j, d, tier, user, window, f);
    }
  }

  ghost predicate CountComes(run: Run, i: nat, region: string, key: string)
    requires i < |run.events|
  {
    BringsCount(run.events[i], region, key)
  }

  ghost predicate NoCountComes(run: Run, a: nat, j: nat, region: string, key: string)
    requires j <= |run.events|
  {
    forall i {:trigger CountComes(run, i, region, key)} | a <= i < j :: !CountComes(run, i, region, key)
  }

  lemma EventIgnoresKey(run: Run, i: nat, d: string, tier: string, user: string, window: int, f: string)
    requires run.Valid() && 0 < i < |run.states| && Quiet(run.events[i - 1]) && d in REGIONS
    requires !ColonFree(tier) || !ColonFree(user)
    requires d in run.states[i - 1].nodes && NothingQueued(run.states[i - 1].nodes[d], GlobalKey(tier, user, window))
    requires !CountComes(run, i - 1, d, GlobalKey(tier, user, window))
    ensures d in run.states[i].nodes && NothingQueued(run.states[i].nodes[d], GlobalKey(tier, user, window))
    ensures Seen(run.states[i], d, GlobalKey(tier, user, window), f)
         == Seen(run.states[i - 1], d, GlobalKey(tier, user, window), f)
  {
    RunsAreSafe(run, i - 1);
    StepIgnoresKey(run.states[i - 1], run.events[i - 1], d, tier, user, window, f);
  }

  lemma StepIgnoresKey(s: State, e: Event, d: string, tier: string, user: string, window: int, f: string)
    requires ValuesOk(s) && Enabled(s, e) && Quiet(e) && d in REGIONS
    requires !ColonFree(tier) || !ColonFree(user)
    requires NothingQueued(s.nodes[d], GlobalKey(tier, user, window))
    requires !BringsCount(e, d, GlobalKey(tier, user, window))
    ensures d in Step(s, e).nodes && NothingQueued(Step(s, e).nodes[d], GlobalKey(tier, user, window))
    ensures Seen(Step(s, e), d, GlobalKey(tier, user, window), f) == Seen(s, d, GlobalKey(tier, user, window), f)
  {
    if RegionOf(e) == d {
      assert NodeOk(d, s.nodes[d], s.issued);
      assert e.Deliver? ==> EnvOk(e.env, s.issued);
      NodeIgnoresKey(s.nodes[d], e, tier, user, window, f);
    }
  }
}
