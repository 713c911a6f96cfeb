/** What every step of the protocol keeps: no value anywhere exceeds the increments its region really made,
    slots only grow, and sync leaves its own region's slot alone. */
module Safety {
  import opened Buffers
  import opened Counter
  import opened Envelopes
  import opened HashStore
  import opened Protocol
  import opened Reconcilers
  import opened Relays
  import opened Sums
  import opened Text
  import opened Wrappers
  import Handlers

  type Counts = map<(string, string), nat>

  ghost predicate WriteOk(w: Write, counts: Counts) {
    w.region in REGIONS && 0 <= w.value <= Issued(counts, w.region, w.key)
  }

  ghost predicate StoreOk(store: Store, counts: Counts) {
    && (forall k, f :: 0 <= Slot(store, k, f) <= Issued(counts, f, k))
    && (forall k | k in store :: store[k].Keys <= REGIONS)
  }

  ghost predicate ChunkOk(region: string, window: int, chunk: Chunk, counts: Counts) {
    forall c | c in chunk ::
      && ColonFree(c.0) && ColonFree(c.1)
      && 0 <= chunk[c] <= Issued(counts, region, CellKey(c, window))
  }

  ghost predicate EnvOk(env: Envelope, counts: Counts) {
    match env
    case CounterEnvelope(tier, user, window, region, value, _) =>
      WriteOk(Write(GlobalKey(tier, user, window), region, value), counts)
    case ReconcileEnvelope(origin, window, _, slots, version) =>
      origin in REGIONS && version == JInt(RECONCILE_VERSION) && ChunkOk(origin, window, slots, counts)
  }

  ghost predicate SweepOk(region: string, sw: Sweep, counts: Counts) {
    && ChunkOk(region, sw.window, sw.pass.chunk, counts)
    && forall ch | ch in sw.pass.published :: ChunkOk(region, sw.window, ch, counts)
  }

  ghost predicate NodeOk(region: string, n: Node, counts: Counts) {
    && StoreOk(n.store, counts)
    && (forall w | w in n.todo :: WriteOk(w, counts) && w.region != region)
    && (forall w | w in n.buffer :: WriteOk(w, counts) && w.region != region)
    && |n.buffer| <= BUFFER_CAP
    && (n.sweep.Some? ==> SweepOk(region, n.sweep.value, counts))
  }

  /** Every value held, queued, buffered, gathered or in flight for a region is at most what it issued. */
  ghost predicate ValuesOk(s: State) {
    && s.nodes.Keys == REGIONS
    && (forall r | r in REGIONS :: NodeOk(r, s.nodes[r], s.issued))
    && (forall env | env in s.sent :: EnvOk(env, s.issued))
    && (forall t | t in s.pending :: PendingOk(t, s.pending[t], s.issued))
  }

  ghost predicate PendingOk(t: Ticket, q: Request, counts: Counts) {
    && t.region in REGIONS
    && t.key == GlobalKey(q.tier, q.user, q.window)
    && 1 <= t.ordinal <= Issued(counts, t.region, t.key)
    && 0 <= q.slot <= Issued(counts, t.region, t.key)
  }

  /** A region's own slot is exact until a key expiry removes it. */
  ghost predicate OwnOk(s: State) {
    && s.nodes.Keys == REGIONS
    && forall r, k | r in REGIONS && (r, k) !in s.wiped :: Slot(s.nodes[r].store, k, r) == Issued(s.issued, r, k)
  }

  // ----- counts only grow

  ghost predicate Grows(before: Counts, after: Counts) {
    forall r, k :: Issued(before, r, k) <= Issued(after, r, k)
  }

  lemma StepGrows(s: State, e: Event)
    requires Enabled(s, e)
    ensures Grows(s.issued, Step(s, e).issued)
    ensures s.sent <= Step(s, e).sent
    ensures s.wiped <= Step(s, e).wiped
    ensures s.log <= Step(s, e).log
  {
  }

  lemma NodeOkGrows(r: string, n: Node, before: Counts, after: Counts)
    requires NodeOk(r, n, before) && Grows(before, after)
    ensures NodeOk(r, n, after)
  {
    forall k, f
      ensures 0 <= Slot(n.store, k, f) <= Issued(after, f, k)
    {
      assert 0 <= Slot(n.store, k, f) <= Issued(before, f, k) <= Issued(after, f, k);
    }
  }

  lemma EnvOkGrows(env: Envelope, before: Counts, after: Counts)
    requires EnvOk(env, before) && Grows(before, after)
    ensures EnvOk(env, after)
  {
  }

  // ----- one node

  lemma ApplyKeepsStore(store: Store, w: Write, counts: Counts)
    requires StoreOk(store, counts) && WriteOk(w, counts)
    ensures StoreOk(ApplyWrite(store, w), counts)
  {
    forall k, f
      ensures 0 <= Slot(ApplyWrite(store, w), k, f) <= Issued(counts, f, k)
    {
      MaxMergedSlots(store, w.key, w.region, w.value, k, f);
      assert 0 <= Slot(store, k, f) <= Issued(counts, f, k);
    }
  }

  lemma PushedMembers<T>(cap: int, q: seq<T>, x: T)
    requires cap >= 1
    ensures forall y | y in Pushed(cap, q, x) :: y in q || y == x
    ensures |q| <= cap ==> |Pushed(cap, q, x)| <= cap
  {
  }

  lemma ScanStepOk(region: string, n: Node, cell: Cell, counts: Counts)
    requires n.sweep.Some? && NodeOk(region, n, counts)
    requires ColonFree(cell.0) && ColonFree(cell.1)
    ensures SweepOk(region, SweepScan(region, n, cell), counts)
  {
    var sw, v := n.sweep.value, ViewOf(n, cell);
    var key := CellKey(cell, sw.window);
    assert 0 <= Slot(n.store, key, region) <= Issued(counts, region, key);
    if CarriesOwn(region, v) {
      assert ChunkOk(region, sw.window, sw.pass.chunk[cell := v.slots[region]], counts);
    }
  }

  lemma DeliverOk(n: Node, region: string, env: Envelope, order: seq<Cell>, counts: Counts)
    requires EnvOk(env, counts) && OrderOf(env, order)
    requires !Drops(n, region, env)
    ensures forall w | w in WritesOf(env, order) :: WriteOk(w, counts) && w.region != region
  {
  }

  lemma IncrementKeepsStore(store: Store, r: string, key: string, counts: Counts)
    requires StoreOk(store, counts) && r in REGIONS
    ensures StoreOk(Incremented(store, key, r), counts[(r, key) := Issued(counts, r, key) + 1])
  {
    var after := counts[(r, key) := Issued(counts, r, key) + 1];
    forall k, f
      ensures 0 <= Slot(Incremented(store, key, r), k, f) <= Issued(after, f, k)
    {
      assert 0 <= Slot(store, k, f) <= Issued(counts, f, k);
    }
  }

  lemma ExpireKeepsStore(store: Store, key: string, counts: Counts)
    requires StoreOk(store, counts)
    ensures StoreOk(store - {key}, counts)
  {
    forall k, f
      ensures 0 <= Slot(store - {key}, k, f) <= Issued(counts, f, k)
    {
      assert 0 <= Slot(store, k, f) <= Issued(counts, f, k);
    }
  }

  /** The node an event touches stays within the counts after the event. */
  lemma NodeStepOk(n: Node, e: Event, counts: Counts)
    requires RegionOf(e) in REGIONS && NodeOk(RegionOf(e), n, counts) && NodeEnabled(n, e)
    requires e.Deliver? ==> EnvOk(e.env, counts)
    ensures NodeOk(RegionOf(e), NodeAfter(n, e), IssuedAfter(counts, e))
  {
    var r := RegionOf(e);
    if CountsOne(e) {
      NodeOkGrows(r, n, counts, IssuedAfter(counts, e));
      IncrementKeepsStore(n.store, r, RequestKey(e), counts);
    } else {
      match e
      case Deliver(_, env, order) =>
        if !Drops(n, r, env) {
          DeliverOk(n, r, env, order, counts);
        }
      case Apply(_) => ApplyKeepsStore(n.store, n.todo[0], counts);
      case ApplyError(_, _) =>
        ApplyKeepsStore(n.store, n.todo[0], counts);
        PushedMembers(BUFFER_CAP, n.buffer, n.todo[0]);
      case Scan(_, cell, _) => ScanStepOk(r, n, cell, counts);
      case Expire(_, key) => ExpireKeepsStore(n.store, key, counts);
      case _ =>
    }
  }

  lemma AnnouncedOk(n: Node, e: Event, counts: Counts)
    requires RegionOf(e) in REGIONS && NodeOk(RegionOf(e), n, counts) && NodeEnabled(n, e)
    ensures forall env | env in Announced(n, e) :: EnvOk(env, counts)
  {
    if e.Scan? {
      ScanStepOk(e.region, n, e.cell, counts);
    }
  }

  lemma NewRequestOk(s: State, e: Event)
    requires ValuesOk(s) && Enabled(s, e) && e.Increment?
    ensures PendingOk(TicketOf(s, e), PendingAfter(s, e)[TicketOf(s, e)], IssuedAfter(s.issued, e))
  {
    var key := RequestKey(e);
    assert NodeOk(e.region, s.nodes[e.region], s.issued);
    assert 0 <= Slot(s.nodes[e.region].store, key, e.region) <= Issued(s.issued, e.region, key);
  }

  lemma StepKeepsPending(s: State, e: Event)
    requires ValuesOk(s) && Enabled(s, e)
    ensures forall t | t in PendingAfter(s, e) :: PendingOk(t, PendingAfter(s, e)[t], IssuedAfter(s.issued, e))
  {
    if e.Increment? {
      NewRequestOk(s, e);
    }
    forall t | t in PendingAfter(s, e)
      ensures PendingOk(t, PendingAfter(s, e)[t], IssuedAfter(s.issued, e))
    {
      if !e.Increment? || t != TicketOf(s, e) {
        OldRequestOk(s, e, t);
      }
    }
  }

  lemma OldRequestOk(s: State, e: Event, t: Ticket)
    requires ValuesOk(s) && Enabled(s, e)
    requires t in PendingAfter(s, e) && (e.Increment? ==> t != TicketOf(s, e))
    ensures PendingOk(t, PendingAfter(s, e)[t], IssuedAfter(s.issued, e))
  {
    RequestWasThere(s, e, t);
    assert PendingOk(t, s.pending[t], s.issued);
    CountsNeverFall(s.issued, e, t.region, t.key);
  }

  lemma RequestWasThere(s: State, e: Event, t: Ticket)
    requires Enabled(s, e) && t in PendingAfter(s, e) && (e.Increment? ==> t != TicketOf(s, e))
    ensures t in s.pending
    ensures PendingAfter(s, e)[t] in {s.pending[t], s.pending[t].(published := true)}
  {
  }

  lemma CountsNeverFall(counts: Counts, e: Event, region: string, key: string)
    ensures Issued(counts, region, key) <= Issued(IssuedAfter(counts, e), region, key)
  {
  }

  lemma StepKeepsSent(s: State, e: Event)
    requires ValuesOk(s) && Enabled(s, e)
    ensures forall env | env in Step(s, e).sent :: EnvOk(env, Step(s, e).issued)
  {
    StepGrows(s, e);
    assert NodeOk(RegionOf(e), s.nodes[RegionOf(e)], s.issued);
    AnnouncedOk(s.nodes[RegionOf(e)], e, s.issued);
    forall env | env in Step(s, e).sent
      ensures EnvOk(env, Step(s, e).issued)
    {
      if e.Publish? {
        assert PendingOk(e.ticket, s.pending[e.ticket], s.issued);
      }
      EnvOkGrows(env, s.issued, Step(s, e).issued);
    }
  }

  /** The bound on every value is an invariant of every step. */
  lemma StepKeepsValues(s: State, e: Event)
    requires ValuesOk(s) && Enabled(s, e)
    ensures ValuesOk(Step(s, e))
  {
    StepGrows(s, e);
    StepKeepsSent(s, e);
    StepKeepsPending(s, e);
    NodeStepOk(s.nodes[RegionOf(e)], e, s.issued);
    forall r | r in REGIONS
      ensures NodeOk(r, Step(s, e).nodes[r], Step(s, e).issued)
    {
      if r != RegionOf(e) {
        NodeOkGrows(r, s.nodes[r], s.issued, Step(s, e).issued);
      }
    }
  }

  // ----- slots

  lemma NodeSlotsGrow(n: Node, e: Event, k: string, f: string)
    requires NodeEnabled(n, e)
    requires forall w | w in n.todo :: w.value >= 0
    requires e != Expire(RegionOf(e), k)
    ensures Slot(n.store, k, f) <= Slot(NodeAfter(n, e).store, k, f)
  {
    if e.Apply? || e.ApplyError? {
      assert n.todo[0].value >= 0;
      MaxMergedSlots(n.store, n.todo[0].key, n.todo[0].region, n.todo[0].value, k, f);
    }
  }

  /** No slot ever decreases, except that a key expiry removes the key's own hash on its own Redis. */
  lemma SlotsOnlyGrow(s: State, e: Event, r: string, k: string, f: string)
    requires ValuesOk(s) && Enabled(s, e) && r in REGIONS
    requires e != Expire(r, k)
    ensures Slot(s.nodes[r].store, k, f) <= Slot(Step(s, e).nodes[r].store, k, f)
  {
    if r == RegionOf(e) {
      assert NodeOk(r, s.nodes[r], s.issued);
      NodeSlotsGrow(s.nodes[r], e, k, f);
    }
  }

  lemma NodeKeepsOwnSlot(n: Node, e: Event, k: string)
    requires NodeEnabled(n, e) && Quiet(e)
    requires forall w | w in n.todo :: w.value >= 0 && w.region != RegionOf(e)
    ensures Slot(NodeAfter(n, e).store, k, RegionOf(e)) == Slot(n.store, k, RegionOf(e))
  {
    if e.Apply? || e.ApplyError? {
      assert n.todo[0].value >= 0 && n.todo[0].region != RegionOf(e);
      MaxMergedSlots(n.store, n.todo[0].key, n.todo[0].region, n.todo[0].value, k, RegionOf(e));
    }
  }

  /** Only the region's own gateway, by an increment, and a key expiry change its own slot: no step of a
      sync process does, at any region. */
  lemma SyncKeepsOwnSlots(s: State, e: Event, r: string, k: string)
    requires ValuesOk(s) && Enabled(s, e) && r in REGIONS && Quiet(e)
    ensures Slot(Step(s, e).nodes[r].store, k, r) == Slot(s.nodes[r].store, k, r)
  {
    if r == RegionOf(e) {
      assert NodeOk(r, s.nodes[r], s.issued);
      NodeKeepsOwnSlot(s.nodes[r], e, k);
    }
  }

  lemma IncrementIsExact(n: Node, e: Event, issued: Counts, k: string)
    requires NodeEnabled(n, e) && (e.Increment? || e.IncrementError?)
    requires Slot(n.store, k, e.region) == Issued(issued, e.region, k)
    ensures Slot(NodeAfter(n, e).store, k, e.region) == Issued(IssuedAfter(issued, e), e.region, k)
  {
  }

  lemma ExpireIsRecorded(n: Node, e: Event, k: string)
    requires NodeEnabled(n, e) && e.Expire?
    requires Slot(n.store, k, e.region) >= 0 && (e.region, k) !in WipedBy(n, e)
    ensures Slot(NodeAfter(n, e).store, k, e.region) == Slot(n.store, k, e.region)
  {
  }

  lemma OwnSlotStep(s: State, e: Event, r: string, k: string)
    requires ValuesOk(s) && Enabled(s, e) && r in REGIONS && (r, k) !in Step(s, e).wiped
    requires Slot(s.nodes[r].store, k, r) == Issued(s.issued, r, k)
    ensures Slot(Step(s, e).nodes[r].store, k, r) == Issued(Step(s, e).issued, r, k)
  {
    if Quiet(e) {
      SyncKeepsOwnSlots(s, e, r, k);
    } else if r == e.region && e.Expire? {
      assert NodeOk(r, s.nodes[r], s.issued);
      ExpireIsRecorded(s.nodes[r], e, k);
    } else if r == e.region {
      IncrementIsExact(s.nodes[r], e, s.issued, k);
    }
  }

  lemma StepKeepsOwn(s: State, e: Event)
    requires ValuesOk(s) && OwnOk(s) && Enabled(s, e)
    ensures OwnOk(Step(s, e))
  {
    var after := Step(s, e);
    StepGrows(s, e);
    forall r, k | r in REGIONS && (r, k) !in after.wiped
      ensures Slot(after.nodes[r].store, k, r) == Issued(after.issued, r, k)
    {
      assert (r, k) !in s.wiped;
      OwnSlotStep(s, e, r, k);
    }
  }

  // ----- verdicts

  /** The increments all regions really made of a key. */
  ghost function TrueTotal(counts: Counts, key: string): int {
    Sum(IssuedSlots(counts, key))
  }

  ghost function IssuedSlots(counts: Counts, key: string): map<string, int> {
    map r | r in REGIONS :: Issued(counts, r, key)
  }

  lemma VisibleIsBelowTrue(store: Store, counts: Counts, key: string)
    requires StoreOk(store, counts)
    ensures 0 <= Sum(HashAt(store, key)) <= TrueTotal(counts, key)
  {
    var h, m := HashAt(store, key), IssuedSlots(counts, key);
    forall r | r in h
      ensures r in m && 0 <= h[r] <= m[r]
    {
      assert 0 <= Slot(store, key, r) <= Issued(counts, r, key);
    }
    SumMonotone(h, m);
    SumNonNegative(h);
  }

  lemma TrueTotalGrows(before: Counts, after: Counts, key: string)
    requires Grows(before, after)
    ensures TrueTotal(before, key) <= TrueTotal(after, key)
  {
    SumMonotone(IssuedSlots(before, key), IssuedSlots(after, key));
  }

  // One answered request, judged against the counts: a denial by the cap is right about the true total, and
  // an admission after an intact own slot has its ordinal within the limit.
  ghost predicate VerdictOk(v: Verdict, counts: Counts, wiped: set<(string, string)>) {
    && v.region in REGIONS
    && v.ordinal <= Issued(counts, v.region, v.key)
    && (v.checked ==> v.ordinal >= 1)
    && (v.checked && v.local && !v.allowed ==> v.limit < TrueTotal(counts, v.key))
    && (v.checked && v.allowed && (v.region, v.key) !in wiped ==> v.ordinal <= v.limit)
    && (v.allowed ==> v.local)
    && (!v.checked ==> v.allowed == v.local)
  }

  ghost predicate LogOk(s: State) {
    && (forall v | v in s.log :: VerdictOk(v, s.issued, s.wiped))
    && (forall v | v in s.log :: v.ordinal >= 1 ==> Ticket(v.region, v.key, v.ordinal) !in s.pending)
    && forall i, j | 0 <= i < j < |s.log| :: !SameTicket(s.log[i], s.log[j])
  }

  ghost predicate SameTicket(v: Verdict, w: Verdict) {
    v.ordinal >= 1 && v.region == w.region && v.key == w.key && v.ordinal == w.ordinal
  }

  lemma VerdictOkGrows(v: Verdict, s: State, t: State)
    requires VerdictOk(v, s.issued, s.wiped)
    requires Grows(s.issued, t.issued) && s.wiped <= t.wiped
    ensures VerdictOk(v, t.issued, t.wiped)
  {
    TrueTotalGrows(s.issued, t.issued, v.key);
  }

  lemma ReadIsOk(s: State, t: Ticket)
    requires ValuesOk(s) && OwnOk(s) && t in s.pending
    ensures VerdictOk(ReadVerdict(s, t), s.issued, s.wiped)
  {
    assert PendingOk(t, s.pending[t], s.issued);
    var store := s.nodes[t.region].store;
    assert NodeOk(t.region, s.nodes[t.region], s.issued);
    VisibleIsBelowTrue(store, s.issued, t.key);
    if (t.region, t.key) !in s.wiped {
      assert Slot(store, t.key, t.region) == Issued(s.issued, t.region, t.key) >= 1;
      SlotIsVisible(store, s.issued, t.key, t.region);
    }
  }

  lemma SlotIsVisible(store: Store, counts: Counts, key: string, region: string)
    requires StoreOk(store, counts) && Slot(store, key, region) >= 1
    ensures Slot(store, key, region) <= Sum(HashAt(store, key))
  {
    var h := HashAt(store, key);
    forall f | f in h
      ensures h[f] >= 0
    {
      assert 0 <= Slot(store, key, f);
    }
    SumAtLeast(h, region);
  }

  lemma AnswerIsOk(s: State, e: Event)
    requires ValuesOk(s) && OwnOk(s) && Enabled(s, e)
    ensures forall v | v in Answer(s, e) :: VerdictOk(v, s.issued, s.wiped)
    ensures forall v | v in Answer(s, e) && v.ordinal >= 1 ::
              Ticket(v.region, v.key, v.ordinal) in s.pending && Ticket(v.region, v.key, v.ordinal) !in PendingAfter(s, e)
  {
    if e.Read? {
      ReadIsOk(s, e.ticket);
    }
    if e.ReadError? {
      assert PendingOk(e.ticket, s.pending[e.ticket], s.issued);
    }
  }

  // A ticket issued by an increment is new: its ordinal exceeds every earlier one.
  lemma NewTicketIsFresh(s: State, e: Event, v: Verdict)
    requires Enabled(s, e) && VerdictOk(v, s.issued, s.wiped)
    requires Ticket(v.region, v.key, v.ordinal) !in s.pending
    ensures Ticket(v.region, v.key, v.ordinal) !in PendingAfter(s, e)
  {
  }

  lemma StepKeepsLog(s: State, e: Event)
    requires ValuesOk(s) && OwnOk(s) && LogOk(s) && Enabled(s, e)
    ensures LogOk(Step(s, e))
  {
    var after := Step(s, e);
    StepGrows(s, e);
    AnswerIsOk(s, e);
    forall v | v in after.log
      ensures VerdictOk(v, after.issued, after.wiped)
      ensures v.ordinal >= 1 ==> Ticket(v.region, v.key, v.ordinal) !in after.pending
    {
      VerdictOkGrows(v, s, after);
      if v in s.log && v.ordinal >= 1 {
        NewTicketIsFresh(s, e, v);
      }
    }
    StillDistinct(s, e);
  }

  lemma StillDistinct(s: State, e: Event)
    requires LogOk(s) && Enabled(s, e)
    requires forall v, u | v in s.log && u in Answer(s, e) :: !SameTicket(v, u)
    ensures forall i, j | 0 <= i < j < |Step(s, e).log| :: !SameTicket(Step(s, e).log[i], Step(s, e).log[j])
  {
    var log := Step(s, e).log;
    forall i, j | 0 <= i < j < |log|
      ensures !SameTicket(log[i], log[j])
    {
      assert |Answer(s, e)| <= 1;
      assert log[i] == s.log[i];
      if j < |s.log| {
        assert !SameTicket(s.log[i], s.log[j]);
      } else {
        assert log[j] in Answer(s, e);
        assert s.log[i] in s.log;
      }
    }
  }

  // ----- whole runs

  ghost predicate Inv(s: State) {
    ValuesOk(s) && OwnOk(s) && LogOk(s)
  }

  lemma StepKeepsInv(s: State, e: Event)
    requires Inv(s) && Enabled(s, e)
    ensures Inv(Step(s, e))
  {
    StepKeepsValues(s, e);
    StepKeepsOwn(s, e);
    StepKeepsLog(s, e);
  }

  lemma {:induction false} RunsAreSafe(run: Run, i: nat)
    requires run.Valid() && i < |run.states|
    ensures Inv(run.states[i])
  {
    if i == 0 {
    } else {
      RunsAreSafe(run, i - 1);
      StepKeepsInv(run.states[i - 1], run.events[i - 1]);
    }
  }

  /** Never under-allow. In every reachable state, whatever was lost, repeated, reordered, partitioned,
      restarted or expired: each replica's slot for a region is at most what the region issued (and at most
      the region's own slot while that is intact), and a request the global cap denied was denied because
      the increments really made exceed its limit. */
  lemma NeverUnderAllow(run: Run, i: nat, r: string, f: string, k: string)
    requires run.Valid() && i < |run.states| && r in REGIONS && f in REGIONS
    ensures var s := run.states[i];
            && s.nodes.Keys == REGIONS
            && Slot(s.nodes[r].store, k, f) <= Issued(s.issued, f, k)
            && ((f, k) !in s.wiped ==> Slot(s.nodes[r].store, k, f) <= Slot(s.nodes[f].store, k, f))
            && (forall v | v in s.log && v.checked && v.local && !v.allowed :: v.limit < TrueTotal(s.issued, v.key))
  {
    RunsAreSafe(run, i);
    var s := run.states[i];
    assert Slot(s.nodes[r].store, k, f) <= Issued(s.issued, f, k);
  }

  /** The codec carries what the protocol sends: in every reachable state every envelope ever published, whatever
      order its slots are written in, is read back by the parser unchanged. */
  lemma SentSurvivesTheWire(run: Run, i: nat, env: Envelope, co: Coercions, order: seq<Cell>)
    requires run.Valid() && i < |run.states| && env in run.states[i].sent && OrderOf(env, order)
    ensures ParseMessage(co, Decoded(Serialized(env, order))) == Parsed(env)
  {
    SentIsFaithful(run, i, env);
    if env.CounterEnvelope? {
      CounterRoundTrip(co, env);
    } else {
      ReconcileRoundTrip(co, env, order);
    }
  }

  // What the gateway or the reconciler puts on the wire.
  function Serialized(env: Envelope, order: seq<Cell>): Json
    requires OrderOf(env, order)
  {
    if env.CounterEnvelope? then SerializeCounter(env) else SerializeReconcile(env, order)
  }

  lemma SentIsFaithful(run: Run, i: nat, env: Envelope)
    requires run.Valid() && i < |run.states| && env in run.states[i].sent
    ensures match env
            case CounterEnvelope(_, _, _, region, value, _) => region in VALID_REGIONS && value >= 0
            case ReconcileEnvelope(_, _, _, _, _) => Faithful(env)
  {
    RunsAreSafe(run, i);
    assert EnvOk(env, run.states[i].issued);
  }

  /** The same for what is on the wire, being applied, or waiting in a buffer or a chunk. */
  lemma NothingInFlightExceeds(run: Run, i: nat, r: string)
    requires run.Valid() && i < |run.states| && r in REGIONS
    ensures var s := run.states[i];
            && s.nodes.Keys == REGIONS
            && (forall env | env in s.sent :: EnvOk(env, s.issued))
            && (forall w | w in s.nodes[r].todo + s.nodes[r].buffer ::
                  WriteOk(w, s.issued) && w.region != r
                  && ((w.region, w.key) !in s.wiped ==> w.value <= Slot(s.nodes[w.region].store, w.key, w.region)))
            && (s.nodes[r].sweep.Some? ==> SweepOk(r, s.nodes[r].sweep.value, s.issued))
  {
    RunsAreSafe(run, i);
    assert NodeOk(r, run.states[i].nodes[r], run.states[i].issued);
  }

  // ----- which deliveries the partition rules drop

  // The event takes the rule (from, to) from the region's table; a restart forgets all rules.
  predicate LiftsRule(e: Event, region: string, from: string, to: string) {
    e == Heal(region, from, to) || e == HealAll(region) || e == Restart(region)
  }

  ghost predicate BlockedSince(run: Run, i: nat, j: int, region: string, from: string, to: string)
    requires i <= |run.events|
  {
    && 0 <= j < i && run.events[j] == Partition(region, from, to)
    && forall m {:trigger run.events[m]} | j < m < i :: !LiftsRule(run.events[m], region, from, to)
  }

  ghost predicate IsBlocked(run: Run, i: nat, region: string, from: string, to: string)
    requires i <= |run.events|
  {
    exists j :: BlockedSince(run, i, j, region, from, to)
  }

  ghost predicate RuleHolds(s: State, region: string, from: string, to: string) {
    region in s.nodes && (from, to) in s.nodes[region].rules
  }

  lemma RuleAfter(n: Node, e: Event, from: string, to: string)
    requires NodeEnabled(n, e)
    ensures (from, to) in NodeAfter(n, e).rules
       <==> (e == Partition(RegionOf(e), from, to)
             || ((from, to) in n.rules && !LiftsRule(e, RegionOf(e), from, to)))
  {
  }

  lemma RuleStep(s: State, e: Event, region: string, from: string, to: string)
    requires Enabled(s, e)
    ensures RuleHolds(Step(s, e), region, from, to)
       <==> region in s.nodes && (e == Partition(region, from, to)
                                  || (RuleHolds(s, region, from, to) && !LiftsRule(e, region, from, to)))
  {
    RuleAfter(s.nodes[RegionOf(e)], e, from, to);
  }

  /** In every run a region's table holds a rule exactly when it was partitioned that way and since then neither
      healed, cleared nor restarted; no other event of any process changes what a region drops. */
  lemma {:induction false} RuleHoldsIff(run: Run, i: nat, region: string, from: string, to: string)
    requires run.Valid() && i < |run.states| && region in REGIONS
    ensures region in run.states[i].nodes
    ensures RuleHolds(run.states[i], region, from, to) <==> IsBlocked(run, i, region, from, to)
  {
    if i == 0 {
    } else {
      RuleHoldsIff(run, i - 1, region, from, to);
      var e := run.events[i - 1];
      RuleStep(run.states[i - 1], e, region, from, to);
      if e == Partition(region, from, to) {
        assert BlockedSince(run, i, i - 1, region, from, to);
      } else if !LiftsRule(e, region, from, to) {
        BlockedLonger(run, i, region, from, to);
      }
    }
  }

  lemma BlockedLonger(run: Run, i: nat, region: string, from: string, to: string)
    requires 0 < i <= |run.events|
    requires run.events[i - 1] != Partition(region, from, to) && !LiftsRule(run.events[i - 1], region, from, to)
    ensures IsBlocked(run, i, region, from, to) <==> IsBlocked(run, i - 1, region, from, to)
  {
    var k := i - 1;
    if j :| BlockedSince(run, i, j, region, from, to) {
      assert BlockedSince(run, k, j, region, from, to);
    }
    if j :| BlockedSince(run, k, j, region, from, to) {
      assert BlockedSince(run, i, j, region, from, to);
    }
  }
}
