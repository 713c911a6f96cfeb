/** The processes as they are written against the steps of the protocol: a message handled, a request checked
    or a pass made without interruption is a sequence of protocol steps with the same effect. */
module Refinement {
  import opened Buffers
  import opened Counter
  import opened Envelopes
  import opened HashStore
  import opened Protocol
  import opened Reconcilers
  import opened Relays
  import opened Safety
  import opened Sums
  import opened Text
  import opened Wrappers
  import Handlers

  // Where events of one region, one after another, lead its node, and the envelopes they publish.
  ghost function Outcome(n: Node, es: seq<Event>): Option<(Node, set<Envelope>)> {
    if es == [] then Some((n, {}))
    else
      var e := es[|es| - 1];
      match Outcome(n, es[..|es| - 1])
      case None => None
      case Some((mid, said)) =>
        if NodeEnabled(mid, e) then Some((NodeAfter(mid, e), said + Announced(mid, e))) else None
  }

  /** The events can happen one after another, and lead the node from n to m publishing `said`. */
  ghost predicate Leads(n: Node, es: seq<Event>, m: Node, said: set<Envelope>) {
    Outcome(n, es) == Some((m, said))
  }

  // One event: enabled in n, leading to m, publishing `said`.
  ghost predicate Takes(n: Node, e: Event, m: Node, said: set<Envelope>) {
    NodeEnabled(n, e) && NodeAfter(n, e) == m && Announced(n, e) == said
  }

  lemma {:induction false} LeadsOn(n: Node, es: seq<Event>, mid: Node, before: set<Envelope>, e: Event, m: Node,
                                   said: set<Envelope>)
    requires Leads(n, es, mid, before) && Takes(mid, e, m, said)
    ensures Leads(n, es + [e], m, before + said)
    ensures said == {} ==> Leads(n, es + [e], m, before)
  {
    assert (es + [e])[..|es|] == es;
    assert said == {} ==> before + said == before;
  }

  lemma {:induction false} OneEvent(n: Node, e: Event, m: Node, said: set<Envelope>)
    requires Takes(n, e, m, said)
    ensures Leads(n, [e], m, said)
  {
    assert [e][..0] == [];
    assert {} + said == said;
  }

  // ----- Relay.Handle

  // The step that carries out the first write left, by how Redis answers.
  function ApplyEvent(region: string, link: Link): Event {
    match link
    case Up => Apply(region)
    case Down => ApplyError(region, false)
    case ReplyLost => ApplyError(region, true)
  }

  function HandleEvents(region: string, env: Envelope, order: seq<Cell>, links: seq<Link>): seq<Event> {
    WithApplies([Deliver(region, env, order)], region, links)
  }

  function WithApplies(start: seq<Event>, region: string, links: seq<Link>): seq<Event> {
    if links == [] then start
    else WithApplies(start, region, links[..|links| - 1]) + [ApplyEvent(region, links[|links| - 1])]
  }

  // The node with the first k writes of ws carried out and the rest to do.
  function WorkedOff(n: Node, ws: seq<Write>, links: seq<Link>, k: nat): Node
    requires k <= |ws| == |links|
  {
    n.(store := ApplyAll(n.store, Carried(ws[..k], links[..k])), todo := ws[k..],
       buffer := PushAll(BUFFER_CAP, n.buffer, ws[..k], links[..k]))
  }

  lemma {:induction false} WorkOffNext(n: Node, region: string, ws: seq<Write>, links: seq<Link>, k: nat)
    requires k < |ws| == |links|
    ensures Takes(WorkedOff(n, ws, links, k), ApplyEvent(region, links[k]), WorkedOff(n, ws, links, k + 1), {})
  {
    NextWriteStored(n.store, ws, links, k);
    NextWritePushed(BUFFER_CAP, n.buffer, ws, links, k);
    assert ws[k..][1..] == ws[k + 1..] && ws[k..][0] == ws[k];
    ApplyTakes(WorkedOff(n, ws, links, k), region, links[k]);
  }

  // What one write does to a node.
  ghost function AfterWrite(n: Node, link: Link): Node
    requires n.todo != []
  {
    n.(store := if link != Down then ApplyWrite(n.store, n.todo[0]) else n.store,
       todo := n.todo[1..],
       buffer := if link != Up then Pushed(BUFFER_CAP, n.buffer, n.todo[0]) else n.buffer)
  }

  lemma {:induction false} ApplyTakes(n: Node, region: string, link: Link)
    requires n.todo != []
    ensures Takes(n, ApplyEvent(region, link), AfterWrite(n, link), {})
  {
  }

  lemma {:induction false} WorkOff(n: Node, start: seq<Event>, region: string, m: Node, ws: seq<Write>,
                                  links: seq<Link>, k: nat)
    requires k <= |ws| == |links|
    requires Leads(n, start, WorkedOff(m, ws, links, 0), {})
    ensures Leads(n, WithApplies(start, region, links[..k]), WorkedOff(m, ws, links, k), {})
  {
    if k > 0 {
      WorkOff(n, start, region, m, ws, links, k - 1);
      WorkOffNext(m, region, ws, links, k - 1);
      LeadsOn(n, WithApplies(start, region, links[..k - 1]), WorkedOff(m, ws, links, k - 1), {},
              ApplyEvent(region, links[k - 1]), WorkedOff(m, ws, links, k), {});
      assert links[..k][..k - 1] == links[..k - 1];
    } else {
      assert links[..0] == [];
    }
  }

  lemma {:induction false} NothingWorkedOff(n: Node, ws: seq<Write>, links: seq<Link>)
    requires |ws| == |links|
    ensures WorkedOff(n, ws, links, 0) == n.(todo := ws)
  {
    assert ws[0..] == ws && ws[..0] == [] && links[..0] == [];
  }

  lemma {:induction false} DeliveryStarts(n: Node, region: string, env: Envelope, order: seq<Cell>, links: seq<Link>)
    requires n.todo == [] && OrderOf(env, order) && !Drops(n, region, env)
    requires |links| == |WritesOf(env, order)|
    ensures Leads(n, [Deliver(region, env, order)], WorkedOff(n, WritesOf(env, order), links, 0), {})
  {
    NothingWorkedOff(n, WritesOf(env, order), links);
    OneEvent(n, Deliver(region, env, order), WorkedOff(n, WritesOf(env, order), links, 0), {});
  }

  /** Handling one message is a delivery followed by one step for each write: together they have the effect
      Relay.Handle is proved to have on the hashes and on the buffer, and a dropped message has none. */
  lemma {:induction false} HandleIsSteps(n: Node, region: string, env: Envelope, order: seq<Cell>, links: seq<Link>)
    requires n.todo == [] && OrderOf(env, order) && |links| == |WritesOf(env, order)|
    ensures Drops(n, region, env) ==> Leads(n, [Deliver(region, env, order)], n, {})
    ensures !Drops(n, region, env) ==>
              Leads(n, HandleEvents(region, env, order, links), Handled(n, WritesOf(env, order), links), {})
  {
    if Drops(n, region, env) {
      OneEvent(n, Deliver(region, env, order), n, {});
    } else {
      DeliveryStarts(n, region, env, order, links);
      WritesWorkOff(n, [Deliver(region, env, order)], region, n, WritesOf(env, order), links);
    }
  }

  // The node after the writes of a message: what Relay.Handle ensures of the hashes and the buffer.
  function Handled(n: Node, ws: seq<Write>, links: seq<Link>): Node
    requires |ws| == |links|
  {
    n.(store := ApplyAll(n.store, Carried(ws, links)), buffer := PushAll(BUFFER_CAP, n.buffer, ws, links))
  }

  lemma {:induction false} WritesWorkOff(n: Node, start: seq<Event>, region: string, m: Node, ws: seq<Write>,
                                         links: seq<Link>)
    requires |ws| == |links| && m.todo == []
    requires Leads(n, start, WorkedOff(m, ws, links, 0), {})
    ensures Leads(n, WithApplies(start, region, links), Handled(m, ws, links), {})
  {
    WorkOff(n, start, region, m, ws, links, |links|);
    assert links[..|links|] == links;
    AllWorkedOff(m, ws, links);
  }

  lemma {:induction false} AllWorkedOff(n: Node, ws: seq<Write>, links: seq<Link>)
    requires n.todo == [] && |ws| == |links|
    ensures WorkedOff(n, ws, links, |ws|) == Handled(n, ws, links)
  {
    assert links[..|links|] == links && ws[..|ws|] == ws && ws[|ws|..] == [];
  }

  // ----- Reconciler.ReconcileOnce

  // What the pass reads when it visits the cells and nothing else happens.
  function ViewsOf(store: Store, window: int, cells: seq<Cell>): seq<View> {
    seq(|cells|, i requires 0 <= i < |cells| => View(cells[i], HashAt(store, CellKey(cells[i], window))))
  }

  function PassAfter(region: string, store: Store, window: int, cells: seq<Cell>): Pass {
    ScanAll(region, CHUNK_SIZE, ViewsOf(store, window, cells))
  }

  function ScanEvents(region: string, store: Store, window: int, clock: nat -> int, cells: seq<Cell>): seq<Event> {
    if cells == [] then [StartSweep(region, window)]
    else
      var before := cells[..|cells| - 1];
      ScanEvents(region, store, window, clock, before)
      + [Scan(region, cells[|cells| - 1], clock(|PassAfter(region, store, window, before).published|))]
  }

  ghost function Said(region: string, window: int, clock: nat -> int, chunks: seq<Chunk>): set<Envelope> {
    set env | env in Announcements(region, window, clock, chunks)
  }

  lemma {:induction false} SaidOneMore(region: string, window: int, clock: nat -> int, chunks: seq<Chunk>,
                                       chunk: Chunk)
    ensures Said(region, window, clock, chunks + [chunk])
         == Said(region, window, clock, chunks) + {ChunkEnvelope(region, window, clock(|chunks|), chunk)}
  {
    AnnounceOne(region, window, clock, chunks, chunk);
  }

  function InPass(n: Node, region: string, window: int, unseen: set<Cell>, cells: seq<Cell>): Node {
    n.(sweep := Some(Sweep(window, unseen, PassAfter(region, n.store, window, cells))))
  }

  function Unseen(all: set<Cell>, cells: seq<Cell>): set<Cell> {
    all - set c | c in cells
  }

  lemma {:induction false} ViewsOneMore(store: Store, region: string, window: int, before: seq<Cell>, c: Cell)
    ensures PassAfter(region, store, window, before + [c])
         == ScanStep(region, CHUNK_SIZE, PassAfter(region, store, window, before),
                     View(c, HashAt(store, CellKey(c, window))))
  {
    var views, longer := ViewsOf(store, window, before), ViewsOf(store, window, before + [c]);
    assert longer[..|before|] == views;
  }

  lemma {:induction false} ScanNext(n: Node, region: string, window: int, all: set<Cell>, before: seq<Cell>,
                                    c: Cell, tsMs: int)
    requires ColonFree(c.0) && ColonFree(c.1)
    ensures var mid, e := InPass(n, region, window, Unseen(all, before), before), Scan(region, c, tsMs);
            Takes(mid, e, InPass(n, region, window, Unseen(all, before + [c]), before + [c]), Announced(mid, e))
  {
    ViewsOneMore(n.store, region, window, before, c);
    assert Unseen(all, before + [c]) == Unseen(all, before) - {c};
  }

  lemma {:induction false} ScanSays(n: Node, region: string, window: int, clock: nat -> int, unseen: set<Cell>,
                                    before: seq<Cell>, c: Cell)
    requires ColonFree(c.0) && ColonFree(c.1)
    ensures var p, mid := PassAfter(region, n.store, window, before), InPass(n, region, window, unseen, before);
            (Said(region, window, clock, PassAfter(region, n.store, window, before + [c]).published)
             == Said(region, window, clock, p.published) + Announced(mid, Scan(region, c, clock(|p.published|))))
  {
    var p, next := PassAfter(region, n.store, window, before), PassAfter(region, n.store, window, before + [c]);
    ScanAnnounces(n, region, window, unseen, before, c, clock(|p.published|));
    if |next.published| > |p.published| {
      SaidOneMore(region, window, clock, p.published, next.published[|p.published|]);
    }
  }

  // A scan step publishes one more chunk or none, and announces just that.
  lemma {:induction false} ScanAnnounces(n: Node, region: string, window: int, unseen: set<Cell>, before: seq<Cell>,
                                         c: Cell, tsMs: int)
    requires ColonFree(c.0) && ColonFree(c.1)
    ensures var p, next := PassAfter(region, n.store, window, before), PassAfter(region, n.store, window, before + [c]);
            var said := Announced(InPass(n, region, window, unseen, before), Scan(region, c, tsMs));
            if |next.published| > |p.published|
            then && next.published == p.published + [next.published[|p.published|]]
                 && said == {ChunkEnvelope(region, window, tsMs, next.published[|p.published|])}
            else next.published == p.published && said == {}
  {
    ViewsOneMore(n.store, region, window, before, c);
  }

  lemma {:induction false} ScanSteps(n: Node, region: string, window: int, clock: nat -> int, cells: seq<Cell>)
    requires n.sweep.None? && forall c | c in cells :: ColonFree(c.0) && ColonFree(c.1)
    ensures Leads(n, ScanEvents(region, n.store, window, clock, cells),
                  InPass(n, region, window, Unseen(ScannedCells(n.store, window), cells), cells),
                  Said(region, window, clock, PassAfter(region, n.store, window, cells).published))
  {
    var all := ScannedCells(n.store, window);
    if cells == [] {
      StartIsStep(n, region, window, clock);
    } else {
      var before, c := cells[..|cells| - 1], cells[|cells| - 1];
      assert cells == before + [c];
      var p, mid := PassAfter(region, n.store, window, before), InPass(n, region, window, Unseen(all, before), before);
      var e := Scan(region, c, clock(|p.published|));
      ScanSteps(n, region, window, clock, before);
      ScanNext(n, region, window, all, before, c, clock(|p.published|));
      ScanSays(n, region, window, clock, Unseen(all, before), before, c);
      LeadsOn(n, ScanEvents(region, n.store, window, clock, before), mid, Said(region, window, clock, p.published), e,
              InPass(n, region, window, Unseen(all, cells), cells), Announced(mid, e));
    }
  }

  lemma {:induction false} StartIsStep(n: Node, region: string, window: int, clock: nat -> int)
    requires n.sweep.None?
    ensures Leads(n, [StartSweep(region, window)],
                  InPass(n, region, window, Unseen(ScannedCells(n.store, window), []), []),
                  Said(region, window, clock, PassAfter(region, n.store, window, []).published))
  {
    var all := ScannedCells(n.store, window);
    assert Unseen(all, []) == all;
    assert Said(region, window, clock, []) == {};
    OneEvent(n, StartSweep(region, window), InPass(n, region, window, all, []), {});
  }

  lemma {:induction false} EndIsStep(n: Node, region: string, window: int, clock: nat -> int, cells: seq<Cell>)
    requires n.sweep.None? && forall c | c in ScannedCells(n.store, window) :: c in cells
    ensures var p := PassAfter(region, n.store, window, cells);
            var chunks := Chunks(region, CHUNK_SIZE, ViewsOf(n.store, window, cells));
            var last := InPass(n, region, window, Unseen(ScannedCells(n.store, window), cells), cells);
            var e := EndSweep(region, clock(|p.published|));
            && Takes(last, e, n, Announced(last, e))
            && Said(region, window, clock, chunks) == Said(region, window, clock, p.published) + Announced(last, e)
  {
    var p := PassAfter(region, n.store, window, cells);
    assert Unseen(ScannedCells(n.store, window), cells) == {};
    if p.chunk != map[] {
      SaidOneMore(region, window, clock, p.published, p.chunk);
    } else {
      assert p.published + [] == p.published;
    }
  }

  /** A pass that nothing interrupts and that visits every key of the window, in any order and with repeats,
      publishes exactly the envelopes that Reconciler.ReconcileOnce is proved to publish, and changes nothing
      of the region. */
  lemma {:induction false} ReconcileIsSteps(n: Node, region: string, window: int, clock: nat -> int, cells: seq<Cell>)
    requires n.sweep.None? && forall c | c in cells :: ColonFree(c.0) && ColonFree(c.1)
    requires forall c | c in ScannedCells(n.store, window) :: c in cells
    ensures var p := PassAfter(region, n.store, window, cells);
            Leads(n, ScanEvents(region, n.store, window, clock, cells) + [EndSweep(region, clock(|p.published|))], n,
                  Said(region, window, clock, Chunks(region, CHUNK_SIZE, ViewsOf(n.store, window, cells))))
  {
    ScanSteps(n, region, window, clock, cells);
    EndIsStep(n, region, window, clock, cells);
    var p := PassAfter(region, n.store, window, cells);
    var last := InPass(n, region, window, Unseen(ScannedCells(n.store, window), cells), cells);
    var e := EndSweep(region, clock(|p.published|));
    LeadsOn(n, ScanEvents(region, n.store, window, clock, cells), last, Said(region, window, clock, p.published), e,
            n, Announced(last, e));
  }

  // ----- Gateway.Check

  // The state after an undisturbed check: nothing pending, one more verdict.
  ghost function Answered(s: State, e: Event, said: set<Envelope>): State
    requires e.Increment? && e.region in s.nodes
  {
    var t, after := TicketOf(s, e), StoreAfter(s, e);
    State(s.nodes[e.region := s.nodes[e.region].(store := after)], s.sent + said, s.pending,
          s.log + [Verdict(e.region, RequestKey(e), t.ordinal, e.limit, e.local, true,
                           e.local && Sum(HashAt(after, RequestKey(e))) <= e.limit)],
          IssuedAfter(s.issued, e), s.wiped)
  }

  ghost function StoreAfter(s: State, e: Event): Store
    requires e.Increment? && e.region in s.nodes
  {
    Incremented(s.nodes[e.region].store, RequestKey(e), e.region)
  }

  function MessageOf(e: Event, after: Store, tsMs: int): Envelope
    requires e.Increment?
  {
    CounterEnvelope(e.tier, e.user, e.window, e.region, Slot(after, RequestKey(e), e.region), tsMs)
  }

  function RequestOf(e: Event, after: Store, published: bool): Request
    requires e.Increment?
  {
    Request(e.tier, e.user, e.window, e.limit, e.local, Slot(after, RequestKey(e), e.region), published)
  }

  // The state between the increment and the read.
  ghost function Waiting(s: State, e: Event, said: set<Envelope>, published: bool): State
    requires e.Increment? && e.region in s.nodes
  {
    State(s.nodes[e.region := s.nodes[e.region].(store := StoreAfter(s, e))], s.sent + said,
          s.pending[TicketOf(s, e) := RequestOf(e, StoreAfter(s, e), published)], s.log,
          IssuedAfter(s.issued, e), s.wiped)
  }

  ghost function SaidIf(sent: bool, env: Envelope): set<Envelope> {
    if sent then {env} else {}
  }

  lemma AfterIncrement(s: State, e: Event)
    requires e.Increment? && e.region in s.nodes
    ensures Enabled(s, e) && Step(s, e) == Waiting(s, e, {}, false)
  {
  }

  lemma AfterPublish(s: State, e: Event, tsMs: int, sent: bool)
    requires e.Increment? && e.region in s.nodes
    ensures var w, p := Waiting(s, e, {}, false), Publish(TicketOf(s, e), tsMs, sent);
            Enabled(w, p) && Step(w, p) == Waiting(s, e, SaidIf(sent, MessageOf(e, StoreAfter(s, e), tsMs)), true)
  {
    var w, t := Waiting(s, e, {}, false), TicketOf(s, e);
    assert w.nodes[t.region := w.nodes[t.region]] == w.nodes;
  }

  lemma AfterRead(s: State, e: Event, said: set<Envelope>)
    requires e.Increment? && e.region in s.nodes && TicketOf(s, e) !in s.pending
    ensures var w, p := Waiting(s, e, said, true), Read(TicketOf(s, e));
            Enabled(w, p) && Step(w, p) == Answered(s, e, said)
  {
    var w, t := Waiting(s, e, said, true), TicketOf(s, e);
    assert w.nodes[t.region := w.nodes[t.region]] == w.nodes;
    assert w.pending - {t} == s.pending;
  }

  lemma TicketIsNew(s: State, e: Event)
    requires Inv(s) && e.Increment?
    ensures TicketOf(s, e) !in s.pending
  {
    var t := TicketOf(s, e);
    assert t in s.pending ==> PendingOk(t, s.pending[t], s.issued);
  }

  /** A request that no other step interrupts is an increment, a publish and a read: it is answered as
      Gateway.Check answers it, leaves the hashes Check leaves, and publishes what Check publishes. */
  lemma CheckIsSteps(s: State, e: Event, tsMs: int, sent: bool)
    requires Inv(s) && e.Increment? && e.region in REGIONS
    ensures var t := TicketOf(s, e);
            Enabled(s, e) &&
            var s1 := Step(s, e);
            Enabled(s1, Publish(t, tsMs, sent)) &&
            var s2 := Step(s1, Publish(t, tsMs, sent));
            Enabled(s2, Read(t)) &&
            Step(s2, Read(t)) == Answered(s, e, SaidIf(sent, MessageOf(e, StoreAfter(s, e), tsMs)))
  {
    TicketIsNew(s, e);
    AfterIncrement(s, e);
    AfterPublish(s, e, tsMs, sent);
    AfterRead(s, e, SaidIf(sent, MessageOf(e, StoreAfter(s, e), tsMs)));
  }
}
