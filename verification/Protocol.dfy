/** The cross-region counter protocol, one Redis command or one local step of a process at a time. Any
    number of requests, the relay and the reconciler of every region interleave freely. The channel keeps
    every envelope ever published: a message is lost when it is never delivered, duplicated when it is
    delivered again, and reordered by delivering another one first. */
module Protocol {
  import opened Buffers
  import opened Counter
  import opened Envelopes
  import opened HashStore
  import opened PartitionTables
  import opened Reconcilers
  import opened Relays
  import opened Sums
  import opened Text
  import opened Wrappers
  import Handlers

  const REGIONS := VALID_REGIONS
  const BUFFER_CAP := 10000
  const CHUNK_SIZE := 1000

  // A reconcile pass in progress. SCAN promises to yield every key present throughout: `unseen` are the
  // cells that were there when it started and that it has yet to yield.
  datatype Sweep = Sweep(window: int, unseen: set<Cell>, pass: Pass)

  /** One region: the global hashes on its Redis, and the memory of its sync process. `todo` are the writes
      left of the message the relay is working on. */
  datatype Node = Node(store: Store, rules: set<Rule>, buffer: seq<Write>, todo: seq<Write>, sweep: Option<Sweep>)

  // A request between its HINCRBY and its HGETALL; the ordinal counts the region's increments of the key.
  datatype Ticket = Ticket(region: string, key: string, ordinal: nat)
  datatype Request = Request(tier: string, user: string, window: int, limit: int, local: bool, slot: int,
                             published: bool)

  // An answered request. Unchecked: an error skipped the global check. The ordinal is 0 after a failed HINCRBY.
  datatype Verdict = Verdict(region: string, key: string, ordinal: nat, limit: int, local: bool, checked: bool,
                             allowed: bool)

  /** `issued` counts the increments each region really made of each key, and `wiped` are the own slots a
      key expiry or data loss removed; neither is seen by the processes. */
  datatype State = State(nodes: map<string, Node>, sent: set<Envelope>, pending: map<Ticket, Request>,
                         log: seq<Verdict>, issued: map<(string, string), nat>, wiped: set<(string, string)>)

  datatype Event =
    | Increment(region: string, tier: string, user: string, window: int, limit: int, local: bool)
    | IncrementError(region: string, tier: string, user: string, window: int, limit: int, local: bool,
                     carriedOut: bool)
    | Publish(ticket: Ticket, tsMs: int, delivered: bool)
    | Read(ticket: Ticket)
    | ReadError(ticket: Ticket)
    | Abandon(ticket: Ticket)
    | Deliver(region: string, env: Envelope, order: seq<Cell>)
    | Apply(region: string)
    | ApplyError(region: string, carriedOut: bool)
    | StartSweep(region: string, window: int)
    | Scan(region: string, cell: Cell, tsMs: int)
    | EndSweep(region: string, tsMs: int)
    | AbortSweep(region: string)
    | Partition(region: string, from: string, to: string)
    | Heal(region: string, from: string, to: string)
    | HealAll(region: string)
    | Restart(region: string)
    | Expire(region: string, key: string)

  function Issued(issued: map<(string, string), nat>, region: string, key: string): nat {
    if (region, key) in issued then issued[(region, key)] else 0
  }

  ghost predicate Init(s: State) {
    && s.nodes == (map r | r in REGIONS :: Node(map[], {}, [], [], None))
    && s.sent == {} && s.pending == map[] && s.log == [] && s.issued == map[] && s.wiped == {}
  }

  function CellKey(c: Cell, window: int): string {
    GlobalKey(c.0, c.1, window)
  }

  // ----- the gateway

  function RequestKey(e: Event): string
    requires e.Increment? || e.IncrementError?
  {
    GlobalKey(e.tier, e.user, e.window)
  }

  function TicketOf(s: State, e: Event): Ticket
    requires e.Increment?
  {
    Ticket(e.region, RequestKey(e), Issued(s.issued, e.region, RequestKey(e)) + 1)
  }

  function CounterMessage(t: Ticket, q: Request, tsMs: int): Envelope {
    CounterEnvelope(q.tier, q.user, q.window, t.region, q.slot, tsMs)
  }

  // The sum HGETALL shows a request of the region.
  ghost function VisibleSum(s: State, t: Ticket): int
    requires t.region in s.nodes
  {
    Sum(HashAt(s.nodes[t.region].store, t.key))
  }

  ghost function ReadVerdict(s: State, t: Ticket): Verdict
    requires t in s.pending && t.region in s.nodes
  {
    var q := s.pending[t];
    var local := Handlers.Decision(q.local, 0, 0);
    Verdict(t.region, t.key, t.ordinal, q.limit, q.local, true,
            Handlers.GlobalVerdict(local, VisibleSum(s, t), q.limit, q.window, 0).allowed)
  }

  // ----- the relay and the reconciler

  predicate Drops(n: Node, region: string, env: Envelope) {
    TurnsAway(region, n.rules, env)
  }

  // The cells of the window that SCAN finds now.
  ghost function ScannedCells(store: Store, window: int): set<Cell> {
    set k | k in store && WindowCell(k, window).Some? :: WindowCell(k, window).value
  }

  // What the reconciler sees when SCAN yields a cell and HGETALL reads it.
  function ViewOf(n: Node, cell: Cell): View
    requires n.sweep.Some?
  {
    View(cell, HashAt(n.store, CellKey(cell, n.sweep.value.window)))
  }

  function SweepScan(region: string, n: Node, cell: Cell): Sweep
    requires n.sweep.Some?
  {
    var sw := n.sweep.value;
    Sweep(sw.window, sw.unseen - {cell}, ScanStep(region, CHUNK_SIZE, sw.pass, ViewOf(n, cell)))
  }

  /** The reconcile envelopes an event of this node publishes. */
  function Announced(n: Node, e: Event): set<Envelope>
    requires NodeEnabled(n, e)
  {
    match e
    case Scan(region, cell, tsMs) =>
      var before, after := n.sweep.value.pass.published, SweepScan(region, n, cell).pass.published;
      if |after| > |before| then {ChunkEnvelope(region, n.sweep.value.window, tsMs, after[|after| - 1])} else {}
    case EndSweep(region, tsMs) =>
      var sw := n.sweep.value;
      if sw.pass.chunk != map[] then {ChunkEnvelope(region, sw.window, tsMs, sw.pass.chunk)} else {}
    case _ => {}
  }

  // ----- steps

  // The region whose node an event touches.
  function RegionOf(e: Event): string {
    match e
    case Publish(t, _, _) => t.region
    case Read(t) => t.region
    case ReadError(t) => t.region
    case Abandon(t) => t.region
    case _ => e.region
  }

  // Neither increments a slot nor removes one.
  predicate Quiet(e: Event) {
    !e.Increment? && !e.IncrementError? && !e.Expire?
  }

  predicate RequestEnabled(pending: map<Ticket, Request>, e: Event) {
    match e
    case Publish(t, _, _) => t in pending && !pending[t].published
    case Read(t) => t in pending && pending[t].published
    case ReadError(t) => t in pending && pending[t].published
    case Abandon(t) => t in pending
    case _ => true
  }

  predicate NodeEnabled(n: Node, e: Event) {
    match e
    case Deliver(_, env, order) => n.todo == [] && OrderOf(env, order)
    case Apply(_) => n.todo != []
    case ApplyError(_, _) => n.todo != []
    case StartSweep(_, _) => n.sweep.None?
    case Scan(_, cell, _) => n.sweep.Some? && ColonFree(cell.0) && ColonFree(cell.1)
    case EndSweep(_, _) =>
      n.sweep.Some? && forall c | c in n.sweep.value.unseen :: CellKey(c, n.sweep.value.window) !in n.store
    case AbortSweep(_) => n.sweep.Some?
    case _ => true
  }

  predicate Enabled(s: State, e: Event) {
    && RegionOf(e) in s.nodes
    && NodeEnabled(s.nodes[RegionOf(e)], e)
    && RequestEnabled(s.pending, e)
    && (e.Deliver? ==> e.env in s.sent)
  }

  // Whether an event makes its region's Redis count one more.
  predicate CountsOne(e: Event) {
    e.Increment? || (e.IncrementError? && e.carriedOut)
  }

  ghost function NodeAfter(n: Node, e: Event): Node
    requires NodeEnabled(n, e)
  {
    match e
    case Increment(region, _, _, _, _, _) => n.(store := Incremented(n.store, RequestKey(e), region))
    case IncrementError(region, _, _, _, _, _, carriedOut) =>
      if carriedOut then n.(store := Incremented(n.store, RequestKey(e), region)) else n
    case Deliver(region, env, order) =>
      if Drops(n, region, env) then n else n.(todo := WritesOf(env, order))
    case Apply(_) => n.(store := ApplyWrite(n.store, n.todo[0]), todo := n.todo[1..])
    case ApplyError(_, carriedOut) =>
      n.(store := if carriedOut then ApplyWrite(n.store, n.todo[0]) else n.store,
         todo := n.todo[1..], buffer := Pushed(BUFFER_CAP, n.buffer, n.todo[0]))
    case StartSweep(_, window) =>
      n.(sweep := Some(Sweep(window, ScannedCells(n.store, window), Pass(map[], [], 0))))
    case Scan(region, cell, _) => n.(sweep := Some(SweepScan(region, n, cell)))
    case EndSweep(_, _) => n.(sweep := None)
    case AbortSweep(_) => n.(sweep := None)
    case Partition(_, from, to) => n.(rules := Changed(n.rules, Block(from, to)))
    case Heal(_, from, to) => n.(rules := Changed(n.rules, Unblock(from, to)))
    case HealAll(_) => n.(rules := Changed(n.rules, UnblockAll))
    case Restart(_) => Node(n.store, {}, [], [], None)
    case Expire(_, key) => n.(store := n.store - {key})
    case _ => n
  }

  function PendingAfter(s: State, e: Event): map<Ticket, Request>
    requires Enabled(s, e)
  {
    match e
    case Increment(region, tier, user, window, limit, local) =>
      var slot := Slot(s.nodes[region].store, RequestKey(e), region) + 1;
      s.pending[TicketOf(s, e) := Request(tier, user, window, limit, local, slot, false)]
    case Publish(t, _, _) => s.pending[t := s.pending[t].(published := true)]
    case Read(t) => s.pending - {t}
    case ReadError(t) => s.pending - {t}
    case Abandon(t) => s.pending - {t}
    case _ => s.pending
  }

  ghost function Answer(s: State, e: Event): seq<Verdict>
    requires Enabled(s, e)
  {
    match e
    case Read(t) => [ReadVerdict(s, t)]
    case ReadError(t) =>
      [Verdict(t.region, t.key, t.ordinal, s.pending[t].limit, s.pending[t].local, false, s.pending[t].local)]
    case IncrementError(region, _, _, _, limit, local, _) =>
      [Verdict(region, RequestKey(e), 0, limit, local, false, local)]
    case _ => []
  }

  function SentBy(s: State, e: Event): set<Envelope>
    requires Enabled(s, e)
  {
    if e.Publish? then
      if e.delivered then {CounterMessage(e.ticket, s.pending[e.ticket], e.tsMs)} else {}
    else Announced(s.nodes[RegionOf(e)], e)
  }

  function IssuedAfter(issued: map<(string, string), nat>, e: Event): map<(string, string), nat> {
    if CountsOne(e) then issued[(e.region, RequestKey(e)) := Issued(issued, e.region, RequestKey(e)) + 1] else issued
  }

  function WipedBy(n: Node, e: Event): set<(string, string)> {
    if e.Expire? && Slot(n.store, e.key, e.region) > 0 then {(e.region, e.key)} else {}
  }

  ghost function Step(s: State, e: Event): State
    requires Enabled(s, e)
  {
    var n := s.nodes[RegionOf(e)];
    State(s.nodes[RegionOf(e) := NodeAfter(n, e)], s.sent + SentBy(s, e), PendingAfter(s, e),
          s.log + Answer(s, e), IssuedAfter(s.issued, e), s.wiped + WipedBy(n, e))
  }

  /** A run: states joined by enabled events, starting with nothing counted. */
  datatype Run = Run(states: seq<State>, events: seq<Event>) {
    ghost predicate Linked() {
      && |states| == |events| + 1
      && forall i {:trigger events[i]} | 0 <= i < |events| ::
           Enabled(states[i], events[i]) && states[i + 1] == Step(states[i], events[i])
    }

    ghost predicate Valid() {
      Linked() && Init(states[0])
    }

    function Last(): State
      requires |states| > 0
    {
      states[|states| - 1]
    }
  }
}
