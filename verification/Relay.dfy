/** sync/relay.py: what one received message does to the local hashes and to the failover buffer. */
module Relays {
  import opened Buffers
  import opened Counter
  import opened Envelopes
  import opened GCounters
  import opened HashStore
  import opened PartitionTables
  import opened Wrappers

  const RELAY_KIND := "relay_apply"

  // The region an envelope claims to come from.
  function Asserted(env: Envelope): string {
    match env
    case CounterEnvelope(_, _, _, region, _, _) => region
    case ReconcileEnvelope(origin, _, _, _, _) => origin
  }

  function TimeOf(env: Envelope): int {
    match env
    case CounterEnvelope(_, _, _, _, _, tsMs) => tsMs
    case ReconcileEnvelope(_, _, tsMs, _, _) => tsMs
  }

  // A message the region does not apply: one from a region its rules block, or one that claims to be its own.
  predicate TurnsAway(region: string, rules: set<Rule>, env: Envelope) {
    (Asserted(env), region) in rules || Asserted(env) == region
  }

  // `order` is the order a reconcile envelope's slots are iterated in; a counter envelope has one write.
  predicate OrderOf(env: Envelope, order: seq<Cell>) {
    env.ReconcileEnvelope? ==> Lists(order, env.slots.Keys)
  }

  function SlotWrite(env: Envelope, c: Cell): Write
    requires env.ReconcileEnvelope? && c in env.slots
  {
    Write(GlobalKey(c.0, c.1, env.window), env.origin, env.slots[c])
  }

  /** The slot writes an envelope asks for, in the order the relay carries them out. */
  function WritesOf(env: Envelope, order: seq<Cell>): (ws: seq<Write>)
    requires env.ReconcileEnvelope? ==> forall c | c in order :: c in env.slots
    ensures |ws| == if env.CounterEnvelope? then 1 else |order|
    ensures forall w | w in ws :: w.region == Asserted(env)
  {
    match env
    case CounterEnvelope(tier, user, window, region, value, _) =>
      [Write(GlobalKey(tier, user, window), region, value)]
    case ReconcileEnvelope(_, _, _, _, _) =>
      seq(|order|, i requires 0 <= i < |order| => SlotWrite(env, order[i]))
  }

  // The writes that reached Redis, and those that raised and went to the buffer.
  function Carried(ws: seq<Write>, links: seq<Link>): (r: seq<Write>)
    requires |ws| == |links|
    ensures forall w | w in r :: w in ws
  {
    if ws == [] then []
    else
      var n := |ws| - 1;
      Carried(ws[..n], links[..n]) + if links[n] != Down then [ws[n]] else []
  }

  function PushAll(cap: int, q: seq<Write>, ws: seq<Write>, links: seq<Link>): seq<Write>
    requires cap >= 1 && |ws| == |links|
  {
    if ws == [] then q
    else
      var n := |ws| - 1;
      var before := PushAll(cap, q, ws[..n], links[..n]);
      if links[n] != Up then Pushed(cap, before, ws[n]) else before
  }

  lemma {:induction false} CarriedHas(ws: seq<Write>, links: seq<Link>, i: nat)
    requires |ws| == |links| && i < |ws| && links[i] != Down
    ensures ws[i] in Carried(ws, links)
  {
    var n := |ws| - 1;
    if i < n {
      CarriedHas(ws[..n], links[..n], i);
    }
  }

  lemma {:induction false} CarriedFrom(ws: seq<Write>, links: seq<Link>, w: Write) returns (i: nat)
    requires |ws| == |links| && w in Carried(ws, links)
    ensures i < |ws| && ws[i] == w && links[i] != Down
  {
    var n := |ws| - 1;
    if w in Carried(ws[..n], links[..n]) {
      i := CarriedFrom(ws[..n], links[..n], w);
    } else {
      i := n;
    }
  }

  lemma {:induction false} CarriedNext(s: Store, ws: seq<Write>, w: Write)
    ensures ApplyAll(s, ws + [w]) == ApplyWrite(ApplyAll(s, ws), w)
    ensures ApplyAll(s, ws + []) == ApplyAll(s, ws)
  {
    assert (ws + [w])[..|ws|] == ws;
    assert ws + [] == ws;
  }

  lemma {:induction false} NextWriteStored(store: Store, ws: seq<Write>, links: seq<Link>, k: nat)
    requires k < |ws| == |links|
    ensures ApplyAll(store, Carried(ws[..k + 1], links[..k + 1]))
         == var before := ApplyAll(store, Carried(ws[..k], links[..k]));
            if links[k] != Down then ApplyWrite(before, ws[k]) else before
  {
    assert ws[..k + 1][..k] == ws[..k] && links[..k + 1][..k] == links[..k];
    CarriedNext(store, Carried(ws[..k], links[..k]), ws[k]);
  }

  lemma {:induction false} NextWritePushed(cap: int, q: seq<Write>, ws: seq<Write>, links: seq<Link>, k: nat)
    requires cap >= 1 && k < |ws| == |links|
    ensures PushAll(cap, q, ws[..k + 1], links[..k + 1])
         == var before := PushAll(cap, q, ws[..k], links[..k]);
            if links[k] != Up then Pushed(cap, before, ws[k]) else before
  {
    assert ws[..k + 1][..k] == ws[..k] && links[..k + 1][..k] == links[..k];
  }

  // ----- the same in terms of the envelope's own fields

  /** Redis carries out a write of v into slot (k, f) for the envelope: links[i] answers the i-th write. */
  ghost predicate Lands(env: Envelope, order: seq<Cell>, links: seq<Link>, k: string, f: string, v: int)
    requires |links| == if env.CounterEnvelope? then 1 else |order|
  {
    match env
    case CounterEnvelope(tier, user, window, region, value, _) =>
      links[0] != Down && k == GlobalKey(tier, user, window) && f == region && v == value
    case ReconcileEnvelope(origin, window, _, slots, _) =>
      f == origin && exists i | 0 <= i < |order| ::
        links[i] != Down && order[i] in slots && k == GlobalKey(order[i].0, order[i].1, window) && v == slots[order[i]]
  }

  /** Every slot holds the largest of its old value and the values that land in it. */
  ghost predicate Landed(before: Store, after: Store, env: Envelope, order: seq<Cell>, links: seq<Link>)
    requires |links| == if env.CounterEnvelope? then 1 else |order|
  {
    forall k, f ::
      && Slot(before, k, f) <= Slot(after, k, f)
      && (forall v | Lands(env, order, links, k, f, v) :: v <= Slot(after, k, f))
      && (Slot(after, k, f) == Slot(before, k, f) || Lands(env, order, links, k, f, Slot(after, k, f)))
  }

  // The writes of the envelope that Redis answered with an error, in order.
  ghost function Failures(env: Envelope, order: seq<Cell>, links: seq<Link>): seq<Write>
    requires |links| == if env.CounterEnvelope? then 1 else |order|
  {
    match env
    case CounterEnvelope(tier, user, window, region, value, _) =>
      if links[0] == Up then [] else [Write(GlobalKey(tier, user, window), region, value)]
    case ReconcileEnvelope(origin, window, _, slots, _) =>
      if order == [] then []
      else
        var n := |order| - 1;
        Failures(env, order[..n], links[..n])
        + if links[n] == Up || order[n] !in slots then []
          else [Write(GlobalKey(order[n].0, order[n].1, window), origin, slots[order[n]])]
  }

  /** The failed writes have joined the queue, the oldest items making room. */
  ghost predicate Enqueued(cap: int, before: seq<Write>, after: seq<Write>, env: Envelope, order: seq<Cell>,
                           links: seq<Link>)
    requires cap >= 1 && |links| == if env.CounterEnvelope? then 1 else |order|
  {
    |before| <= cap ==> after == Newest(cap, before + Failures(env, order, links))
  }

  lemma {:induction false} WritesLand(env: Envelope, order: seq<Cell>, links: seq<Link>, w: Write)
    requires env.ReconcileEnvelope? ==> forall c | c in order :: c in env.slots
    requires |links| == |WritesOf(env, order)|
    ensures w in Carried(WritesOf(env, order), links) <==> Lands(env, order, links, w.key, w.region, w.value)
  {
    var ws := WritesOf(env, order);
    if w in Carried(ws, links) {
      var i := CarriedFrom(ws, links, w);
      assert env.ReconcileEnvelope? ==> w == SlotWrite(env, order[i]);
    }
    if Lands(env, order, links, w.key, w.region, w.value) {
      if env.CounterEnvelope? {
        CarriedHas(ws, links, 0);
      } else {
        var i :| 0 <= i < |order| && links[i] != Down && order[i] in env.slots
                 && w.key == GlobalKey(order[i].0, order[i].1, env.window) && w.value == env.slots[order[i]];
        assert ws[i] == SlotWrite(env, order[i]);
        CarriedHas(ws, links, i);
      }
    }
  }

  ghost predicate CountsOnly(env: Envelope) {
    match env
    case CounterEnvelope(_, _, _, _, value, _) => value >= 0
    case ReconcileEnvelope(_, _, _, slots, _) => forall c | c in slots :: slots[c] >= 0
  }

  lemma {:induction false} EnvelopeLands(s: Store, env: Envelope, order: seq<Cell>, links: seq<Link>)
    requires env.ReconcileEnvelope? ==> forall c | c in order :: c in env.slots
    requires |links| == |WritesOf(env, order)| && CountsOnly(env)
    ensures Landed(s, ApplyAll(s, Carried(WritesOf(env, order), links)), env, order, links)
  {
    var ws := Carried(WritesOf(env, order), links);
    forall w
      ensures w in ws <==> Lands(env, order, links, w.key, w.region, w.value)
    {
      WritesLand(env, order, links, w);
    }
    var after := ApplyAll(s, ws);
    forall k, f
      ensures Slot(s, k, f) <= Slot(after, k, f)
      ensures forall v | Lands(env, order, links, k, f, v) :: v <= Slot(after, k, f)
      ensures Slot(after, k, f) == Slot(s, k, f) || Lands(env, order, links, k, f, Slot(after, k, f))
    {
      ApplyAllSlots(s, ws, k, f);
      forall v | Lands(env, order, links, k, f, v)
        ensures v <= Slot(after, k, f)
      {
        assert Write(k, f, v) in ws;
      }
    }
  }

  lemma {:induction false} FailuresPushed(cap: int, q: seq<Write>, env: Envelope, order: seq<Cell>, links: seq<Link>)
    requires cap >= 1 && |q| <= cap
    requires env.ReconcileEnvelope? ==> forall c | c in order :: c in env.slots
    requires |links| == |WritesOf(env, order)|
    ensures PushAll(cap, q, WritesOf(env, order), links) == Newest(cap, q + Failures(env, order, links))
  {
    var ws := WritesOf(env, order);
    if env.CounterEnvelope? {
      PushedNewest(cap, q, ws[0]);
      assert ws[..0] == [] && q + [] == q;
    } else if order == [] {
      assert q + [] == q;
    } else {
      var n := |order| - 1;
      FailuresPushed(cap, q, env, order[..n], links[..n]);
      assert ws[..n] == WritesOf(env, order[..n]);
      PushedNewest(cap, q + Failures(env, order[..n], links[..n]), ws[n]);
      AppendIsAssociative(q, Failures(env, order[..n], links[..n]), ws[n]);
    }
  }

  lemma {:induction false} FailuresEnqueued(cap: int, q: seq<Write>, env: Envelope, order: seq<Cell>,
                                            links: seq<Link>)
    requires env.ReconcileEnvelope? ==> forall c | c in order :: c in env.slots
    requires cap >= 1 && |links| == |WritesOf(env, order)|
    ensures Enqueued(cap, q, PushAll(cap, q, WritesOf(env, order), links), env, order, links)
  {
    if |q| <= cap {
      FailuresPushed(cap, q, env, order, links);
    }
  }

  lemma {:induction false} AppendIsAssociative<T>(q: seq<T>, items: seq<T>, x: T)
    ensures q + (items + [x]) == q + items + [x]
    ensures q + (items + []) == q + items
  {
  }

  // ObserveRaised: the writes were carried out, and then a timestamp too large for a float raised.
  datatype Outcome = Malformed | Escaped | Blocked | SelfOrigin | ObserveRaised | Handled(observed: bool) {
    // The exceptions `_handle` lets through end the relay.
    predicate Survives() {
      !Escaped? && !ObserveRaised?
    }
  }

  // A received message, and the circumstances in which it is handled: the order its slots are visited in,
  // and how Redis answers each write.
  datatype Input = Input(message: Decoded, order: seq<Cell>, links: seq<Link>)

  ghost predicate InputOk(co: Coercions, x: Input) {
    ParseMessage(co, x.message).Parsed? ==>
      var env := ParseMessage(co, x.message).value;
      OrderOf(env, x.order) && |x.links| == |WritesOf(env, x.order)|
  }

  ghost predicate HistoryOk(co: Coercions, xs: seq<Input>) {
    forall i | 0 <= i < |xs| :: InputOk(co, xs[i])
  }

  ghost predicate Applies(co: Coercions, region: string, rules: set<Rule>, x: Input) {
    ParseMessage(co, x.message).Parsed? && !TurnsAway(region, rules, ParseMessage(co, x.message).value)
  }

  // The writes one message leads to.
  ghost function InputWrites(co: Coercions, region: string, rules: set<Rule>, x: Input): seq<Write>
    requires InputOk(co, x)
  {
    if Applies(co, region, rules, x) then WritesOf(ParseMessage(co, x.message).value, x.order) else []
  }

  ghost function InputLinks(co: Coercions, region: string, rules: set<Rule>, x: Input): (links: seq<Link>)
    requires InputOk(co, x)
    ensures |links| == |InputWrites(co, region, rules, x)|
  {
    if Applies(co, region, rules, x) then x.links else []
  }

  // A counter message whose write failed is not timed; a reconcile message always is.
  ghost predicate Observed(co: Coercions, x: Input)
    requires InputOk(co, x) && ParseMessage(co, x.message).Parsed?
  {
    ParseMessage(co, x.message).value.ReconcileEnvelope? || x.links[0] == Up
  }

  /** The messages that end the relay: those that escape the parser, and those that are applied and timed with
      a timestamp that does not fit a float. */
  ghost predicate Kills(co: Coercions, region: string, rules: set<Rule>, x: Input)
    requires InputOk(co, x)
  {
    || Escapes(co, x.message)
    || (Applies(co, region, rules, x) && Observed(co, x) && !co.fitsFloat(TimeOf(ParseMessage(co, x.message).value)))
  }

  ghost predicate NoneKills(co: Coercions, region: string, rules: set<Rule>, xs: seq<Input>)
    requires HistoryOk(co, xs)
  {
    if xs == [] then true
    else NoneKills(co, region, rules, xs[..|xs| - 1]) && !Kills(co, region, rules, xs[|xs| - 1])
  }

  lemma {:induction false} NoneKillsIff(co: Coercions, region: string, rules: set<Rule>, xs: seq<Input>)
    requires HistoryOk(co, xs)
    ensures NoneKills(co, region, rules, xs) <==> forall i | 0 <= i < |xs| :: !Kills(co, region, rules, xs[i])
  {
    if xs == [] {
    } else {
      var n := |xs| - 1;
      NoneKillsIff(co, region, rules, xs[..n]);
      assert forall i | 0 <= i < n :: xs[..n][i] == xs[i];
    }
  }

  // What the writes of one message do to the hashes and to the queue.
  ghost function StoreNext(co: Coercions, region: string, rules: set<Rule>, s: Store, x: Input): Store
    requires InputOk(co, x)
  {
    ApplyAll(s, Carried(InputWrites(co, region, rules, x), InputLinks(co, region, rules, x)))
  }

  ghost function QueueNext(co: Coercions, region: string, rules: set<Rule>, cap: int, q: seq<Write>, x: Input): seq<Write>
    requires cap >= 1 && InputOk(co, x)
  {
    PushAll(cap, q, InputWrites(co, region, rules, x), InputLinks(co, region, rules, x))
  }

  // The same for a history of messages.
  ghost function StoreAfter(co: Coercions, region: string, rules: set<Rule>, s: Store, xs: seq<Input>): Store
    requires HistoryOk(co, xs)
  {
    if xs == [] then s
    else StoreNext(co, region, rules, StoreAfter(co, region, rules, s, xs[..|xs| - 1]), xs[|xs| - 1])
  }

  ghost function QueueAfter(co: Coercions, region: string, rules: set<Rule>, cap: int, q: seq<Write>,
                            xs: seq<Input>): seq<Write>
    requires cap >= 1 && HistoryOk(co, xs)
  {
    if xs == [] then q
    else QueueNext(co, region, rules, cap, QueueAfter(co, region, rules, cap, q, xs[..|xs| - 1]), xs[|xs| - 1])
  }

  lemma {:induction false} OneMoreMessage(co: Coercions, region: string, rules: set<Rule>, s: Store, cap: int,
                                          q: seq<Write>, xs: seq<Input>, i: nat)
    requires HistoryOk(co, xs) && i < |xs| && cap >= 1
    ensures StoreAfter(co, region, rules, s, xs[..i + 1])
         == StoreNext(co, region, rules, StoreAfter(co, region, rules, s, xs[..i]), xs[i])
    ensures QueueAfter(co, region, rules, cap, q, xs[..i + 1])
         == QueueNext(co, region, rules, cap, QueueAfter(co, region, rules, cap, q, xs[..i]), xs[i])
  {
    assert xs[..i + 1][..i] == xs[..i];
  }

  lemma {:induction false} KillerEndsIt(co: Coercions, region: string, rules: set<Rule>, xs: seq<Input>, i: nat)
    requires HistoryOk(co, xs) && i < |xs| && Kills(co, region, rules, xs[i])
    ensures !NoneKills(co, region, rules, xs)
  {
    NoneKillsIff(co, region, rules, xs);
  }

  class Relay {
    const region: string
    const counter: RegionalCounter
    const table: PartitionTable
    const buffer: FailoverBuffer<Write>

    constructor (region: string, counter: RegionalCounter, table: PartitionTable, buffer: FailoverBuffer<Write>)
      requires counter.region == region
      ensures this.region == region && this.counter == counter
      ensures this.table == table && this.buffer == buffer
    {
      this.region := region;
      this.counter := counter;
      this.table := table;
      this.buffer := buffer;
    }

    ghost predicate Valid() {
      counter.region == region && buffer.cap >= 1
    }

    // links[i] says how Redis answers the i-th write.
    method ApplyWrites(cells: seq<Cell>, window: int, peer: string, values: seq<int>, links: seq<Link>,
                       ghost ws: seq<Write>)
      requires Valid() && peer != region
      requires |cells| == |values| == |links| == |ws|
      requires forall i | 0 <= i < |ws| ::
                 values[i] >= 0 && ws[i] == Write(GlobalKey(cells[i].0, cells[i].1, window), peer, values[i])
      modifies counter.redis, buffer
      ensures counter.redis.hashes == ApplyAll(old(counter.redis.hashes), Carried(ws, links))
      ensures QueueOf(buffer.queues, RELAY_KIND)
           == PushAll(buffer.cap, QueueOf(old(buffer.queues), RELAY_KIND), ws, links)
    {
      for i := 0 to |values|
        invariant counter.redis.hashes == ApplyAll(old(counter.redis.hashes), Carried(ws[..i], links[..i]))
        invariant QueueOf(buffer.queues, RELAY_KIND)
               == PushAll(buffer.cap, QueueOf(old(buffer.queues), RELAY_KIND), ws[..i], links[..i])
      {
        NextWriteStored(old(counter.redis.hashes), ws, links, i);
        NextWritePushed(buffer.cap, QueueOf(old(buffer.queues), RELAY_KIND), ws, links, i);
        ApplyOne(cells[i], window, peer, values[i], links[i], ws[i]);
      }
      assert ws[..|ws|] == ws && links[..|links|] == links;
    }

    method ApplyOne(cell: Cell, window: int, peer: string, value: int, link: Link, ghost w: Write)
      requires Valid() && peer != region
      requires value >= 0 && w == Write(GlobalKey(cell.0, cell.1, window), peer, value)
      modifies counter.redis, buffer
      ensures counter.redis.hashes == if link != Down then ApplyWrite(old(counter.redis.hashes), w)
                                      else old(counter.redis.hashes)
      ensures var queue := QueueOf(old(buffer.queues), RELAY_KIND);
              QueueOf(buffer.queues, RELAY_KIND) == if link != Up then Pushed(buffer.cap, queue, w) else queue
    {
      var result := counter.ApplyRemoteSlot(cell.0, cell.1, window, peer, value, link);
      if result.RedisError? {
        var _ := buffer.Push(RELAY_KIND, Write(GlobalKey(cell.0, cell.1, window), peer, value));
      }
    }

    method Observe(co: Coercions, tsMs: int) returns (outcome: Outcome)
      ensures outcome == if co.fitsFloat(tsMs) then Handled(true) else ObserveRaised
    {
      outcome := if co.fitsFloat(tsMs) then Handled(true) else ObserveRaised;
    }

    method HandleCounter(co: Coercions, env: Envelope, ghost order: seq<Cell>, links: seq<Link>)
      returns (outcome: Outcome)
      requires Valid() && env.CounterEnvelope? && env.value >= 0 && |links| == 1
      modifies counter.redis, buffer
      ensures outcome == if env.region == region then SelfOrigin
                         else if links[0] != Up then Handled(false)
                         else if co.fitsFloat(env.tsMs) then Handled(true) else ObserveRaised
      ensures env.region == region ==> buffer.queues == old(buffer.queues) && counter.redis.hashes == old(counter.redis.hashes)
      ensures env.region != region ==>
                var ws := WritesOf(env, order);
                && counter.redis.hashes == ApplyAll(old(counter.redis.hashes), Carried(ws, links))
                && QueueOf(buffer.queues, RELAY_KIND)
                == PushAll(buffer.cap, QueueOf(old(buffer.queues), RELAY_KIND), ws, links)
      ensures env.region != region && links[0] != Down ==>
                forall k, f :: Slot(counter.redis.hashes, k, f)
                            == if && k == GlobalKey(env.tier, env.user, env.window) && f == env.region
                                  && env.value > Slot(old(counter.redis.hashes), k, f)
                               then env.value else Slot(old(counter.redis.hashes), k, f)
      ensures env.region != region ==>
                && Landed(old(counter.redis.hashes), counter.redis.hashes, env, order, links)
                && Enqueued(buffer.cap, QueueOf(old(buffer.queues), RELAY_KIND), QueueOf(buffer.queues, RELAY_KIND),
                            env, order, links)
    {
      if env.region == region {
        return SelfOrigin;
      }
      ApplyWrites([(env.tier, env.user)], env.window, env.region, [env.value], links, WritesOf(env, order));
      EnvelopeLands(old(counter.redis.hashes), env, order, links);
      FailuresEnqueued(buffer.cap, QueueOf(old(buffer.queues), RELAY_KIND), env, order, links);
      if links[0] != Up {
        return Handled(false);
      }
      outcome := Observe(co, env.tsMs);
    }

    method HandleReconcile(co: Coercions, env: Envelope, order: seq<Cell>, links: seq<Link>) returns (outcome: Outcome)
      requires Valid() && env.ReconcileEnvelope? && OrderOf(env, order) && |links| == |order|
      requires forall c | c in env.slots :: env.slots[c] >= 0
      modifies counter.redis, buffer
      ensures outcome == if env.origin == region then SelfOrigin
                         else if co.fitsFloat(env.tsMs) then Handled(true) else ObserveRaised
      ensures env.origin == region ==> buffer.queues == old(buffer.queues) && counter.redis.hashes == old(counter.redis.hashes)
      ensures env.origin != region ==>
                var ws := WritesOf(env, order);
                && counter.redis.hashes == ApplyAll(old(counter.redis.hashes), Carried(ws, links))
                && QueueOf(buffer.queues, RELAY_KIND)
                == PushAll(buffer.cap, QueueOf(old(buffer.queues), RELAY_KIND), ws, links)
      ensures env.origin != region ==>
                && Landed(old(counter.redis.hashes), counter.redis.hashes, env, order, links)
                && Enqueued(buffer.cap, QueueOf(old(buffer.queues), RELAY_KIND), QueueOf(buffer.queues, RELAY_KIND),
                            env, order, links)
    {
      if env.origin == region {
        return SelfOrigin;
      }
      var values := seq(|order|, i requires 0 <= i < |order| => env.slots[order[i]]);
      ApplyWrites(order, env.window, env.origin, values, links, WritesOf(env, order));
      EnvelopeLands(old(counter.redis.hashes), env, order, links);
      FailuresEnqueued(buffer.cap, QueueOf(old(buffer.queues), RELAY_KIND), env, order, links);
      outcome := Observe(co, env.tsMs);
    }

    /** A message that is malformed, partitioned off or from this region changes nothing. Any other leaves every
        slot at the largest of its old value and the values of the message that Redis carried out, and its failed
        writes at the end of the buffer. The relay survives it if and only if it is not one of the messages that
        kill. */
    method Handle(co: Coercions, x: Input) returns (outcome: Outcome)
      requires Valid() && InputOk(co, x)
      modifies counter.redis, buffer
      ensures outcome.Survives() <==> !Kills(co, region, table.rules, x)
      ensures outcome.Malformed? <==> !Escapes(co, x.message) && !Acceptable(co, x.message)
      ensures outcome.Escaped? <==> Escapes(co, x.message)
      ensures Acceptable(co, x.message) ==>
                var env := ParseMessage(co, x.message).value;
                && (outcome.Blocked? <==> table.Blocks(Asserted(env), region))
                && (outcome.SelfOrigin? <==> !outcome.Blocked? && Asserted(env) == region)
                && (outcome.Handled? ==> outcome.observed == Observed(co, x))
                && (outcome.Handled? || outcome.ObserveRaised? ==>
                      && Landed(old(counter.redis.hashes), counter.redis.hashes, env, x.order, x.links)
                      && Enqueued(buffer.cap, QueueOf(old(buffer.queues), RELAY_KIND),
                                  QueueOf(buffer.queues, RELAY_KIND), env, x.order, x.links))
      ensures !outcome.Handled? && !outcome.ObserveRaised? ==>
                counter.redis.hashes == old(counter.redis.hashes) && buffer.queues == old(buffer.queues)
      ensures counter.redis.hashes == StoreNext(co, region, table.rules, old(counter.redis.hashes), x)
      ensures QueueOf(buffer.queues, RELAY_KIND)
           == QueueNext(co, region, table.rules, buffer.cap, QueueOf(old(buffer.queues), RELAY_KIND), x)
    {
      EscapesIff(co, x.message);
      var parsed := Parse(co, x.message);
      if parsed.EnvelopeError? {
        return Malformed;
      } else if parsed.EscapedError? {
        return Escaped;
      }
      AcceptedIsWellFormed(co, x.message);
      outcome := Take(co, parsed.value, x.order, x.links);
    }

    // A message that parsed.
    method Take(co: Coercions, env: Envelope, order: seq<Cell>, links: seq<Link>) returns (outcome: Outcome)
      requires Valid() && CountsOnly(env) && OrderOf(env, order) && |links| == |WritesOf(env, order)|
      modifies counter.redis, buffer
      ensures !outcome.Malformed? && !outcome.Escaped?
      ensures outcome.Blocked? <==> table.Blocks(Asserted(env), region)
      ensures outcome.SelfOrigin? <==> !outcome.Blocked? && Asserted(env) == region
      ensures var observed := env.ReconcileEnvelope? || links[0] == Up;
              && (outcome.Handled? ==> outcome.observed == observed)
              && (outcome.ObserveRaised?
                  <==> !TurnsAway(region, table.rules, env) && observed && !co.fitsFloat(TimeOf(env)))
      ensures if TurnsAway(region, table.rules, env)
              then counter.redis.hashes == old(counter.redis.hashes) && buffer.queues == old(buffer.queues)
              else && counter.redis.hashes == ApplyAll(old(counter.redis.hashes), Carried(WritesOf(env, order), links))
                   && QueueOf(buffer.queues, RELAY_KIND)
                   == PushAll(buffer.cap, QueueOf(old(buffer.queues), RELAY_KIND), WritesOf(env, order), links)
                   && Landed(old(counter.redis.hashes), counter.redis.hashes, env, order, links)
                   && Enqueued(buffer.cap, QueueOf(old(buffer.queues), RELAY_KIND), QueueOf(buffer.queues, RELAY_KIND),
                               env, order, links)
    {
      if table.Blocks(Asserted(env), region) {
        return Blocked;
      }
      if env.CounterEnvelope? {
        outcome := HandleCounter(co, env, order, links);
      } else {
        outcome := HandleReconcile(co, env, order, links);
      }
    }

    /** The receiving loop, with no rule changing meanwhile: it takes the messages in order and ends at the
        first that kills, whose own writes may have been carried out. So it gets through a history exactly when
        no message of it kills. */
    method Run(co: Coercions, xs: seq<Input>) returns (survived: nat)
      requires Valid() && HistoryOk(co, xs)
      modifies counter.redis, buffer
      ensures survived <= |xs|
      ensures NoneKills(co, region, table.rules, xs[..survived])
      ensures survived < |xs| ==> Kills(co, region, table.rules, xs[survived])
      ensures survived == |xs| <==> NoneKills(co, region, table.rules, xs)
      ensures HasHandled(co, xs, Min(survived + 1, |xs|), old(counter.redis.hashes), old(buffer.queues))
    {
      ghost var hashes, queues := counter.redis.hashes, buffer.queues;
      for i := 0 to |xs|
        invariant NoneKills(co, region, table.rules, xs[..i])
        invariant HasHandled(co, xs, i, hashes, queues)
      {
        OneMoreMessage(co, region, table.rules, hashes, buffer.cap, QueueOf(queues, RELAY_KIND), xs, i);
        assert xs[..i + 1][..i] == xs[..i];
        var outcome := Handle(co, xs[i]);
        assert HasHandled(co, xs, i + 1, hashes, queues);
        if !outcome.Survives() {
          KillerEndsIt(co, region, table.rules, xs, i);
          return i;
        }
      }
      assert xs[..|xs|] == xs;
      return |xs|;
    }

    // From these hashes and queues, the first n messages lead to the present ones.
    ghost predicate HasHandled(co: Coercions, xs: seq<Input>, n: nat, hashes: Store, queues: map<string, seq<Write>>)
      requires Valid() && HistoryOk(co, xs) && n <= |xs|
      reads counter.redis, buffer, table
    {
      && counter.redis.hashes == StoreAfter(co, region, table.rules, hashes, xs[..n])
      && QueueOf(buffer.queues, RELAY_KIND)
      == QueueAfter(co, region, table.rules, buffer.cap, QueueOf(queues, RELAY_KIND), xs[..n])
    }
  }

  // ----- whole histories of messages at one region

  datatype Delivery = Delivery(env: Envelope, order: seq<Cell>)

  ghost predicate WellFormed(d: Delivery) {
    OrderOf(d.env, d.order) && CountsOnly(d.env)
  }

  ghost function DeliveryWrites(d: Delivery): seq<Write>
    requires WellFormed(d)
  {
    assert OrderOf(d.env, d.order);
    WritesOf(d.env, d.order)
  }

  /** The writes a region carries out for a history of messages: its own messages are dropped. */
  ghost function HistoryWrites(region: string, ds: seq<Delivery>): seq<Write>
    requires forall d | d in ds :: WellFormed(d)
  {
    if ds == [] then []
    else
      var d := ds[|ds| - 1];
      HistoryWrites(region, ds[..|ds| - 1])
      + if Asserted(d.env) == region then [] else DeliveryWrites(d)
  }

  /** The message asks for the value v in slot (k, f). */
  ghost predicate Wants(env: Envelope, k: string, f: string, v: int) {
    match env
    case CounterEnvelope(tier, user, window, region, value, _) =>
      k == GlobalKey(tier, user, window) && f == region && v == value
    case ReconcileEnvelope(origin, window, _, slots, _) =>
      f == origin && exists c: Cell :: c in slots && k == GlobalKey(c.0, c.1, window) && v == slots[c]
  }

  // What a history asks for, without the way it is cut into messages.
  ghost predicate Asks(region: string, ds: seq<Delivery>, k: string, f: string, v: int) {
    f != region && exists d :: d in ds && Wants(d.env, k, f, v)
  }

  lemma {:induction false} DeliveryWrote(d: Delivery, w: Write)
    requires WellFormed(d)
    ensures w in DeliveryWrites(d) <==> Wants(d.env, w.key, w.region, w.value)
    ensures w in DeliveryWrites(d) ==> w.value >= 0 && w.region == Asserted(d.env)
  {
    assert OrderOf(d.env, d.order);
    if d.env.ReconcileEnvelope? {
      assert forall i | 0 <= i < |d.order| :: DeliveryWrites(d)[i] == SlotWrite(d.env, d.order[i]);
    }
  }

  lemma {:induction false} HistoryWritesAsked(region: string, ds: seq<Delivery>, w: Write)
    requires forall d | d in ds :: WellFormed(d)
    ensures w in HistoryWrites(region, ds) <==> Asks(region, ds, w.key, w.region, w.value)
    ensures w in HistoryWrites(region, ds) ==> w.value >= 0 && w.region != region
  {
    if ds == [] {
    } else {
      var n := |ds| - 1;
      assert ds == ds[..n] + [ds[n]];
      HistoryWritesAsked(region, ds[..n], w);
      assert ds[n] in ds;
      DeliveryWrote(ds[n], w);
    }
  }

  lemma {:induction false} AllHistoryWrites(region: string, ds: seq<Delivery>)
    requires forall d | d in ds :: WellFormed(d)
    ensures NonNegative(HistoryWrites(region, ds))
    ensures forall w :: w in HistoryWrites(region, ds) <==> Asks(region, ds, w.key, w.region, w.value)
  {
    forall w
      ensures w in HistoryWrites(region, ds) <==> Asks(region, ds, w.key, w.region, w.value)
      ensures w in HistoryWrites(region, ds) ==> w.value >= 0
    {
      HistoryWritesAsked(region, ds, w);
    }
  }

  /** A history of messages leaves every slot at the largest of its old value and the values the messages of
      other regions ask for. */
  lemma {:induction false} HistoryLands(region: string, s: Store, ds: seq<Delivery>, k: string, f: string)
    requires forall d | d in ds :: WellFormed(d)
    ensures Slot(s, k, f) <= Slot(ApplyAll(s, HistoryWrites(region, ds)), k, f)
    ensures forall v | Asks(region, ds, k, f, v) :: v <= Slot(ApplyAll(s, HistoryWrites(region, ds)), k, f)
    ensures var slot := Slot(ApplyAll(s, HistoryWrites(region, ds)), k, f);
            slot == Slot(s, k, f) || Asks(region, ds, k, f, slot)
  {
    var ws := HistoryWrites(region, ds);
    AllHistoryWrites(region, ds);
    ApplyAllSlots(s, ws, k, f);
    forall v | Asks(region, ds, k, f, v)
      ensures v <= Slot(ApplyAll(s, ws), k, f)
    {
      assert Write(k, f, v) in ws;
    }
  }

  /** Two histories that ask a region for the same values leave it with the same slots, whatever their order,
      repeats and split into counter and reconcile messages: the slots of GCounter.merge folded over either one.
      Its own slot is not touched. */
  lemma {:induction false} HistoriesAgree(region: string, s: Store, ds: seq<Delivery>, es: seq<Delivery>)
    requires forall d | d in ds :: WellFormed(d)
    requires forall d | d in es :: WellFormed(d)
    requires forall k, f :: Slot(s, k, f) >= 0
    requires forall k, f, v :: Asks(region, ds, k, f, v) <==> Asks(region, es, k, f, v)
    ensures forall k, f :: Slot(ApplyAll(s, HistoryWrites(region, ds)), k, f)
                        == Slot(ApplyAll(s, HistoryWrites(region, es)), k, f)
    ensures forall k, f :: Slot(ApplyAll(s, HistoryWrites(region, ds)), k, f)
                        == Get(MergeAll(HashAt(s, k), HistoryWrites(region, es), k), f)
    ensures forall k :: Slot(ApplyAll(s, HistoryWrites(region, ds)), k, region) == Slot(s, k, region)
  {
    var ws, vs := HistoryWrites(region, ds), HistoryWrites(region, es);
    AllHistoryWrites(region, es);
    forall k, f
      ensures Slot(ApplyAll(s, ws), k, f) == Slot(ApplyAll(s, vs), k, f)
      ensures Slot(ApplyAll(s, vs), k, f) == Get(MergeAll(HashAt(s, k), vs, k), f)
      ensures f == region ==> Slot(ApplyAll(s, ws), k, f) == Slot(s, k, f)
    {
      assert forall g | g in HashAt(s, k) :: HashAt(s, k)[g] == Slot(s, k, g);
      HistoryLands(region, s, ds, k, f);
      HistoryLands(region, s, es, k, f);
      RedisAgainstGCounter(s, vs, k, f);
    }
  }
}
