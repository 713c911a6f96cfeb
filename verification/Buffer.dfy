/** sync/buffer.py: a bounded first-in first-out queue per kind that drops its oldest item when full. */
module Buffers {
  import opened Wrappers

  function QueueOf<T>(queues: map<string, seq<T>>, kind: string): seq<T> {
    if kind in queues then queues[kind] else []
  }

  // The queue after pushing x: at the cap the oldest item goes first.
  function Pushed<T>(cap: int, q: seq<T>, x: T): seq<T>
    requires cap >= 1
  {
    if |q| >= cap then q[1..] + [x] else q + [x]
  }

  /** Nothing is dropped early: a queue that holds the last cap items holds them still after a push. */
  lemma {:induction false} PushedNewest<T>(cap: int, items: seq<T>, x: T)
    requires cap >= 1
    ensures Pushed(cap, Newest(cap, items), x) == Newest(cap, items + [x])
  {
  }

  datatype PushResult = Stored | DroppedOldest | IndexError

  class FailoverBuffer<T> {
    const cap: int
    var queues: map<string, seq<T>>

    constructor (cap: int)
      ensures this.cap == cap && queues == map[]
    {
      this.cap := cap;
      queues := map[];
    }

    // Returns DroppedOldest where the source returns False. A cap below 1 makes the first push of a kind
    // pop an empty deque.
    method Push(kind: string, payload: T) returns (result: PushResult)
      modifies this
      ensures result.IndexError? <==> cap <= 0 && QueueOf(old(queues), kind) == []
      ensures result.DroppedOldest? <==> !result.IndexError? && |QueueOf(old(queues), kind)| >= cap
      ensures result.IndexError? ==> QueueOf(queues, kind) == []
      ensures cap >= 1 ==> QueueOf(queues, kind) == Pushed(cap, QueueOf(old(queues), kind), payload)
      ensures queues.Keys == old(queues).Keys + {kind}
      ensures forall other | other != kind :: QueueOf(queues, other) == QueueOf(old(queues), other)
    {
      var q := QueueOf(queues, kind);
      queues := queues[kind := q];
      if |q| >= cap {
        if q == [] {
          return IndexError;
        }
        queues := queues[kind := q[1..] + [payload]];
        return DroppedOldest;
      }
      queues := queues[kind := q + [payload]];
      return Stored;
    }

    // One step of the generator `drain` returns.
    method DrainNext(kind: string) returns (item: Option<T>)
      modifies this
      ensures item.None? <==> QueueOf(old(queues), kind) == []
      ensures item.None? ==> queues == old(queues)
      ensures item.Some? ==> QueueOf(old(queues), kind) == [item.value] + QueueOf(queues, kind)
      ensures queues.Keys == old(queues).Keys
      ensures forall other | other != kind :: QueueOf(queues, other) == QueueOf(old(queues), other)
    {
      var q := QueueOf(queues, kind);
      if q == [] {
        return None;
      }
      queues := queues[kind := q[1..]];
      return Some(q[0]);
    }

    // The generator run to its end with nothing in between.
    method DrainAll(kind: string) returns (items: seq<T>)
      modifies this
      ensures items == QueueOf(old(queues), kind)
      ensures QueueOf(queues, kind) == []
      ensures forall other | other != kind :: QueueOf(queues, other) == QueueOf(old(queues), other)
    {
      items := [];
      while QueueOf(queues, kind) != []
        invariant items + QueueOf(queues, kind) == QueueOf(old(queues), kind)
        invariant forall other | other != kind :: QueueOf(queues, other) == QueueOf(old(queues), other)
        decreases |QueueOf(queues, kind)|
      {
        var item := DrainNext(kind);
        items := items + [item.value];
      }
    }

    method Size(kind: string) returns (n: nat)
      ensures n == |QueueOf(queues, kind)|
    {
      n := |QueueOf(queues, kind)|;
    }
  }

  // ----- whole histories of pushes and drain steps

  datatype Op<T> = PushOp(kind: string, item: T) | NextOp(kind: string)

  /** One operation on all queues, as the methods above carry it out for cap >= 1. */
  function QueuesAfter<T>(cap: int, ops: seq<Op<T>>): map<string, seq<T>>
    requires cap >= 1
  {
    if ops == [] then map[]
    else
      var queues := QueuesAfter(cap, ops[..|ops| - 1]);
      match ops[|ops| - 1]
      case PushOp(kind, x) => queues[kind := Pushed(cap, QueueOf(queues, kind), x)]
      case NextOp(kind) =>
        if QueueOf(queues, kind) == [] then queues else queues[kind := QueueOf(queues, kind)[1..]]
  }

  /** So with nothing drained the queue of a kind is the last cap of its pushes. */
  lemma {:induction false} QueueIsNewest<T>(cap: int, ops: seq<Op<T>>, kind: string)
    requires cap >= 1
    requires forall i | 0 <= i < |ops| :: ops[i].kind == kind ==> ops[i].PushOp?
    ensures QueueOf(QueuesAfter(cap, ops), kind) == Newest(cap, PushesOf(ops, kind))
  {
    if ops == [] {
    } else {
      QueueIsNewest(cap, ops[..|ops| - 1], kind);
      if ops[|ops| - 1].kind == kind {
        PushedNewest(cap, PushesOf(ops[..|ops| - 1], kind), ops[|ops| - 1].item);
      }
    }
  }

  // What happened to one kind: its pushes, and its departures in order, each drained or dropped.
  datatype Departure<T> = Drained(item: T) | Dropped(item: T)

  function PushesOf<T>(ops: seq<Op<T>>, kind: string): seq<T> {
    if ops == [] then []
    else
      var op := ops[|ops| - 1];
      PushesOf(ops[..|ops| - 1], kind) + if op.PushOp? && op.kind == kind then [op.item] else []
  }

  function Departures<T>(cap: int, ops: seq<Op<T>>, kind: string): seq<Departure<T>>
    requires cap >= 1
  {
    if ops == [] then []
    else
      var q := QueueOf(QueuesAfter(cap, ops[..|ops| - 1]), kind);
      var before := Departures(cap, ops[..|ops| - 1], kind);
      match ops[|ops| - 1]
      case PushOp(k, _) => if k == kind && |q| >= cap then before + [Dropped(q[0])] else before
      case NextOp(k) => if k == kind && q != [] then before + [Drained(q[0])] else before
  }

  function Items<T>(ds: seq<Departure<T>>): (items: seq<T>)
    ensures |items| == |ds|
  {
    seq(|ds|, i requires 0 <= i < |ds| => ds[i].item)
  }

  /** For every interleaving of pushes and drain steps over any kinds: what was pushed is, in order, what
      has left followed by what is still queued, and the queue never exceeds the cap. So the queue is a
      suffix of the pushes, items leave in push order, and pushed = drained + dropped + size. */
  lemma {:induction false} FifoRefinement<T>(cap: int, ops: seq<Op<T>>, kind: string)
    requires cap >= 1
    ensures PushesOf(ops, kind) == Items(Departures(cap, ops, kind)) + QueueOf(QueuesAfter(cap, ops), kind)
    ensures |QueueOf(QueuesAfter(cap, ops), kind)| <= cap
  {
    if ops == [] {
    } else {
      var before := ops[..|ops| - 1];
      FifoRefinement(cap, before, kind);
      var left := Departures(cap, before, kind);
      var q := QueueOf(QueuesAfter(cap, before), kind);
      var op := ops[|ops| - 1];
      if op.kind == kind {
        if op.PushOp? && |q| >= cap {
          Leaves(left, q, Dropped(q[0]), [op.item]);
        } else if op.NextOp? && q != [] {
          Leaves(left, q, Drained(q[0]), []);
        }
      }
    }
  }

  // Moving the head of the queue to the departures keeps their concatenation.
  lemma {:induction false} Leaves<T>(left: seq<Departure<T>>, q: seq<T>, d: Departure<T>, tail: seq<T>)
    requires q != [] && d.item == q[0]
    ensures Items(left) + q + tail == Items(left + [d]) + (q[1..] + tail)
  {
    assert Items(left + [d]) == Items(left) + [q[0]];
    assert q == [q[0]] + q[1..];
  }

  function OfKind<T>(ops: seq<Op<T>>, kind: string): seq<Op<T>> {
    if ops == [] then []
    else
      var op := ops[|ops| - 1];
      OfKind(ops[..|ops| - 1], kind) + if op.kind == kind then [op] else []
  }

  /** Kinds never interfere: the operations on other kinds could be left out of the history. */
  lemma {:induction false} KindsAreIndependent<T>(cap: int, ops: seq<Op<T>>, kind: string)
    requires cap >= 1
    ensures QueueOf(QueuesAfter(cap, OfKind(ops, kind)), kind) == QueueOf(QueuesAfter(cap, ops), kind)
    ensures Departures(cap, OfKind(ops, kind), kind) == Departures(cap, ops, kind)
  {
    if ops == [] {
    } else {
      var n := |ops| - 1;
      KindsAreIndependent(cap, ops[..n], kind);
      if ops[n].kind == kind {
        var some := OfKind(ops, kind);
        assert some[..|some| - 1] == OfKind(ops[..n], kind);
      } else {
        assert OfKind(ops, kind) == OfKind(ops[..n], kind);
      }
    }
  }
}
