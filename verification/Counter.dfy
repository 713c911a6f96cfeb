/** sync/counter.py: the key of a counter, the write of a peer's slot, and the scan of one window. */
module Counter {
  import opened GCounters
  import opened HashStore
  import opened Text
  import opened Wrappers

  function GlobalKey(tier: string, user: string, window: int): string {
    "rl:global:" + tier + ":" + user + ":" + Decimal(window)
  }

  function ScanPattern(window: int): string {
    "rl:global:" + ("*" + (":" + ("*" + (":" + Decimal(window)))))
  }

  /** What the window scan yields for one key of the database, if anything. */
  function WindowCell(key: string, window: int): Option<(string, string)> {
    var parts := Split(key);
    if Matches(ScanPattern(window), key) && |parts| == 5 then Some((parts[2], parts[3])) else None
  }

  // How a command to the local Redis ends: a failed one may still have been carried out.
  datatype Link = Up | Down | ReplyLost

  datatype ApplyResult = Applied(written: bool) | OwnSlotWriteError | NegativeValueError | RedisError

  datatype Write = Write(key: string, region: string, value: int)

  function ApplyWrite(s: Store, w: Write): Store {
    MaxMerged(s, w.key, w.region, w.value)
  }

  function ApplyAll(s: Store, ws: seq<Write>): Store {
    if ws == [] then s else ApplyWrite(ApplyAll(s, ws[..|ws| - 1]), ws[|ws| - 1])
  }

  class RegionalCounter {
    const region: string
    const redis: Redis

    constructor (region: string, redis: Redis)
      ensures this.region == region && this.redis == redis
    {
      this.region := region;
      this.redis := redis;
    }

    method ApplyRemoteSlot(tier: string, user: string, window: int, peer: string, value: int, link: Link)
      returns (result: ApplyResult)
      modifies redis
      ensures result.OwnSlotWriteError? <==> peer == region
      ensures result.NegativeValueError? <==> peer != region && value < 0
      ensures result.RedisError? <==> peer != region && value >= 0 && link != Up
      ensures result.Applied? ==> (result.written <==> redis.hashes != old(redis.hashes))
      ensures redis.hashes == if peer != region && value >= 0 && link != Down
                              then ApplyWrite(old(redis.hashes), Write(GlobalKey(tier, user, window), peer, value))
                              else old(redis.hashes)
      ensures forall k, f :: Slot(redis.hashes, k, f)
                          == if && k == GlobalKey(tier, user, window) && f == peer && f != region
                                && value >= 0 && value > Slot(old(redis.hashes), k, f) && link != Down
                             then value else Slot(old(redis.hashes), k, f)
    {
      if peer == region {
        return OwnSlotWriteError;
      }
      if value < 0 {
        return NegativeValueError;
      }
      var key := GlobalKey(tier, user, window);
      if link == Down {
        return RedisError;
      }
      var was := redis.hashes;
      var written := redis.MaxMerge(key, peer, value);
      forall k, f
        ensures Slot(redis.hashes, k, f)
             == if k == key && f == peer && value > Slot(was, k, f) then value else Slot(was, k, f)
      {
        MaxMergedSlots(was, key, peer, value, k, f);
      }
      assert written ==> redis.hashes[key] != HashAt(was, key);
      result := if link == Up then Applied(written) else RedisError;
    }

    method GetGlobal(tier: string, user: string, window: int) returns (slots: Hash)
      ensures slots == HashAt(redis.hashes, GlobalKey(tier, user, window))
    {
      slots := redis.HGetAll(GlobalKey(tier, user, window));
    }

    method GetOwnSlot(tier: string, user: string, window: int) returns (value: int)
      ensures value == Slot(redis.hashes, GlobalKey(tier, user, window), region)
    {
      var slots := redis.HGetAll(GlobalKey(tier, user, window));
      value := if region in slots then slots[region] else 0;
    }

    // `cursor` is the sequence of keys the SCAN cursor passes over, in any order and with repeats.
    method ScanWindowKeys(cursor: seq<string>, window: int) returns (cells: seq<(string, string)>)
      ensures cells == CellsOf(cursor, window)
      ensures forall c :: c in cells
                     <==> ColonFree(c.0) && ColonFree(c.1) && GlobalKey(c.0, c.1, window) in cursor
    {
      CellsAreExact(cursor, window);
      cells := [];
      for i := 0 to |cursor|
        invariant cells == CellsOf(cursor[..i], window)
      {
        assert cursor[..i + 1][..i] == cursor[..i];
        if Matches(ScanPattern(window), cursor[i]) {
          var parts := Split(cursor[i]);
          if |parts| == 5 {
            cells := cells + [(parts[2], parts[3])];
          }
        }
      }
      assert cursor[..|cursor|] == cursor;
    }
  }

  function CellsOf(cursor: seq<string>, window: int): seq<(string, string)> {
    if cursor == [] then []
    else
      var cell := WindowCell(cursor[|cursor| - 1], window);
      CellsOf(cursor[..|cursor| - 1], window) + if cell.Some? then [cell.value] else []
  }

  // ----- keys

  lemma SplitGlobalKey(tier: string, user: string, window: int)
    requires ColonFree(tier) && ColonFree(user)
    ensures Split(GlobalKey(tier, user, window)) == ["rl", "global", tier, user, Decimal(window)]
  {
    assert "rl:global:" == "rl" + ":" + "global" + ":";
    SplitFive("rl", "global", tier, user, Decimal(window));
  }

  lemma SplitFive(a: string, b: string, c: string, d: string, e: string)
    requires ColonFree(a) && ColonFree(b) && ColonFree(c) && ColonFree(d) && ColonFree(e)
    ensures Split(a + ":" + b + ":" + c + ":" + d + ":" + e) == [a, b, c, d, e]
  {
    SplitColonFree(a);
    SplitSnoc(a, b);
    SplitSnoc(a + ":" + b, c);
    SplitSnoc(a + ":" + b + ":" + c, d);
    SplitSnoc(a + ":" + b + ":" + c + ":" + d, e);
  }

  lemma ColonsJoined(a: string, b: string)
    ensures Colons(a + ":" + b) == Colons(a) + 1 + Colons(b)
  {
    ColonsConcat(a + ":", b);
    ColonsConcat(a, ":");
    assert Colons(":") == 1 + Colons(":"[1..]);
  }

  lemma ColonsOfFive(a: string, b: string, c: string, d: string, e: string)
    ensures Colons(a + ":" + b + ":" + c + ":" + d + ":" + e)
         == 4 + Colons(a) + Colons(b) + Colons(c) + Colons(d) + Colons(e)
  {
    ColonsJoined(a, b);
    ColonsJoined(a + ":" + b, c);
    ColonsJoined(a + ":" + b + ":" + c, d);
    ColonsJoined(a + ":" + b + ":" + c + ":" + d, e);
  }

  lemma ColonsOfGlobalKey(tier: string, user: string, window: int)
    ensures Colons(GlobalKey(tier, user, window)) == 4 + Colons(tier) + Colons(user)
  {
    assert "rl:global:" == "rl" + ":" + "global" + ":";
    ColonsOfFive("rl", "global", tier, user, Decimal(window));
    ColonFreeIffNoColons("rl");
    ColonFreeIffNoColons("global");
    ColonFreeIffNoColons(Decimal(window));
  }

  lemma PatternShape(key: string, window: int)
    ensures Matches(ScanPattern(window), key) <==> exists x, y :: key == GlobalKey(x, y, window)
  {
    var pre, tail := "rl:global:", ":" + Decimal(window);
    TwoStars(pre, ":", tail, key);
    forall x, y
      ensures GlobalKey(x, y, window) == pre + x + (":" + y + tail)
    {
      GlobalKeyShape(pre, x, y, Decimal(window));
    }
  }

  lemma GlobalKeyShape(pre: string, x: string, y: string, w: string)
    ensures pre + x + ":" + y + ":" + w == pre + x + (":" + y + (":" + w))
  {
  }

  /** The scan recovers (tier, user) from a key exactly when neither holds a colon: an id with a colon is
      never scanned, so never rebroadcast. */
  lemma ScanIsExact(key: string, window: int, tier: string, user: string)
    ensures WindowCell(key, window) == Some((tier, user))
       <==> ColonFree(tier) && ColonFree(user) && key == GlobalKey(tier, user, window)
  {
    PatternShape(key, window);
    if WindowCell(key, window).Some? {
      var x, y :| key == GlobalKey(x, y, window);
      ColonsOfGlobalKey(x, y, window);
      ColonFreeIffNoColons(x);
      ColonFreeIffNoColons(y);
      SplitGlobalKey(x, y, window);
    }
    if ColonFree(tier) && ColonFree(user) && key == GlobalKey(tier, user, window) {
      SplitGlobalKey(tier, user, window);
    }
  }

  /** Colon-free names and windows share no key. */
  lemma GlobalKeyInjective(t: string, u: string, w: int, t': string, u': string, w': int)
    requires ColonFree(t) && ColonFree(u) && ColonFree(t') && ColonFree(u')
    requires GlobalKey(t, u, w) == GlobalKey(t', u', w')
    ensures t == t' && u == u' && w == w'
  {
    SplitGlobalKey(t, u, w);
    SplitGlobalKey(t', u', w');
    var p, q := Split(GlobalKey(t, u, w)), Split(GlobalKey(t', u', w'));
    assert p[2] == q[2] && p[3] == q[3] && p[4] == q[4];
    DecimalInjective(w, w');
  }

  /** The scan of a window yields a cell exactly when the key of the cell is there and neither part holds a colon. */
  lemma {:induction false} CellsAreExact(cursor: seq<string>, window: int)
    ensures forall c :: c in CellsOf(cursor, window)
                   <==> ColonFree(c.0) && ColonFree(c.1) && GlobalKey(c.0, c.1, window) in cursor
  {
    if cursor == [] {
    } else {
      var n := |cursor| - 1;
      assert cursor == cursor[..n] + [cursor[n]];
      CellsAreExact(cursor[..n], window);
      forall c: (string, string)
        ensures WindowCell(cursor[n], window) == Some(c)
           <==> ColonFree(c.0) && ColonFree(c.1) && cursor[n] == GlobalKey(c.0, c.1, window)
      {
        ScanIsExact(cursor[n], window, c.0, c.1);
      }
    }
  }

  // ----- the writes of a whole message history

  ghost predicate NonNegative(ws: seq<Write>) {
    forall w | w in ws :: w.value >= 0
  }

  // v is the least value that is at least `base` and at least every value written to (key, region).
  ghost predicate IsLatest(base: int, ws: seq<Write>, key: string, region: string, v: int) {
    && base <= v
    && (forall w | w in ws && w.key == key && w.region == region :: w.value <= v)
    && (v == base || exists w :: w in ws && w.key == key && w.region == region && w.value == v)
  }

  /** A slot ends at the largest of its old value and the values written to it. */
  lemma {:induction false} ApplyAllSlots(s: Store, ws: seq<Write>, key: string, region: string)
    requires NonNegative(ws)
    ensures IsLatest(Slot(s, key, region), ws, key, region, Slot(ApplyAll(s, ws), key, region))
  {
    if ws == [] {
    } else {
      var n := |ws| - 1;
      ApplyAllSlots(s, ws[..n], key, region);
      assert ws == ws[..n] + [ws[n]];
      assert ws[n] in ws;
      MaxMergedSlots(ApplyAll(s, ws[..n]), ws[n].key, ws[n].region, ws[n].value, key, region);
    }
  }

  /** Order, repetition and grouping do not matter: the same set of writes gives the same slots. */
  lemma {:induction false} SameWritesSameSlots(s: Store, ws: seq<Write>, vs: seq<Write>, key: string, region: string)
    requires NonNegative(ws) && NonNegative(vs)
    requires forall w :: w in ws <==> w in vs
    ensures Slot(ApplyAll(s, ws), key, region) == Slot(ApplyAll(s, vs), key, region)
  {
    ApplyAllSlots(s, ws, key, region);
    ApplyAllSlots(s, vs, key, region);
  }

  // The same writes to one key, folded through GCounter.merge one message at a time.
  function MergeAll(slots: map<string, int>, ws: seq<Write>, key: string): map<string, int> {
    if ws == [] then slots
    else
      MergedOne(MergeAll(slots, ws[..|ws| - 1], key), ws[|ws| - 1], key)
  }

  function MergedOne(slots: map<string, int>, w: Write, key: string): map<string, int> {
    if w.key == key then Merged(slots, map[w.region := w.value]) else slots
  }

  // The values written to one slot.
  ghost function WritesTo(ws: seq<Write>, key: string, region: string): set<int> {
    set w | w in ws && w.key == key && w.region == region :: w.value
  }

  // The fields of a key that only zeros were written to.
  ghost predicate ZeroOnly(slots: map<string, int>, ws: seq<Write>, key: string, region: string) {
    region !in slots && WritesTo(ws, key, region) == {0}
  }

  lemma {:induction false} RedisAgainstGCounter(s: Store, ws: seq<Write>, key: string, region: string)
    requires NonNegative(ws)
    requires forall f | f in HashAt(s, key) :: HashAt(s, key)[f] >= 0
    ensures Slot(ApplyAll(s, ws), key, region) == Get(MergeAll(HashAt(s, key), ws, key), region)
    ensures region in MergeAll(HashAt(s, key), ws, key)
       <==> region in HashAt(s, key) || exists v :: v in WritesTo(ws, key, region) && v > 0
    ensures region in HashAt(ApplyAll(s, ws), key)
       <==> region in HashAt(s, key) || WritesTo(ws, key, region) != {}
    ensures forall v | v in WritesTo(ws, key, region) :: v >= 0
    ensures Slot(ApplyAll(s, ws), key, region) >= 0
  {
    if ws == [] {
    } else {
      var n := |ws| - 1;
      RedisAgainstGCounter(s, ws[..n], key, region);
      WritesToLast(ws, key, region);
      OneWriteAgainstMerge(ApplyAll(s, ws[..n]), MergeAll(HashAt(s, key), ws[..n], key), ws[n], key, region);
    }
  }

  // The writes to a slot are those before the last write, and the last one if it is to that slot.
  lemma {:induction false} WritesToLast(ws: seq<Write>, key: string, region: string)
    requires ws != []
    ensures var w := ws[|ws| - 1];
            WritesTo(ws, key, region) == WritesTo(ws[..|ws| - 1], key, region)
                                       + if w.key == key && w.region == region then {w.value} else {}
  {
    assert ws == ws[..|ws| - 1] + [ws[|ws| - 1]];
  }

  lemma OneWriteAgainstMerge(s: Store, slots: map<string, int>, w: Write, key: string, region: string)
    requires w.value >= 0
    requires Slot(s, key, region) == Get(slots, region) >= 0
    requires region in slots ==> region in HashAt(s, key)
    ensures Slot(ApplyWrite(s, w), key, region) == Get(MergedOne(slots, w, key), region) >= Slot(s, key, region)
    ensures region in HashAt(ApplyWrite(s, w), key)
       <==> region in HashAt(s, key) || (w.key == key && w.region == region)
    ensures region in MergedOne(slots, w, key)
       <==> region in slots || (w.key == key && w.region == region && w.value > 0)
  {
    MaxMergedSlots(s, w.key, w.region, w.value, key, region);
  }

  lemma SameWhenSameKeys(h: map<string, int>, g: map<string, int>)
    requires forall r :: Get(h, r) == Get(g, r)
    ensures h == g <==> forall r :: r in h <==> r in g
  {
    if forall r :: r in h <==> r in g {
      assert forall r | r in h :: h[r] == Get(h, r) == Get(g, r) == g[r];
    }
  }

  lemma {:induction false} FieldAgainstGCounter(s: Store, ws: seq<Write>, key: string, region: string)
    requires NonNegative(ws)
    requires forall f | f in HashAt(s, key) :: HashAt(s, key)[f] >= 0
    ensures Slot(ApplyAll(s, ws), key, region) == Get(MergeAll(HashAt(s, key), ws, key), region)
    ensures region in MergeAll(HashAt(s, key), ws, key) ==> region in HashAt(ApplyAll(s, ws), key)
    ensures ZeroOnly(HashAt(s, key), ws, key, region)
       <==> region in HashAt(ApplyAll(s, ws), key) && region !in MergeAll(HashAt(s, key), ws, key)
  {
    RedisAgainstGCounter(s, ws, key, region);
  }

  /** The Redis hash refines the counter of sync/crdt.py: the two hold the same slots when absent is read
      as 0, and are the same map exactly when no field was written with zeros alone. */
  lemma {:induction false} RedisRefinesGCounter(s: Store, ws: seq<Write>, key: string)
    requires NonNegative(ws)
    requires forall f | f in HashAt(s, key) :: HashAt(s, key)[f] >= 0
    ensures forall r :: Slot(ApplyAll(s, ws), key, r) == Get(MergeAll(HashAt(s, key), ws, key), r)
    ensures HashAt(ApplyAll(s, ws), key) == MergeAll(HashAt(s, key), ws, key)
       <==> forall r :: !ZeroOnly(HashAt(s, key), ws, key, r)
  {
    var h, g := HashAt(ApplyAll(s, ws), key), MergeAll(HashAt(s, key), ws, key);
    forall r
      ensures Get(h, r) == Get(g, r)
      ensures r in g ==> r in h
      ensures ZeroOnly(HashAt(s, key), ws, key, r) <==> r in h && r !in g
    {
      FieldAgainstGCounter(s, ws, key, r);
    }
    SameWhenSameKeys(h, g);
  }
}
