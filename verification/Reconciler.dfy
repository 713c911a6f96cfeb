/** sync/reconciler.py: one pass over the keys of a window, rebroadcasting the region's own slots in chunks. */
module Reconcilers {
  import opened Counter
  import opened Envelopes
  import opened HashStore
  import opened Wrappers

  // A cell the scan yielded, and the hash that HGETALL then returned for it.
  datatype View = View(cell: Cell, slots: Hash)

  type Chunk = map<Cell, int>

  predicate CarriesOwn(region: string, v: View) {
    region in v.slots && v.slots[region] >= 0
  }

  // The state of a pass: the chunk being filled, the chunks published, the keys counted.
  datatype Pass = Pass(chunk: Chunk, published: seq<Chunk>, keys: nat)

  function ScanStep(region: string, size: int, p: Pass, v: View): Pass {
    if !CarriesOwn(region, v) then p
    else
      var chunk := p.chunk[v.cell := v.slots[region]];
      if |chunk| >= size then Pass(map[], p.published + [chunk], p.keys + 1)
      else Pass(chunk, p.published, p.keys + 1)
  }

  function ScanAll(region: string, size: int, views: seq<View>): Pass {
    if views == [] then Pass(map[], [], 0)
    else ScanStep(region, size, ScanAll(region, size, views[..|views| - 1]), views[|views| - 1])
  }

  /** The chunks a whole pass publishes. */
  function Chunks(region: string, size: int, views: seq<View>): seq<Chunk> {
    var p := ScanAll(region, size, views);
    p.published + if p.chunk != map[] then [p.chunk] else []
  }

  function ChunkEnvelope(region: string, window: int, tsMs: int, chunk: Chunk): Envelope {
    ReconcileEnvelope(region, window, tsMs, chunk, JInt(RECONCILE_VERSION))
  }

  // The envelopes that carry the chunks, in order; clock gives the time of each publish.
  function Announcements(region: string, window: int, clock: nat -> int, chunks: seq<Chunk>): seq<Envelope> {
    seq(|chunks|, i requires 0 <= i < |chunks| => ChunkEnvelope(region, window, clock(i), chunks[i]))
  }

  lemma {:induction false} AnnounceOne(region: string, window: int, clock: nat -> int, chunks: seq<Chunk>,
                                       chunk: Chunk)
    ensures Announcements(region, window, clock, chunks + [chunk])
         == Announcements(region, window, clock, chunks) + [ChunkEnvelope(region, window, clock(|chunks|), chunk)]
  {
  }

  datatype Stats = Stats(keysProcessed: nat, chunksPublished: nat)

  // The first n publishes of a pass succeed.
  ghost predicate AllUp(n: nat, links: nat -> Link) {
    forall i: nat | i < n :: links(i) == Up
  }

  // How many of n chunks get on the channel: those before the first publish that raises, and that one too
  // when only its reply was lost.
  ghost function OnChannel(n: nat, links: nat -> Link): (k: nat)
    ensures k <= n
  {
    if n == 0 then 0
    else if !AllUp(n - 1, links) then OnChannel(n - 1, links)
    else if links(n - 1) == Down then n - 1 else n
  }

  lemma {:induction false} StopsAtFailure(k: nat, n: nat, links: nat -> Link)
    requires k < n && AllUp(k, links) && links(k) != Up
    ensures OnChannel(n, links) == (if links(k) == Down then k else k + 1)
  {
    if n == k + 1 {
    } else {
      StopsAtFailure(k, n - 1, links);
    }
  }

  lemma {:induction false} AllGetThrough(n: nat, links: nat -> Link)
    requires AllUp(n, links)
    ensures OnChannel(n, links) == n
  {
  }

  /** One pass as it happens: the reads the scan leads to, whether the scan or a read then raises, the time of
      each publish and how each ends. */
  datatype Circumstances = Circumstances(views: seq<View>, scanRaises: bool, clock: nat -> int, links: nat -> Link)

  // The chunks a pass comes to publish; a scan that raises leaves the last chunk unsent.
  function Attempted(region: string, size: int, c: Circumstances): seq<Chunk> {
    if c.scanRaises then ScanAll(region, size, c.views).published else Chunks(region, size, c.views)
  }

  // What a pass puts on the channel.
  ghost function PassOutput(region: string, size: int, window: int, c: Circumstances): seq<Envelope> {
    var chunks := Attempted(region, size, c);
    Announcements(region, window, c.clock, chunks[..OnChannel(|chunks|, c.links)])
  }

  /** In plain terms: what a pass adds to the channel are its chunks, in order and each in an envelope of its own
      with the time of its publish, up to the first publish that raises, and that one too if only its reply was
      lost. */
  ghost predicate Publishes(region: string, size: int, window: int, c: Circumstances, before: seq<Envelope>,
                            after: seq<Envelope>)
  {
    var chunks, sent := Attempted(region, size, c), |after| - |before|;
    && 0 <= sent <= |chunks| && before <= after
    && (forall i: nat | i < sent ::
          after[|before|..][i] == ReconcileEnvelope(region, window, c.clock(i), chunks[i], JInt(1)))
    && (forall i: nat | i < sent :: c.links(i) == Up || (c.links(i) == ReplyLost && i == sent - 1))
    && (sent < |chunks| ==> c.links(sent) == Down || (sent > 0 && c.links(sent - 1) == ReplyLost))
  }

  lemma {:induction false} OnChannelIs(n: nat, links: nat -> Link)
    ensures var sent := OnChannel(n, links);
            && (forall i: nat | i < sent :: links(i) == Up || (links(i) == ReplyLost && i == sent - 1))
            && (sent < n ==> links(sent) == Down || (sent > 0 && links(sent - 1) == ReplyLost))
  {
    if n == 0 {
    } else {
      OnChannelIs(n - 1, links);
      if AllUp(n - 1, links) {
        AllGetThrough(n - 1, links);
      }
    }
  }

  lemma {:induction false} OutputIsPublished(region: string, size: int, window: int, c: Circumstances,
                                             before: seq<Envelope>)
    ensures Publishes(region, size, window, c, before, before + PassOutput(region, size, window, c))
  {
    OnChannelIs(|Attempted(region, size, c)|, c.links);
    ChunksAreCarried(region, window, c.clock, Attempted(region, size, c),
                     OnChannel(|Attempted(region, size, c)|, c.links));
    assert (before + PassOutput(region, size, window, c))[|before|..] == PassOutput(region, size, window, c);
  }

  lemma {:induction false} ChunksAreCarried(region: string, window: int, clock: nat -> int, chunks: seq<Chunk>, n: nat)
    requires n <= |chunks|
    ensures |Announcements(region, window, clock, chunks[..n])| == n
    ensures forall i: nat | i < n :: Announcements(region, window, clock, chunks[..n])[i]
                                  == ReconcileEnvelope(region, window, clock(i), chunks[i], JInt(1))
  {
  }

  class Reconciler {
    const region: string
    const chunkSize: int
    var published: seq<Envelope>

    constructor (region: string, chunkSize: int)
      ensures this.region == region && this.chunkSize == chunkSize && published == []
    {
      this.region := region;
      this.chunkSize := chunkSize;
      published := [];
    }

    // None where the source raises: from the scan, from a read, or from a publish. OutputIsPublished says in plain
    // terms what PassOutput is.
    method ReconcileOnce(window: int, c: Circumstances) returns (stats: Option<Stats>)
      modifies this
      ensures published == old(published) + PassOutput(region, chunkSize, window, c)
      ensures stats.Some? <==> !c.scanRaises && AllUp(|Chunks(region, chunkSize, c.views)|, c.links)
      ensures stats.Some? ==>
                && stats.value.keysProcessed == ScanAll(region, chunkSize, c.views).keys
                && stats.value.chunksPublished == |Chunks(region, chunkSize, c.views)|
    {
      var chunk: Chunk := map[];
      var keys, chunks := 0, 0;
      ghost var all, before := Attempted(region, chunkSize, c), published;
      ghost var p := Pass(map[], [], 0);
      for i := 0 to |c.views|
        invariant p == ScanAll(region, chunkSize, c.views[..i])
        invariant p.chunk == chunk && p.keys == keys && |p.published| == chunks <= |all|
        invariant Reached(before, window, c, all, chunks)
      {
        ScanOneMore(region, chunkSize, c, i);
        var v := c.views[i];
        p := ScanStep(region, chunkSize, p, v);
        if region !in v.slots || v.slots[region] < 0 {
          continue;
        }
        chunk := chunk[v.cell := v.slots[region]];
        keys := keys + 1;
        if |chunk| >= chunkSize {
          var ok := PublishChunk(window, c, chunk, chunks, before, all);
          if !ok {
            return None;
          }
          chunk := map[];
          chunks := chunks + 1;
        }
      }
      assert c.views[..|c.views|] == c.views;
      if !c.scanRaises && chunk != map[] {
        var ok := PublishChunk(window, c, chunk, chunks, before, all);
        if !ok {
          return None;
        }
        chunks := chunks + 1;
      }
      AllGetThrough(chunks, c.links);
      return if c.scanRaises then None else Some(Stats(keys, chunks));
    }

    // The first k of the chunks are published, and no publish has raised.
    ghost predicate Reached(before: seq<Envelope>, window: int, c: Circumstances, all: seq<Chunk>, k: nat)
      requires k <= |all|
      reads this
    {
      AllUp(k, c.links) && published == before + Announcements(region, window, c.clock, all[..k])
    }

    // Publish k of the pass that attempts `all`; false where it raises.
    method PublishChunk(window: int, c: Circumstances, chunk: Chunk, k: nat, ghost before: seq<Envelope>,
                        ghost all: seq<Chunk>) returns (ok: bool)
      requires k < |all| && all[k] == chunk && Reached(before, window, c, all, k)
      modifies this
      ensures ok <==> c.links(k) == Up
      ensures ok ==> Reached(before, window, c, all, k + 1)
      ensures !ok ==> published == before + Announcements(region, window, c.clock, all[..OnChannel(|all|, c.links)])
    {
      var link := c.links(k);
      AnnounceNext(region, window, c.clock, all, k);
      if link != Up {
        StopsAtFailure(k, |all|, c.links);
      }
      if link == Down {
        return false;
      }
      published := published + [ChunkEnvelope(region, window, c.clock(k), chunk)];
      return link == Up;
    }

    /** A tick passes over the current window and the one before; a pass that raises does not stop the other. */
    method Tick(nowSeconds: int, current: Circumstances, previous: Circumstances)
      modifies this
      ensures published == old(published) + PassOutput(region, chunkSize, nowSeconds / 60, current)
                         + PassOutput(region, chunkSize, nowSeconds / 60 - 1, previous)
      ensures exists mid ::
                && Publishes(region, chunkSize, nowSeconds / 60, current, old(published), mid)
                && Publishes(region, chunkSize, nowSeconds / 60 - 1, previous, mid, published)
    {
      var nowWindow := nowSeconds / 60;
      OutputIsPublished(region, chunkSize, nowWindow, current, published);
      OutputIsPublished(region, chunkSize, nowWindow - 1, previous,
                        published + PassOutput(region, chunkSize, nowWindow, current));
      var _ := ReconcileOnce(nowWindow, current);
      var _ := ReconcileOnce(nowWindow - 1, previous);
    }
  }

  // Read i takes the pass one step on, and what it has published then is the beginning of what it attempts.
  lemma {:induction false} ScanOneMore(region: string, size: int, c: Circumstances, i: nat)
    requires i < |c.views|
    ensures ScanAll(region, size, c.views[..i + 1])
         == ScanStep(region, size, ScanAll(region, size, c.views[..i]), c.views[i])
    ensures ScanAll(region, size, c.views[..i + 1]).published <= Attempted(region, size, c)
  {
    assert c.views[..i + 1][..i] == c.views[..i];
    PublishedGrows(region, size, c.views, i + 1);
  }

  lemma {:induction false} PublishedGrows(region: string, size: int, views: seq<View>, i: nat)
    requires i <= |views|
    ensures ScanAll(region, size, views[..i]).published <= ScanAll(region, size, views).published
    decreases |views| - i
  {
    if i == |views| {
      assert views[..i] == views;
    } else {
      PublishedGrows(region, size, views, i + 1);
      assert views[..i + 1][..i] == views[..i];
    }
  }

  lemma {:induction false} AnnounceNext(region: string, window: int, clock: nat -> int, chunks: seq<Chunk>, k: nat)
    requires k < |chunks|
    ensures Announcements(region, window, clock, chunks[..k + 1])
         == Announcements(region, window, clock, chunks[..k]) + [ChunkEnvelope(region, window, clock(k), chunks[k])]
  {
    assert chunks[..k + 1] == chunks[..k] + [chunks[k]];
    AnnounceOne(region, window, clock, chunks[..k], chunks[k]);
  }

  // ----- what a pass publishes, for any scan order and with repeated keys

  lemma {:induction false} GrowsByOne(chunk: Chunk, c: Cell, value: int)
    ensures |chunk[c := value]| == if c in chunk then |chunk| else |chunk| + 1
    ensures |chunk[c := value]| >= 1
  {
    assert chunk[c := value].Keys == chunk.Keys + {c};
    assert c in chunk[c := value].Keys;
  }

  /** Every published chunk is nonempty and at most the chunk size. */
  lemma {:induction false} ChunksAreSized(region: string, size: int, views: seq<View>)
    requires size >= 1
    ensures forall ch | ch in Chunks(region, size, views) :: 1 <= |ch| <= size
  {
    PassCounts(region, size, views);
    var p := ScanAll(region, size, views);
    if p.chunk != map[] {
      var c :| c in p.chunk;
      assert p.chunk.Keys >= {c};
      assert |p.chunk.Keys| >= |{c}| by {
        assert p.chunk.Keys == {c} + (p.chunk.Keys - {c});
      }
    }
  }

  // How many reads found an own slot.
  function OwnReads(region: string, views: seq<View>): nat {
    if views == [] then 0
    else
      var v := views[|views| - 1];
      OwnReads(region, views[..|views| - 1]) + if region in v.slots && v.slots[region] >= 0 then 1 else 0
  }

  /** Whatever the scan yields, the pass counts the reads that found an own slot, and what it has published before
      its end are full chunks: a pass whose scan raises leaves less than a chunk unsent. */
  lemma {:induction false} PassCounts(region: string, size: int, views: seq<View>)
    requires size >= 1
    ensures ScanAll(region, size, views).keys == OwnReads(region, views)
    ensures forall ch | ch in ScanAll(region, size, views).published :: |ch| == size
    ensures |ScanAll(region, size, views).chunk| < size
  {
    if views == [] {
    } else {
      PassCounts(region, size, views[..|views| - 1]);
      var p, v := ScanAll(region, size, views[..|views| - 1]), views[|views| - 1];
      if CarriesOwn(region, v) {
        GrowsByOne(p.chunk, v.cell, v.slots[region]);
      }
    }
  }

  ghost predicate Held(p: Pass, c: Cell) {
    c in p.chunk || InSome(p.published, c)
  }

  lemma {:induction false} InSomeAppend(chunks: seq<Chunk>, chunk: Chunk, c: Cell)
    ensures InSome(chunks + [chunk], c) <==> InSome(chunks, c) || c in chunk
  {
    assert (chunks + [chunk])[|chunks|] == chunk;
    assert forall ch | ch in chunks :: ch in chunks + [chunk];
  }

  lemma {:induction false} ScanCovers(region: string, size: int, views: seq<View>, c: Cell)
    ensures Held(ScanAll(region, size, views), c) <==> Scanned(region, views, c)
  {
    if views == [] {
    } else {
      var n := |views| - 1;
      assert views == views[..n] + [views[n]];
      ScanCovers(region, size, views[..n], c);
      var p, q, v := ScanAll(region, size, views[..n]), ScanAll(region, size, views), views[n];
      assert v in views;
      assert Scanned(region, views, c)
        <==> Scanned(region, views[..n], c) || (v.cell == c && CarriesOwn(region, v));
      if CarriesOwn(region, v) {
        var chunk := p.chunk[v.cell := v.slots[region]];
        if |chunk| >= size {
          InSomeAppend(p.published, chunk, c);
        }
      }
    }
  }

  lemma {:induction false} ScanValues(region: string, size: int, views: seq<View>)
    ensures forall c | c in ScanAll(region, size, views).chunk ::
              View(c, map[region := ScanAll(region, size, views).chunk[c]]) in OwnViews(region, views)
    ensures forall ch, c | ch in ScanAll(region, size, views).published && c in ch ::
              View(c, map[region := ch[c]]) in OwnViews(region, views)
  {
    if views == [] {
    } else {
      var n := |views| - 1;
      assert views == views[..n] + [views[n]];
      ScanValues(region, size, views[..n]);
      assert OwnViews(region, views[..n]) <= OwnViews(region, views);
      if CarriesOwn(region, views[n]) {
        assert views[n] in views;
        assert View(views[n].cell, map[region := views[n].slots[region]]) in OwnViews(region, views);
      }
    }
  }

  // The own slots the reads of a pass returned.
  ghost function OwnViews(region: string, views: seq<View>): set<View> {
    set v | v in views && CarriesOwn(region, v) :: View(v.cell, map[region := v.slots[region]])
  }

  ghost predicate InSome(chunks: seq<Chunk>, c: Cell) {
    exists ch :: ch in chunks && c in ch
  }

  // Some scanned cell is c, with an own slot.
  ghost predicate Scanned(region: string, views: seq<View>, c: Cell) {
    exists v :: v in views && v.cell == c && CarriesOwn(region, v)
  }

  /** The cells published are exactly the scanned cells that carry an own slot, and every value published
      is the own slot some read returned. */
  lemma {:induction false} ChunksAreExact(region: string, size: int, views: seq<View>)
    ensures forall c :: InSome(Chunks(region, size, views), c) <==> Scanned(region, views, c)
    ensures forall ch, c | ch in Chunks(region, size, views) && c in ch ::
              exists v :: v in views && v.cell == c && region in v.slots && v.slots[region] == ch[c] >= 0
  {
    var p := ScanAll(region, size, views);
    forall c
      ensures InSome(Chunks(region, size, views), c) <==> Scanned(region, views, c)
    {
      ScanCovers(region, size, views, c);
      if c in p.chunk {
        assert Chunks(region, size, views)[|p.published|] == p.chunk;
      }
      assert forall ch | ch in p.published :: ch in Chunks(region, size, views);
    }
    ScanValues(region, size, views);
    forall ch, c | ch in Chunks(region, size, views) && c in ch
      ensures exists v :: v in views && v.cell == c && region in v.slots && v.slots[region] == ch[c] >= 0
    {
      assert View(c, map[region := ch[c]]) in OwnViews(region, views);
      var v :| v in views && CarriesOwn(region, v)
               && View(v.cell, map[region := v.slots[region]]) == View(c, map[region := ch[c]]);
      assert map[region := v.slots[region]][region] == map[region := ch[c]][region];
    }
  }

  lemma {:induction false} CellIsNew(views: seq<View>, chunk: Chunk)
    requires views != [] && forall i, j | 0 <= i < j < |views| :: views[i].cell != views[j].cell
    requires forall c | c in chunk :: exists v :: v in views[..|views| - 1] && v.cell == c
    ensures views[|views| - 1].cell !in chunk
  {
    forall c | c in chunk
      ensures c != views[|views| - 1].cell
    {
      var u :| u in views[..|views| - 1] && u.cell == c;
      var i :| 0 <= i < |views| - 1 && views[i] == u;
    }
  }

  lemma {:induction false} ScanCounts(region: string, size: int, views: seq<View>)
    requires size >= 1
    requires forall i, j | 0 <= i < j < |views| :: views[i].cell != views[j].cell
    ensures var p := ScanAll(region, size, views);
            p.keys == |p.published| * size + |p.chunk|
    ensures forall c | c in ScanAll(region, size, views).chunk :: exists v :: v in views && v.cell == c
    ensures |ScanAll(region, size, views).chunk| < size
  {
    if views == [] {
    } else {
      var n := |views| - 1;
      assert views == views[..n] + [views[n]];
      ScanCounts(region, size, views[..n]);
      var p, v := ScanAll(region, size, views[..n]), views[n];
      GrowsByOne(p.chunk, v.cell, if region in v.slots then v.slots[region] else 0);
      CellIsNew(views, p.chunk);
      assert v in views;
      if CarriesOwn(region, v) && |p.chunk[v.cell := v.slots[region]]| >= size {
        assert (|p.published| + 1) * size == |p.published| * size + size;
      }
    }
  }

  /** When the scan repeats no cell, a pass over k own slots publishes ceil(k / size) chunks. */
  lemma {:induction false} ChunkCount(region: string, size: int, views: seq<View>)
    requires size >= 1
    requires forall i, j | 0 <= i < j < |views| :: views[i].cell != views[j].cell
    ensures |Chunks(region, size, views)| == (ScanAll(region, size, views).keys + size - 1) / size
  {
    ScanCounts(region, size, views);
    var p := ScanAll(region, size, views);
    assert p.chunk == map[] <==> |p.chunk| == 0;
    CeilingDivision(|p.published|, size, |p.chunk|);
  }

  lemma CeilingDivision(n: nat, size: nat, r: nat)
    requires r < size
    ensures (n * size + r + size - 1) / size == n + if r == 0 then 0 else 1
  {
    if r == 0 {
      Division(n, size, size - 1);
    } else {
      assert (n + 1) * size == n * size + size;
      Division(n + 1, size, r - 1);
    }
  }

  lemma Division(q: nat, d: nat, r: nat)
    requires r < d
    ensures (q * d + r) / d == q
  {
    var x, m := (q * d + r) / d, (q * d + r) % d;
    assert (x - q) * d == r - m;
    assert x - q >= 1 ==> (x - q) * d >= d;
    assert x - q <= -1 ==> (x - q) * d + d <= 0;
  }
}
