/** gateway/internal/limiter/sliding_window.lua and sliding_window.go: the log of admitted requests kept in a
    sorted set, pruned at every call. */
module SlidingWindows {
  import opened Text
  import opened Wrappers

  const WINDOW_MS := 60000
  const TTL_MS := 120000
  const SEQ_MODULUS := 0x1_0000_0000_0000_0000

  // A sorted set: each member with its score.
  type ZSet = map<string, int>

  datatype Reply = Reply(allowed: bool, remaining: int, retryAfterMs: int)

  // ZREMRANGEBYSCORE from -inf to the cut, which removes the cut itself too.
  function After(z: ZSet, cut: int): ZSet {
    map m | m in z && z[m] > cut :: z[m]
  }

  ghost predicate IsLowest(z: ZSet, score: int) {
    && (exists m :: m in z && z[m] == score)
    && forall m | m in z :: score <= z[m]
  }

  lemma {:induction false} LowestExists(z: ZSet, keys: set<string>) returns (m: string)
    requires keys <= z.Keys && keys != {}
    ensures m in keys && forall k | k in keys :: z[m] <= z[k]
    decreases keys
  {
    m :| m in keys;
    if keys != {m} {
      var n := LowestExists(z, keys - {m});
      if z[n] < z[m] {
        m := n;
      }
    }
  }

  // ZRANGE 0 0 WITHSCORES on a nonempty set.
  ghost function Lowest(z: ZSet): (score: int)
    requires z != map[]
    ensures IsLowest(z, score)
  {
    assert exists m :: m in z && forall k | k in z :: z[m] <= z[k] by {
      var m0 :| m0 in z;
      assert z.Keys != {};
      var m := LowestExists(z, z.Keys);
    }
    var m :| m in z && forall k | k in z :: z[m] <= z[k];
    z[m]
  }

  function Member(nowMs: int, nonce: string): string {
    Decimal(nowMs) + ":" + nonce
  }

  /** One call of the script: the set it leaves and the reply. */
  ghost function Call(z: ZSet, limit: int, nowMs: int, nonce: string): (ZSet, Reply) {
    var live := After(z, nowMs - WINDOW_MS);
    if |live| >= limit then
      (live, Reply(false, 0, if live == map[] then 0 else Max(0, Lowest(live) + WINDOW_MS - nowMs)))
    else (live[Member(nowMs, nonce) := nowMs], Reply(true, limit - |live| - 1, 0))
  }

  class SlidingWindowLogLimiter {
    var seqNo: nat
    var zsets: map<string, ZSet>

    constructor ()
      ensures seqNo == 0 && zsets == map[]
    {
      seqNo := 0;
      zsets := map[];
    }

    ghost function SetAt(key: string): ZSet
      reads this
    {
      if key in zsets then zsets[key] else map[]
    }

    // The burst parameter is ignored. The atomic sequence number wraps at 64 bits.
    method Check(key: string, limit: int, burst: int, nowMs: int) returns (reply: Reply)
      modifies this
      ensures seqNo == (old(seqNo) + 1) % SEQ_MODULUS
      ensures SetAt(key) == Call(old(SetAt(key)), limit, nowMs, Decimal(seqNo)).0
      ensures reply == Call(old(SetAt(key)), limit, nowMs, Decimal(seqNo)).1
      ensures forall other | other != key :: SetAt(other) == old(SetAt(other))
    {
      seqNo := (seqNo + 1) % SEQ_MODULUS;
      var z := if key in zsets then zsets[key] else map[];
      z := map m | m in z && z[m] > nowMs - WINDOW_MS :: z[m];
      var count := |z|;
      if count >= limit {
        var retryAfterMs := 0;
        if z != map[] {
          ghost var low := Lowest(z);
          var oldest :| oldest in z && forall k | k in z :: z[oldest] <= z[k];
          assert z[oldest] == low;
          retryAfterMs := z[oldest] + WINDOW_MS - nowMs;
          if retryAfterMs < 0 {
            retryAfterMs := 0;
          }
        }
        zsets := zsets[key := z];
        return Reply(false, 0, retryAfterMs);
      }
      zsets := zsets[key := z[Member(nowMs, Decimal(seqNo)) := nowMs]];
      return Reply(true, limit - count - 1, 0);
    }
  }

  // ----- histories of calls on one key, and the log that is never pruned

  datatype Request = Request(nowMs: int, limit: int, nonce: string)

  ghost function RunSet(rs: seq<Request>): (ZSet, seq<Reply>) {
    if rs == [] then (map[], [])
    else
      var r := rs[|rs| - 1];
      var (z, replies) := RunSet(rs[..|rs| - 1]);
      var (end, reply) := Call(z, r.limit, r.nowMs, r.nonce);
      (end, replies + [reply])
  }

  // The number of entries after the cut, and the first of them.
  function CountAfter(log: seq<int>, cut: int): nat {
    if log == [] then 0 else CountAfter(log[..|log| - 1], cut) + if log[|log| - 1] > cut then 1 else 0
  }

  function FirstAfter(log: seq<int>, cut: int): int
    requires CountAfter(log, cut) > 0
  {
    var before := log[..|log| - 1];
    if CountAfter(before, cut) > 0 then FirstAfter(before, cut) else log[|log| - 1]
  }

  /** The specification: a log of every admission, deciding by the entries of the last minute. */
  function LogCall(log: seq<int>, limit: int, nowMs: int): (seq<int>, Reply) {
    var cut := nowMs - WINDOW_MS;
    var count := CountAfter(log, cut);
    if count >= limit then (log, Reply(false, 0, if count == 0 then 0 else FirstAfter(log, cut) + WINDOW_MS - nowMs))
    else (log + [nowMs], Reply(true, limit - count - 1, 0))
  }

  function RunLog(rs: seq<Request>): (seq<int>, seq<Reply>) {
    if rs == [] then ([], [])
    else
      var r := rs[|rs| - 1];
      var (log, replies) := RunLog(rs[..|rs| - 1]);
      var (end, reply) := LogCall(log, r.limit, r.nowMs);
      (end, replies + [reply])
  }

  ghost predicate Nondecreasing(rs: seq<Request>) {
    forall i, j {:trigger TimeAt(rs, i), TimeAt(rs, j)} | 0 <= i < j < |rs| :: TimeAt(rs, i) <= TimeAt(rs, j)
  }

  function TimeAt(rs: seq<Request>, i: nat): int
    requires i < |rs|
  {
    rs[i].nowMs
  }

  // One process never reuses a nonce within 2^64 calls; a nonce holds no colon.
  ghost predicate DistinctNonces(rs: seq<Request>) {
    && (forall r | r in rs :: ColonFree(r.nonce))
    && forall i, j | 0 <= i < j < |rs| :: rs[i].nonce != rs[j].nonce
  }

  lemma {:induction false} InOrder(rs: seq<Request>, i: nat, j: nat)
    requires Nondecreasing(rs) && i <= j < |rs|
    ensures rs[i].nowMs <= rs[j].nowMs
  {
    assert TimeAt(rs, i) <= TimeAt(rs, j);
  }

  lemma {:induction false} PrefixKeepsOrder(rs: seq<Request>, n: nat)
    requires n <= |rs| && Nondecreasing(rs)
    ensures Nondecreasing(rs[..n])
  {
    forall i, j | 0 <= i < j < n
      ensures TimeAt(rs[..n], i) <= TimeAt(rs[..n], j)
    {
      InOrder(rs, i, j);
    }
  }

  lemma {:induction false} PrefixKeepsNonces(rs: seq<Request>, n: nat)
    requires n <= |rs| && DistinctNonces(rs)
    ensures DistinctNonces(rs[..n])
  {
    assert forall r | r in rs[..n] :: r in rs;
  }

  /** The nonces of one process are distinct as long as its sequence number has not wrapped. */
  lemma NoncesAreDistinct(m: nat, n: nat)
    requires m < n < SEQ_MODULUS
    ensures Decimal(m) != Decimal(n) && ColonFree(Decimal(m))
  {
    if Decimal(m) == Decimal(n) {
      DecimalInjective(m, n);
    }
  }

  lemma MembersDiffer(t: int, nonce: string, t': int, nonce': string)
    requires ColonFree(nonce) && ColonFree(nonce') && nonce != nonce'
    ensures Member(t, nonce) != Member(t', nonce')
  {
    SplitCons(Decimal(t), nonce);
    SplitCons(Decimal(t'), nonce');
    SplitColonFree(nonce);
    SplitColonFree(nonce');
    assert Split(Member(t, nonce))[1] == nonce && Split(Member(t', nonce'))[1] == nonce';
  }

  // The members the admissions of a history added, none of them pruned.
  function Added(rs: seq<Request>): ZSet {
    if rs == [] then map[]
    else
      Extended(Added(rs[..|rs| - 1]), RunLog(rs[..|rs| - 1]).0, rs[|rs| - 1])
  }

  function Extended(all: ZSet, log: seq<int>, r: Request): ZSet {
    if LogCall(log, r.limit, r.nowMs).1.allowed then all[Member(r.nowMs, r.nonce) := r.nowMs] else all
  }

  lemma {:induction false} AddedMembers(rs: seq<Request>)
    ensures forall m | m in Added(rs) :: exists r :: r in rs && m == Member(r.nowMs, r.nonce) && Added(rs)[m] == r.nowMs
  {
    if rs == [] {
    } else {
      var n := |rs| - 1;
      assert rs == rs[..n] + [rs[n]];
      AddedMembers(rs[..n]);
      assert rs[n] in rs;
    }
  }

  lemma {:induction false} NewMemberIsNew(rs: seq<Request>)
    requires rs != [] && DistinctNonces(rs)
    ensures Member(rs[|rs| - 1].nowMs, rs[|rs| - 1].nonce) !in Added(rs[..|rs| - 1])
  {
    var n := |rs| - 1;
    AddedMembers(rs[..n]);
    forall m | m in Added(rs[..n])
      ensures m != Member(rs[n].nowMs, rs[n].nonce)
    {
      var r :| r in rs[..n] && m == Member(r.nowMs, r.nonce);
      var i :| 0 <= i < n && rs[i] == r;
      MembersDiffer(r.nowMs, r.nonce, rs[n].nowMs, rs[n].nonce);
    }
  }

  lemma {:induction false} AfterInsert(z: ZSet, m: string, score: int, cut: int)
    requires m !in z
    ensures |After(z[m := score], cut)| == |After(z, cut)| + if score > cut then 1 else 0
  {
    if score > cut {
      assert After(z[m := score], cut) == After(z, cut)[m := score];
      assert After(z[m := score], cut).Keys == After(z, cut).Keys + {m};
    } else {
      assert After(z[m := score], cut) == After(z, cut);
    }
  }

  /** The unpruned set and the log agree, after every cut, on how many entries there are. */
  lemma {:induction false} AddedCounts(rs: seq<Request>, cut: int)
    requires DistinctNonces(rs)
    ensures |After(Added(rs), cut)| == CountAfter(RunLog(rs).0, cut)
  {
    if rs == [] {
    } else {
      var n := |rs| - 1;
      PrefixKeepsNonces(rs, n);
      AddedCounts(rs[..n], cut);
      NewMemberIsNew(rs);
      AfterInsert(Added(rs[..n]), Member(rs[n].nowMs, rs[n].nonce), rs[n].nowMs, cut);
      var log := RunLog(rs[..n]).0;
      assert (log + [rs[n].nowMs])[..|log|] == log;
    }
  }

  // ----- logs under a nondecreasing clock are sorted

  ghost predicate Sorted(log: seq<int>) {
    forall i, j | 0 <= i < j < |log| :: log[i] <= log[j]
  }

  ghost predicate AtMost(log: seq<int>, now: int) {
    forall e | e in log :: e <= now
  }

  lemma {:induction false} CallKeepsSorted(log: seq<int>, limit: int, now: int)
    requires Sorted(log) && AtMost(log, now)
    ensures Sorted(LogCall(log, limit, now).0) && AtMost(LogCall(log, limit, now).0, now)
  {
    assert forall i | 0 <= i < |log| :: log[i] in log;
  }

  lemma {:induction false} LogIsSorted(rs: seq<Request>)
    requires Nondecreasing(rs)
    ensures Sorted(RunLog(rs).0)
    ensures if rs == [] then RunLog(rs).0 == [] else AtMost(RunLog(rs).0, rs[|rs| - 1].nowMs)
  {
    if rs == [] {
    } else {
      var n := |rs| - 1;
      PrefixKeepsOrder(rs, n);
      LogIsSorted(rs[..n]);
      if n > 0 {
        InOrder(rs, n - 1, n);
        assert rs[..n][n - 1] == rs[n - 1];
      }
      CallKeepsSorted(RunLog(rs[..n]).0, rs[n].limit, rs[n].nowMs);
    }
  }

  lemma {:induction false} LastOrBefore(log: seq<int>)
    requires log != []
    ensures forall e :: e in log <==> e in log[..|log| - 1] || e == log[|log| - 1]
  {
    assert log == log[..|log| - 1] + [log[|log| - 1]];
  }

  lemma {:induction false} FirstIsLowest(log: seq<int>, cut: int)
    requires Sorted(log) && CountAfter(log, cut) > 0
    ensures FirstAfter(log, cut) in log && FirstAfter(log, cut) > cut
    ensures forall e | e in log && e > cut :: FirstAfter(log, cut) <= e
  {
    var before := log[..|log| - 1];
    LastOrBefore(log);
    if CountAfter(before, cut) > 0 {
      FirstIsLowest(before, cut);
      assert FirstAfter(before, cut) in before;
    } else {
      NoneAfter(before, cut);
    }
  }

  lemma {:induction false} NoneAfter(log: seq<int>, cut: int)
    ensures CountAfter(log, cut) == 0 <==> forall e | e in log :: e <= cut
  {
    if log == [] {
    } else {
      var before, last := log[..|log| - 1], log[|log| - 1];
      NoneAfter(before, cut);
      LastOrBefore(log);
      assert last in log;
      assert forall e | e in before :: e in log;
    }
  }

  // The scores in z are exactly the entries of the log.
  ghost predicate SameScores(z: ZSet, log: seq<int>) {
    z.Values == set e | e in log
  }

  lemma {:induction false} SameScoresInsert(z: ZSet, log: seq<int>, m: string, e: int)
    requires SameScores(z, log) && m !in z
    ensures SameScores(z[m := e], log + [e])
  {
    var y := z[m := e];
    forall x
      ensures x in y.Values <==> x in z.Values || x == e
    {
      if x == e {
        assert y[m] == e;
      } else if k :| k in z && z[k] == x {
        assert y[k] == x;
      }
    }
    assert forall x :: x in log + [e] <==> x in z.Values || x == e;
  }

  lemma {:induction false} AddedScores(rs: seq<Request>)
    requires DistinctNonces(rs)
    ensures SameScores(Added(rs), RunLog(rs).0)
  {
    if rs == [] {
    } else {
      var n := |rs| - 1;
      PrefixKeepsNonces(rs, n);
      AddedScores(rs[..n]);
      NewMemberIsNew(rs);
      SameScoresInsert(Added(rs[..n]), RunLog(rs[..n]).0, Member(rs[n].nowMs, rs[n].nonce), rs[n].nowMs);
    }
  }

  lemma {:induction false} SameLowest(z: ZSet, log: seq<int>, cut: int)
    requires SameScores(z, log) && Sorted(log) && After(z, cut) != map[]
    ensures CountAfter(log, cut) > 0 && FirstAfter(log, cut) > cut
    ensures Lowest(After(z, cut)) == FirstAfter(log, cut)
  {
    var k :| k in After(z, cut);
    assert z[k] in z.Values;
    NoneAfter(log, cut);
    FirstIsLowest(log, cut);
    assert FirstAfter(log, cut) in z.Values;
    var m :| m in z && z[m] == FirstAfter(log, cut);
    assert m in After(z, cut);
    var low :| low in After(z, cut) && z[low] == Lowest(After(z, cut));
    assert z[low] in z.Values;
  }

  // ----- refinement

  // The set the pruning leaves is the unpruned one cut at the last call.
  ghost predicate Pruned(rs: seq<Request>, z: ZSet) {
    if rs == [] then z == map[] else z == After(Added(rs), rs[|rs| - 1].nowMs - WINDOW_MS)
  }

  // A call on a set with the entries of the log after the cut is the call on the log.
  lemma {:induction false} CallOnSame(z: ZSet, all: ZSet, log: seq<int>, r: Request)
    requires After(z, r.nowMs - WINDOW_MS) == After(all, r.nowMs - WINDOW_MS)
    requires |After(all, r.nowMs - WINDOW_MS)| == CountAfter(log, r.nowMs - WINDOW_MS)
    requires SameScores(all, log) && Sorted(log)
    ensures Call(z, r.limit, r.nowMs, r.nonce).1 == LogCall(log, r.limit, r.nowMs).1
    ensures Call(z, r.limit, r.nowMs, r.nonce).0 == After(Extended(all, log, r), r.nowMs - WINDOW_MS)
  {
    var cut := r.nowMs - WINDOW_MS;
    AfterInsertNew(all, Member(r.nowMs, r.nonce), r.nowMs, cut);
    NonEmpty(After(all, cut));
    if After(all, cut) != map[] {
      SameLowest(all, log, cut);
    }
  }

  // A call on the pruned set, or on any set that agrees after the new cut, is the call on the log.
  lemma {:induction false} CallAgrees(before: seq<Request>, r: Request, z: ZSet)
    requires DistinctNonces(before) && Nondecreasing(before)
    requires After(z, r.nowMs - WINDOW_MS) == After(Added(before), r.nowMs - WINDOW_MS)
    ensures Call(z, r.limit, r.nowMs, r.nonce).1 == LogCall(RunLog(before).0, r.limit, r.nowMs).1
    ensures Call(z, r.limit, r.nowMs, r.nonce).0 == After(Extended(Added(before), RunLog(before).0, r), r.nowMs - WINDOW_MS)
  {
    AddedMatchesLog(before, r.nowMs - WINDOW_MS);
    CallOnSame(z, Added(before), RunLog(before).0, r);
  }

  // The unpruned set and the log hold the same scores, and as many after every cut.
  lemma {:induction false} AddedMatchesLog(rs: seq<Request>, cut: int)
    requires DistinctNonces(rs) && Nondecreasing(rs)
    ensures |After(Added(rs), cut)| == CountAfter(RunLog(rs).0, cut)
    ensures SameScores(Added(rs), RunLog(rs).0) && Sorted(RunLog(rs).0)
  {
    AddedCounts(rs, cut);
    LogIsSorted(rs);
    AddedScores(rs);
  }

  lemma {:induction false} NonEmpty(z: ZSet)
    ensures z == map[] <==> |z| == 0
  {
    if m :| m in z {
      assert z.Keys == {m} + (z.Keys - {m});
    }
  }

  lemma {:induction false} AfterInsertNew(z: ZSet, m: string, score: int, cut: int)
    requires score > cut
    ensures After(z[m := score], cut) == After(z, cut)[m := score]
  {
  }

  lemma {:induction false} AfterAfter(z: ZSet, c: int, d: int)
    requires c <= d
    ensures After(After(z, c), d) == After(z, d)
  {
  }

  lemma {:induction false} AddedLast(rs: seq<Request>)
    requires rs != []
    ensures Added(rs) == Extended(Added(rs[..|rs| - 1]), RunLog(rs[..|rs| - 1]).0, rs[|rs| - 1])
  {
  }

  lemma {:induction false} PrunedThenCut(rs: seq<Request>, z: ZSet)
    requires rs != [] && Nondecreasing(rs) && Pruned(rs[..|rs| - 1], z)
    ensures After(z, rs[|rs| - 1].nowMs - WINDOW_MS) == After(Added(rs[..|rs| - 1]), rs[|rs| - 1].nowMs - WINDOW_MS)
  {
    var n := |rs| - 1;
    if n > 0 {
      assert rs[..n][n - 1] == rs[n - 1];
      InOrder(rs, n - 1, n);
      AfterAfter(Added(rs[..n]), rs[n - 1].nowMs - WINDOW_MS, rs[n].nowMs - WINDOW_MS);
    }
  }

  // What the last call finds of the set z the calls before it left, when a key idle for 120 s has expired.
  function Found(rs: seq<Request>, z: ZSet): ZSet
    requires rs != []
  {
    var n := |rs| - 1;
    if n > 0 && rs[n].nowMs - rs[n - 1].nowMs >= TTL_MS then map[] else z
  }

  // Whether the key was found or had expired, what is left after the new cut is the unpruned set cut there.
  lemma {:induction false} FoundIsPruned(rs: seq<Request>, z: ZSet)
    requires rs != [] && Nondecreasing(rs) && Pruned(rs[..|rs| - 1], z)
    ensures After(Found(rs, z), rs[|rs| - 1].nowMs - WINDOW_MS)
         == After(Added(rs[..|rs| - 1]), rs[|rs| - 1].nowMs - WINDOW_MS)
  {
    var n := |rs| - 1;
    PrunedThenCut(rs, z);
    if n > 0 && rs[n].nowMs - rs[n - 1].nowMs >= TTL_MS {
      forall i | 0 <= i < n
        ensures rs[i].nowMs <= rs[n - 1].nowMs
      {
        InOrder(rs, i, n - 1);
      }
      AddedAreOld(rs[..n], rs[n].nowMs - WINDOW_MS);
    }
  }

  ghost predicate AllOld(z: ZSet, cut: int) {
    forall m | m in z :: z[m] <= cut
  }

  lemma {:induction false} ExtendedIsOld(all: ZSet, log: seq<int>, r: Request, cut: int)
    requires AllOld(all, cut) && r.nowMs <= cut
    ensures AllOld(Extended(all, log, r), cut)
  {
  }

  lemma {:induction false} AddedAreOld(rs: seq<Request>, cut: int)
    requires forall r | r in rs :: r.nowMs <= cut
    ensures AllOld(Added(rs), cut) && After(Added(rs), cut) == map[]
  {
    if rs == [] {
    } else {
      var n := |rs| - 1;
      assert rs[n] in rs;
      assert forall r | r in rs[..n] :: r in rs;
      AddedAreOld(rs[..n], cut);
      ExtendedIsOld(Added(rs[..n]), RunLog(rs[..n]).0, rs[n], cut);
    }
  }

  // The last call, on the set z that the calls before it left or on what expiry leaves of it, is the call on the log.
  lemma {:induction false} LastCallAgrees(rs: seq<Request>, z: ZSet, found: ZSet)
    requires rs != [] && Nondecreasing(rs) && DistinctNonces(rs) && Pruned(rs[..|rs| - 1], z)
    requires found == z || found == Found(rs, z)
    ensures var r := rs[|rs| - 1];
            Call(found, r.limit, r.nowMs, r.nonce).1 == LogCall(RunLog(rs[..|rs| - 1]).0, r.limit, r.nowMs).1
    ensures var r := rs[|rs| - 1];
            Pruned(rs, Call(found, r.limit, r.nowMs, r.nonce).0)
  {
    var before, r := rs[..|rs| - 1], rs[|rs| - 1];
    PrefixKeepsNonces(rs, |rs| - 1);
    PrefixKeepsOrder(rs, |rs| - 1);
    PrunedThenCut(rs, z);
    FoundIsPruned(rs, z);
    CallAgrees(before, r, found);
    AddedLast(rs);
  }

  /** Refinement: with a nondecreasing clock and distinct nonces, the pruned sorted set gives, call by call,
      exactly the replies of the log that is never pruned: the same decision, count and hint. */
  lemma {:induction false} PrunedSetRefinesLog(rs: seq<Request>)
    requires Nondecreasing(rs) && DistinctNonces(rs)
    ensures RunSet(rs).1 == RunLog(rs).1
    ensures Pruned(rs, RunSet(rs).0)
  {
    if rs == [] {
    } else {
      var n := |rs| - 1;
      PrefixKeepsNonces(rs, n);
      PrefixKeepsOrder(rs, n);
      PrunedSetRefinesLog(rs[..n]);
      LastCallAgrees(rs, RunSet(rs[..n]).0, RunSet(rs[..n]).0);
    }
  }

  // The set when the key expires after 120 s without a call.
  ghost function RunExpiring(rs: seq<Request>): (ZSet, seq<Reply>) {
    if rs == [] then (map[], [])
    else
      var n := |rs| - 1;
      var (z, replies) := RunExpiring(rs[..n]);
      var (end, reply) := Call(Found(rs, z), rs[n].limit, rs[n].nowMs, rs[n].nonce);
      (end, replies + [reply])
  }

  lemma {:induction false} ExpiringSetRefinesLog(rs: seq<Request>)
    requires Nondecreasing(rs) && DistinctNonces(rs)
    ensures RunExpiring(rs).1 == RunLog(rs).1
    ensures Pruned(rs, RunExpiring(rs).0)
  {
    if rs == [] {
    } else {
      var n := |rs| - 1;
      PrefixKeepsNonces(rs, n);
      PrefixKeepsOrder(rs, n);
      ExpiringSetRefinesLog(rs[..n]);
      LastCallAgrees(rs, RunExpiring(rs[..n]).0, Found(rs, RunExpiring(rs[..n]).0));
    }
  }

  /** The 120 s expiry of the key cannot be observed. */
  lemma {:induction false} ExpiryIsInvisible(rs: seq<Request>)
    requires Nondecreasing(rs) && DistinctNonces(rs)
    ensures RunExpiring(rs).1 == RunLog(rs).1 == RunSet(rs).1
    ensures Pruned(rs, RunExpiring(rs).0)
  {
    PrunedSetRefinesLog(rs);
    ExpiringSetRefinesLog(rs);
  }

  // ----- the bound on every window

  // The admissions in the window (t - 60 s, t].
  function CountIn(log: seq<int>, t: int): nat {
    if log == [] then 0
    else
      var e := log[|log| - 1];
      CountIn(log[..|log| - 1], t) + if t - WINDOW_MS < e <= t then 1 else 0
  }

  lemma {:induction false} CountInBelowAfter(log: seq<int>, t: int, cut: int)
    requires cut <= t - WINDOW_MS
    ensures CountIn(log, t) <= CountAfter(log, cut)
  {
    if log == [] {
    } else {
      CountInBelowAfter(log[..|log| - 1], t, cut);
    }
  }

  lemma {:induction false} LogWindowBound(rs: seq<Request>, bound: nat, t: int)
    requires Nondecreasing(rs) && forall r | r in rs :: r.limit <= bound
    ensures CountIn(RunLog(rs).0, t) <= bound
  {
    if rs == [] {
    } else {
      var n := |rs| - 1;
      assert rs == rs[..n] + [rs[n]];
      PrefixKeepsOrder(rs, n);
      LogWindowBound(rs[..n], bound, t);
      var log, now := RunLog(rs[..n]).0, rs[n].nowMs;
      assert (log + [now])[..|log|] == log;
      assert rs[n] in rs;
      if t >= now {
        CountInBelowAfter(log, t, now - WINDOW_MS);
      }
    }
  }

  /** The guarantee: with a nondecreasing clock, no minute, ending at any instant whatever, holds more
      admissions than the largest limit that was asked for; the admissions are those of the sorted set. */
  lemma {:induction false} WindowBound(rs: seq<Request>, bound: nat, t: int)
    requires Nondecreasing(rs) && DistinctNonces(rs)
    requires forall r | r in rs :: r.limit <= bound
    ensures CountIn(Admissions(rs, RunSet(rs).1), t) <= bound
  {
    PrunedSetRefinesLog(rs);
    LogRecordsAdmissions(rs);
    LogWindowBound(rs, bound, t);
  }

  // The times of the calls that were answered with an admission.
  function Admissions(rs: seq<Request>, replies: seq<Reply>): seq<int> {
    if rs == [] || |replies| != |rs| then []
    else
      var n := |rs| - 1;
      Admissions(rs[..n], replies[..n]) + if replies[n].allowed then [rs[n].nowMs] else []
  }

  lemma {:induction false} LogRecordsAdmissions(rs: seq<Request>)
    ensures |RunLog(rs).1| == |rs|
    ensures Admissions(rs, RunLog(rs).1) == RunLog(rs).0
  {
    if rs == [] {
    } else {
      var n := |rs| - 1;
      LogRecordsAdmissions(rs[..n]);
      assert RunLog(rs).1[..n] == RunLog(rs[..n]).1;
    }
  }

  // ----- the retry hint

  // With a fixed limit a denial's hint is exact: a later call is admitted by the same log just when it comes
  // at or after now + hint.
  lemma {:induction false} LogHintIsExact(rs: seq<Request>, limit: int, now: int, t: int)
    requires limit >= 1 && FixedLimit(rs, limit)
    requires Nondecreasing(rs) && (rs != [] ==> rs[|rs| - 1].nowMs <= now) && t >= now
    requires !LogCall(RunLog(rs).0, limit, now).1.allowed
    ensures LogCall(RunLog(rs).0, limit, now).1.retryAfterMs >= 1
    ensures LogCall(RunLog(rs).0, limit, t).1.allowed <==> t >= now + LogCall(RunLog(rs).0, limit, now).1.retryAfterMs
  {
    var log, cut := RunLog(rs).0, now - WINDOW_MS;
    LogIsSorted(rs);
    FirstIsLowest(log, cut);
    FullWindow(rs, limit, now);
    NoneBefore(log, cut, t - WINDOW_MS, FirstAfter(log, cut));
  }

  // The replies to call k of a history: of the sorted set, and of the log.
  ghost function ReplyAt(rs: seq<Request>, k: nat): Reply
    requires k < |rs|
  {
    Call(RunSet(rs[..k]).0, rs[k].limit, rs[k].nowMs, rs[k].nonce).1
  }

  // The log after the first k calls.
  function LogUpTo(rs: seq<Request>, k: nat): seq<int>
    requires k <= |rs|
  {
    if k == 0 then [] else LogCall(LogUpTo(rs, k - 1), rs[k - 1].limit, rs[k - 1].nowMs).0
  }

  lemma {:induction false} LogUpToIsRun(rs: seq<Request>, k: nat)
    requires k <= |rs|
    ensures LogUpTo(rs, k) == RunLog(rs[..k]).0
  {
    if k == 0 {
    } else {
      LogUpToIsRun(rs, k - 1);
      assert rs[..k][..k - 1] == rs[..k - 1];
    }
  }

  function LogReplyAt(rs: seq<Request>, k: nat): Reply
    requires k < |rs|
  {
    LogCall(LogUpTo(rs, k), rs[k].limit, rs[k].nowMs).1
  }

  lemma {:induction false} RepliesAgree(rs: seq<Request>, k: nat)
    requires k < |rs| && Nondecreasing(rs) && DistinctNonces(rs)
    ensures ReplyAt(rs, k) == LogReplyAt(rs, k)
  {
    var upTo := rs[..k + 1];
    assert upTo[..k] == rs[..k] && upTo[k] == rs[k];
    PrefixKeepsNonces(rs, k + 1);
    PrefixKeepsOrder(rs, k + 1);
    LogUpToIsRun(rs, k);
    PrunedSetRefinesLog(upTo);
    assert RunSet(upTo).1[|RunSet(upTo).1| - 1] == RunLog(upTo).1[|RunLog(upTo).1| - 1];
  }

  // ----- exactly what each call is answered

  // Call i was admitted less than a minute before call k.
  ghost predicate StillCounts(rs: seq<Request>, replies: seq<Reply>, i: nat, k: nat)
    requires |replies| == |rs| && i < |rs| && k < |rs|
  {
    replies[i].allowed && rs[i].nowMs > rs[k].nowMs - 60000
  }

  // How many of the first n calls still count at call k.
  ghost function Counting(rs: seq<Request>, replies: seq<Reply>, n: nat, k: nat): nat
    requires |replies| == |rs| && n <= |rs| && k < |rs|
  {
    if n == 0 then 0
    else Counting(rs, replies, n - 1, k) + if StillCounts(rs, replies, n - 1, k) then 1 else 0
  }

  // x is the time of the earliest of the calls before call k that still count at it.
  ghost predicate IsOldest(rs: seq<Request>, replies: seq<Reply>, k: nat, x: int)
    requires |replies| == |rs| && k < |rs|
  {
    && (exists i | 0 <= i < k :: StillCounts(rs, replies, i, k) && rs[i].nowMs == x)
    && forall i | 0 <= i < k && StillCounts(rs, replies, i, k) :: x <= rs[i].nowMs
  }

  // The times of those of the first n calls that were admitted.
  function AdmittedTimes(rs: seq<Request>, replies: seq<Reply>, n: nat): seq<int>
    requires |replies| == |rs| && n <= |rs|
  {
    if n == 0 then []
    else
      var before := AdmittedTimes(rs, replies, n - 1);
      if replies[n - 1].allowed then before + [rs[n - 1].nowMs] else before
  }

  lemma {:induction false} AdmittedCount(rs: seq<Request>, replies: seq<Reply>, n: nat, k: nat)
    requires |replies| == |rs| && n <= |rs| && k < |rs|
    ensures CountAfter(AdmittedTimes(rs, replies, n), rs[k].nowMs - 60000) == Counting(rs, replies, n, k)
  {
    if n == 0 {
    } else {
      AdmittedCount(rs, replies, n - 1, k);
      CountAppended(AdmittedTimes(rs, replies, n - 1), rs[n - 1].nowMs, rs[k].nowMs - 60000);
    }
  }

  lemma {:induction false} WhoWasAdmitted(rs: seq<Request>, replies: seq<Reply>, n: nat, e: int) returns (i: nat)
    requires |replies| == |rs| && n <= |rs| && e in AdmittedTimes(rs, replies, n)
    ensures i < n && replies[i].allowed && rs[i].nowMs == e
  {
    if e in AdmittedTimes(rs, replies, n - 1) {
      i := WhoWasAdmitted(rs, replies, n - 1, e);
    } else {
      i := n - 1;
    }
  }

  lemma {:induction false} AdmissionIsAt(rs: seq<Request>, replies: seq<Reply>, n: nat, i: nat)
    requires |replies| == |rs| && i < n <= |rs| && replies[i].allowed
    ensures rs[i].nowMs in AdmittedTimes(rs, replies, n)
  {
    if i < n - 1 {
      AdmissionIsAt(rs, replies, n - 1, i);
    }
  }

  lemma {:induction false} FirstIsOldest(rs: seq<Request>, replies: seq<Reply>, k: nat)
    requires |replies| == |rs| && k < |rs| && Counting(rs, replies, k, k) > 0
    requires Sorted(AdmittedTimes(rs, replies, k))
    ensures CountAfter(AdmittedTimes(rs, replies, k), rs[k].nowMs - 60000) > 0
    ensures IsOldest(rs, replies, k, FirstAfter(AdmittedTimes(rs, replies, k), rs[k].nowMs - 60000))
  {
    var log, cut := AdmittedTimes(rs, replies, k), rs[k].nowMs - 60000;
    AdmittedCount(rs, replies, k, k);
    FirstIsLowest(log, cut);
    var first := WhoWasAdmitted(rs, replies, k, FirstAfter(log, cut));
    assert StillCounts(rs, replies, first, k);
    forall i | 0 <= i < k && StillCounts(rs, replies, i, k)
      ensures FirstAfter(log, cut) <= rs[i].nowMs
    {
      AdmissionIsAt(rs, replies, k, i);
    }
  }

  // The log of a prefix, and the reply of its last call.
  lemma {:induction false} LogPrefix(rs: seq<Request>, k: nat)
    requires k <= |rs|
    ensures |RunLog(rs).1| == |rs|
    ensures RunLog(rs[..k]).0 == AdmittedTimes(rs, RunLog(rs).1, k)
    ensures k < |rs| ==> RunLog(rs).1[k] == LogCall(RunLog(rs[..k]).0, rs[k].limit, rs[k].nowMs).1
  {
    LogRecordsAdmissions(rs);
    if k < |rs| {
      LogReplyIs(rs, k);
    }
    if k > 0 {
      LogPrefix(rs, k - 1);
      LogReplyIs(rs, k - 1);
      assert rs[..k][..k - 1] == rs[..k - 1];
    }
  }

  lemma {:induction false} LogReplyIs(rs: seq<Request>, k: nat)
    requires k < |rs|
    ensures |RunLog(rs).1| == |rs|
    ensures RunLog(rs).1[k] == LogCall(RunLog(rs[..k]).0, rs[k].limit, rs[k].nowMs).1
  {
    LogRecordsAdmissions(rs);
    var n := |rs| - 1;
    if k < n {
      LogReplyIs(rs[..n], k);
      assert rs[..n][..k] == rs[..k];
      LogRecordsAdmissions(rs[..n]);
    }
  }

  /** Exactly what each call is answered under a nondecreasing clock: it is admitted if and only if fewer than its
      limit of the calls before it were admitted less than a minute ago; an admission says how many more there is
      room for, and a denial how long it is until the oldest of them is a minute old. */
  lemma {:induction false} RepliesAreExact(rs: seq<Request>, k: nat)
    requires k < |rs| && Nondecreasing(rs) && DistinctNonces(rs)
    ensures |RunSet(rs).1| == |rs|
    ensures var reply, count := RunSet(rs).1[k], Counting(rs, RunSet(rs).1, k, k);
            && (reply.allowed <==> count < rs[k].limit)
            && (reply.allowed ==> reply.remaining == rs[k].limit - count - 1 && reply.retryAfterMs == 0)
            && (!reply.allowed ==> reply.remaining == 0)
            && (!reply.allowed && count == 0 ==> reply.retryAfterMs == 0)
            && (!reply.allowed && count > 0 ==>
                  IsOldest(rs, RunSet(rs).1, k, reply.retryAfterMs + rs[k].nowMs - 60000))
  {
    PrunedSetRefinesLog(rs);
    LogPrefix(rs, k);
    var replies := RunLog(rs).1;
    AdmittedCount(rs, replies, k, k);
    if Counting(rs, replies, k, k) > 0 {
      PrefixKeepsOrder(rs, k);
      LogIsSorted(rs[..k]);
      FirstIsOldest(rs, replies, k);
    }
  }

  // With a fixed limit, call k after a denial whose log is unchanged since is decided by the hint.
  lemma {:induction false} HintDecides(rs: seq<Request>, limit: int, i: nat, k: nat)
    requires i < k < |rs| && limit >= 1 && FixedLimit(rs, limit) && Nondecreasing(rs)
    requires !LogReplyAt(rs, i).allowed && LogUpTo(rs, k) == LogUpTo(rs, i)
    ensures LogReplyAt(rs, k).allowed <==> rs[k].nowMs >= rs[i].nowMs + LogReplyAt(rs, i).retryAfterMs
  {
    assert rs[i] in rs && rs[k] in rs && forall r | r in rs[..i] :: r in rs;
    LogUpToIsRun(rs, i);
    PrefixKeepsOrder(rs, i);
    InOrder(rs, i, k);
    if i > 0 {
      InOrder(rs, i - 1, i);
    }
    LogHintIsExact(rs[..i], limit, rs[i].nowMs, rs[k].nowMs);
  }

  // Every call after i and before j comes earlier than the hint of call i says.
  ghost predicate AllEarly(rs: seq<Request>, i: nat, j: nat)
    requires i < j <= |rs|
  {
    forall k {:trigger rs[k]} | i < k < j :: rs[k].nowMs < rs[i].nowMs + LogReplyAt(rs, i).retryAfterMs
  }

  lemma {:induction false} DenialsKeepLog(rs: seq<Request>, limit: int, i: nat, j: nat)
    requires i < j < |rs| && limit >= 1 && FixedLimit(rs, limit) && Nondecreasing(rs)
    requires !LogReplyAt(rs, i).allowed && AllEarly(rs, i, j)
    ensures LogUpTo(rs, j) == LogUpTo(rs, i)
  {
    if j == i + 1 {
    } else {
      DenialsKeepLog(rs, limit, i, j - 1);
      HintDecides(rs, limit, i, j - 1);
    }
    DenialKeepsLog(rs, j);
  }

  lemma {:induction false} DenialKeepsLog(rs: seq<Request>, k: nat)
    requires 0 < k <= |rs| && !LogReplyAt(rs, k - 1).allowed
    ensures LogUpTo(rs, k) == LogUpTo(rs, k - 1)
  {
  }

  /** The hint of a denial is exact, over any history with a nondecreasing clock and a fixed limit: if call i
      is denied and no call before j waits for its hint, call j is admitted exactly when it does. */
  lemma {:induction false} RetryHintIsExact(rs: seq<Request>, limit: int, i: nat, j: nat)
    requires i < j < |rs| && limit >= 1 && FixedLimit(rs, limit) && Nondecreasing(rs) && DistinctNonces(rs)
    requires !ReplyAt(rs, i).allowed
    requires forall k {:trigger rs[k]} | i < k < j :: rs[k].nowMs < rs[i].nowMs + ReplyAt(rs, i).retryAfterMs
    ensures ReplyAt(rs, j).allowed <==> rs[j].nowMs >= rs[i].nowMs + ReplyAt(rs, i).retryAfterMs
  {
    RepliesAgree(rs, i);
    RepliesAgree(rs, j);
    DenialsKeepLog(rs, limit, i, j);
    HintDecides(rs, limit, i, j);
  }

  // With a fixed limit the window of a denied call holds exactly the limit.
  lemma {:induction false} FullWindow(rs: seq<Request>, limit: int, now: int)
    requires limit >= 1 && Nondecreasing(rs) && forall r | r in rs :: r.limit == limit
    requires rs != [] ==> rs[|rs| - 1].nowMs <= now
    requires CountAfter(RunLog(rs).0, now - WINDOW_MS) >= limit
    ensures CountAfter(RunLog(rs).0, now - WINDOW_MS) == limit
  {
    LogWindowBound(rs, limit, now);
    LogIsSorted(rs);
    AllUpTo(RunLog(rs).0, now);
  }

  lemma {:induction false} AllUpTo(log: seq<int>, now: int)
    requires forall e | e in log :: e <= now
    ensures CountIn(log, now) == CountAfter(log, now - WINDOW_MS)
  {
    if log == [] {
    } else {
      var before := log[..|log| - 1];
      assert log[|log| - 1] in log;
      assert forall e | e in before :: e in log;
      AllUpTo(before, now);
    }
  }

  // Moving the cut leaves the count alone until it reaches the first entry after it, and then lowers it.
  lemma {:induction false} NoneBefore(log: seq<int>, cut: int, later: int, first: int)
    requires cut <= later && forall e | e in log && e > cut :: first <= e
    ensures later < first ==> CountAfter(log, later) == CountAfter(log, cut)
    ensures CountAfter(log, later) <= CountAfter(log, cut)
    ensures later >= first > cut && first in log ==> CountAfter(log, later) < CountAfter(log, cut)
  {
    if log == [] {
    } else {
      var before := log[..|log| - 1];
      assert log[|log| - 1] in log;
      assert forall e | e in before :: e in log;
      LastOrBefore(log);
      NoneBefore(before, cut, later, first);
    }
  }

  // ----- clocks that run backwards

  ghost predicate FixedLimit(rs: seq<Request>, limit: int) {
    forall r | r in rs :: r.limit == limit
  }

  // No minute of any history with this limit, whatever the clock does, holds more than the limit.
  ghost predicate SafeUnderAnyClock(limit: int) {
    forall rs, t | DistinctNonces(rs) && FixedLimit(rs, limit) ::
      CountIn(Admissions(rs, RunSet(rs).1), t) <= Max(0, limit)
  }

  lemma {:induction false} RunSetReplies(rs: seq<Request>)
    ensures |RunSet(rs).1| == |rs|
    ensures rs != [] ==> RunSet(rs).1[..|rs| - 1] == RunSet(rs[..|rs| - 1]).1
  {
    if rs == [] {
    } else {
      RunSetReplies(rs[..|rs| - 1]);
    }
  }

  ghost predicate Spaced(log: seq<int>) {
    forall i, j | 0 <= i < j < |log| :: log[i] + WINDOW_MS <= log[j]
  }

  // The set holds the last admission and nothing else.
  ghost predicate HoldsLast(z: ZSet, log: seq<int>) {
    if log == [] then z == map[] else z != map[] && forall m | m in z :: z[m] == log[|log| - 1]
  }

  // With a limit of one admissions are a minute apart, and the set holds the last one alone.
  lemma {:induction false} LimitOneSpaces(rs: seq<Request>)
    requires FixedLimit(rs, 1)
    ensures Spaced(Admissions(rs, RunSet(rs).1))
    ensures HoldsLast(RunSet(rs).0, Admissions(rs, RunSet(rs).1))
  {
    if rs == [] {
    } else {
      var n := |rs| - 1;
      assert rs == rs[..n] + [rs[n]];
      LimitOneSpaces(rs[..n]);
      RunSetReplies(rs);
      assert rs[n] in rs;
      LimitOneStep(RunSet(rs[..n]).0, Admissions(rs[..n], RunSet(rs[..n]).1), rs[n].nowMs, rs[n].nonce);
    }
  }

  lemma {:induction false} LimitOneStep(z: ZSet, log: seq<int>, now: int, nonce: string)
    requires Spaced(log) && HoldsLast(z, log)
    ensures var (end, reply) := Call(z, 1, now, nonce);
            var longer := log + if reply.allowed then [now] else [];
            Spaced(longer) && HoldsLast(end, longer)
  {
    CallWithLimitOne(z, now, nonce);
    if Call(z, 1, now, nonce).1.allowed {
      if log != [] {
        var m :| m in z;
      }
      SpacedAppend(log, now);
    } else {
      assert log + [] == log;
    }
  }

  lemma {:induction false} SpacedAppend(log: seq<int>, now: int)
    requires Spaced(log) && (log != [] ==> log[|log| - 1] + WINDOW_MS <= now)
    ensures Spaced(log + [now])
  {
    forall i, j | 0 <= i < j < |log + [now]|
      ensures (log + [now])[i] + WINDOW_MS <= (log + [now])[j]
    {
      if j == |log| && i < |log| - 1 {
        assert log[i] + WINDOW_MS <= log[|log| - 1];
      }
    }
  }

  ghost predicate IsPart(y: ZSet, z: ZSet) {
    forall m | m in y :: m in z && y[m] == z[m]
  }

  // With a limit of one a call is admitted just when every member is a minute old, and then stays alone.
  lemma {:induction false} CallWithLimitOne(z: ZSet, now: int, nonce: string)
    ensures Call(z, 1, now, nonce).1.allowed <==> forall m | m in z :: z[m] + WINDOW_MS <= now
    ensures Call(z, 1, now, nonce).1.allowed ==> Call(z, 1, now, nonce).0 == map[Member(now, nonce) := now]
    ensures !Call(z, 1, now, nonce).1.allowed
        ==> Call(z, 1, now, nonce).0 != map[] && IsPart(Call(z, 1, now, nonce).0, z)
  {
    var live := After(z, now - WINDOW_MS);
    NonEmpty(live);
    if |live| == 0 {
      forall m | m in z
        ensures z[m] + WINDOW_MS <= now
      {
        assert m !in live;
      }
    } else {
      var m :| m in live;
    }
  }

  lemma {:induction false} SpacedIsBounded(log: seq<int>, t: int)
    requires Spaced(log)
    ensures CountIn(log, t) <= 1
    ensures log != [] && log[|log| - 1] <= t - WINDOW_MS ==> CountIn(log, t) == 0
  {
    if log == [] {
    } else {
      var before := log[..|log| - 1];
      SpacedIsBounded(before, t);
      if before != [] && t - WINDOW_MS < log[|log| - 1] <= t {
        assert before[|before| - 1] <= t - WINDOW_MS;
      }
    }
  }

  lemma {:induction false} NonPositiveLimitAdmitsNone(rs: seq<Request>, limit: int)
    requires limit <= 0 && FixedLimit(rs, limit)
    ensures Admissions(rs, RunSet(rs).1) == []
  {
    if rs == [] {
    } else {
      var n := |rs| - 1;
      assert rs == rs[..n] + [rs[n]];
      NonPositiveLimitAdmitsNone(rs[..n], limit);
      RunSetReplies(rs);
      assert rs[n] in rs;
    }
  }

  // limit calls at 0, one a minute later, and one a millisecond before that.
  function StepBack(limit: nat): seq<Request> {
    Burst(limit, limit) + [Request(WINDOW_MS, limit, Decimal(limit)), Request(WINDOW_MS - 1, limit, Decimal(limit + 1))]
  }

  function Burst(limit: nat, n: nat): seq<Request> {
    seq(n, i => Request(0, limit, Decimal(i)))
  }

  function Zeros(n: nat): seq<int> {
    seq(n, _ => 0)
  }

  lemma {:induction false} ZerosCount(n: nat)
    ensures CountAfter(Zeros(n), -WINDOW_MS) == n
    ensures CountAfter(Zeros(n), 0) == 0
    ensures CountIn(Zeros(n), WINDOW_MS - 1) == n
  {
    if n == 0 {
    } else {
      ZerosCount(n - 1);
      assert Zeros(n)[..n - 1] == Zeros(n - 1);
    }
  }

  lemma {:induction false} BurstLog(limit: nat, n: nat)
    requires n <= limit
    ensures RunLog(Burst(limit, n)).0 == Zeros(n)
  {
    if n == 0 {
    } else {
      BurstLog(limit, n - 1);
      ZerosCount(n - 1);
      assert Burst(limit, n)[..n - 1] == Burst(limit, n - 1);
      assert Zeros(n - 1) + [0] == Zeros(n);
    }
  }

  lemma StepBackNonces(limit: nat)
    ensures |StepBack(limit)| == limit + 2
    ensures DistinctNonces(StepBack(limit)) && FixedLimit(StepBack(limit), limit)
  {
    var rs := StepBack(limit);
    forall i | 0 <= i < |rs|
      ensures rs[i].nonce == Decimal(i) && rs[i].limit == limit
    {
      StepBackAt(limit, i);
    }
    NumberedNonces(rs);
    FixedByIndex(rs, limit);
  }

  lemma StepBackAt(limit: nat, i: nat)
    requires i < limit + 2
    ensures |StepBack(limit)| == limit + 2
    ensures StepBack(limit)[i].nonce == Decimal(i) && StepBack(limit)[i].limit == limit
  {
    if i < limit {
      assert StepBack(limit)[i] == Burst(limit, limit)[i];
    }
  }

  lemma {:induction false} FixedByIndex(rs: seq<Request>, limit: int)
    requires forall i | 0 <= i < |rs| :: rs[i].limit == limit
    ensures FixedLimit(rs, limit)
  {
  }

  lemma {:induction false} NumberedNonces(rs: seq<Request>)
    requires forall i | 0 <= i < |rs| :: rs[i].nonce == Decimal(i)
    ensures DistinctNonces(rs)
  {
    forall i, j | 0 <= i < j < |rs|
      ensures rs[i].nonce != rs[j].nonce
    {
      if Decimal(i) == Decimal(j) {
        DecimalInjective(i, j);
      }
    }
  }

  // Up to the step back, the log holds the burst and the call a minute later, and the set the latter alone.
  lemma BeforeStepBack(limit: nat)
    requires limit >= 2
    ensures var upTo := StepBack(limit)[..limit + 1];
            && Admissions(upTo, RunSet(upTo).1) == Zeros(limit) + [WINDOW_MS]
            && |RunSet(upTo).0| == 1
  {
    var upTo, zeros := StepBack(limit)[..limit + 1], Zeros(limit);
    LogBeforeStepBack(limit);
    StepBackNonces(limit);
    PrefixKeepsNonces(StepBack(limit), limit + 1);
    assert upTo[limit].nowMs == WINDOW_MS;
    PrunedSetRefinesLog(upTo);
    LogRecordsAdmissions(upTo);
    AddedCounts(upTo, 0);
    BurstLog(limit, limit);
    ZerosCount(limit);
    CountAppended(zeros, WINDOW_MS, 0);
  }

  lemma LogBeforeStepBack(limit: nat)
    requires limit >= 2
    ensures RunLog(StepBack(limit)[..limit + 1]).0 == Zeros(limit) + [WINDOW_MS]
  {
    var upTo := StepBack(limit)[..limit + 1];
    assert upTo[..limit] == Burst(limit, limit) && upTo[limit] == Request(WINDOW_MS, limit, Decimal(limit));
    BurstLog(limit, limit);
    ZerosCount(limit);
  }

  lemma {:induction false} CountAppended(log: seq<int>, e: int, cut: int)
    ensures CountAfter(log + [e], cut) == CountAfter(log, cut) + if e > cut then 1 else 0
    ensures forall t: int :: CountIn(log + [e], t) == CountIn(log, t) + if t - WINDOW_MS < e <= t then 1 else 0
  {
    assert (log + [e])[..|log|] == log;
  }

  lemma StepBackOverfills(limit: nat)
    requires limit >= 2
    ensures CountIn(Admissions(StepBack(limit), RunSet(StepBack(limit)).1), WINDOW_MS - 1) == limit + 1
  {
    var rs, zeros := StepBack(limit), Zeros(limit);
    BeforeStepBack(limit);
    var z := RunSet(rs[..limit + 1]).0;
    AfterIsSmaller(z, -1);
    RunSetReplies(rs);
    assert rs[limit + 1] == Request(WINDOW_MS - 1, limit, Decimal(limit + 1));
    assert RunSet(rs).1[limit + 1] == Call(z, limit, WINDOW_MS - 1, Decimal(limit + 1)).1;
    assert Admissions(rs, RunSet(rs).1) == zeros + [WINDOW_MS] + [WINDOW_MS - 1];
    BurstLog(limit, limit);
    ZerosCount(limit);
    CountAppended(zeros, WINDOW_MS, 0);
    CountAppended(zeros + [WINDOW_MS], WINDOW_MS - 1, 0);
  }

  lemma {:induction false} AfterIsSmaller(z: ZSet, cut: int)
    ensures |After(z, cut)| <= |z|
  {
    assert After(z, cut).Keys <= z.Keys;
    assert z.Keys == After(z, cut).Keys + (z.Keys - After(z, cut).Keys);
  }

  /** How far the guarantee survives a clock that steps back: with arbitrary clock readings every minute is
      within the limit exactly when the limit is at most one. From two on, a single step back of one
      millisecond can overfill a minute. */
  lemma AnyClockSafeIff(limit: int)
    ensures SafeUnderAnyClock(limit) <==> limit <= 1
  {
    if limit <= 1 {
      forall rs, t | DistinctNonces(rs) && FixedLimit(rs, limit)
        ensures CountIn(Admissions(rs, RunSet(rs).1), t) <= Max(0, limit)
      {
        if limit == 1 {
          LimitOneSpaces(rs);
          SpacedIsBounded(Admissions(rs, RunSet(rs).1), t);
        } else {
          NonPositiveLimitAdmitsNone(rs, limit);
        }
      }
    } else {
      StepBackNonces(limit);
      StepBackOverfills(limit);
    }
  }
}
