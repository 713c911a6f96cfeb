/** The other side of convergence: an id with a colon is not reconciled, and its replicas can stay apart for ever. */
module Divergence {
  import opened Convergence
  import opened Counter
  import opened Envelopes
  import opened HashStore
  import opened Protocol
  import opened Reachability
  import opened Runs
  import opened Safety
  import opened Text

  // No request is waiting and no counter message was ever published.
  ghost predicate NoCounts(s: State) {
    s.pending == map[] && forall env | env in s.sent :: env.ReconcileEnvelope?
  }

  lemma QuietStepSendsNoCounts(s: State, e: Event)
    requires NoCounts(s) && Enabled(s, e) && Quiet(e)
    ensures NoCounts(Step(s, e))
  {
  }

  lemma {:induction false} QuietRunSendsNoCounts(run: Run, a: nat, j: nat)
    requires run.Linked() && a <= j < |run.states| && QuietFrom(run, a) && NoCounts(run.states[a])
    ensures NoCounts(run.states[j])
  {
    if j == a {
    } else {
      QuietRunSendsNoCounts(run, a, j - 1);
      QuietStepSendsNoCounts(run.states[j - 1], run.events[j - 1]);
    }
  }

  lemma NothingBringsCounts(run: Run, a: nat, region: string, key: string)
    requires run.Linked() && a < |run.states| && QuietFrom(run, a) && NoCounts(run.states[a])
    ensures NoCountComes(run, a, |run.events|, region, key)
  {
    forall i: nat | a <= i < |run.events|
      ensures !CountComes(run, i, region, key)
    {
      QuietRunSendsNoCounts(run, a, i);
    }
  }

  // One request at us is counted and then given up before its publish.
  lemma CountedUnannounced(tier: string, user: string, window: int) returns (run: Run)
    ensures run.Valid() && NoCounts(run.Last())
    ensures "eu" in run.Last().nodes && run.Last().nodes["eu"].todo == []
    ensures Seen(run.Last(), "eu", GlobalKey(tier, user, window), "us") == 0
    ensures Issued(run.Last().issued, "us", GlobalKey(tier, user, window)) == 1 && run.Last().wiped == {}
  {
    FreshIsValid();
    var e := Increment("us", tier, user, window, 0, true);
    PlusIsValid(Fresh(), e);
    var counted := Plus(Fresh(), e);
    var t := TicketOf(Fresh().Last(), e);
    assert counted.Last().pending.Keys == {t};
    PlusIsValid(counted, Abandon(t));
    run := Plus(counted, Abandon(t));
    assert run.Last().pending == map[];
  }

  /** Replicas that stay apart. For every tier and user one of which holds a colon there is a run that meets every
      hypothesis of convergence, one whole pass of every region delivered and worked through everywhere, and in
      which eu still shows nothing of the request that us counted. */
  lemma Diverges(tier: string, user: string, window: int) returns (run: Run, a: nat)
    requires !ColonFree(tier) || !ColonFree(user)
    ensures Settled(run, a, tier, user, window)
    ensures Issued(run.Last().issued, "us", GlobalKey(tier, user, window)) == 1
    ensures Seen(run.Last(), "eu", GlobalKey(tier, user, window), "us") == 0
  {
    var counted := CountedUnannounced(tier, user, window);
    a := |counted.events|;
    run := CanReconcile(counted, window);
    NothingMoreIssued(counted, run);
    SamePrefix(counted, run, a);
    NothingBringsCounts(run, a, "eu", GlobalKey(tier, user, window));
    ColonIdsAreNotReconciled(run, a, |run.states| - 1, "eu", tier, user, window, "us");
  }

  /** The hypotheses of convergence, for one tier and user in a window. */
  ghost predicate Settled(run: Run, a: nat, tier: string, user: string, window: int) {
    && run.Valid() && a < |run.states| && QuietFrom(run, a) && AllReconciled(run, a, window)
    && Intact(run.Last(), GlobalKey(tier, user, window))
  }

  ghost predicate Agreed(s: State, key: string) {
    forall d | d in REGIONS :: AllUpToDate(s, d, key)
  }

  // Whenever the hypotheses of convergence are met, all replicas hold what was issued.
  ghost predicate AlwaysReconciled(tier: string, user: string, window: int) {
    forall run, a: nat | Settled(run, a, tier, user, window) :: Agreed(run.Last(), GlobalKey(tier, user, window))
  }

  /** Reconciliation works for exactly the ids without a colon. */
  lemma ReconciledIff(tier: string, user: string, window: int)
    ensures AlwaysReconciled(tier, user, window) <==> ColonFree(tier) && ColonFree(user)
  {
    if ColonFree(tier) && ColonFree(user) {
      forall run, a: nat | Settled(run, a, tier, user, window)
        ensures Agreed(run.Last(), GlobalKey(tier, user, window))
      {
        forall d | d in REGIONS
          ensures AllUpToDate(run.Last(), d, GlobalKey(tier, user, window))
        {
          EverySlotConverges(run, a, window, (tier, user), d);
        }
      }
    } else {
      var run, a := Diverges(tier, user, window);
      assert "eu" in REGIONS && "us" in REGIONS;
      assert !UpToDate(run.Last(), "eu", GlobalKey(tier, user, window), "us");
      assert !AllUpToDate(run.Last(), "eu", GlobalKey(tier, user, window));
    }
  }
}
