/** Making runs longer, one event at a time. */
module Runs {
  import opened Protocol
  import opened Wrappers

  // The run that has not begun.
  ghost function Fresh(): Run {
    Run([State(map r | r in REGIONS :: Node(map[], {}, [], [], None), {}, map[], [], map[], {})], [])
  }

  lemma FreshIsValid()
    ensures Fresh().Valid() && Fresh().Last().nodes.Keys == REGIONS
  {
  }

  /** The longer run goes on from the run with quiet events only. */
  ghost predicate Continues(run: Run, longer: Run) {
    && |run.states| <= |longer.states| && longer.states[..|run.states|] == run.states
    && |run.events| <= |longer.events| && longer.events[..|run.events|] == run.events
    && forall i {:trigger longer.events[i]} | |run.events| <= i < |longer.events| :: Quiet(longer.events[i])
  }

  lemma ContinuesOn(a: Run, b: Run, c: Run)
    requires Continues(a, b) && Continues(b, c)
    ensures Continues(a, c)
  {
    assert c.states[..|a.states|] == c.states[..|b.states|][..|a.states|];
    assert c.events[..|a.events|] == c.events[..|b.events|][..|a.events|];
    forall i | |a.events| <= i < |c.events|
      ensures Quiet(c.events[i])
    {
      if i < |b.events| {
        assert c.events[i] == c.events[..|b.events|][i] == b.events[i];
      }
    }
  }

  // The run made longer by one event.
  ghost function Plus(run: Run, e: Event): Run
    requires run.Valid() && Enabled(run.Last(), e)
  {
    Run(run.states + [Step(run.Last(), e)], run.events + [e])
  }

  lemma PlusIsValid(run: Run, e: Event)
    requires run.Valid() && Enabled(run.Last(), e)
    ensures Plus(run, e).Valid() && Plus(run, e).Last() == Step(run.Last(), e)
  {
    var longer := Plus(run, e);
    forall i | 0 <= i < |longer.events|
      ensures LinkAt(longer, i)
    {
      if i < |run.events| {
        assert longer.events[i] == run.events[i] && longer.states[i] == run.states[i];
        assert longer.states[i + 1] == run.states[i + 1];
      } else {
        assert longer.states[i] == run.Last();
      }
    }
    assert forall i {:trigger longer.events[i]} | 0 <= i < |longer.events| :: LinkAt(longer, i);
    assert longer.states[0] == run.states[0];
  }

  lemma PlusContinues(run: Run, e: Event)
    requires run.Valid() && Enabled(run.Last(), e) && Quiet(e)
    ensures Plus(run, e).Valid() && Continues(run, Plus(run, e))
    ensures Plus(run, e).Last() == Step(run.Last(), e)
    ensures |Plus(run, e).events| == |run.events| + 1 && Plus(run, e).events[|run.events|] == e
  {
    PlusIsValid(run, e);
  }

  ghost predicate LinkAt(run: Run, i: nat)
    requires |run.states| == |run.events| + 1 && i < |run.events|
  {
    Enabled(run.states[i], run.events[i]) && run.states[i + 1] == Step(run.states[i], run.events[i])
  }

  lemma SamePrefix(run: Run, longer: Run, i: nat)
    requires Continues(run, longer)
    ensures i < |run.states| ==> longer.states[i] == run.states[i]
    ensures i < |run.events| ==> longer.events[i] == run.events[i]
  {
    if i < |run.states| {
      assert longer.states[i] == longer.states[..|run.states|][i];
    }
    if i < |run.events| {
      assert longer.events[i] == longer.events[..|run.events|][i];
    }
  }
}
