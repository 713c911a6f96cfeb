/** What the counted increments stand for. The counter counts every request the limiter decided, so the cap bounds
    increments, not admissions; this module says exactly where the difference goes. */
module Accounting {
  import opened Envelopes
  import opened Bounds
  import opened Counter
  import opened HashStore
  import opened Protocol
  import opened Refinement
  import opened Runs
  import opened Safety
  import opened Sums
  import opened Wrappers

  // ----- the fate of a counted request

  datatype Fate = Admitted | DeniedLocally | DeniedByCap

  function FateOf(v: Verdict): Fate {
    if v.allowed then Admitted else if v.local then DeniedByCap else DeniedLocally
  }

  // One region, or None for all of them.
  predicate Of(who: Option<string>, region: string) {
    who == None || who == Some(region)
  }

  // The answered requests for a key whose increment succeeded.
  function Answers(log: seq<Verdict>, who: Option<string>, key: string): nat {
    if log == [] then 0
    else
      var v := log[|log| - 1];
      Answers(log[..|log| - 1], who, key) + if v.ordinal >= 1 && Of(who, v.region) && v.key == key then 1 else 0
  }

  function Fates(log: seq<Verdict>, who: Option<string>, key: string, fate: Fate): nat {
    if log == [] then 0
    else
      var v := log[|log| - 1];
      Fates(log[..|log| - 1], who, key, fate)
      + if v.ordinal >= 1 && Of(who, v.region) && v.key == key && FateOf(v) == fate then 1 else 0
  }

  lemma {:induction false} AnswersSplit(log: seq<Verdict>, who: Option<string>, key: string)
    ensures Answers(log, who, key) == Fates(log, who, key, Admitted) + Fates(log, who, key, DeniedLocally)
                                    + Fates(log, who, key, DeniedByCap)
  {
    if log == [] {
    } else {
      AnswersSplit(log[..|log| - 1], who, key);
    }
  }

  // The requests still between their increment and their answer.
  ghost function Waiters(pending: map<Ticket, Request>, who: Option<string>, key: string): set<Ticket> {
    set t | t in pending && Of(who, t.region) && t.key == key
  }

  predicate GivesUp(e: Event, who: Option<string>, key: string) {
    e.Abandon? && Of(who, e.ticket.region) && e.ticket.key == key
  }

  // An increment that was carried out and answered with an error.
  predicate Fails(e: Event, who: Option<string>, key: string) {
    e.IncrementError? && e.carriedOut && Of(who, e.region) && RequestKey(e) == key
  }

  function GivenUp(events: seq<Event>, who: Option<string>, key: string): nat {
    if events == [] then 0
    else GivenUp(events[..|events| - 1], who, key) + if GivesUp(events[|events| - 1], who, key) then 1 else 0
  }

  function Failed(events: seq<Event>, who: Option<string>, key: string): nat {
    if events == [] then 0
    else Failed(events[..|events| - 1], who, key) + if Fails(events[|events| - 1], who, key) then 1 else 0
  }

  ghost function IssuedBy(counts: Counts, who: Option<string>, key: string): int {
    match who
    case None => TrueTotal(counts, key)
    case Some(region) => Issued(counts, region, key)
  }

  // ----- one event

  lemma IssuedByCounts(counts: Counts, e: Event, who: Option<string>, key: string)
    requires (e.Increment? || e.IncrementError?) ==> e.region in REGIONS
    ensures IssuedBy(IssuedAfter(counts, e), who, key)
         == IssuedBy(counts, who, key)
          + if CountsOne(e) && Of(who, e.region) && RequestKey(e) == key then 1 else 0
  {
    if CountsOne(e) {
      SumOfThree(IssuedSlots(counts, key));
      SumOfThree(IssuedSlots(IssuedAfter(counts, e), key));
    }
  }

  lemma OneMore<T>(a: set<T>, b: set<T>, t: T)
    requires t !in a && b == a + {t}
    ensures |b| == |a| + 1
  {
  }

  lemma OneMoreWaiter(pending: map<Ticket, Request>, t: Ticket, q: Request, who: Option<string>, key: string)
    requires t !in pending
    ensures |Waiters(pending[t := q], who, key)|
         == |Waiters(pending, who, key)| + if Of(who, t.region) && t.key == key then 1 else 0
  {
    var before, after := Waiters(pending, who, key), Waiters(pending[t := q], who, key);
    if Of(who, t.region) && t.key == key {
      assert after == before + {t};
      OneMore(before, after, t);
    } else {
      assert after == before;
    }
  }

  lemma OneWaiterLess(pending: map<Ticket, Request>, t: Ticket, who: Option<string>, key: string)
    requires t in pending
    ensures |Waiters(pending - {t}, who, key)|
         == |Waiters(pending, who, key)| - if Of(who, t.region) && t.key == key then 1 else 0
  {
    OneMoreWaiter(pending - {t}, t, pending[t], who, key);
    assert (pending - {t})[t := pending[t]] == pending;
  }

  lemma SameWaiters(pending: map<Ticket, Request>, after: map<Ticket, Request>, who: Option<string>, key: string)
    requires after.Keys == pending.Keys
    ensures Waiters(after, who, key) == Waiters(pending, who, key)
  {
  }

  lemma {:induction false} AnswersAppend(log: seq<Verdict>, v: Verdict, who: Option<string>, key: string)
    ensures Answers(log + [v], who, key)
         == Answers(log, who, key) + if v.ordinal >= 1 && Of(who, v.region) && v.key == key then 1 else 0
    ensures Answers(log + [], who, key) == Answers(log, who, key)
  {
    assert (log + [v])[..|log|] == log && log + [] == log;
  }

  // The event answers a waiting request that is one of those counted.
  predicate AnswersOne(e: Event, who: Option<string>, key: string) {
    (e.Read? || e.ReadError?) && Of(who, e.ticket.region) && e.ticket.key == key
  }

  predicate CountsWaiter(e: Event, who: Option<string>, key: string) {
    e.Increment? && Of(who, e.region) && RequestKey(e) == key
  }

  lemma WaitersChange(s: State, e: Event, who: Option<string>, key: string)
    requires ValuesOk(s) && Enabled(s, e)
    ensures |Waiters(PendingAfter(s, e), who, key)|
         == |Waiters(s.pending, who, key)| + (if CountsWaiter(e, who, key) then 1 else 0)
          - (if AnswersOne(e, who, key) || GivesUp(e, who, key) then 1 else 0)
  {
    if e.Increment? {
      IncrementAddsWaiter(s, e, who, key);
    } else if e.Read? || e.ReadError? || e.Abandon? {
      TicketLeaves(s, e, who, key);
    } else {
      WaitersStay(s, e, who, key);
    }
  }

  lemma TicketLeaves(s: State, e: Event, who: Option<string>, key: string)
    requires Enabled(s, e) && (e.Read? || e.ReadError? || e.Abandon?)
    ensures |Waiters(PendingAfter(s, e), who, key)|
         == |Waiters(s.pending, who, key)| - if Of(who, e.ticket.region) && e.ticket.key == key then 1 else 0
  {
    OneWaiterLess(s.pending, e.ticket, who, key);
  }

  lemma WaitersStay(s: State, e: Event, who: Option<string>, key: string)
    requires Enabled(s, e) && !e.Increment? && !e.Read? && !e.ReadError? && !e.Abandon?
    ensures Waiters(PendingAfter(s, e), who, key) == Waiters(s.pending, who, key)
  {
    SameWaiters(s.pending, PendingAfter(s, e), who, key);
  }

  lemma IncrementAddsWaiter(s: State, e: Event, who: Option<string>, key: string)
    requires ValuesOk(s) && Enabled(s, e) && e.Increment?
    ensures |Waiters(PendingAfter(s, e), who, key)|
         == |Waiters(s.pending, who, key)| + if CountsWaiter(e, who, key) then 1 else 0
  {
    TicketIsNewHere(s, e);
    OneMoreWaiter(s.pending, TicketOf(s, e), PendingAfter(s, e)[TicketOf(s, e)], who, key);
  }

  lemma AnswersChange(s: State, e: Event, who: Option<string>, key: string)
    requires ValuesOk(s) && Enabled(s, e)
    ensures Answers(s.log + Answer(s, e), who, key)
         == Answers(s.log, who, key) + if AnswersOne(e, who, key) then 1 else 0
  {
    if e.Read? || e.ReadError? {
      assert PendingOk(e.ticket, s.pending[e.ticket], s.issued);
    }
    if Answer(s, e) == [] {
      assert s.log + [] == s.log;
    } else {
      AnswersAppend(s.log, Answer(s, e)[0], who, key);
      assert Answer(s, e) == [Answer(s, e)[0]];
    }
  }

  lemma TicketIsNewHere(s: State, e: Event)
    requires ValuesOk(s) && e.Increment?
    ensures TicketOf(s, e) !in s.pending
  {
    var t := TicketOf(s, e);
    assert t in s.pending ==> PendingOk(t, s.pending[t], s.issued);
  }

  // ----- whole runs

  /** The exact account. In every reachable state what a region (or all of them) counted for a key is, one for
      one, the requests admitted, those denied by the local limiter, those denied by the cap, those still waiting,
      those given up before an answer, and the increments that were carried out but answered with an error. */
  lemma {:induction false} Account(run: Run, i: nat, who: Option<string>, key: string)
    requires run.Valid() && i < |run.states|
    ensures var s, events := run.states[i], run.events[..i];
            (IssuedBy(s.issued, who, key)
             == Fates(s.log, who, key, Admitted) + Fates(s.log, who, key, DeniedLocally)
                + Fates(s.log, who, key, DeniedByCap)
                + |Waiters(s.pending, who, key)| + GivenUp(events, who, key) + Failed(events, who, key))
  {
    AnswersSplit(run.states[i].log, who, key);
    AccountBalances(run, i, who, key);
  }

  ghost predicate Balanced(s: State, events: seq<Event>, who: Option<string>, key: string) {
    IssuedBy(s.issued, who, key)
    == |Waiters(s.pending, who, key)| + Answers(s.log, who, key) + GivenUp(events, who, key) + Failed(events, who, key)
  }

  lemma {:induction false} AccountBalances(run: Run, i: nat, who: Option<string>, key: string)
    requires run.Valid() && i < |run.states|
    ensures Balanced(run.states[i], run.events[..i], who, key)
  {
    if i == 0 {
      NothingToBalance(run.states[0], who, key);
      assert run.events[..0] == [];
    } else {
      AccountBalances(run, i - 1, who, key);
      EventBalances(run, i - 1, who, key);
    }
  }

  lemma NothingToBalance(s: State, who: Option<string>, key: string)
    requires Init(s)
    ensures Balanced(s, [], who, key)
  {
    SumOfThree(IssuedSlots(s.issued, key));
    assert Waiters(s.pending, who, key) == {};
  }

  lemma EventBalances(run: Run, i: nat, who: Option<string>, key: string)
    requires run.Valid() && i < |run.events| && Balanced(run.states[i], run.events[..i], who, key)
    ensures Balanced(run.states[i + 1], run.events[..i + 1], who, key)
  {
    RunsAreSafe(run, i);
    StepBalances(run.states[i], run.events[..i], run.events[i], who, key);
    OneMoreEvent(run.events, i);
  }

  lemma {:induction false} OneMoreEvent(events: seq<Event>, i: nat)
    requires i < |events|
    ensures events[..i + 1] == events[..i] + [events[i]]
  {
  }

  lemma StepBalances(s: State, events: seq<Event>, e: Event, who: Option<string>, key: string)
    requires ValuesOk(s) && Enabled(s, e) && Balanced(s, events, who, key)
    ensures Balanced(Step(s, e), events + [e], who, key)
  {
    NextBalances(s, events, e, who, key);
    StepParts(s, e);
  }

  lemma StepParts(s: State, e: Event)
    requires Enabled(s, e)
    ensures Step(s, e).issued == IssuedAfter(s.issued, e) && Step(s, e).pending == PendingAfter(s, e)
    ensures Step(s, e).log == s.log + Answer(s, e)
  {
  }

  lemma NextBalances(s: State, events: seq<Event>, e: Event, who: Option<string>, key: string)
    requires ValuesOk(s) && Enabled(s, e) && Balanced(s, events, who, key)
    ensures IssuedBy(IssuedAfter(s.issued, e), who, key)
         == |Waiters(PendingAfter(s, e), who, key)| + Answers(s.log + Answer(s, e), who, key)
            + GivenUp(events + [e], who, key) + Failed(events + [e], who, key)
  {
    EventsChange(events, e, who, key);
    IssuedChange(s.issued, e, who, key);
    WaitersChange(s, e, who, key);
    AnswersChange(s, e, who, key);
    assert !(AnswersOne(e, who, key) && GivesUp(e, who, key));
  }

  lemma IssuedChange(counts: Counts, e: Event, who: Option<string>, key: string)
    requires (e.Increment? || e.IncrementError?) ==> e.region in REGIONS
    ensures IssuedBy(IssuedAfter(counts, e), who, key)
         == IssuedBy(counts, who, key) + (if CountsWaiter(e, who, key) then 1 else 0)
            + if Fails(e, who, key) then 1 else 0
  {
    IssuedByCounts(counts, e, who, key);
  }

  lemma {:induction false} EventsChange(events: seq<Event>, e: Event, who: Option<string>, key: string)
    ensures GivenUp(events + [e], who, key) == GivenUp(events, who, key) + if GivesUp(e, who, key) then 1 else 0
    ensures Failed(events + [e], who, key) == Failed(events, who, key) + if Fails(e, who, key) then 1 else 0
  {
    assert (events + [e])[..|events|] == events;
  }

  // ----- when a denial by the cap is earned

  // The event answers a request for the key that the local limiter allowed, and the cap denies it.
  ghost predicate CapDenies(s: State, e: Event, key: string)
    requires Enabled(s, e)
  {
    e.Read? && e.ticket.key == key && s.pending[e.ticket].local && !ReadVerdict(s, e.ticket).allowed
  }

  // What the key's counter holds that was not admitted, apart from one waiting request.
  ghost function NotAdmitted(run: Run, i: nat, key: string): int
    requires i < |run.states| && i <= |run.events|
  {
    var s, events := run.states[i], run.events[..i];
    Fates(s.log, None, key, DeniedLocally) + Fates(s.log, None, key, DeniedByCap)
    + |Waiters(s.pending, None, key)| - 1 + GivenUp(events, None, key) + Failed(events, None, key)
  }

  lemma DenialExceeds(s: State, e: Event, key: string)
    requires Inv(s) && Enabled(s, e) && CapDenies(s, e, key)
    ensures s.pending[e.ticket].limit < TrueTotal(s.issued, key)
  {
    var t := e.ticket;
    VisibleIsBelowTrue(s.nodes[t.region].store, s.issued, key);
  }

  lemma DenialExceedsInRun(run: Run, i: nat, key: string)
    requires run.Valid() && i < |run.events| && CapDenies(run.states[i], run.events[i], key)
    ensures run.states[i].pending[run.events[i].ticket].limit < TrueTotal(run.states[i].issued, key)
  {
    RunsAreSafe(run, i);
    DenialExceeds(run.states[i], run.events[i], key);
  }

  /** What a denial by the cap rests on: the limit is reached by the requests admitted so far together with those
      that only counted, being denied, waiting, given up or answered with an error. Where there are none of these
      the cap denies only after as many admissions as the limit. */
  lemma CapDenialRestsOn(run: Run, i: nat, key: string)
    requires run.Valid() && i < |run.events| && CapDenies(run.states[i], run.events[i], key)
    ensures run.states[i].pending[run.events[i].ticket].limit
         <= Fates(run.states[i].log, None, key, Admitted) + NotAdmitted(run, i, key)
    ensures NotAdmitted(run, i, key) == 0 ==>
              run.states[i].pending[run.events[i].ticket].limit <= Fates(run.states[i].log, None, key, Admitted)
  {
    DenialExceedsInRun(run, i, key);
    Account(run, i, None, key);
  }

  // In every run a request carrying this limit is denied by the cap only after as many admissions of its key.
  ghost predicate AlwaysEarned(limit: int) {
    forall run, i: nat, key {:trigger DeniedAt(run, i, key, limit)} | DeniedAt(run, i, key, limit) ::
      Fates(run.states[i].log, None, key, Admitted) >= limit
  }

  ghost predicate DeniedAt(run: Run, i: nat, key: string, limit: int) {
    && run.Valid() && i < |run.events| && CapDenies(run.states[i], run.events[i], key)
    && run.states[i].pending[run.events[i].ticket].limit == limit
  }

  // n requests of one user at us were counted and locally denied, and nothing else happened.
  ghost predicate OnlyRefused(s: State, key: string, n: nat) {
    && s.nodes.Keys == REGIONS && s.pending == map[]
    && HashAt(s.nodes["us"].store, key) == (if n == 0 then map[] else map["us" := n])
    && Fates(s.log, None, key, Admitted) == 0
  }

  // One more request at us, from its increment to just before its read.
  lemma Counted(run: Run, e: Event, n: nat) returns (longer: Run)
    requires run.Valid() && e.Increment? && e.region == "us" && OnlyRefused(run.Last(), RequestKey(e), n)
    ensures longer.Valid()
    ensures longer.Last() == Waiting(run.Last(), e, SaidIf(false, MessageOf(e, StoreAfter(run.Last(), e), 0)), true)
  {
    var s := run.Last();
    AfterIncrement(s, e);
    PlusIsValid(run, e);
    var counted := Plus(run, e);
    AfterPublish(s, e, 0, false);
    PlusIsValid(counted, Publish(TicketOf(s, e), 0, false));
    longer := Plus(counted, Publish(TicketOf(s, e), 0, false));
  }

  lemma SumOfOne(n: int)
    ensures Sum(map["us" := n]) == n
  {
    SumUpdate(map[], "us", n);
    assert map[]["us" := n] == map["us" := n];
  }

  // The read of such a request: a locally denied one is refused, a locally allowed one is denied by the cap.
  lemma ReadOfCounted(s: State, e: Event, n: nat, said: set<Envelope>)
    requires e.Increment? && e.region == "us" && OnlyRefused(s, RequestKey(e), n)
    ensures var w, t := Waiting(s, e, said, true), TicketOf(s, e);
            && Enabled(w, Read(t)) && Step(w, Read(t)) == Answered(s, e, said)
            && ReadVerdict(w, t).allowed == (e.local && n + 1 <= e.limit)
            && w.pending[t].local == e.local && w.pending[t].limit == e.limit && t.key == RequestKey(e)
            && w.log == s.log
  {
    AfterRead(s, e, said);
    SumOfOne(n + 1);
    assert HashAt(StoreAfter(s, e), RequestKey(e)) == map["us" := n + 1];
  }

  lemma RefusedOnceMore(s: State, e: Event, n: nat, said: set<Envelope>)
    requires e.Increment? && e.region == "us" && !e.local && OnlyRefused(s, RequestKey(e), n)
    ensures OnlyRefused(Answered(s, e, said), RequestKey(e), n + 1)
  {
    var after := Answered(s, e, said);
    assert after.log[..|s.log|] == s.log;
    assert HashAt(StoreAfter(s, e), RequestKey(e)) == map["us" := n + 1];
  }

  lemma {:induction false} Refused(tier: string, user: string, window: int, limit: int, n: nat) returns (run: Run)
    ensures run.Valid() && OnlyRefused(run.Last(), GlobalKey(tier, user, window), n)
  {
    if n == 0 {
      FreshIsValid();
      run := Fresh();
    } else {
      var before := Refused(tier, user, window, limit, n - 1);
      var e := Increment("us", tier, user, window, limit, false);
      var counted := Counted(before, e, n - 1);
      var said := SaidIf(false, MessageOf(e, StoreAfter(before.Last(), e), 0));
      ReadOfCounted(before.Last(), e, n - 1, said);
      RefusedOnceMore(before.Last(), e, n - 1, said);
      PlusIsValid(counted, Read(TicketOf(before.Last(), e)));
      run := Plus(counted, Read(TicketOf(before.Last(), e)));
    }
  }

  /** Denied though no request was admitted: as many locally denied requests as the limit, and then a locally
      allowed one. */
  lemma DeniedWithoutAdmissions(tier: string, user: string, window: int, limit: nat) returns (run: Run, i: nat)
    ensures DeniedAt(run, i, GlobalKey(tier, user, window), limit)
    ensures Fates(run.states[i].log, None, GlobalKey(tier, user, window), Admitted) == 0
  {
    var before := Refused(tier, user, window, limit, limit);
    var e := Increment("us", tier, user, window, limit, true);
    var counted := Counted(before, e, limit);
    ReadOfCounted(before.Last(), e, limit, SaidIf(false, MessageOf(e, StoreAfter(before.Last(), e), 0)));
    var t := TicketOf(before.Last(), e);
    PlusIsValid(counted, Read(t));
    run, i := Plus(counted, Read(t)), |counted.events|;
    assert run.states[i] == counted.Last();
  }

  /** How far "never under-allow" goes for admissions: a request is denied by the cap only after as many admissions
      as its limit exactly when the limit is not positive. For every positive limit the requests that were counted
      and denied can use it up by themselves. */
  lemma AlwaysEarnedIff(limit: int)
    ensures AlwaysEarned(limit) <==> limit <= 0
  {
    if limit > 0 {
      var run, i := DeniedWithoutAdmissions("free", "u", 0, limit);
      assert DeniedAt(run, i, GlobalKey("free", "u", 0), limit);
    }
  }
}
