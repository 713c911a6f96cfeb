/** gateway/internal/override/cache.go: a cache of per-user overrides with one fetch in flight per user. The
    class holds the code's critical sections; the state machine below runs any number of goroutines through
    them, each section one atomic step because it runs under the lock. */
module OverrideCache {
  import opened Sums
  import opened Wrappers

  datatype Entry = Entry(limit: int, hasValue: bool, expiresAt: int)

  // What the Redis GET and the JSON decoding yield.
  datatype Outcome = Absent | RedisError | BadJson | Found(limitPerMinute: int)

  /** The entry `fetch` builds: an error expires at once, everything else after the time to live. */
  function Built(outcome: Outcome, ttl: int, now: int): Entry {
    match outcome
    case RedisError => Entry(0, false, now)
    case Found(n) => if n <= 0 then Entry(0, false, now + ttl) else Entry(n, true, now + ttl)
    case _ => Entry(0, false, now + ttl)
  }

  const ZERO := Entry(0, false, 0)

  function ResultOf(res: Option<Entry>): Entry {
    if res.Some? then res.value else ZERO
  }

  predicate Live(entries: map<string, Entry>, user: string, now: int) {
    user in entries && now < entries[user].expiresAt
  }

  datatype Slow<F> = Hit(entry: Entry) | Joins(flight: F) | Leads(flight: F)

  /** What the section under the write lock decides; `next` is the marker it would create. */
  function SlowSection<F>(entries: map<string, Entry>, inflight: map<string, F>, user: string, now: int, next: F): Slow<F> {
    if Live(entries, user, now) then Hit(entries[user])
    else if user in inflight then Joins(inflight[user])
    else Leads(next)
  }

  class Flight {
    var done: bool
    var res: Option<Entry>

    constructor ()
      ensures !done && res == None
    {
      done := false;
      res := None;
    }
  }

  class Cache {
    const ttl: int
    var entries: map<string, Entry>
    var inflight: map<string, Flight>

    constructor (ttl: int)
      ensures this.ttl == ttl && entries == map[] && inflight == map[]
    {
      this.ttl := ttl;
      entries := map[];
      inflight := map[];
    }

    method FastPath(user: string, now: int) returns (hit: Option<Entry>)
      ensures hit == if Live(entries, user, now) then Some(entries[user]) else None
    {
      if user in entries && now < entries[user].expiresAt {
        return Some(entries[user]);
      }
      return None;
    }

    method SlowPath(user: string, now: int) returns (step: Slow<Flight>)
      modifies this`inflight
      ensures step.Leads? ==> fresh(step.flight) && !step.flight.done && step.flight.res == None
      ensures step.Hit? <==> Live(entries, user, now)
      ensures step.Leads? <==> !Live(entries, user, now) && user !in old(inflight)
      ensures step.Hit? ==> step.entry == entries[user]
      ensures step.Joins? ==> step.flight == old(inflight)[user]
      ensures inflight == if step.Leads? then old(inflight)[user := step.flight] else old(inflight)
    {
      if user in entries && now < entries[user].expiresAt {
        return Hit(entries[user]);
      }
      if user in inflight {
        return Joins(inflight[user]);
      }
      var fl := new Flight();
      inflight := inflight[user := fl];
      return Leads(fl);
    }

    method Fetch(outcome: Outcome, now: int) returns (entry: Entry)
      ensures entry == Built(outcome, ttl, now)
      ensures Tells(entry, outcome) && entry.expiresAt == now + if outcome.RedisError? then 0 else ttl
    {
      match outcome
      case Absent => entry := Entry(0, false, now + ttl);
      case RedisError => entry := Entry(0, false, now);
      case BadJson => entry := Entry(0, false, now + ttl);
      case Found(n) =>
        entry := if n <= 0 then Entry(0, false, now + ttl) else Entry(n, true, now + ttl);
    }

    method Publish(user: string, fl: Flight, entry: Entry)
      modifies this`entries, this`inflight, fl`res
      ensures entries == old(entries)[user := entry]
      ensures inflight == old(inflight) - {user}
      ensures fl.res == Some(entry)
    {
      entries := entries[user := entry];
      fl.res := Some(entry);
      inflight := inflight - {user};
    }

    // What a goroutine that waited for the channel reads: the zero value if the result were not set yet.
    method Join(fl: Flight) returns (entry: Entry)
      requires fl.done
      ensures entry == ResultOf(fl.res)
    {
      entry := if fl.res.Some? then fl.res.value else ZERO;
    }

    // Closing a closed channel panics, hence the precondition.
    method Close(fl: Flight)
      requires !fl.done
      modifies fl`done
      ensures fl.done
    {
      fl.done := true;
    }

    /** A whole lookup that no other goroutine interrupts; one for a user in flight would wait for its leader. It
        answers from a live entry or with what the fetch built, which is cached, and leaves no marker behind. */
    method Lookup(user: string, fastAt: int, lockedAt: int, fetchedAt: int, outcome: Outcome) returns (entry: Entry)
      requires user !in inflight
      modifies this`entries, this`inflight
      ensures entry == if Live(old(entries), user, fastAt) || Live(old(entries), user, lockedAt)
                       then old(entries)[user] else Built(outcome, ttl, fetchedAt)
      ensures entries == if Live(old(entries), user, fastAt) || Live(old(entries), user, lockedAt)
                         then old(entries) else old(entries)[user := entry]
      ensures !Live(old(entries), user, fastAt) && !Live(old(entries), user, lockedAt) ==>
                && (entry.hasValue <==> outcome.Found? && outcome.limitPerMinute > 0)
                && (entry.hasValue ==> entry.limit == outcome.limitPerMinute)
                && entry.expiresAt == fetchedAt + if outcome.RedisError? then 0 else ttl
      ensures inflight == old(inflight)
    {
      var hit := FastPath(user, fastAt);
      if hit.Some? {
        return hit.value;
      }
      var step := SlowPath(user, lockedAt);
      if step.Hit? {
        return step.entry;
      }
      entry := Fetch(outcome, fetchedAt);
      Publish(user, step.flight, entry);
      Close(step.flight);
    }
  }

  // ----- any number of goroutines

  /** A lookup in flight, numbered in the order they start: who leads it, when it started, what it found and
      when, and how often its channel was closed. */
  datatype FlightState = FlightState(user: string, leader: nat, start: int, found: Option<Finding>,
                                     res: Option<Entry>, closed: nat)
  datatype Finding = Finding(at: int, outcome: Outcome) {
    predicate Failed() {
      outcome.RedisError?
    }
  }

  // How a lookup got its answer: from the cache, as the leader of a flight, or by joining one.
  datatype Via = FromCache(at: int, flight: nat) | AsLeader(flight: nat) | AsJoiner(flight: nat)

  datatype Pc =
    | Calling(user: string)
    | Missed(user: string)
    | Waiting(user: string, flight: nat)
    | Fetching(user: string, flight: nat)
    | Fetched(user: string, flight: nat, entry: Entry)
    | Published(user: string, flight: nat, entry: Entry)
    | Returned(user: string, entry: Entry, via: Via)

  /** `source` records which flight an entry came from; the code does not keep it. */
  datatype State = State(ttl: nat, now: int, entries: map<string, Entry>, source: map<string, nat>,
                         inflight: map<string, nat>, flights: seq<FlightState>, procs: map<nat, Pc>)

  datatype Event =
    | Call(g: nat, user: string)
    | Tick(to: int)
    | Fast(g: nat)
    | Lock(g: nat)
    | Receive(g: nat, outcome: Outcome)
    | Publish(g: nat)
    | Close(g: nat)
    | Wake(g: nat)

  ghost predicate Init(s: State) {
    s.entries == map[] && s.source == map[] && s.inflight == map[] && s.flights == [] && s.procs == map[]
  }

  predicate Enabled(s: State, e: Event) {
    match e
    case Call(g, _) => g !in s.procs
    case Tick(to) => to >= s.now
    case Fast(g) => g in s.procs && s.procs[g].Calling?
    case Lock(g) => g in s.procs && s.procs[g].Missed?
    case Receive(g, _) => g in s.procs && s.procs[g].Fetching? && s.procs[g].flight < |s.flights|
    case Publish(g) => g in s.procs && s.procs[g].Fetched? && s.procs[g].flight < |s.flights|
    case Close(g) => g in s.procs && s.procs[g].Published? && s.procs[g].flight < |s.flights|
    case Wake(g) =>
      && g in s.procs && s.procs[g].Waiting? && s.procs[g].flight < |s.flights|
      && s.flights[s.procs[g].flight].closed > 0
  }

  function SourceOf(s: State, user: string): nat {
    if user in s.source then s.source[user] else 0
  }

  // What a goroutine decides in its locked section.
  function Decides(s: State, user: string): Slow<nat> {
    SlowSection(s.entries, s.inflight, user, s.now, |s.flights|)
  }

  predicate LeadsNow(s: State, e: Event)
    requires Enabled(s, e)
  {
    e.Lock? && Decides(s, s.procs[e.g].user).Leads?
  }

  function PcAfter(s: State, e: Event): Pc
    requires Enabled(s, e) && !e.Tick?
  {
    match e
    case Call(_, user) => Calling(user)
    case Fast(g) =>
      var u := s.procs[g].user;
      if Live(s.entries, u, s.now) then Returned(u, s.entries[u], FromCache(s.now, SourceOf(s, u))) else Missed(u)
    case Lock(g) =>
      var u := s.procs[g].user;
      (match Decides(s, u)
       case Hit(entry) => Returned(u, entry, FromCache(s.now, SourceOf(s, u)))
       case Joins(f) => Waiting(u, f)
       case Leads(f) => Fetching(u, f))
    case Receive(g, outcome) => Fetched(s.procs[g].user, s.procs[g].flight, Built(outcome, s.ttl, s.now))
    case Publish(g) => Published(s.procs[g].user, s.procs[g].flight, s.procs[g].entry)
    case Close(g) => Returned(s.procs[g].user, s.procs[g].entry, AsLeader(s.procs[g].flight))
    case Wake(g) =>
      Returned(s.procs[g].user, ResultOf(s.flights[s.procs[g].flight].res), AsJoiner(s.procs[g].flight))
  }

  function FlightsAfter(s: State, e: Event): seq<FlightState>
    requires Enabled(s, e)
  {
    match e
    case Receive(g, outcome) =>
      var f := s.procs[g].flight;
      s.flights[f := s.flights[f].(found := Some(Finding(s.now, outcome)))]
    case Publish(g) =>
      var f := s.procs[g].flight;
      s.flights[f := s.flights[f].(res := Some(s.procs[g].entry))]
    case Close(g) =>
      var f := s.procs[g].flight;
      s.flights[f := s.flights[f].(closed := s.flights[f].closed + 1)]
    case Lock(g) =>
      if LeadsNow(s, e) then s.flights + [FlightState(s.procs[g].user, g, s.now, None, None, 0)] else s.flights
    case _ => s.flights
  }

  function EntriesAfter(s: State, e: Event): map<string, Entry>
    requires Enabled(s, e)
  {
    if e.Publish? then s.entries[s.procs[e.g].user := s.procs[e.g].entry] else s.entries
  }

  function SourceAfter(s: State, e: Event): map<string, nat>
    requires Enabled(s, e)
  {
    if e.Publish? then s.source[s.procs[e.g].user := s.procs[e.g].flight] else s.source
  }

  function InflightAfter(s: State, e: Event): map<string, nat>
    requires Enabled(s, e)
  {
    if e.Publish? then s.inflight - {s.procs[e.g].user}
    else if LeadsNow(s, e) then s.inflight[s.procs[e.g].user := |s.flights|]
    else s.inflight
  }

  function Step(s: State, e: Event): State
    requires Enabled(s, e)
  {
    State(s.ttl, if e.Tick? then e.to else s.now, EntriesAfter(s, e), SourceAfter(s, e), InflightAfter(s, e),
          FlightsAfter(s, e),
          if e.Tick? then s.procs else s.procs[e.g := PcAfter(s, e)])
  }

  // ----- the invariant

  // A leader is fetching, or holds a result it has yet to publish.
  predicate Busy(pc: Pc) {
    pc.Fetching? || pc.Fetched?
  }

  /** The entry says what the GET found: an override exactly for a positive limit, and then that limit. */
  predicate Tells(e: Entry, outcome: Outcome) {
    && (e.hasValue <==> outcome.Found? && outcome.limitPerMinute > 0)
    && e.limit == if e.hasValue then outcome.limitPerMinute else 0
  }

  ghost predicate FoundAnswer(fl: FlightState, e: Entry) {
    fl.found.Some? && Tells(e, fl.found.value.outcome)
  }

  // Where the leader of a flight stands, and what that says about the flight.
  ghost predicate LeaderOk(fl: FlightState, f: nat, pc: Pc) {
    && pc.user == fl.user
    && match pc
       case Fetching(_, k) => k == f && fl.found.None? && fl.res.None? && fl.closed == 0
       case Fetched(_, k, e) => k == f && FoundAnswer(fl, e) && fl.res.None? && fl.closed == 0
       case Published(_, k, e) => k == f && FoundAnswer(fl, e) && fl.res == Some(e) && fl.closed == 0
       case Returned(_, e, via) => via == AsLeader(f) && FoundAnswer(fl, e) && fl.res == Some(e) && fl.closed == 1
       case _ => false
  }

  ghost predicate FlightsOk(s: State) {
    forall f | 0 <= f < |s.flights| ::
      s.flights[f].leader in s.procs && LeaderOk(s.flights[f], f, s.procs[s.flights[f].leader])
  }

  ghost predicate ProcOk(s: State, g: nat, pc: Pc) {
    match pc
    case Waiting(u, f) => f < |s.flights| && s.flights[f].user == u
    case Fetching(_, f) => f < |s.flights| && s.flights[f].leader == g
    case Fetched(_, f, e) => f < |s.flights| && s.flights[f].leader == g && s.flights[f].found.Some?
                             && e.expiresAt == Expiry(s.ttl, s.flights[f].found.value)
    case Published(_, f, _) => f < |s.flights| && s.flights[f].leader == g
    case Returned(u, e, via) =>
      (match via
       case AsLeader(f) => f < |s.flights| && s.flights[f].leader == g
       case AsJoiner(f) => f < |s.flights| && s.flights[f].user == u && s.flights[f].closed == 1 && s.flights[f].res == Some(e)
       case FromCache(at, f) => && f < |s.flights| && s.flights[f].user == u && s.flights[f].res == Some(e)
                                && s.flights[f].found.Some? && !s.flights[f].found.value.Failed()
                                && at - s.flights[f].found.value.at < s.ttl)
    case _ => true
  }

  function Expiry(ttl: nat, found: Finding): int {
    if found.Failed() then found.at else found.at + ttl
  }

  ghost predicate ProcsOk(s: State) {
    forall g | g in s.procs :: ProcOk(s, g, s.procs[g])
  }

  // The user's marker names a flight of the user whose leader is busy.
  ghost predicate MarkerOk(s: State, u: string) {
    u in s.inflight ==>
      var f := s.inflight[u];
      && f < |s.flights| && s.flights[f].user == u
      && s.flights[f].leader in s.procs && Busy(s.procs[s.flights[f].leader])
  }

  ghost predicate BusyOk(s: State, g: nat) {
    g in s.procs && Busy(s.procs[g]) ==>
      s.procs[g].user in s.inflight && s.inflight[s.procs[g].user] == s.procs[g].flight
  }

  // The marker of a user exists exactly while some goroutine is busy for the user.
  ghost predicate MarkersOk(s: State) {
    && (forall u {:trigger MarkerOk(s, u)} :: MarkerOk(s, u))
    && (forall g {:trigger BusyOk(s, g)} :: BusyOk(s, g))
  }

  ghost predicate EntriesOk(s: State) {
    && s.entries.Keys == s.source.Keys
    && forall u | u in s.entries ::
         && s.source[u] < |s.flights|
         && var fl := s.flights[s.source[u]];
            && fl.user == u && fl.res == Some(s.entries[u]) && fl.found.Some?
            && s.entries[u].expiresAt == Expiry(s.ttl, fl.found.value)
  }

  ghost predicate ClockOk(s: State) {
    forall f | 0 <= f < |s.flights| ::
      && s.flights[f].start <= s.now
      && (s.flights[f].found.Some? ==> s.flights[f].start <= s.flights[f].found.value.at <= s.now)
  }

  // The flight found something other than an error.
  predicate Good(fl: FlightState) {
    fl.found.Some? && !fl.found.value.Failed()
  }

  // Flight i was over, and if good a time to live past, when flight j of its user started.
  ghost predicate Precedes(ttl: nat, x: FlightState, y: FlightState) {
    && x.res.Some? && x.found.Some? && x.found.value.at <= y.start
    && (Good(x) ==> x.found.value.at + ttl <= y.start)
  }

  ghost predicate RateOk(s: State) {
    // an earlier flight of a user was published before a later one started, at least the time to live before
    // if it was good
    && (forall i, j | 0 <= i < j < |s.flights| && s.flights[i].user == s.flights[j].user ::
          Precedes(s.ttl, s.flights[i], s.flights[j]))
    // the entry of a user outlives every good flight published for the user
    && (forall i | 0 <= i < |s.flights| && s.flights[i].res.Some? ::
          && s.flights[i].user in s.entries
          && SourceOf(s, s.flights[i].user) >= i)
  }

  ghost predicate Inv(s: State) {
    FlightsOk(s) && ProcsOk(s) && MarkersOk(s) && EntriesOk(s) && ClockOk(s) && RateOk(s)
  }

  // What an event of a busy goroutine knows about the flight it works on.
  lemma OwnFlight(s: State, e: Event)
    requires FlightsOk(s) && ProcsOk(s) && Enabled(s, e)
    requires e.Receive? || e.Publish? || e.Close?
    ensures var f := s.procs[e.g].flight;
            f < |s.flights| && s.flights[f].leader == e.g && LeaderOk(s.flights[f], f, s.procs[e.g])
    ensures ProcOk(s, e.g, s.procs[e.g])
  {
    assert ProcOk(s, e.g, s.procs[e.g]);
    var f := s.procs[e.g].flight;
    assert LeaderOk(s.flights[f], f, s.procs[s.flights[f].leader]);
  }

  // What an event leaves of a flight: what is settled about it stays settled.
  ghost predicate Settles(x: FlightState, y: FlightState) {
    && x.user == y.user && x.leader == y.leader && x.start == y.start
    && (x.found.Some? ==> y.found == x.found)
    && (x.res.Some? ==> y.res == x.res)
    && (x.closed == 1 ==> y.closed == 1)
  }

  lemma FlightsSettle(s: State, e: Event, f: nat)
    requires FlightsOk(s) && ProcsOk(s) && Enabled(s, e) && f < |s.flights|
    ensures |s.flights| <= |FlightsAfter(s, e)|
    ensures Settles(s.flights[f], FlightsAfter(s, e)[f])
    ensures FlightsAfter(s, e)[f].res.Some? && s.flights[f].res.None? ==> e.Publish? && s.procs[e.g].flight == f
    ensures FlightsAfter(s, e)[f].found.Some? && s.flights[f].found.None? ==>
              e.Receive? && s.procs[e.g].flight == f && FlightsAfter(s, e)[f].found.value.at == s.now
  {
    if e.Receive? || e.Publish? || e.Close? {
      OwnFlight(s, e);
    }
  }

  lemma NewFlight(s: State, e: Event, f: nat)
    requires Enabled(s, e) && |s.flights| <= f < |FlightsAfter(s, e)|
    ensures LeadsNow(s, e) && f == |s.flights|
    ensures FlightsAfter(s, e)[f] == FlightState(s.procs[e.g].user, e.g, s.now, None, None, 0)
  {
  }

  lemma OldFlightOk(s: State, e: Event, f: nat)
    requires FlightsOk(s) && ProcsOk(s) && Enabled(s, e) && f < |s.flights|
    ensures var fl := FlightsAfter(s, e)[f];
            fl.leader in Step(s, e).procs && LeaderOk(fl, f, Step(s, e).procs[fl.leader])
  {
    assert LeaderOk(s.flights[f], f, s.procs[s.flights[f].leader]);
    if e.Receive? || e.Publish? || e.Close? {
      OwnFlight(s, e);
    }
  }

  lemma StepKeepsFlights(s: State, e: Event)
    requires FlightsOk(s) && ProcsOk(s) && Enabled(s, e)
    ensures FlightsOk(Step(s, e))
  {
    var t := Step(s, e);
    forall f | 0 <= f < |t.flights|
      ensures t.flights[f].leader in t.procs && LeaderOk(t.flights[f], f, t.procs[t.flights[f].leader])
    {
      if f < |s.flights| {
        OldFlightOk(s, e, f);
      } else {
        NewFlight(s, e, f);
      }
    }
  }

  lemma MarkerStays(s: State, e: Event, u: string)
    requires FlightsOk(s) && ProcsOk(s) && MarkersOk(s) && Enabled(s, e)
    ensures MarkerOk(Step(s, e), u)
  {
    if u in InflightAfter(s, e) {
      var f := InflightAfter(s, e)[u];
      assert MarkerOk(s, u);
      if f < |s.flights| {
        var g := s.flights[f].leader;
        FlightsSettle(s, e, f);
        assert LeaderOk(s.flights[f], f, s.procs[g]);
      }
    }
  }

  lemma BusyHasMarker(s: State, e: Event, g: nat)
    requires FlightsOk(s) && ProcsOk(s) && MarkersOk(s) && Enabled(s, e)
    ensures BusyOk(Step(s, e), g)
  {
    assert BusyOk(s, g);
    if g in s.procs && Busy(s.procs[g]) {
      assert ProcOk(s, g, s.procs[g]);
      if e.Publish? {
        OwnFlight(s, e);
        assert BusyOk(s, e.g);
      }
    }
  }

  lemma StepKeepsMarkers(s: State, e: Event)
    requires FlightsOk(s) && ProcsOk(s) && MarkersOk(s) && Enabled(s, e)
    ensures MarkersOk(Step(s, e))
  {
    forall g
      ensures BusyOk(Step(s, e), g)
    {
      BusyHasMarker(s, e, g);
    }
    forall u
      ensures MarkerOk(Step(s, e), u)
    {
      MarkerStays(s, e, u);
    }
  }

  lemma StepKeepsEntries(s: State, e: Event)
    requires FlightsOk(s) && ProcsOk(s) && EntriesOk(s) && Enabled(s, e)
    ensures EntriesOk(Step(s, e))
  {
    var t := Step(s, e);
    if e.Publish? {
      OwnFlight(s, e);
    }
    forall u | u in t.entries
      ensures u in t.source && t.source[u] < |t.flights|
      ensures var fl := t.flights[t.source[u]];
              && fl.user == u && fl.res == Some(t.entries[u]) && fl.found.Some?
              && t.entries[u].expiresAt == Expiry(t.ttl, fl.found.value)
    {
      if !e.Publish? || u != s.procs[e.g].user {
        FlightsSettle(s, e, s.source[u]);
      }
    }
  }

  lemma StepKeepsClock(s: State, e: Event)
    requires FlightsOk(s) && ProcsOk(s) && ClockOk(s) && Enabled(s, e)
    ensures ClockOk(Step(s, e))
  {
    var t := Step(s, e);
    forall f | 0 <= f < |t.flights|
      ensures t.flights[f].start <= t.now
      ensures t.flights[f].found.Some? ==> t.flights[f].start <= t.flights[f].found.value.at <= t.now
    {
      if f < |s.flights| {
        FlightsSettle(s, e, f);
        assert s.flights[f].start <= s.now;
      } else {
        NewFlight(s, e, f);
      }
    }
  }

  // The entry of a user expires no earlier than the time to live after any good flight published for it.
  lemma EntryOutlivesGoodFlights(s: State, i: nat)
    requires EntriesOk(s) && ClockOk(s) && RateOk(s)
    requires i < |s.flights| && s.flights[i].res.Some? && Good(s.flights[i])
    ensures s.flights[i].user in s.entries
    ensures s.entries[s.flights[i].user].expiresAt >= s.flights[i].found.value.at + s.ttl
  {
    var j := s.source[s.flights[i].user];
    if i < j {
      assert s.flights[i].user == s.flights[j].user;
    }
  }

  // A user without a marker has only published flights.
  lemma UnmarkedIsPublished(s: State, i: nat)
    requires FlightsOk(s) && MarkersOk(s)
    requires i < |s.flights| && s.flights[i].user !in s.inflight
    ensures s.flights[i].res.Some? && s.flights[i].found.Some?
  {
    assert LeaderOk(s.flights[i], i, s.procs[s.flights[i].leader]);
    assert BusyOk(s, s.flights[i].leader);
  }

  lemma LeadKeepsRate(s: State, i: nat, user: string)
    requires Inv(s) && i < |s.flights| && s.flights[i].user == user
    requires user !in s.inflight && !Live(s.entries, user, s.now)
    ensures s.flights[i].res.Some? && s.flights[i].found.Some? && s.flights[i].found.value.at <= s.now
    ensures Good(s.flights[i]) ==> s.flights[i].found.value.at + s.ttl <= s.now
  {
    UnmarkedIsPublished(s, i);
    if Good(s.flights[i]) {
      EntryOutlivesGoodFlights(s, i);
    }
  }

  lemma OrderStays(s: State, e: Event, i: nat, j: nat)
    requires FlightsOk(s) && ProcsOk(s) && Enabled(s, e) && i < j < |s.flights|
    requires Precedes(s.ttl, s.flights[i], s.flights[j])
    ensures j < |FlightsAfter(s, e)| && Precedes(s.ttl, FlightsAfter(s, e)[i], FlightsAfter(s, e)[j])
  {
    FlightsSettle(s, e, i);
    FlightsSettle(s, e, j);
  }

  lemma OrderStarts(s: State, e: Event, i: nat)
    requires Inv(s) && Enabled(s, e) && LeadsNow(s, e)
    requires i < |s.flights| && s.flights[i].user == s.procs[e.g].user
    ensures Precedes(s.ttl, FlightsAfter(s, e)[i], FlightsAfter(s, e)[|s.flights|])
  {
    NewFlight(s, e, |s.flights|);
    LeadKeepsRate(s, i, s.procs[e.g].user);
  }

  lemma SourceStays(s: State, e: Event, i: nat)
    requires FlightsOk(s) && ProcsOk(s) && RateOk(s) && Enabled(s, e)
    requires i < |FlightsAfter(s, e)| && FlightsAfter(s, e)[i].res.Some?
    ensures FlightsAfter(s, e)[i].user in EntriesAfter(s, e)
    ensures SourceOf(Step(s, e), FlightsAfter(s, e)[i].user) >= i
  {
    if i >= |s.flights| {
      NewFlight(s, e, i);
    }
    FlightsSettle(s, e, i);
    if e.Publish? {
      OwnFlight(s, e);
      var f := s.procs[e.g].flight;
      assert i <= f || s.flights[i].user != s.flights[f].user;
    }
  }

  lemma PairStays(s: State, e: Event, i: nat, j: nat)
    requires Inv(s) && Enabled(s, e)
    requires i < j < |FlightsAfter(s, e)| && FlightsAfter(s, e)[i].user == FlightsAfter(s, e)[j].user
    ensures Precedes(s.ttl, FlightsAfter(s, e)[i], FlightsAfter(s, e)[j])
  {
    if j < |s.flights| {
      FlightsSettle(s, e, i);
      FlightsSettle(s, e, j);
      OrderStays(s, e, i, j);
    } else {
      NewFlight(s, e, j);
      FlightsSettle(s, e, i);
      OrderStarts(s, e, i);
    }
  }

  lemma StepKeepsRate(s: State, e: Event)
    requires Inv(s) && Enabled(s, e)
    ensures RateOk(Step(s, e))
  {
    var t := Step(s, e);
    forall i, j | 0 <= i < j < |t.flights| && t.flights[i].user == t.flights[j].user
      ensures Precedes(t.ttl, t.flights[i], t.flights[j])
    {
      PairStays(s, e, i, j);
    }
    forall i | 0 <= i < |t.flights| && t.flights[i].res.Some?
      ensures t.flights[i].user in t.entries && SourceOf(t, t.flights[i].user) >= i
    {
      SourceStays(s, e, i);
    }
  }

  lemma HitIsGood(s: State, user: string)
    requires EntriesOk(s) && ClockOk(s) && Live(s.entries, user, s.now)
    ensures var f := SourceOf(s, user);
            && f < |s.flights| && s.flights[f].user == user && s.flights[f].res == Some(s.entries[user])
            && Good(s.flights[f]) && s.now - s.flights[f].found.value.at < s.ttl
  {
  }

  lemma BusyStepperOk(s: State, e: Event)
    requires FlightsOk(s) && ProcsOk(s) && Enabled(s, e)
    requires e.Receive? || e.Publish? || e.Close?
    ensures ProcOk(Step(s, e), e.g, PcAfter(s, e))
  {
    OwnFlight(s, e);
  }

  lemma CachedStepperOk(s: State, e: Event)
    requires FlightsOk(s) && ProcsOk(s) && EntriesOk(s) && ClockOk(s) && Enabled(s, e)
    requires e.Fast? || e.Lock?
    requires Live(s.entries, s.procs[e.g].user, s.now)
    ensures ProcOk(Step(s, e), e.g, PcAfter(s, e))
  {
    HitIsGood(s, s.procs[e.g].user);
    FlightsSettle(s, e, SourceOf(s, s.procs[e.g].user));
  }

  lemma JoinerOk(s: State, e: Event)
    requires FlightsOk(s) && ProcsOk(s) && MarkersOk(s) && Enabled(s, e)
    requires e.Wake? || e.Lock? || e.Fast? || e.Call?
    requires e.Fast? || e.Lock? ==> !Live(s.entries, s.procs[e.g].user, s.now)
    ensures ProcOk(Step(s, e), e.g, PcAfter(s, e))
  {
    if e.Wake? {
      var f := s.procs[e.g].flight;
      assert ProcOk(s, e.g, s.procs[e.g]);
      assert LeaderOk(s.flights[f], f, s.procs[s.flights[f].leader]);
    } else if e.Lock? {
      assert MarkerOk(s, s.procs[e.g].user);
    }
  }

  // The goroutine that steps ends where the invariant wants it.
  lemma StepperOk(s: State, e: Event)
    requires Inv(s) && Enabled(s, e) && !e.Tick?
    ensures ProcOk(Step(s, e), e.g, PcAfter(s, e))
  {
    if e.Receive? || e.Publish? || e.Close? {
      BusyStepperOk(s, e);
    } else if (e.Fast? || e.Lock?) && Live(s.entries, s.procs[e.g].user, s.now) {
      CachedStepperOk(s, e);
    } else {
      JoinerOk(s, e);
    }
  }

  // A flight that settles keeps every other goroutine's facts.
  lemma SettledProcOk(s: State, t: State, g: nat, pc: Pc)
    requires ProcOk(s, g, pc) && t.ttl == s.ttl && |s.flights| <= |t.flights|
    requires !pc.Calling? && !pc.Missed? ==>
               var f := if pc.Returned? then pc.via.flight else pc.flight;
               f < |s.flights| && Settles(s.flights[f], t.flights[f])
    ensures ProcOk(t, g, pc)
  {
  }

  lemma BystanderOk(s: State, e: Event, g: nat)
    requires FlightsOk(s) && ProcsOk(s) && Enabled(s, e) && g in s.procs
    ensures ProcOk(Step(s, e), g, s.procs[g])
  {
    var pc := s.procs[g];
    assert ProcOk(s, g, pc);
    if pc.Calling? || pc.Missed? {
    } else {
      FlightsSettle(s, e, if pc.Returned? then pc.via.flight else pc.flight);
      SettledProcOk(s, Step(s, e), g, pc);
    }
  }

  lemma StepKeepsProcs(s: State, e: Event)
    requires Inv(s) && Enabled(s, e)
    ensures ProcsOk(Step(s, e))
  {
    var t := Step(s, e);
    forall g | g in t.procs
      ensures ProcOk(t, g, t.procs[g])
    {
      if !e.Tick? && g == e.g {
        StepperOk(s, e);
      } else {
        BystanderOk(s, e, g);
      }
    }
  }

  /** Every step of every goroutine keeps the invariant. */
  lemma StepKeepsInv(s: State, e: Event)
    requires Inv(s) && Enabled(s, e)
    ensures Inv(Step(s, e))
  {
    StepKeepsFlights(s, e);
    StepKeepsProcs(s, e);
    StepKeepsMarkers(s, e);
    StepKeepsEntries(s, e);
    StepKeepsClock(s, e);
    StepKeepsRate(s, e);
  }

  // ----- whole runs

  datatype Run = Run(states: seq<State>, events: seq<Event>) {
    ghost predicate Valid() {
      && |states| == |events| + 1
      && Init(states[0])
      && forall i {:trigger events[i]} | 0 <= i < |events| ::
           Enabled(states[i], events[i]) && states[i + 1] == Step(states[i], events[i])
    }
  }

  lemma {:induction false} RunsKeepInv(run: Run, i: nat)
    requires run.Valid() && i < |run.states|
    ensures Inv(run.states[i])
  {
    if i == 0 {
    } else {
      RunsKeepInv(run, i - 1);
      StepKeepsInv(run.states[i - 1], run.events[i - 1]);
    }
  }

  /** Single flight. In every reachable state of any number of goroutines, at most one is busy fetching or
      about to publish for a user, and the user's marker exists exactly while one is. */
  lemma SingleFlight(run: Run, i: nat, user: string, g: nat, h: nat)
    requires run.Valid() && i < |run.states|
    requires g in run.states[i].procs && h in run.states[i].procs
    requires Busy(run.states[i].procs[g]) && run.states[i].procs[g].user == user
    requires Busy(run.states[i].procs[h]) && run.states[i].procs[h].user == user
    ensures g == h
    ensures user in run.states[i].inflight
  {
    var s := run.states[i];
    RunsKeepInv(run, i);
    assert BusyOk(s, g) && BusyOk(s, h);
    assert ProcOk(s, g, s.procs[g]) && ProcOk(s, h, s.procs[h]);
  }

  lemma MarkerHasLeader(run: Run, i: nat, user: string) returns (g: nat)
    requires run.Valid() && i < |run.states| && user in run.states[i].inflight
    ensures g in run.states[i].procs && Busy(run.states[i].procs[g]) && run.states[i].procs[g].user == user
  {
    var s := run.states[i];
    RunsKeepInv(run, i);
    assert MarkerOk(s, user);
    var f := s.inflight[user];
    g := s.flights[f].leader;
    assert LeaderOk(s.flights[f], f, s.procs[g]);
  }

  /** Everyone who joined a flight returns the result its leader returns, for the user both asked about; the
      channel is closed at most once, only after the result is set, and never by a second close. */
  lemma JoinersShareTheResult(run: Run, i: nat, g: nat, f: nat)
    requires run.Valid() && i < |run.states| && g in run.states[i].procs && f < |run.states[i].flights|
    ensures var s, fl := run.states[i], run.states[i].flights[f];
            && fl.closed <= 1 && (fl.closed == 1 ==> fl.res.Some?)
            && (Enabled(s, Close(g)) && s.procs[g].flight == f ==> fl.closed == 0 && fl.res.Some?)
            && fl.leader in s.procs && s.procs[fl.leader].user == fl.user
            && (s.procs[g].Returned? && s.procs[g].via == AsJoiner(f) ==>
                  && s.procs[g].user == fl.user
                  && s.procs[fl.leader] == Returned(fl.user, s.procs[g].entry, AsLeader(f)))
  {
    var s := run.states[i];
    RunsKeepInv(run, i);
    assert LeaderOk(s.flights[f], f, s.procs[s.flights[f].leader]);
    assert ProcOk(s, g, s.procs[g]);
  }

  lemma FlightTells(run: Run, i: nat, f: nat)
    requires run.Valid() && i < |run.states| && f < |run.states[i].flights| && run.states[i].flights[f].res.Some?
    ensures FoundAnswer(run.states[i].flights[f], run.states[i].flights[f].res.value)
  {
    var s := run.states[i];
    RunsKeepInv(run, i);
    assert LeaderOk(s.flights[f], f, s.procs[s.flights[f].leader]);
  }

  lemma ReturnedOfFlight(run: Run, i: nat, g: nat)
    requires run.Valid() && i < |run.states| && g in run.states[i].procs && run.states[i].procs[g].Returned?
    ensures var s, pc := run.states[i], run.states[i].procs[g];
            && pc.via.flight < |s.flights|
            && s.flights[pc.via.flight].user == pc.user && s.flights[pc.via.flight].res == Some(pc.entry)
  {
    var s, pc := run.states[i], run.states[i].procs[g];
    RunsKeepInv(run, i);
    assert ProcOk(s, g, pc);
    assert LeaderOk(s.flights[pc.via.flight], pc.via.flight, s.procs[s.flights[pc.via.flight].leader]);
  }

  /** What a lookup answers. In every reachable state, whoever returned, as the leader of a flight, by joining it
      or from the cache, says what the GET of that flight found for the user: an override if and only if it found a
      positive limit, and then exactly that limit. */
  lemma AnswersAreFound(run: Run, i: nat, g: nat)
    requires run.Valid() && i < |run.states| && g in run.states[i].procs && run.states[i].procs[g].Returned?
    ensures var s, pc := run.states[i], run.states[i].procs[g];
            && pc.via.flight < |s.flights|
            && var fl := s.flights[pc.via.flight];
               && fl.user == pc.user && fl.found.Some?
               && (pc.entry.hasValue <==> fl.found.value.outcome.Found? && fl.found.value.outcome.limitPerMinute > 0)
               && (pc.entry.hasValue ==> pc.entry.limit == fl.found.value.outcome.limitPerMinute)
  {
    ReturnedOfFlight(run, i, g);
    FlightTells(run, i, run.states[i].procs[g].via.flight);
  }

  /** Fetch rate. After a flight that found anything but an error, the next flight of the same user starts
      at least the time to live after it. */
  lemma FetchRate(run: Run, k: nat, i: nat, j: nat)
    requires run.Valid() && k < |run.states| && i < j < |run.states[k].flights|
    requires run.states[k].flights[i].user == run.states[k].flights[j].user
    requires Good(run.states[k].flights[i])
    ensures run.states[k].flights[j].start >= run.states[k].flights[i].found.value.at + run.states[k].ttl
  {
    RunsKeepInv(run, k);
    assert Precedes(run.states[k].ttl, run.states[k].flights[i], run.states[k].flights[j]);
  }

  /** Staleness. An answer from the cache is the result of a flight for the same user that found no error,
      less than the time to live before. */
  lemma CacheHitsAreFresh(run: Run, i: nat, g: nat)
    requires run.Valid() && i < |run.states| && g in run.states[i].procs
    requires run.states[i].procs[g].Returned? && run.states[i].procs[g].via.FromCache?
    ensures var s, pc := run.states[i], run.states[i].procs[g];
            && pc.via.flight < |s.flights|
            && var fl := s.flights[pc.via.flight];
               && fl.user == pc.user && fl.res == Some(pc.entry) && Good(fl)
               && pc.via.at - fl.found.value.at < s.ttl
  {
    RunsKeepInv(run, i);
    assert ProcOk(run.states[i], g, run.states[i].procs[g]);
  }

  // ----- every lookup returns

  // The next step of a goroutine that is not waiting, and of one that is.
  function NextOf(s: State, g: nat): Event
    requires g in s.procs
  {
    match s.procs[g]
    case Calling(_) => Fast(g)
    case Missed(_) => Lock(g)
    case Fetching(_, _) => Receive(g, Absent)
    case Fetched(_, _, _) => Publish(g)
    case Published(_, _, _) => Close(g)
    case _ => Wake(g)
  }

  // The leader a waiting goroutine waits for is able to step.
  ghost predicate LeaderCanStep(s: State, g: nat)
    requires g in s.procs
  {
    && s.procs[g].Waiting? && s.procs[g].flight < |s.flights|
    && var h := s.flights[s.procs[g].flight].leader;
       h in s.procs && !s.procs[h].Waiting? && !s.procs[h].Returned? && Enabled(s, NextOf(s, h))
  }

  lemma WaiterIsServed(s: State, g: nat)
    requires FlightsOk(s) && ProcsOk(s) && g in s.procs && s.procs[g].Waiting?
    ensures Enabled(s, Wake(g)) || LeaderCanStep(s, g)
  {
    assert ProcOk(s, g, s.procs[g]);
    var f := s.procs[g].flight;
    var h := s.flights[f].leader;
    assert LeaderOk(s.flights[f], f, s.procs[h]);
  }

  /** Whenever a goroutine has not returned, it can step itself, or it waits for a flight whose leader can. */
  lemma SomeoneCanStep(run: Run, i: nat, g: nat)
    requires run.Valid() && i < |run.states| && g in run.states[i].procs && !run.states[i].procs[g].Returned?
    ensures Enabled(run.states[i], NextOf(run.states[i], g)) || LeaderCanStep(run.states[i], g)
  {
    RunsKeepInv(run, i);
    if run.states[i].procs[g].Waiting? {
      WaiterIsServed(run.states[i], g);
    } else {
      assert ProcOk(run.states[i], g, run.states[i].procs[g]);
    }
  }

  // How many more steps a goroutine can take.
  function Rank(pc: Pc): nat {
    match pc
    case Calling(_) => 5
    case Missed(_) => 4
    case Fetching(_, _) => 3
    case Fetched(_, _, _) => 2
    case Published(_, _, _) => 1
    case Waiting(_, _) => 1
    case Returned(_, _, _) => 0
  }

  ghost function Work(s: State): int {
    Sum(map g | g in s.procs :: Rank(s.procs[g]))
  }

  lemma StepsDoWork(s: State, e: Event)
    requires Enabled(s, e) && !e.Call?
    ensures if e.Tick? then Work(Step(s, e)) == Work(s) else Work(Step(s, e)) < Work(s)
  {
    var m := map g | g in s.procs :: Rank(s.procs[g]);
    if e.Tick? {
      assert Step(s, e).procs == s.procs;
    } else {
      assert (map g | g in Step(s, e).procs :: Rank(Step(s, e).procs[g])) == m[e.g := Rank(PcAfter(s, e))];
      SumUpdate(m, e.g, Rank(PcAfter(s, e)));
    }
  }

  function StepsTaken(events: seq<Event>): nat {
    if events == [] then 0 else StepsTaken(events[..|events| - 1]) + if events[|events| - 1].Tick? then 0 else 1
  }

  /** Termination. Once no new lookups arrive, whatever the schedule, the goroutines take at most five steps
      each; so with SomeoneCanStep every lookup returns. */
  lemma {:induction false} LookupsEnd(run: Run, i: nat, j: nat)
    requires run.Valid() && i <= j < |run.states|
    requires forall k | i <= k < j :: !run.events[k].Call?
    ensures StepsTaken(run.events[i..j]) + Work(run.states[j]) <= Work(run.states[i])
    ensures Work(run.states[i]) <= 5 * |run.states[i].procs|
  {
    if i == j {
      WorkIsBounded(run.states[i]);
    } else {
      LookupsEnd(run, i, j - 1);
      OneMoreEvent(run, i, j);
      EventDoesWork(run, j - 1);
    }
  }

  lemma EventDoesWork(run: Run, k: nat)
    requires run.Valid() && k < |run.events| && !run.events[k].Call?
    ensures Work(run.states[k + 1]) + (if run.events[k].Tick? then 0 else 1) <= Work(run.states[k])
  {
    StepsDoWork(run.states[k], run.events[k]);
  }

  lemma WorkIsBounded(s: State)
    ensures Work(s) <= 5 * |s.procs|
  {
    var m := map g | g in s.procs :: Rank(s.procs[g]);
    assert m.Keys == s.procs.Keys;
    SumOverBounded(m.Keys, m, 5);
  }

  lemma OneMoreEvent(run: Run, i: nat, j: nat)
    requires i < j <= |run.events|
    ensures StepsTaken(run.events[i..j]) == StepsTaken(run.events[i..j - 1]) + if run.events[j - 1].Tick? then 0 else 1
  {
    assert run.events[i..j][..j - 1 - i] == run.events[i..j - 1];
  }
}
