/** The class of the override cache against the state machine: in any state of the machine, with any number of
    goroutines under way, running one critical section of the class on the heap that mirrors the state is a step of
    the machine. */
module OverrideRefinement {
  import opened OverrideCache
  import opened Wrappers

  // The cache and the flights so far, in the order they started, hold what the state says.
  ghost predicate Mirrors(c: Cache, fs: seq<Flight>, s: State)
    reads c, fs
  {
    && c.ttl == s.ttl && c.entries == s.entries && |fs| == |s.flights|
    && (forall i, j | 0 <= i < j < |fs| :: fs[i] != fs[j])
    && (forall k | 0 <= k < |fs| :: Shows(fs[k], s.flights[k]))
    && c.inflight.Keys == s.inflight.Keys
    && forall u | u in s.inflight :: s.inflight[u] < |fs| && c.inflight[u] == fs[s.inflight[u]]
  }

  ghost predicate Shows(f: Flight, fl: FlightState)
    reads f
  {
    f.res == fl.res && (f.done <==> fl.closed > 0)
  }

  // Where goroutine g stands after the event.
  ghost function PcOf(s: State, e: Event): Pc
    requires Enabled(s, e) && !e.Tick?
  {
    Step(s, e).procs[e.g]
  }

  method FastStep(c: Cache, user: string, now: int, ghost fs: seq<Flight>, ghost s: State, ghost g: nat)
    returns (hit: Option<Entry>)
    requires Mirrors(c, fs, s) && Enabled(s, Event.Fast(g)) && s.procs[g] == Calling(user) && now == s.now
    ensures Mirrors(c, fs, Step(s, Event.Fast(g)))
    ensures match hit
            case Some(entry) => PcOf(s, Event.Fast(g)).Returned? && PcOf(s, Event.Fast(g)).entry == entry
            case None => PcOf(s, Event.Fast(g)) == Missed(user)
  {
    hit := c.FastPath(user, now);
  }

  method LockStep(c: Cache, user: string, now: int, ghost fs: seq<Flight>, ghost s: State, ghost g: nat)
    returns (step: Slow<Flight>, ghost gs: seq<Flight>)
    requires Mirrors(c, fs, s) && Enabled(s, Lock(g)) && s.procs[g] == Missed(user) && now == s.now
    modifies c`inflight
    ensures Mirrors(c, gs, Step(s, Lock(g)))
    ensures match step
            case Hit(entry) => PcOf(s, Lock(g)).Returned? && PcOf(s, Lock(g)).entry == entry && gs == fs
            case Joins(f) => PcOf(s, Lock(g)).Waiting? && PcOf(s, Lock(g)).flight < |fs|
                             && f == fs[PcOf(s, Lock(g)).flight] && gs == fs
            case Leads(f) => PcOf(s, Lock(g)) == Fetching(user, |fs|) && gs == fs + [f]
  {
    step := c.SlowPath(user, now);
    gs := fs + if step.Leads? then [step.flight] else [];
  }

  method ReceiveStep(c: Cache, outcome: Outcome, now: int, ghost fs: seq<Flight>, ghost s: State, ghost g: nat)
    returns (entry: Entry)
    requires Mirrors(c, fs, s) && Enabled(s, Receive(g, outcome)) && now == s.now
    ensures Mirrors(c, fs, Step(s, Receive(g, outcome)))
    ensures PcOf(s, Receive(g, outcome)) == Fetched(s.procs[g].user, s.procs[g].flight, entry)
  {
    entry := c.Fetch(outcome, now);
  }

  method PublishStep(c: Cache, user: string, fl: Flight, entry: Entry, ghost fs: seq<Flight>, ghost s: State,
                     ghost g: nat)
    requires Mirrors(c, fs, s) && Enabled(s, Event.Publish(g))
    requires s.procs[g] == Fetched(user, s.procs[g].flight, entry) && fl == fs[s.procs[g].flight]
    modifies c`entries, c`inflight, fl`res
    ensures Mirrors(c, fs, Step(s, Event.Publish(g)))
    ensures PcOf(s, Event.Publish(g)) == Published(user, s.procs[g].flight, entry)
  {
    c.Publish(user, fl, entry);
  }

  // The invariant is what keeps the channel from being closed twice.
  method CloseStep(c: Cache, fl: Flight, ghost fs: seq<Flight>, ghost s: State, ghost g: nat)
    requires Inv(s) && Mirrors(c, fs, s) && Enabled(s, Event.Close(g)) && fl == fs[s.procs[g].flight]
    modifies fl`done
    ensures Mirrors(c, fs, Step(s, Event.Close(g)))
    ensures PcOf(s, Event.Close(g)).Returned? && PcOf(s, Event.Close(g)).entry == s.procs[g].entry
  {
    PublishedIsOpen(s, g);
    CloseOpen(c, fl, fs, s, g);
  }

  method CloseOpen(c: Cache, fl: Flight, ghost fs: seq<Flight>, ghost s: State, ghost g: nat)
    requires Mirrors(c, fs, s) && Enabled(s, Event.Close(g)) && fl == fs[s.procs[g].flight]
    requires s.flights[s.procs[g].flight].closed == 0
    modifies fl`done
    ensures Mirrors(c, fs, Step(s, Event.Close(g)))
    ensures PcOf(s, Event.Close(g)).Returned? && PcOf(s, Event.Close(g)).entry == s.procs[g].entry
  {
    c.Close(fl);
  }

  lemma PublishedIsOpen(s: State, g: nat)
    requires Inv(s) && g in s.procs && s.procs[g].Published?
    ensures s.procs[g].flight < |s.flights| && s.flights[s.procs[g].flight].closed == 0
  {
    assert ProcOk(s, g, s.procs[g]);
    assert LeaderOk(s.flights[s.procs[g].flight], s.procs[g].flight, s.procs[g]);
  }

  // The wait ends when the channel is closed, and by the invariant the result is set then.
  method WakeStep(c: Cache, fl: Flight, ghost fs: seq<Flight>, ghost s: State, ghost g: nat) returns (entry: Entry)
    requires Inv(s) && Mirrors(c, fs, s) && Enabled(s, Wake(g)) && fl == fs[s.procs[g].flight]
    ensures Mirrors(c, fs, Step(s, Wake(g)))
    ensures PcOf(s, Wake(g)).Returned? && PcOf(s, Wake(g)).entry == entry
    ensures s.flights[s.procs[g].flight].res == Some(entry)
  {
    ClosedIsSet(s, s.procs[g].flight);
    entry := WakeClosed(c, fl, fs, s, g);
  }

  method WakeClosed(c: Cache, fl: Flight, ghost fs: seq<Flight>, ghost s: State, ghost g: nat) returns (entry: Entry)
    requires Mirrors(c, fs, s) && Enabled(s, Wake(g)) && fl == fs[s.procs[g].flight]
    ensures Mirrors(c, fs, Step(s, Wake(g)))
    ensures PcOf(s, Wake(g)).Returned? && PcOf(s, Wake(g)).entry == entry == ResultOf(s.flights[s.procs[g].flight].res)
  {
    entry := c.Join(fl);
  }

  lemma ClosedIsSet(s: State, f: nat)
    requires Inv(s) && f < |s.flights| && s.flights[f].closed > 0
    ensures s.flights[f].res.Some?
  {
    assert LeaderOk(s.flights[f], f, s.procs[s.flights[f].leader]);
  }
}
