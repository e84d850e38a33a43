/**
The heartbeat inside the protocol: under the timing condition of module Heartbeat, in any run of any
number of processes, a lease is lost before the write-back only by a flight that was late, and lost
leases in the loader bound turn into late flights.
*/
module PromptHeartbeat {
  import opened Wrappers
  import opened Keyspace
  import opened Protocol
  import opened Exclusion
  import opened LoaderBound
  import opened Heartbeat
  import opened Backends

  /** When a flight's lease was last granted, and whether that was by an extension. */
  datatype Grant = Grant(at: int, renewed: bool)

  function LastGrant(ws: seq<World>, acts: seq<Action>, n: nat, f: FlightId): Option<Grant>
    requires n <= |acts| < |ws|
  {
    if n == 0 then None
    else if acts[n - 1].FlightMove? && acts[n - 1].f == f && f in ws[n].flights
            && acts[n - 1].move.Acquire? && ws[n].flights[f].phase.Held?
    then Some(Grant(ws[n - 1].now, false))
    else if acts[n - 1].FlightMove? && acts[n - 1].f == f && f in ws[n].flights
            && acts[n - 1].move.BeatLand? && ws[n].flights[f].beat.Waiting?
    then Some(Grant(ws[n - 1].now, true))
    else LastGrant(ws, acts, n - 1, f)
  }

  predicate NoWipe(acts: seq<Action>, n: nat)
    requires n <= |acts|
  {
    forall i | 0 <= i < n :: !acts[i].Wipe?
  }

  /** The lease recorded in the flight is the one of its last grant, and no wipe came in between. */
  predicate Tracked(w: World, flight: Flight, grant: Option<Grant>) {
    && grant.Some? && flight.epoch == w.epoch
    && flight.lease == LeaseEnd(if grant.value.renewed then w.cfg.extend else w.cfg.acquire, grant.value.at)
  }

  /** A move of the flight itself grants a lease, or leaves its lease as it was. */
  lemma MoveTracked(w: World, f: FlightId, move: Move, grant: Option<Grant>)
    requires f in w.flights && Permits(w.issued, w.flights[f], move)
    requires InSection(w.flights[f].phase) ==> Tracked(w, w.flights[f], grant)
    requires InSection(Act(w, w.flights[f], move).flight.phase)
    ensures
      var after := Act(w, w.flights[f], move).flight;
      Tracked(w, after,
              if move.Acquire? && after.phase.Held? then Some(Grant(w.now, false))
              else if move.BeatLand? && after.beat.Waiting? then Some(Grant(w.now, true))
              else grant)
  {
  }

  /** Whatever else happens, a flight in its section stays as it is. */
  lemma OthersKept(w: World, a: Action, f: FlightId)
    requires Enabled(w, a) && f in Step(w, a).flights && InSection(Step(w, a).flights[f].phase)
    requires !(a.FlightMove? && a.f == f) && !a.Wipe?
    ensures f in w.flights && Step(w, a).flights[f] == w.flights[f]
    ensures Step(w, a).epoch == w.epoch && Step(w, a).cfg == w.cfg
  {
  }

  lemma {:induction false} GrantTracked(ws: seq<World>, acts: seq<Action>, n: nat, f: FlightId)
    requires IsRun(ws, acts) && n <= |acts| && NoWipe(acts, n)
    requires f in ws[n].flights && InSection(ws[n].flights[f].phase)
    ensures Tracked(ws[n], ws[n].flights[f], LastGrant(ws, acts, n, f))
  {
    if n > 0 {
      var w, a := ws[n - 1], acts[n - 1];
      assert ws[n] == Step(w, a);
      if a.FlightMove? && a.f == f {
        if InSection(w.flights[f].phase) { GrantTracked(ws, acts, n - 1, f); }
        MoveTracked(w, f, a.move, LastGrant(ws, acts, n - 1, f));
      } else {
        OthersKept(w, a, f);
        GrantTracked(ws, acts, n - 1, f);
      }
    }
  }

  predicate NotYetWritten(w: World, f: FlightId, key: string) {
    f in w.flights && w.flights[f].key == key && (BeforeLoader(w.flights[f].phase) || LoaderPending(w.flights[f].phase))
  }

  /** No more time has passed since the last grant than the schedule of the heartbeat allows. */
  predicate Prompt(now: int, grant: Option<Grant>, interval: nat, delay: nat, lateness: nat) {
    grant.Some? ==> now <= grant.value.at + interval + lateness + if grant.value.renewed then 0 else delay
  }

  /** That is what the ticker's schedule gives, between any landing and the next one. */
  lemma ScheduleIsPrompt(granted: int, start: int, interval: nat, delay: nat, lateness: nat, landings: seq<int>, t: int)
    requires start <= granted + delay && OnSchedule(start, interval, lateness, landings)
    requires t <= start + (|landings| + 1) * interval + lateness
    ensures
      var last := if landings == [] then Grant(granted, false) else Grant(landings[|landings| - 1], true);
      Prompt(t, Some(last), interval, delay, lateness)
  {
    if landings != [] {
      var n := |landings|;
      assert landings[n - 1] >= start + n * interval;
      assert (n + 1) * interval == n * interval + interval;
    }
  }

  predicate TimingOf(cfg: Config, ttl: nat, interval: nat, delay: nat, lateness: nat) {
    cfg == RedisConfig(cfg.keys, ttl) && interval > 0 && TimingSafe(ttl, interval, delay, lateness)
  }

  /** A prompt flight is within its lease. */
  lemma PromptInLease(w: World, flight: Flight, grant: Option<Grant>, ttl: nat, interval: nat, delay: nat, lateness: nat)
    requires TimingOf(w.cfg, ttl, interval, delay, lateness)
    requires Tracked(w, flight, grant) && Prompt(w.now, grant, interval, delay, lateness)
    ensures InLease(w, flight)
  {
  }

  lemma TimePasses(w: World, a: Action, f: FlightId, key: string)
    requires Enabled(w, a) && a.Advance? && NotYetWritten(w, f, key)
    ensures NotYetWritten(Step(w, a), f, key) && Step(w, a).flights[f] == w.flights[f]
    ensures InSection(Step(w, a).flights[f].phase)
  {
  }

  /** A flight that loses its lease in a step was not prompt. */
  lemma LoserWasLate(ws: seq<World>, acts: seq<Action>, n: nat, f: FlightId, key: string, ttl: nat, interval: nat, delay: nat, lateness: nat)
    requires IsRun(ws, acts) && 0 < n <= |acts| && NoWipe(acts, n) && key in ws[0].cfg.keys
    requires TimingOf(ws[0].cfg, ttl, interval, delay, lateness)
    requires LosesLease(ws[n - 1], ws[n], key, f)
    ensures NotYetWritten(ws[n], f, key) && !Prompt(ws[n].now, LastGrant(ws, acts, n, f), interval, delay, lateness)
  {
    var w, a := ws[n - 1], acts[n - 1];
    RunPays(ws, acts, n - 1, key);
    RunPays(ws, acts, n, key);
    RunKeepsInv(ws, acts, n - 1);
    RunKeepsInv(ws, acts, n);
    assert LeaseLost(w, ws[n], key);
    LostOnlyToTime(w, a, key);
    TimePasses(w, a, f, key);
    GrantTracked(ws, acts, n, f);
    if Prompt(ws[n].now, LastGrant(ws, acts, n, f), interval, delay, lateness) {
      PromptInLease(ws[n], ws[n].flights[f], LastGrant(ws, acts, n, f), ttl, interval, delay, lateness);
    }
  }

  // ----- Counting the late flights -----

  /** The flights that were late at some time before their write-back, crashed ones among them. */
  function LateFlights(ws: seq<World>, acts: seq<Action>, n: nat, key: string, interval: nat, delay: nat, lateness: nat): set<FlightId>
    requires n <= |acts| < |ws|
  {
    (if n == 0 then {} else LateFlights(ws, acts, n - 1, key, interval, delay, lateness))
    + set f | f in ws[n].flights && NotYetWritten(ws[n], f, key) && !Prompt(ws[n].now, LastGrant(ws, acts, n, f), interval, delay, lateness)
  }

  function StepLosers(w: World, w': World, key: string): set<FlightId> {
    set f | f in w.flights && LosesLease(w, w', key, f)
  }

  lemma SomeLoser(w: World, w': World, key: string) returns (f: FlightId)
    requires LeaseLost(w, w', key)
    ensures f in StepLosers(w, w', key)
  {
    f :| f in w.flights && LosesLease(w, w', key, f);
  }

  /** The flights that lost their lease in some step. */
  function Losers(ws: seq<World>, acts: seq<Action>, n: nat, key: string): set<FlightId>
    requires n <= |acts| < |ws|
  {
    if n == 0 then {}
    else Losers(ws, acts, n - 1, key) + StepLosers(ws[n - 1], ws[n], key)
  }

  lemma LoserIsStale(w: World, a: Action, key: string, f: FlightId)
    requires Inv(w) && Enabled(w, a) && key in w.cfg.keys && LosesLease(w, Step(w, a), key, f)
    ensures Stale(Step(w, a), f)
  {
    assert LeaseLost(w, Step(w, a), key);
    LostOnlyToTime(w, a, key);
    if a.FlightMove? {
      LoserMoves(w, a.f, f);
    }
  }

  lemma LoserMoves(w: World, g: FlightId, f: FlightId)
    requires Inv(w) && Enabled(w, FlightMove(g, BeatLand)) && f in w.flights && InSection(w.flights[f].phase)
    ensures
      var w' := Step(w, FlightMove(g, BeatLand));
      f in w'.flights && w'.flights[f].token == w.flights[f].token && w'.flights[f].token != ""
      && w'.flights[f].key == w.flights[f].key && w'.flights[f].phase == w.flights[f].phase
  {
    hide KeysKnown, SingleFlight, LeasesBacked;
  }

  /** Nobody loses a lease twice. */
  lemma {:induction false} LosersStayStale(ws: seq<World>, acts: seq<Action>, n: nat, key: string, f: FlightId)
    requires IsRun(ws, acts) && n <= |acts| && f in Losers(ws, acts, n, key) && key in ws[0].cfg.keys
    ensures Stale(ws[n], f)
  {
    if f in Losers(ws, acts, n - 1, key) {
      LosersStayStale(ws, acts, n - 1, key, f);
      LossIsFinal(ws, acts, n - 1, n, f);
    } else {
      RunKeepsInv(ws, acts, n - 1);
      RunPays(ws, acts, n - 1, key);
      LoserIsStale(ws[n - 1], acts[n - 1], key, f);
    }
  }

  lemma Grows(s: set<FlightId>, t: set<FlightId>, f: FlightId)
    requires s <= t && f in t && f !in s
    ensures |s| + 1 <= |t|
  {
    Subset(s + {f}, t);
  }

  lemma Subset(s: set<FlightId>, t: set<FlightId>)
    requires s <= t
    ensures |s| <= |t|
  {
    assert t == s + (t - s);
  }

  lemma {:induction false} LossesAreLosers(ws: seq<World>, acts: seq<Action>, n: nat, key: string)
    requires IsRun(ws, acts) && n <= |acts| && key in ws[0].cfg.keys
    ensures LedgerOf(ws, acts, n, key).lostLeases <= |Losers(ws, acts, n, key)|
  {
    if n > 0 {
      var (before, after) := (Losers(ws, acts, n - 1, key), Losers(ws, acts, n, key));
      LossesAreLosers(ws, acts, n - 1, key);
      Subset(before, after);
      if LeaseLost(ws[n - 1], ws[n], key) {
        var f := SomeLoser(ws[n - 1], ws[n], key);
        if f in before { LosersStayStale(ws, acts, n - 1, key, f); }
        Grows(before, after, f);
      }
    }
  }

  lemma {:induction false} LosersWereLate(ws: seq<World>, acts: seq<Action>, n: nat, key: string, ttl: nat, interval: nat, delay: nat, lateness: nat)
    requires IsRun(ws, acts) && n <= |acts| && NoWipe(acts, n) && key in ws[0].cfg.keys
    requires TimingOf(ws[0].cfg, ttl, interval, delay, lateness)
    ensures Losers(ws, acts, n, key) <= LateFlights(ws, acts, n, key, interval, delay, lateness)
  {
    if n > 0 {
      LosersWereLate(ws, acts, n - 1, key, ttl, interval, delay, lateness);
      forall f | f in StepLosers(ws[n - 1], ws[n], key)
        ensures f in LateFlights(ws, acts, n, key, interval, delay, lateness)
      {
        LoserWasLate(ws, acts, n, f, key, ttl, interval, delay, lateness);
      }
    }
  }

  /**
  With safe timing, leases are lost at most once for each flight that was late: one that crashed, whose
  extensions were not prompt, or whose write-back was not.  With no such flight none is lost.
  */
  lemma LostLeasesBounded(ws: seq<World>, acts: seq<Action>, n: nat, key: string, ttl: nat, interval: nat, delay: nat, lateness: nat)
    requires IsRun(ws, acts) && n <= |acts| && NoWipe(acts, n) && key in ws[0].cfg.keys
    requires TimingOf(ws[0].cfg, ttl, interval, delay, lateness)
    ensures LedgerOf(ws, acts, n, key).lostLeases <= |LateFlights(ws, acts, n, key, interval, delay, lateness)|
  {
    LossesAreLosers(ws, acts, n, key);
    LosersWereLate(ws, acts, n, key, ttl, interval, delay, lateness);
    Subset(Losers(ws, acts, n, key), LateFlights(ws, acts, n, key, interval, delay, lateness));
  }

  /** So loaders start again only for values that vanished, commands or loads that failed, and late flights. */
  lemma LoaderStartsBoundedByTiming(ws: seq<World>, acts: seq<Action>, n: nat, key: string, ttl: nat, interval: nat, delay: nat, lateness: nat)
    requires IsRun(ws, acts) && n <= |acts| && NoWipe(acts, n) && key in ws[0].cfg.keys
    requires TimingOf(ws[0].cfg, ttl, interval, delay, lateness)
    ensures
      var l := LedgerOf(ws, acts, n, key);
      l.starts <= l.vanished + l.failedLoads + l.failedWrites + l.failedReads
                  + |LateFlights(ws, acts, n, key, interval, delay, lateness)| + One(!DataLive(ws[0], key))
  {
    LostLeasesBounded(ws, acts, n, key, ttl, interval, delay, lateness);
    LoaderStartsBounded(ws, acts, n, key);
  }

  // ----- Schedules of a run's own extensions -----

  predicate AcquiresAt(ws: seq<World>, acts: seq<Action>, n: nat, f: FlightId)
    requires 0 < n <= |acts| < |ws|
  {
    acts[n - 1].FlightMove? && acts[n - 1].f == f && f in ws[n].flights && acts[n - 1].move.Acquire? && ws[n].flights[f].phase.Held?
  }

  predicate ExtendsAt(ws: seq<World>, acts: seq<Action>, n: nat, f: FlightId)
    requires 0 < n <= |acts| < |ws|
  {
    acts[n - 1].FlightMove? && acts[n - 1].f == f && f in ws[n].flights && acts[n - 1].move.BeatLand? && ws[n].flights[f].beat.Waiting?
  }

  /** The instant of the flight's acquire, and of its successful extensions since. */
  function AcquiredAt(ws: seq<World>, acts: seq<Action>, n: nat, f: FlightId): Option<int>
    requires n <= |acts| < |ws|
  {
    if n == 0 then None else if AcquiresAt(ws, acts, n, f) then Some(ws[n - 1].now) else AcquiredAt(ws, acts, n - 1, f)
  }

  function LandingsOf(ws: seq<World>, acts: seq<Action>, n: nat, f: FlightId): seq<int>
    requires n <= |acts| < |ws|
  {
    if n == 0 || AcquiresAt(ws, acts, n, f) then []
    else LandingsOf(ws, acts, n - 1, f) + if ExtendsAt(ws, acts, n, f) then [ws[n - 1].now] else []
  }

  /** The last grant is the last landing, or the acquire when there is none. */
  lemma {:induction false} LastGrantIsLastLanding(ws: seq<World>, acts: seq<Action>, n: nat, f: FlightId)
    requires n <= |acts| < |ws|
    ensures
      var (landings, grant) := (LandingsOf(ws, acts, n, f), LastGrant(ws, acts, n, f));
      if landings != [] then grant == Some(Grant(landings[|landings| - 1], true))
      else if AcquiredAt(ws, acts, n, f).Some? then grant == Some(Grant(AcquiredAt(ws, acts, n, f).value, false))
      else grant.None?
  {
    if n > 0 {
      LastGrantIsLastLanding(ws, acts, n - 1, f);
    }
  }

  /**
  The flight's extensions have landed on the ticker's schedule so far, the ticker having started within
  `delay` of the acquire, and the next one is not yet overdue.
  */
  ghost predicate OnTime(ws: seq<World>, acts: seq<Action>, n: nat, f: FlightId, interval: nat, delay: nat, lateness: nat)
    requires n <= |acts| < |ws|
  {
    AcquiredAt(ws, acts, n, f).Some? && exists start: int ::
      && AcquiredAt(ws, acts, n, f).value <= start <= AcquiredAt(ws, acts, n, f).value + delay
      && OnSchedule(start, interval, lateness, LandingsOf(ws, acts, n, f))
      && ws[n].now <= start + (|LandingsOf(ws, acts, n, f)| + 1) * interval + lateness
  }

  lemma OnTimeIsPrompt(ws: seq<World>, acts: seq<Action>, n: nat, f: FlightId, interval: nat, delay: nat, lateness: nat)
    requires n <= |acts| < |ws| && OnTime(ws, acts, n, f, interval, delay, lateness)
    ensures Prompt(ws[n].now, LastGrant(ws, acts, n, f), interval, delay, lateness)
  {
    LastGrantIsLastLanding(ws, acts, n, f);
    var granted, landings := AcquiredAt(ws, acts, n, f).value, LandingsOf(ws, acts, n, f);
    var start: int :| granted <= start <= granted + delay && OnSchedule(start, interval, lateness, landings)
      && ws[n].now <= start + (|landings| + 1) * interval + lateness;
    ScheduleIsPrompt(granted, start, interval, delay, lateness, landings, ws[n].now);
  }

  lemma {:induction false} NobodyLate(ws: seq<World>, acts: seq<Action>, n: nat, key: string, interval: nat, delay: nat, lateness: nat)
    requires n <= |acts| < |ws|
    requires forall i: nat, f | i <= n && NotYetWritten(ws[i], f, key) :: OnTime(ws, acts, i, f, interval, delay, lateness)
    ensures LateFlights(ws, acts, n, key, interval, delay, lateness) == {}
  {
    if n > 0 {
      NobodyLate(ws, acts, n - 1, key, interval, delay, lateness);
    }
    forall f | f in ws[n].flights && NotYetWritten(ws[n], f, key)
      ensures Prompt(ws[n].now, LastGrant(ws, acts, n, f), interval, delay, lateness)
    {
      OnTimeIsPrompt(ws, acts, n, f, interval, delay, lateness);
    }
  }

  /**
  When the extensions of every flight land on schedule until its write-back, and the write-back comes
  before the next one is overdue, no lease is lost before its write-back.
  */
  lemma NoLeaseLost(ws: seq<World>, acts: seq<Action>, n: nat, key: string, ttl: nat, interval: nat, delay: nat, lateness: nat)
    requires IsRun(ws, acts) && n <= |acts| && NoWipe(acts, n) && key in ws[0].cfg.keys
    requires TimingOf(ws[0].cfg, ttl, interval, delay, lateness)
    requires forall i: nat, f | i <= n && NotYetWritten(ws[i], f, key) :: OnTime(ws, acts, i, f, interval, delay, lateness)
    ensures LedgerOf(ws, acts, n, key).lostLeases == 0
  {
    NobodyLate(ws, acts, n, key, interval, delay, lateness);
    LostLeasesBounded(ws, acts, n, key, ttl, interval, delay, lateness);
  }
}
