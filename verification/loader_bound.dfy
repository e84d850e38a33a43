/**
How often can the loader of one key start?  Over every run of any number of processes, at most
once more than the number of recorded reasons to load again.
*/
module LoaderBound {
  import opened Wrappers
  import opened Expiry
  import opened Keyspace
  import opened Protocol
  import opened Exclusion

  // ----- Reasons to load again -----

  predicate DataLive(w: World, key: string) {
    Live(w.store, w.now, key)
  }

  predicate BeforeLoader(phase: Phase) {
    phase.Held? || phase.Checked?
  }

  predicate LoaderPending(phase: Phase) {
    phase.Loading? || phase.WritingBack?
  }

  predicate MoveOn(w: World, a: Action, key: string) {
    a.FlightMove? && a.f in w.flights && w.flights[a.f].key == key
  }

  predicate LosesLease(w: World, w': World, key: string, f: FlightId) {
    && f in w.flights && w.flights[f].key == key
    && (BeforeLoader(w.flights[f].phase) || LoaderPending(w.flights[f].phase))
    && Owns(w, w.flights[f]) && !Owns(w', w.flights[f])
  }

  /** Some flight that has not yet written back loses its lock in this step. */
  predicate LeaseLost(w: World, w': World, key: string) {
    exists f | f in w.flights :: LosesLease(w, w', key, f)
  }

  /** What a run did to one key. */
  datatype Ledger = Ledger(starts: nat, vanished: nat, failedLoads: nat, failedWrites: nat, lostLeases: nat, failedReads: nat)
  {
    function Reasons(): nat {
      vanished + failedLoads + failedWrites + lostLeases + failedReads
    }
  }

  function StepLedger(w: World, a: Action, w': World, key: string): Ledger {
    Ledger(
      One(MoveOn(w, a, key) && a.move.StartLoader?),
      One(DataLive(w, key) && !DataLive(w', key)),
      One(MoveOn(w, a, key) && a.move.LoaderFail?),
      One(MoveOn(w, a, key) && a.move.WriteBackError?),
      One(LeaseLost(w, w', key)),
      One(MoveOn(w, a, key) && a.move.SecondGetError?))
  }

  function LedgerOf(ws: seq<World>, acts: seq<Action>, n: nat, key: string): Ledger
    requires n <= |acts| < |ws|
  {
    if n == 0 then Ledger(0, 0, 0, 0, 0, 0)
    else
      var l := LedgerOf(ws, acts, n - 1, key);
      var s := StepLedger(ws[n - 1], acts[n - 1], ws[n], key);
      Ledger(l.starts + s.starts, l.vanished + s.vanished, l.failedLoads + s.failedLoads,
             l.failedWrites + s.failedWrites, l.lostLeases + s.lostLeases, l.failedReads + s.failedReads)
  }

  // ----- The potential -----

  /** Flights that lost the lock before starting their loader; each start is already paid for. */
  function Doomed(w: World, key: string): set<FlightId> {
    set f | f in w.flights && w.flights[f].key == key && BeforeLoader(w.flights[f].phase) && !Owns(w, w.flights[f])
  }

  predicate OwnerWith(w: World, key: string, f: FlightId) {
    f in w.flights && w.flights[f].key == key && InSection(w.flights[f].phase) && Owns(w, w.flights[f])
  }

  /** The owner has seen a miss, yet the value is there: it will load in vain. */
  predicate WillLoadInVain(w: World, key: string) {
    DataLive(w, key) && exists f | f in w.flights :: OwnerWith(w, key, f) && w.flights[f].phase.Checked?
  }

  /** The value is there, or the owner is about to provide it. */
  predicate Provided(w: World, key: string) {
    DataLive(w, key) || exists f | f in w.flights :: OwnerWith(w, key, f) && LoaderPending(w.flights[f].phase)
  }

  function Potential(w: World, key: string): int {
    |Doomed(w, key)| + One(WillLoadInVain(w, key)) - One(Provided(w, key))
  }

  lemma OwnerUnique(w: World, key: string, f: FlightId, g: FlightId)
    requires TokensDistinct(w) && OwnerWith(w, key, f) && OwnerWith(w, key, g)
    ensures f == g
  {
  }

  // ----- One step -----

  predicate Paid(w: World, a: Action, w': World, key: string) {
    var s := StepLedger(w, a, w', key);
    s.starts + Potential(w', key) <= Potential(w, key) + s.Reasons()
  }

  /** What of a world the potential of a key depends on. */
  predicate SameFor(w: World, w': World, key: string) {
    && (forall f | f in w.flights && w.flights[f].key == key && InSection(w.flights[f].phase) ::
          && f in w'.flights && w'.flights[f].key == key
          && w'.flights[f].phase == w.flights[f].phase && Owns(w', w'.flights[f]) == Owns(w, w.flights[f]))
    && (forall f | f in w'.flights && w'.flights[f].key == key && InSection(w'.flights[f].phase) ::
          f in w.flights && w.flights[f].key == key && w'.flights[f].phase == w.flights[f].phase)
    && DataLive(w', key) == DataLive(w, key)
  }

  lemma SamePotential(w: World, w': World, key: string)
    requires SameFor(w, w', key)
    ensures Potential(w', key) == Potential(w, key)
  {
    assert Doomed(w', key) == Doomed(w, key);
  }

  /** The flights stay as they are, and no flight gains a lock. */
  predicate OnlyLosses(w: World, w': World, key: string) {
    && w'.flights == w.flights
    && (forall f | f in w.flights && w.flights[f].key == key && InSection(w.flights[f].phase) ::
          Owns(w', w.flights[f]) ==> Owns(w, w.flights[f]))
  }

  lemma SplitOff(s: set<FlightId>, f: FlightId, rest: set<FlightId>)
    requires forall g | g != f :: g in s <==> g in rest
    requires f !in rest
    ensures |s| == |rest| + One(f in s)
  {
    assert s == if f in s then rest + {f} else rest;
  }

  lemma DoomedAfterLoss(w: World, w': World, key: string, f: FlightId)
    requires TokensDistinct(w) && OnlyLosses(w, w', key)
    requires OwnerWith(w, key, f) && !Owns(w', w.flights[f])
    ensures |Doomed(w', key)| == |Doomed(w, key)| + One(BeforeLoader(w.flights[f].phase))
  {
    forall g | g != f
      ensures g in Doomed(w', key) <==> g in Doomed(w, key)
    {
      if OwnerWith(w, key, g) { OwnerUnique(w, key, f, g); }
    }
    SplitOff(Doomed(w', key), f, Doomed(w, key));
  }

  lemma LossPays(w: World, w': World, key: string, f: FlightId)
    requires TokensDistinct(w) && OnlyLosses(w, w', key)
    requires OwnerWith(w, key, f) && !Owns(w', w.flights[f])
    ensures Potential(w', key) <= Potential(w, key) + One(DataLive(w, key) && !DataLive(w', key)) + One(LeaseLost(w, w', key))
  {
    forall g | g in w.flights && OwnerWith(w, key, g)
      ensures g == f && !OwnerWith(w', key, g)
    {
      OwnerUnique(w, key, f, g);
    }
    DoomedAfterLoss(w, w', key, f);
    assert !WillLoadInVain(w', key);
    assert BeforeLoader(w.flights[f].phase) || LoaderPending(w.flights[f].phase) ==> LosesLease(w, w', key, f);
  }

  lemma NoLossPays(w: World, w': World, key: string)
    requires TokensDistinct(w) && OnlyLosses(w, w', key)
    requires forall f | f in w.flights :: OwnerWith(w, key, f) ==> Owns(w', w.flights[f])
    ensures Potential(w', key) <= Potential(w, key) + One(DataLive(w, key) && !DataLive(w', key))
  {
    assert Doomed(w', key) == Doomed(w, key);
    assert forall f | f in w.flights :: OwnerWith(w', key, f) <==> OwnerWith(w, key, f);
  }

  /** The environment never grants a lock, and takes at most one away. */
  lemma EnvironmentPays(w: World, a: Action, key: string)
    requires Inv(w) && Enabled(w, a) && key in w.cfg.keys
    requires External(a)
    ensures Paid(w, a, Step(w, a), key)
  {
    var w' := Step(w, a);
    EnvironmentOnlyTakes(w, a, key);
    if f :| f in w.flights && OwnerWith(w, key, f) && !Owns(w', w.flights[f]) {
      LossPays(w, w', key, f);
    } else {
      NoLossPays(w, w', key);
    }
  }

  lemma EnvironmentOnlyTakes(w: World, a: Action, key: string)
    requires Inv(w) && Enabled(w, a) && key in w.cfg.keys
    requires External(a)
    ensures OnlyLosses(w, Step(w, a), key)
  {
  }

  /** A caller's turn starts at most a flight that holds nothing yet. */
  lemma TurnPays(w: World, c: CallId, turn: Turn, key: string)
    requires c in w.calls && Allows(w, w.calls[c], turn)
    ensures SameFor(w, TurnCall(w, c, turn), key)
  {
  }

  // ----- One move of a flight -----

  /** The other flights keep their phases and their locks. */
  predicate OnlyMoves(w: World, w': World, key: string, f: FlightId) {
    && f in w.flights && w.flights[f].key == key
    && w'.flights.Keys == w.flights.Keys && w'.flights[f].key == key
    && (forall g | g in w.flights && g != f :: w'.flights[g] == w.flights[g])
    && (forall g | g in w.flights && g != f && w.flights[g].key == key && InSection(w.flights[g].phase) ::
          Owns(w', w.flights[g]) == Owns(w, w.flights[g]))
  }

  lemma InstallOnlyMoves(w: World, f: FlightId, e: Effect)
    requires KeysKnown(w) && TokensDistinct(w) && f in w.flights && Lawful(w, w.flights[f], e)
    ensures OnlyMoves(w, Install(w, f, e), w.flights[f].key, f)
  {
    var key := w.flights[f].key;
    forall g | g in w.flights && g != f && w.flights[g].key == key && InSection(w.flights[g].phase)
      ensures Owns(Install(w, f, e), w.flights[g]) == Owns(w, w.flights[g])
    {
      if Owns(w, w.flights[g]) {
        InstallSparesOtherOwners(w, f, e, g);
      } else {
        InstallNeverRegains(w, f, e, g);
      }
    }
  }

  predicate DoomedOne(w: World, f: FlightId) {
    f in w.flights && BeforeLoader(w.flights[f].phase) && !Owns(w, w.flights[f])
  }

  lemma DoomedAfterMove(w: World, w': World, key: string, f: FlightId)
    requires OnlyMoves(w, w', key, f)
    ensures |Doomed(w', key)| - |Doomed(w, key)| == One(DoomedOne(w', f)) - One(DoomedOne(w, f))
  {
    forall g | g != f
      ensures g in Doomed(w', key) <==> g in Doomed(w, key)
    {
    }
    var rest := Doomed(w, key) - {f};
    SplitOff(Doomed(w, key), f, rest);
    SplitOff(Doomed(w', key), f, rest);
  }

  /** While the moving flight owns the lock, only it and the data entry matter. */
  lemma OwnerAfterMove(w: World, w': World, key: string, f: FlightId)
    requires TokensDistinct(w) && TokensDistinct(w') && OnlyMoves(w, w', key, f)
    requires OwnerWith(w, key, f) || OwnerWith(w', key, f)
    ensures WillLoadInVain(w, key) == (DataLive(w, key) && OwnerWith(w, key, f) && w.flights[f].phase.Checked?)
    ensures WillLoadInVain(w', key) == (DataLive(w', key) && OwnerWith(w', key, f) && w'.flights[f].phase.Checked?)
    ensures Provided(w, key) == (DataLive(w, key) || (OwnerWith(w, key, f) && LoaderPending(w.flights[f].phase)))
    ensures Provided(w', key) == (DataLive(w', key) || (OwnerWith(w', key, f) && LoaderPending(w'.flights[f].phase)))
  {
    forall g | g in w.flights && g != f && (OwnerWith(w, key, g) || OwnerWith(w', key, g))
      ensures false
    {
      assert OwnerWith(w, key, g) && OwnerWith(w', key, g);
      if OwnerWith(w, key, f) { OwnerUnique(w, key, f, g); } else { OwnerUnique(w', key, f, g); }
    }
  }

  lemma OthersAfterMove(w: World, w': World, key: string, f: FlightId)
    requires TokensDistinct(w) && OnlyMoves(w, w', key, f)
    requires !OwnerWith(w, key, f) && !OwnerWith(w', key, f)
    ensures DataLive(w', key) == DataLive(w, key) ==>
      WillLoadInVain(w', key) == WillLoadInVain(w, key) && Provided(w', key) == Provided(w, key)
    ensures WillLoadInVain(w', key) && !WillLoadInVain(w, key) ==> !DataLive(w, key) && !Provided(w, key)
  {
    assert forall g | g in w.flights :: OwnerWith(w', key, g) <==> OwnerWith(w, key, g);
    assert forall g | g in w.flights && OwnerWith(w, key, g) :: w'.flights[g].phase == w.flights[g].phase;
    if g :| g in w.flights && OwnerWith(w, key, g) && w.flights[g].phase.Checked? {
      assert forall h | h in w.flights && OwnerWith(w, key, h) :: h == g;
    }
  }

  /** The move's own entry in the ledger, leaving out what happens to the data entry. */
  function MoveReasons(move: Move, lost: bool): nat {
    One(move.LoaderFail?) + One(move.WriteBackError?) + One(move.SecondGetError?) + One(lost)
  }

  /** The arithmetic of one move, seen from the moving flight alone. */
  predicate Balanced(w: World, flight: Flight, e: Effect, move: Move) {
    var (data, data') := (Live(w.store, w.now, flight.key), Live(e.store, w.now, flight.key));
    var (own, own') := (Owns(w, flight), Lookup(e.store, w.now, LockKey(flight.key)) == Some(e.flight.token));
    var (p, p') := (flight.phase, e.flight.phase);
    && (data ==> data')
    && One(move.StartLoader?) + One(BeforeLoader(p') && !own') <= One(BeforeLoader(p) && !own) + One(own && p.Checked?)
    && (own || own' ==>
          One(move.StartLoader?) + One(BeforeLoader(p') && !own') - One(BeforeLoader(p) && !own)
          + One(data' && own' && p'.Checked?) - One(data && own && p.Checked?)
          - One(data' || (own' && LoaderPending(p'))) + One(data || (own && LoaderPending(p)))
          <= MoveReasons(move, own && !own' && LoaderPending(p)))
  }

  lemma MoveBalance(w: World, flight: Flight, move: Move)
    requires Permits(w.issued, flight, move) && w.cfg.acquire != For(0)
    requires !flight.beat.NoBeat? ==> !flight.phase.Starting? && !BeforeLoader(flight.phase)
    ensures Balanced(w, flight, Act(w, flight, move), move)
  {
    assert |LockKey(flight.key)| != |flight.key|;
  }

  lemma OwnerMovePays(w: World, w': World, key: string, f: FlightId, start: nat, reasons: nat)
    requires TokensDistinct(w) && TokensDistinct(w') && OnlyMoves(w, w', key, f)
    requires OwnerWith(w, key, f) || OwnerWith(w', key, f)
    requires
      var (data, data') := (DataLive(w, key), DataLive(w', key));
      var (own, own') := (Owns(w, w.flights[f]), Owns(w', w'.flights[f]));
      var (p, p') := (w.flights[f].phase, w'.flights[f].phase);
      start + One(BeforeLoader(p') && !own') - One(BeforeLoader(p) && !own)
      + One(data' && own' && p'.Checked?) - One(data && own && p.Checked?)
      - One(data' || (own' && LoaderPending(p'))) + One(data || (own && LoaderPending(p)))
      <= reasons
    ensures start + Potential(w', key) <= Potential(w, key) + reasons
  {
    DoomedAfterMove(w, w', key, f);
    OwnerAfterMove(w, w', key, f);
  }

  lemma OtherMovePays(w: World, w': World, key: string, f: FlightId, start: nat)
    requires TokensDistinct(w) && OnlyMoves(w, w', key, f)
    requires !OwnerWith(w, key, f) && !OwnerWith(w', key, f)
    requires start + One(DoomedOne(w', f)) <= One(DoomedOne(w, f))
    requires DataLive(w, key) ==> DataLive(w', key)
    ensures start + Potential(w', key) <= Potential(w, key)
  {
    DoomedAfterMove(w, w', key, f);
    OthersAfterMove(w, w', key, f);
  }

  predicate LosesWhilePending(w: World, flight: Flight, e: Effect) {
    && Owns(w, flight) && LoaderPending(flight.phase)
    && Lookup(e.store, w.now, LockKey(flight.key)) != Some(e.flight.token)
  }

  lemma BalancedPays(w: World, f: FlightId, e: Effect, move: Move)
    requires f in w.flights && OnlyMoves(w, Install(w, f, e), w.flights[f].key, f)
    requires TokensDistinct(w) && TokensDistinct(Install(w, f, e)) && Balanced(w, w.flights[f], e, move)
    ensures
      var key := w.flights[f].key;
      One(move.StartLoader?) + Potential(Install(w, f, e), key)
      <= Potential(w, key) + MoveReasons(move, LosesWhilePending(w, w.flights[f], e))
  {
    var key := w.flights[f].key;
    var w' := Install(w, f, e);
    if OwnerWith(w, key, f) || OwnerWith(w', key, f) {
      OwnerMovePays(w, w', key, f, One(move.StartLoader?), MoveReasons(move, LosesWhilePending(w, w.flights[f], e)));
    } else {
      OtherMovePays(w, w', key, f, One(move.StartLoader?));
    }
  }

  lemma MovePays(w: World, f: FlightId, move: Move)
    requires Inv(w) && f in w.flights && Permits(w.issued, w.flights[f], move)
    requires TokensDistinct(MoveFlight(w, f, move))
    ensures Paid(w, FlightMove(f, move), MoveFlight(w, f, move), w.flights[f].key)
  {
    var e := Act(w, w.flights[f], move);
    ActLawful(w, w.flights[f], move);
    InstallOnlyMoves(w, f, e);
    MoveBalance(w, w.flights[f], move);
    BalancedPays(w, f, e, move);
    MoveLedger(w, f, move);
  }

  lemma MoveLedger(w: World, f: FlightId, move: Move)
    requires f in w.flights && Permits(w.issued, w.flights[f], move)
    ensures
      MoveReasons(move, LosesWhilePending(w, w.flights[f], Act(w, w.flights[f], move)))
      <= StepLedger(w, FlightMove(f, move), MoveFlight(w, f, move), w.flights[f].key).Reasons()
  {
    ActKeepsIdentity(w, w.flights[f], move);
    assert LosesWhilePending(w, w.flights[f], Act(w, w.flights[f], move)) ==>
      LosesLease(w, MoveFlight(w, f, move), w.flights[f].key, f);
  }

  /** A flight for another key touches neither the entry nor the lock of this one. */
  lemma OtherKeyInstall(w: World, f: FlightId, e: Effect, key: string)
    requires KeysKnown(w) && f in w.flights && Lawful(w, w.flights[f], e)
    requires key in w.cfg.keys && w.flights[f].key != key
    ensures SameFor(w, Install(w, f, e), key)
  {
    if LockKey(key) == LockKey(w.flights[f].key) {
      LockKeyInjective(key, w.flights[f].key);
    }
    assert SameEntry(w.store, e.store, key) && SameEntry(w.store, e.store, LockKey(key));
  }

  lemma MoveStepPays(w: World, f: FlightId, move: Move, key: string)
    requires Inv(w) && f in w.flights && Permits(w.issued, w.flights[f], move) && key in w.cfg.keys
    ensures Paid(w, FlightMove(f, move), MoveFlight(w, f, move), key)
  {
    MoveKeepsInv(w, f, move);
    if w.flights[f].key == key {
      MovePays(w, f, move);
    } else {
      ActLawful(w, w.flights[f], move);
      OtherKeyInstall(w, f, Act(w, w.flights[f], move), key);
      SamePotential(w, MoveFlight(w, f, move), key);
    }
  }

  lemma TurnStepPays(w: World, c: CallId, turn: Turn, key: string)
    requires Inv(w) && c in w.calls && Allows(w, w.calls[c], turn)
    ensures Paid(w, CallTurn(c, turn), TurnCall(w, c, turn), key)
  {
    TurnPays(w, c, turn, key);
    SamePotential(w, TurnCall(w, c, turn), key);
  }

  lemma StepPays(w: World, a: Action, key: string)
    requires Inv(w) && Enabled(w, a) && key in w.cfg.keys
    ensures Paid(w, a, Step(w, a), key)
  {
    match a
    case CallTurn(c, turn) => TurnStepPays(w, c, turn, key);
    case FlightMove(f, move) => MoveStepPays(w, f, move, key);
    case _ => EnvironmentPays(w, a, key);
  }

  /**
  A flight that has not written back loses its lock only to time, to a wipe, or to its own
  extension when that is for no time at all; never to anything that another process does.
  */
  lemma LostOnlyToTime(w: World, a: Action, key: string)
    requires Inv(w) && Enabled(w, a) && key in w.cfg.keys && LeaseLost(w, Step(w, a), key)
    ensures a.Advance? || a.Wipe? || (a.FlightMove? && a.move.BeatLand? && w.cfg.extend == For(0) && w.flights[a.f].key == key)
  {
    var f :| f in w.flights && LosesLease(w, Step(w, a), key, f);
    if a.FlightMove? {
      ActLawful(w, w.flights[a.f], a.move);
      if a.f != f {
        InstallSparesOtherOwners(w, a.f, Act(w, w.flights[a.f], a.move), f);
      }
    }
  }

  // ----- Whole runs -----

  lemma {:induction false} RunPays(ws: seq<World>, acts: seq<Action>, n: nat, key: string)
    requires IsRun(ws, acts) && n <= |acts| && key in ws[0].cfg.keys
    ensures ws[n].cfg == ws[0].cfg
    ensures
      var l := LedgerOf(ws, acts, n, key);
      l.starts + Potential(ws[n], key) <= Potential(ws[0], key) + l.Reasons()
  {
    if n > 0 {
      RunPays(ws, acts, n - 1, key);
      RunKeepsInv(ws, acts, n - 1);
      StepPays(ws[n - 1], acts[n - 1], key);
    }
  }

  /**
  Loader starts for a key <= 1 + disappearances of its value + loads that failed or gave nil
  + failed write-backs + leases lost before the write-back + second reads that errored; without
  the 1 when the value is there to begin with.
  */
  lemma LoaderStartsBounded(ws: seq<World>, acts: seq<Action>, n: nat, key: string)
    requires IsRun(ws, acts) && n <= |acts| && key in ws[0].cfg.keys
    ensures
      var l := LedgerOf(ws, acts, n, key);
      l.starts <= l.Reasons() + One(!DataLive(ws[0], key))
  {
    RunPays(ws, acts, n, key);
    assert Doomed(ws[0], key) == {};
  }

  /** When nothing goes wrong, a key is loaded at most once, by all processes together. */
  lemma LoadedOnce(ws: seq<World>, acts: seq<Action>, n: nat, key: string)
    requires IsRun(ws, acts) && n <= |acts| && key in ws[0].cfg.keys
    requires LedgerOf(ws, acts, n, key).Reasons() == 0
    ensures LedgerOf(ws, acts, n, key).starts <= 1
    ensures DataLive(ws[0], key) ==> LedgerOf(ws, acts, n, key).starts == 0
  {
    LoaderStartsBounded(ws, acts, n, key);
  }
}
