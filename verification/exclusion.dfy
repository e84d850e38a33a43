/** Mutual exclusion by lease, and what a stale owner can still do, in every reachable world. */
module Exclusion {
  import opened Wrappers
  import opened Expiry
  import opened Keyspace
  import opened Protocol

  /** The granted lease has not run out and the keyspace was not wiped since the grant. */
  predicate InLease(w: World, flight: Flight) {
    flight.epoch == w.epoch && !Passed(flight.lease, w.now)
  }

  /** The live lock of the flight's key carries the flight's token. */
  predicate Owns(w: World, flight: Flight) {
    Lookup(w.store, w.now, LockKey(flight.key)) == Some(flight.token)
  }

  /** Tokens are drawn fresh, so no two flights share one. */
  predicate TokensDistinct(w: World) {
    && "" in w.issued
    && (forall f | f in w.flights :: w.flights[f].token in w.issued)
    && (forall f, g | f in w.flights && g in w.flights && f != g ::
          w.flights[f].token == w.flights[g].token ==> w.flights[f].token == "")
    && (forall f | f in w.flights && (InSection(w.flights[f].phase) || !w.flights[f].beat.NoBeat?) ::
          w.flights[f].token != "")
    && (forall f | f in w.flights && !w.flights[f].beat.NoBeat? ::
          !w.flights[f].phase.Starting? && !w.flights[f].phase.Held? && !w.flights[f].phase.Checked?)
  }

  /** While a flight in its section is within its lease, the lock on the server is exactly its grant. */
  predicate LeasesBacked(w: World) {
    && (forall f | f in w.flights :: w.flights[f].epoch <= w.epoch)
    && (forall f | f in w.flights && InSection(w.flights[f].phase) && InLease(w, w.flights[f]) ::
          Backed(w.store, w.flights[f]))
  }

  /** Singleflight: a process runs at most one unfinished flight for a key, the active one. */
  predicate SingleFlight(w: World) {
    && (forall slot | slot in w.active ::
          && w.active[slot] in w.flights
          && slot == (w.flights[w.active[slot]].proc, w.flights[w.active[slot]].key)
          && !w.flights[w.active[slot]].phase.Done?)
    && (forall f | f in w.flights && !w.flights[f].phase.Done? ::
          && (w.flights[f].proc, w.flights[f].key) in w.active
          && w.active[(w.flights[f].proc, w.flights[f].key)] == f)
  }

  predicate KeysKnown(w: World) {
    && NoCollision(w.cfg.keys) && w.cfg.acquire != For(0)
    && (forall f | f in w.flights :: w.flights[f].key in w.cfg.keys)
    && (forall c | c in w.calls :: w.calls[c].key in w.cfg.keys)
    && (forall c | c in w.calls && w.calls[c].phase.Joined? ::
          && w.calls[c].phase.flight in w.flights
          && w.flights[w.calls[c].phase.flight].key == w.calls[c].key)
  }

  predicate Inv(w: World) {
    KeysKnown(w) && TokensDistinct(w) && SingleFlight(w) && LeasesBacked(w)
  }

  lemma InitInv(w: World)
    requires Init(w)
    ensures Inv(w)
  {
  }

  // ----- One flight moves -----

  predicate SameEntry(s: Table<string>, t: Table<string>, key: string) {
    (key in t <==> key in s) && (key in s ==> t[key] == s[key])
  }

  /** What a move does to the identity of its flight and to the tokens. */
  predicate KeepsIdentity(w: World, flight: Flight, e: Effect) {
    && e.flight.proc == flight.proc && e.flight.key == flight.key && e.flight.born == flight.born
    && w.issued <= e.issued
    && (e.flight.token == flight.token || (e.flight.token !in w.issued && e.flight.token in e.issued))
    && (e.flight.token != flight.token ==> flight.phase.Starting?)
    && (InSection(e.flight.phase) ==> InSection(flight.phase) || e.flight.token !in w.issued)
    && (!flight.phase.Starting? ==> !e.flight.phase.Starting?)
    && (flight.phase.Done? ==> e.flight.phase == flight.phase)
    && (!e.flight.beat.NoBeat? ==> !flight.beat.NoBeat? || (flight.phase.Checked? && e.flight.phase.Loading?))
    && (e.flight.phase.Held? || e.flight.phase.Checked? ==>
          flight.phase.Starting? || flight.phase.Held? || flight.phase.Checked?)
    && e.flight.epoch in {flight.epoch, w.epoch}
  }

  predicate Backed(store: Table<string>, flight: Flight) {
    LockKey(flight.key) in store && store[LockKey(flight.key)] == Entry(flight.token, flight.lease)
  }

  /** What a move does to the lock of its key: only through the flight's own token, or a fresh one. */
  predicate KeepsLock(w: World, flight: Flight, e: Effect) {
    var lock := LockKey(flight.key);
    && (Live(w.store, w.now, lock) && w.store[lock].payload != flight.token ==>
          SameEntry(w.store, e.store, lock) && e.flight.token == flight.token)
    && (Live(e.store, w.now, lock) ==>
          || (lock in w.store && e.store[lock] == w.store[lock])
          || (e.store[lock].payload == flight.token && Owns(w, flight))
          || e.store[lock].payload !in w.issued)
    && ((InSection(flight.phase) && InLease(w, flight) ==> Backed(w.store, flight)) ==>
         (InSection(e.flight.phase) && InLease(w, e.flight) ==> Backed(e.store, e.flight)))
  }

  /** Every other entry of the server stays as it is. */
  ghost predicate KeepsRest(w: World, flight: Flight, e: Effect) {
    forall key :: key != flight.key && key != LockKey(flight.key) ==> SameEntry(w.store, e.store, key)
  }

  lemma ActKeepsIdentity(w: World, flight: Flight, move: Move)
    requires Permits(w.issued, flight, move)
    ensures KeepsIdentity(w, flight, Act(w, flight, move))
  {
  }

  lemma ActKeepsLock(w: World, flight: Flight, move: Move)
    requires Permits(w.issued, flight, move)
    ensures KeepsLock(w, flight, Act(w, flight, move))
  {
    assert |LockKey(flight.key)| != |flight.key|;
  }

  lemma ActKeepsRest(w: World, flight: Flight, move: Move)
    requires Permits(w.issued, flight, move)
    ensures KeepsRest(w, flight, Act(w, flight, move))
  {
  }

  ghost predicate Lawful(w: World, flight: Flight, e: Effect) {
    KeepsIdentity(w, flight, e) && KeepsLock(w, flight, e) && KeepsRest(w, flight, e)
  }

  lemma ActLawful(w: World, flight: Flight, move: Move)
    requires Permits(w.issued, flight, move)
    ensures Lawful(w, flight, Act(w, flight, move))
  {
    ActKeepsIdentity(w, flight, move);
    ActKeepsLock(w, flight, move);
    ActKeepsRest(w, flight, move);
  }

  lemma InstallKeepsTokens(w: World, f: FlightId, e: Effect)
    requires TokensDistinct(w) && f in w.flights && KeepsIdentity(w, w.flights[f], e)
    ensures TokensDistinct(Install(w, f, e))
  {
  }

  lemma InstallKeepsSlots(w: World, f: FlightId, e: Effect)
    requires SingleFlight(w) && f in w.flights && KeepsIdentity(w, w.flights[f], e)
    ensures SingleFlight(Install(w, f, e))
  {
  }

  lemma InstallKeepsKeys(w: World, f: FlightId, e: Effect)
    requires KeysKnown(w) && f in w.flights && KeepsIdentity(w, w.flights[f], e)
    ensures KeysKnown(Install(w, f, e))
  {
  }

  /** Whatever a flight does, it leaves the live lock of every other flight as it is. */
  lemma InstallSparesOtherOwners(w: World, f: FlightId, e: Effect, g: FlightId)
    requires KeysKnown(w) && TokensDistinct(w) && f in w.flights && Lawful(w, w.flights[f], e)
    requires g in w.flights && g != f && w.flights[g].token != "" && Owns(w, w.flights[g])
    ensures SameEntry(w.store, e.store, LockKey(w.flights[g].key))
    ensures w.flights[g].key == w.flights[f].key ==> e.flight.token == w.flights[f].token
  {
    if w.flights[g].key != w.flights[f].key && LockKey(w.flights[g].key) == LockKey(w.flights[f].key) {
      LockKeyInjective(w.flights[g].key, w.flights[f].key);
    }
  }

  lemma InstallKeepsLeases(w: World, f: FlightId, e: Effect)
    requires Inv(w) && f in w.flights && Lawful(w, w.flights[f], e)
    ensures LeasesBacked(Install(w, f, e))
  {
    var w' := Install(w, f, e);
    forall g | g in w'.flights && InSection(w'.flights[g].phase) && InLease(w', w'.flights[g])
      ensures Backed(w'.store, w'.flights[g])
    {
      if g != f {
        InstallSparesOtherOwners(w, f, e, g);
      }
    }
  }

  lemma MoveKeepsInv(w: World, f: FlightId, move: Move)
    requires Inv(w) && f in w.flights && Permits(w.issued, w.flights[f], move)
    ensures Inv(MoveFlight(w, f, move))
  {
    var e := Act(w, w.flights[f], move);
    ActLawful(w, w.flights[f], move);
    InstallKeepsTokens(w, f, e);
    InstallKeepsSlots(w, f, e);
    InstallKeepsKeys(w, f, e);
    InstallKeepsLeases(w, f, e);
  }

  // ----- A call takes a turn -----

  lemma NewFlightKeepsSlots(w: World, call: Call, f: FlightId)
    requires SingleFlight(w) && f !in w.flights && (call.proc, call.key) !in w.active
    ensures SingleFlight(JoinFlight(w, call, f))
  {
  }

  lemma NewFlightKeepsRest(w: World, call: Call, f: FlightId)
    requires KeysKnown(w) && TokensDistinct(w) && LeasesBacked(w) && f !in w.flights
    requires (call.proc, call.key) !in w.active && call.key in w.cfg.keys
    ensures KeysKnown(JoinFlight(w, call, f)) && TokensDistinct(JoinFlight(w, call, f)) && LeasesBacked(JoinFlight(w, call, f))
  {
  }

  lemma CallKeepsInv(w: World, w': World, c: CallId, call: Call)
    requires Inv(w) && w' == w.(calls := w.calls[c := call], step := w.step + 1)
    requires call.key in w.cfg.keys
    requires call.phase.Joined? ==>
      call.phase.flight in w.flights && w.flights[call.phase.flight].key == call.key
    ensures Inv(w')
  {
  }

  lemma TurnKeepsInv(w: World, c: CallId, turn: Turn)
    requires Inv(w) && c in w.calls && Allows(w, w.calls[c], turn)
    ensures Inv(TurnCall(w, c, turn))
  {
    var call := w.calls[c];
    var mid := if turn.Join? then JoinFlight(w, call, turn.flight) else w;
    if turn.Join? && (call.proc, call.key) !in w.active {
      NewFlightKeepsSlots(w, call, turn.flight);
      NewFlightKeepsRest(w, call, turn.flight);
    }
    CallKeepsInv(mid, TurnCall(w, c, turn), c, call.(phase := AfterTurn(w, call, turn)));
  }

  // ----- Everything -----

  predicate External(a: Action) {
    a.Advance? || a.ExternalSet? || a.ExternalDelete? || a.Wipe? || a.Begin?
  }

  lemma ExternalKeepsLeases(w: World, a: Action)
    requires KeysKnown(w) && LeasesBacked(w) && Enabled(w, a) && External(a)
    ensures LeasesBacked(Step(w, a))
  {
  }

  lemma ExternalKeepsRest(w: World, a: Action)
    requires KeysKnown(w) && TokensDistinct(w) && SingleFlight(w) && Enabled(w, a) && External(a)
    ensures KeysKnown(Step(w, a)) && TokensDistinct(Step(w, a)) && SingleFlight(Step(w, a))
  {
    assert Step(w, a).flights == w.flights;
  }

  lemma StepKeepsInv(w: World, a: Action)
    requires Inv(w) && Enabled(w, a)
    ensures Inv(Step(w, a))
  {
    match a
    case CallTurn(c, turn) => TurnKeepsInv(w, c, turn);
    case FlightMove(f, move) =>
      MoveKeepsInv(w, f, move);
    case _ =>
      ExternalKeepsLeases(w, a);
      ExternalKeepsRest(w, a);
  }

  lemma {:induction false} RunKeepsInv(ws: seq<World>, acts: seq<Action>, i: nat)
    requires IsRun(ws, acts) && i <= |acts|
    ensures Inv(ws[i])
  {
    if i == 0 {
      InitInv(ws[0]);
    } else {
      RunKeepsInv(ws, acts, i - 1);
      StepKeepsInv(ws[i - 1], acts[i - 1]);
    }
  }

  // ----- Mutual exclusion -----

  /**
  In every reachable world, of all the flights between acquire and release for one key, at most
  one owns the lock, and one that is within its granted lease does own it.  So two flights are
  never both within their leases.
  */
  lemma MutualExclusion(ws: seq<World>, acts: seq<Action>, i: nat, f: FlightId, g: FlightId)
    requires IsRun(ws, acts) && i <= |acts|
    requires f in ws[i].flights && g in ws[i].flights
    requires InSection(ws[i].flights[f].phase) && InSection(ws[i].flights[g].phase)
    requires ws[i].flights[f].key == ws[i].flights[g].key
    ensures InLease(ws[i], ws[i].flights[f]) ==> Owns(ws[i], ws[i].flights[f])
    ensures Owns(ws[i], ws[i].flights[f]) && Owns(ws[i], ws[i].flights[g]) ==> f == g
    ensures InLease(ws[i], ws[i].flights[f]) && InLease(ws[i], ws[i].flights[g]) ==> f == g
  {
    RunKeepsInv(ws, acts, i);
  }

  /** A process never runs two flights for one key at the same time. */
  lemma OneFlightPerProcess(ws: seq<World>, acts: seq<Action>, i: nat, f: FlightId, g: FlightId)
    requires IsRun(ws, acts) && i <= |acts|
    requires f in ws[i].flights && g in ws[i].flights
    requires !ws[i].flights[f].phase.Done? && !ws[i].flights[g].phase.Done?
    requires ws[i].flights[f].proc == ws[i].flights[g].proc && ws[i].flights[f].key == ws[i].flights[g].key
    ensures f == g
  {
    RunKeepsInv(ws, acts, i);
  }

  // ----- Stale owners -----

  /** The flight acquired the lock of its key at some time and does not own it now. */
  predicate Stale(w: World, f: FlightId) {
    && f in w.flights && w.flights[f].token != "" && !w.flights[f].phase.Starting?
    && !Owns(w, w.flights[f])
  }

  lemma InstallNeverRegains(w: World, g: FlightId, e: Effect, f: FlightId)
    requires KeysKnown(w) && TokensDistinct(w) && g in w.flights && Lawful(w, w.flights[g], e)
    requires Stale(w, f)
    ensures Stale(Install(w, g, e), f)
    ensures Install(w, g, e).flights[f].token == w.flights[f].token
    ensures Install(w, g, e).flights[f].key == w.flights[f].key
  {
    if w.flights[g].key != w.flights[f].key {
      if LockKey(w.flights[f].key) == LockKey(w.flights[g].key) {
        LockKeyInjective(w.flights[f].key, w.flights[g].key);
      }
      assert SameEntry(w.store, e.store, LockKey(w.flights[f].key));
    }
  }

  /** A flight that has lost its lock, or released it, does not own it after the next step either. */
  lemma StepNeverRegains(w: World, a: Action, f: FlightId)
    requires KeysKnown(w) && TokensDistinct(w) && Enabled(w, a) && Stale(w, f)
    ensures Stale(Step(w, a), f)
    ensures Step(w, a).flights[f].token == w.flights[f].token && Step(w, a).flights[f].key == w.flights[f].key
  {
    match a
    case CallTurn(c, turn) => assert Step(w, a).flights[f] == w.flights[f];
    case FlightMove(g, move) =>
      ActLawful(w, w.flights[g], move);
      InstallNeverRegains(w, g, Act(w, w.flights[g], move), f);
    case _ =>
  }

  /**
  Losing a lock is final: once a flight that acquired it no longer owns it, whether by expiry, by
  release or by a wipe, no later step of any process gives it back.
  */
  lemma {:induction false} LossIsFinal(ws: seq<World>, acts: seq<Action>, i: nat, j: nat, f: FlightId)
    requires IsRun(ws, acts) && i <= j <= |acts| && Stale(ws[i], f)
    ensures Stale(ws[j], f)
    ensures ws[j].flights[f].token == ws[i].flights[f].token && ws[j].flights[f].key == ws[i].flights[f].key
  {
    if i < j {
      LossIsFinal(ws, acts, i, j - 1, f);
      RunKeepsInv(ws, acts, j - 1);
      StepNeverRegains(ws[j - 1], acts[j - 1], f);
    }
  }

  /**
  A heartbeat that outlives its flight's release is inert: however late the extension lands, it
  changes nothing on the server.  The same holds after any other loss of the lock.
  */
  lemma LateExtensionIsInert(ws: seq<World>, acts: seq<Action>, i: nat, j: nat, f: FlightId)
    requires IsRun(ws, acts) && i < j < |acts|
    requires acts[i] == FlightMove(f, Release) || Stale(ws[i + 1], f)
    requires acts[j] == FlightMove(f, BeatLand) || acts[j] == FlightMove(f, Release)
    ensures ws[j + 1].store == ws[j].store
  {
    RunKeepsInv(ws, acts, i);
    assert ws[i + 1] == Step(ws[i], acts[i]);
    assert Stale(ws[i + 1], f);
    LossIsFinal(ws, acts, i + 1, j, f);
    assert ws[j + 1] == Step(ws[j], acts[j]);
  }

  /**
  No move of a flight removes, shortens, prolongs or overwrites the live lock of another flight.
  */
  lemma OtherLocksUntouched(ws: seq<World>, acts: seq<Action>, i: nat, f: FlightId, move: Move, g: FlightId)
    requires IsRun(ws, acts) && i < |acts| && acts[i] == FlightMove(f, move)
    requires g in ws[i].flights && g != f && ws[i].flights[g].token != "" && Owns(ws[i], ws[i].flights[g])
    ensures
      var lock := LockKey(ws[i].flights[g].key);
      lock in ws[i + 1].store && ws[i + 1].store[lock] == ws[i].store[lock]
  {
    RunKeepsInv(ws, acts, i);
    ActLawful(ws[i], ws[i].flights[f], move);
    InstallSparesOtherOwners(ws[i], f, Act(ws[i], ws[i].flights[f], move), g);
  }

  // ----- Why the assumptions are needed -----

  /** A wipe of the keyspace (FLUSHALL) takes the locks with it: the next flight gets a second, overlapping lease. */
  lemma WipeBreaksExclusion(w: World, g: FlightId, h: FlightId, token: string)
    requires Inv(w) && token !in w.issued
    requires g in w.flights && InSection(w.flights[g].phase) && !Passed(w.flights[g].lease, w.now)
    requires h in w.flights && w.flights[h].key == w.flights[g].key && w.flights[h].phase.Starting?
    ensures
      var w' := Step(Step(w, Wipe), FlightMove(h, Acquire(token)));
      && g != h && InSection(w'.flights[g].phase) && InSection(w'.flights[h].phase)
      && !Passed(w'.flights[g].lease, w'.now) && InLease(w', w'.flights[h])
  {
  }

  /** A data key that is the lock key of another one: storing a value under it destroys the lock. */
  lemma CollisionDestroysLock(w: World, g: FlightId, key: string, value: string, lease: Lease)
    requires g in w.flights && InSection(w.flights[g].phase) && InLease(w, w.flights[g])
    requires key in w.cfg.keys && key == LockKey(w.flights[g].key)
    requires value != w.flights[g].token && lease != For(0)
    ensures
      var w' := Step(w, ExternalSet(key, value, lease));
      InLease(w', w'.flights[g]) && !Owns(w', w'.flights[g])
  {
  }
}
