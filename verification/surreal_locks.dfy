/**
SurrealDB's locks: records of a table of their own, created if absent, never read for their expiration,
and deleted or rewritten by record id alone, in a second command after the token was compared.
Nothing removes the whole lock table; the cart's Clear deletes data records only.

Locks that never end make exclusion hold without any condition on the second halves.  The price is that
a record whose flight is gone stays for good.
*/
module SurrealLocks {
  import opened Expiry
  import opened Keyspace
  import opened Protocol
  import opened Exclusion
  import opened TwoStep

  function SurrealConfig(keys: set<string>): Config {
    Config(keys, Forever, Forever)
  }

  /** There is a lock record for the key, and it never ends. */
  predicate Recorded(store: Table<string>, key: string) {
    LockKey(key) in store && store[LockKey(key)].deadline.Never?
  }

  predicate InSectionFor(w: World, f: FlightId, key: string) {
    f in w.flights && w.flights[f].key == key && InSection(w.flights[f].phase)
  }

  /** A flight in its section has a record, and has the section of its key to itself. */
  predicate Guarded(w: World) {
    && (forall f | f in w.flights && InSection(w.flights[f].phase) :: Recorded(w.store, w.flights[f].key))
    && (forall f, g | f in w.flights && g in w.flights && w.flights[f].key == w.flights[g].key
                      && InSection(w.flights[f].phase) && InSection(w.flights[g].phase) :: f == g)
  }

  predicate Safe(w: World) {
    w.cfg == SurrealConfig(w.cfg.keys) && KeysKnown(w) && TokensDistinct(w) && SingleFlight(w) && Guarded(w)
  }

  // ----- One flight -----

  /** What a command of a flight does to the record of its key. */
  predicate Gentle(w: World, flight: Flight, e: Effect) {
    && (InSection(e.flight.phase) ==> Recorded(e.store, flight.key))
    && (InSection(e.flight.phase) && !InSection(flight.phase) ==> !Recorded(w.store, flight.key))
    && (Recorded(w.store, flight.key) && !Recorded(e.store, flight.key) ==>
          InSection(flight.phase) && !InSection(e.flight.phase))
  }

  lemma ActGentle(w: World, flight: Flight, move: Move)
    requires w.cfg == SurrealConfig(w.cfg.keys) && Permits(w.issued, flight, move)
    requires InSection(flight.phase) ==> Recorded(w.store, flight.key)
    ensures Gentle(w, flight, Act(w, flight, move))
  {
    assert |LockKey(flight.key)| != |flight.key|;
  }

  lemma BlindGentle(w: World, f: FlightId, sending: bool)
    requires Safe(w) && InPhase(w, f, sending)
    ensures Gentle(w, w.flights[f], BlindEffect(w, f, sending))
    ensures KeepsIdentity(w, w.flights[f], BlindEffect(w, f, sending)) && KeepsRest(w, w.flights[f], BlindEffect(w, f, sending))
  {
  }

  lemma InstallKeepsGuarded(w: World, f: FlightId, e: Effect)
    requires Safe(w) && f in w.flights && Gentle(w, w.flights[f], e)
    requires KeepsIdentity(w, w.flights[f], e) && KeepsRest(w, w.flights[f], e)
    ensures Guarded(Install(w, f, e))
  {
    var w' := Install(w, f, e);
    forall g | g in w.flights && g != f && InSection(w.flights[g].phase)
      ensures Recorded(w'.store, w.flights[g].key)
    {
      if w.flights[g].key != w.flights[f].key {
        OtherRecordKept(w, f, e, w.flights[g].key);
      }
    }
  }

  /** The record of another key is not touched. */
  lemma OtherRecordKept(w: World, f: FlightId, e: Effect, key: string)
    requires KeysKnown(w) && f in w.flights && KeepsRest(w, w.flights[f], e) && key in w.cfg.keys && key != w.flights[f].key
    ensures SameEntry(w.store, e.store, LockKey(key))
  {
    if LockKey(key) == LockKey(w.flights[f].key) {
      LockKeyInjective(key, w.flights[f].key);
    }
  }

  lemma InstallKeepsSafe(w: World, f: FlightId, e: Effect)
    requires Safe(w) && f in w.flights && Gentle(w, w.flights[f], e)
    requires KeepsIdentity(w, w.flights[f], e) && KeepsRest(w, w.flights[f], e)
    ensures Safe(Install(w, f, e))
  {
    hide Gentle, KeepsIdentity, Guarded, KeysKnown, TokensDistinct, SingleFlight;
    InstallKeepsGuarded(w, f, e);
    InstallKeepsKeys(w, f, e);
    InstallKeepsTokens(w, f, e);
    InstallKeepsSlots(w, f, e);
  }

  // ----- One step -----

  predicate IsWipe(a: Action2) {
    a.Whole? && a.a.Wipe?
  }

  /** The only step that removes a lock record: the delete of a flight that still has the section. */
  predicate Removes(w: World, a: Action2, key: string) {
    a.ReleaseWrite? && InSectionFor(w, a.f, key)
  }

  /** A turn of a caller adds at most a flight that is not in its section, and touches no record. */
  lemma TurnKeepsGuarded(w: World, c: CallId, turn: Turn)
    requires Safe(w) && c in w.calls && Allows(w, w.calls[c], turn)
    ensures Guarded(TurnCall(w, c, turn))
  {
    hide AfterTurn, KeysKnown, TokensDistinct, SingleFlight;
  }

  lemma JoinKeepsRest(w: World, call: Call, f: FlightId)
    requires KeysKnown(w) && TokensDistinct(w) && SingleFlight(w) && call.key in w.cfg.keys
    requires (call.proc, call.key) !in w.active ==> f !in w.flights
    ensures KeysKnown(JoinFlight(w, call, f)) && TokensDistinct(JoinFlight(w, call, f)) && SingleFlight(JoinFlight(w, call, f))
  {
    hide SingleFlight;
    if (call.proc, call.key) !in w.active {
      NewFlightKeepsSlots(w, call, f);
    }
  }

  lemma CallKeepsRest(w: World, c: CallId, turn: Turn)
    requires Safe(w) && c in w.calls && Allows(w, w.calls[c], turn)
    ensures KeysKnown(TurnCall(w, c, turn)) && TokensDistinct(TurnCall(w, c, turn)) && SingleFlight(TurnCall(w, c, turn))
  {
    hide Guarded, TokensDistinct, SingleFlight, JoinFlight;
    if turn.Join? {
      JoinKeepsRest(w, w.calls[c], turn.flight);
    }
    CallAlone(w, c, turn);
  }

  /** Of the state, a turn changes the call and what joining changes; only KeysKnown looks at calls. */
  lemma CallAlone(w: World, c: CallId, turn: Turn)
    requires KeysKnown(w) && c in w.calls && Allows(w, w.calls[c], turn)
    requires SingleFlight(w)
    ensures
      var mid := if turn.Join? then JoinFlight(w, w.calls[c], turn.flight) else w;
      && (TokensDistinct(mid) ==> TokensDistinct(TurnCall(w, c, turn)))
      && (SingleFlight(mid) ==> SingleFlight(TurnCall(w, c, turn)))
      && KeysKnown(TurnCall(w, c, turn))
  {
  }

  lemma TurnKeepsSafe(w: World, c: CallId, turn: Turn)
    requires Safe(w) && c in w.calls && Allows(w, w.calls[c], turn)
    ensures Safe(TurnCall(w, c, turn))
  {
    hide Guarded, TokensDistinct, SingleFlight, KeysKnown;
    TurnKeepsGuarded(w, c, turn);
    CallKeepsRest(w, c, turn);
  }

  lemma ExternalKeepsSafe(w: World, a: Action)
    requires Safe(w) && Enabled(w, a) && External(a) && !a.Wipe?
    ensures Safe(Step(w, a))
  {
    ExternalKeepsRest(w, a);
  }

  lemma MoveKeepsSafe(w: World, f: FlightId, move: Move)
    requires Safe(w) && f in w.flights && Permits(w.issued, w.flights[f], move)
    ensures Safe(MoveFlight(w, f, move))
  {
    hide Act, Permits, Install, KeysKnown, TokensDistinct, SingleFlight, Gentle, KeepsIdentity, KeepsLock;
    ActGentle(w, w.flights[f], move);
    ActLawful(w, w.flights[f], move);
    InstallKeepsSafe(w, f, Act(w, w.flights[f], move));
  }

  lemma StepKeepsSafe(w: World, a: Action)
    requires Safe(w) && Enabled(w, a) && !a.Wipe?
    ensures Safe(Step(w, a))
  {
    hide Safe;
    match a
    case CallTurn(c, turn) => TurnKeepsSafe(w, c, turn);
    case FlightMove(f, move) => MoveKeepsSafe(w, f, move);
    case _ => ExternalKeepsSafe(w, a);
  }

  lemma BlindKeepsSafe(w: World, f: FlightId, sending: bool)
    requires Safe(w) && InPhase(w, f, sending)
    ensures Safe(Install(w, f, BlindEffect(w, f, sending)))
  {
    hide BlindEffect, Gentle, KeepsIdentity, Install;
    BlindGentle(w, f, sending);
    InstallKeepsSafe(w, f, BlindEffect(w, f, sending));
  }

  /** Every step but a wipe keeps the invariant; no condition on the second halves is needed. */
  lemma Step2KeepsSafe(x: World2, a: Action2)
    requires Safe(x.w) && Enabled2(x, a) && !IsWipe(a)
    ensures Safe(Step2(x, a).w)
  {
    hide Safe, Install, BlindEffect;
    match a
    case Whole(b) => StepKeepsSafe(x.w, b);
    case ReleaseRead(f) => if !Owns(x.w, x.w.flights[f]) { StepKeepsSafe(x.w, FlightMove(f, Release)); }
    case ReleaseWrite(f) => BlindKeepsSafe(x.w, f, false);
    case ExtendRead(f) => if !Owns(x.w, x.w.flights[f]) { StepKeepsSafe(x.w, FlightMove(f, BeatLand)); }
    case ExtendWrite(f) => BlindKeepsSafe(x.w, f, true);
  }

  // ----- Whole runs -----

  ghost predicate SurrealRun(xs: seq<World2>, acts: seq<Action2>) {
    && IsRun2(xs, acts) && xs[0].w.cfg == SurrealConfig(xs[0].w.cfg.keys)
    && forall i | 0 <= i < |acts| :: !IsWipe(acts[i])
  }

  lemma {:induction false} RunKeepsSafe(xs: seq<World2>, acts: seq<Action2>, i: nat)
    requires SurrealRun(xs, acts) && i <= |acts|
    ensures Safe(xs[i].w) && xs[i].w.cfg == xs[0].w.cfg
  {
    if i == 0 {
      InitInv(xs[0].w);
    } else {
      RunKeepsSafe(xs, acts, i - 1);
      Step2KeepsSafe(xs[i - 1], acts[i - 1]);
      Step2KeepsConfig(xs[i - 1], acts[i - 1]);
    }
  }

  /**
  Two flights for one key are never both between acquire and release, in any run, however late the
  second halves of releases and extensions come.
  */
  lemma ExclusionWithoutExpiry(xs: seq<World2>, acts: seq<Action2>, i: nat, f: FlightId, g: FlightId)
    requires SurrealRun(xs, acts) && i <= |acts|
    requires f in xs[i].w.flights && g in xs[i].w.flights && xs[i].w.flights[f].key == xs[i].w.flights[g].key
    requires InSection(xs[i].w.flights[f].phase) && InSection(xs[i].w.flights[g].phase)
    ensures f == g
  {
    RunKeepsSafe(xs, acts, i);
  }

  // ----- What becomes of a record -----

  lemma InstallKeepsRecord(w: World, f: FlightId, e: Effect, key: string)
    requires KeysKnown(w) && f in w.flights && key in w.cfg.keys && Recorded(w.store, key)
    requires Gentle(w, w.flights[f], e) && KeepsRest(w, w.flights[f], e)
    ensures Recorded(e.store, key) || (w.flights[f].key == key && InSection(w.flights[f].phase) && !InSection(e.flight.phase))
  {
    if w.flights[f].key != key {
      OtherRecordKept(w, f, e, key);
    }
  }

  /** Of the moves left to the two-step machine none removes a record. */
  lemma WholeMoveKeepsRecord(w: World, f: FlightId, move: Move, key: string)
    requires Safe(w) && f in w.flights && Permits(w.issued, w.flights[f], move) && key in w.cfg.keys && Recorded(w.store, key)
    requires move.Release? ==> !Owns(w, w.flights[f])
    ensures Recorded(Act(w, w.flights[f], move).store, key)
  {
    ActKeepsRest(w, w.flights[f], move);
    if w.flights[f].key != key {
      OtherRecordKept(w, f, Act(w, w.flights[f], move), key);
    } else {
      assert |LockKey(key)| != |key|;
    }
  }

  lemma StepKeepsRecord(w: World, a: Action, key: string)
    requires Safe(w) && Enabled(w, a) && !a.Wipe? && key in w.cfg.keys && Recorded(w.store, key)
    requires a.FlightMove? && a.move.Release? ==> !Owns(w, w.flights[a.f])
    ensures Recorded(Step(w, a).store, key)
  {
    if a.FlightMove? {
      WholeMoveKeepsRecord(w, a.f, a.move, key);
    }
  }

  lemma BlindKeepsRecord(w: World, f: FlightId, sending: bool, key: string)
    requires Safe(w) && InPhase(w, f, sending) && key in w.cfg.keys && Recorded(w.store, key)
    ensures Recorded(BlindEffect(w, f, sending).store, key) <==> sending || w.flights[f].key != key
  {
    if w.flights[f].key != key {
      BlindGentle(w, f, sending);
      OtherRecordKept(w, f, BlindEffect(w, f, sending), key);
    }
  }

  /** A step removes a record exactly when it is the delete of a flight for that key, which then has the section. */
  lemma RecordRemovedExactly(x: World2, a: Action2, key: string)
    requires Safe(x.w) && Enabled2(x, a) && !IsWipe(a) && key in x.w.cfg.keys && Recorded(x.w.store, key)
    ensures !Recorded(Step2(x, a).w.store, key) <==> Removes(x.w, a, key)
  {
    hide Safe, BlindEffect, Recorded;
    match a
    case Whole(b) => StepKeepsRecord(x.w, b, key);
    case ReleaseRead(f) => if !Owns(x.w, x.w.flights[f]) { StepKeepsRecord(x.w, FlightMove(f, Release), key); }
    case ReleaseWrite(f) => BlindKeepsRecord(x.w, f, false, key);
    case ExtendRead(f) => if !Owns(x.w, x.w.flights[f]) { StepKeepsRecord(x.w, FlightMove(f, BeatLand), key); }
    case ExtendWrite(f) => BlindKeepsRecord(x.w, f, true, key);
  }

  lemma RecordBlocks(w: World, key: string, h: FlightId, token: string)
    requires Recorded(w.store, key) && h in w.flights && w.flights[h].key == key && Enabled(w, FlightMove(h, Acquire(token)))
    ensures Act(w, w.flights[h], Acquire(token)).flight.phase.Polling?
  {
  }

  /**
  However much time passes and whatever anybody does, a record keeps everybody out (RecordBlocks)
  until the delete of a flight that has the section.
  */
  lemma {:induction false} RecordStays(xs: seq<World2>, acts: seq<Action2>, i: nat, j: nat, key: string)
    requires SurrealRun(xs, acts) && i <= j <= |acts| && key in xs[0].w.cfg.keys && Recorded(xs[i].w.store, key)
    requires forall k | i <= k < j :: !Removes(xs[k].w, acts[k], key)
    ensures Recorded(xs[j].w.store, key)
  {
    hide Recorded, Safe, Removes, Step2, Enabled2;
    if i < j {
      RecordStays(xs, acts, i, j - 1, key);
      RunKeepsSafe(xs, acts, j - 1);
      RecordRemovedExactly(xs[j - 1], acts[j - 1], key);
      assert xs[j - 1 + 1] == Step2(xs[j - 1], acts[j - 1]);
    }
  }

  /** A record without a flight in the section of its key. */
  predicate Stuck(w: World, key: string) {
    Recorded(w.store, key) && forall f | f in w.flights :: !InSectionFor(w, f, key)
  }

  lemma MoveKeepsOut(w: World, f: FlightId, move: Move, key: string)
    requires Safe(w) && f in w.flights && Permits(w.issued, w.flights[f], move) && Stuck(w, key) && w.flights[f].key == key
    ensures !InSection(Act(w, w.flights[f], move).flight.phase)
  {
  }

  lemma StepKeepsOut(w: World, a: Action, key: string)
    requires Safe(w) && Enabled(w, a) && Stuck(w, key)
    ensures forall f | f in Step(w, a).flights :: !InSectionFor(Step(w, a), f, key)
  {
    forall f | f in Step(w, a).flights
      ensures !InSectionFor(Step(w, a), f, key)
    {
      if a.FlightMove? && a.f == f {
        ActKeepsIdentity(w, w.flights[f], a.move);
        if w.flights[f].key == key { MoveKeepsOut(w, f, a.move, key); }
      } else if f in w.flights {
        assert Step(w, a).flights[f] == w.flights[f];
      }
    }
  }

  lemma Step2KeepsStuck(x: World2, a: Action2, key: string)
    requires Safe(x.w) && Enabled2(x, a) && !IsWipe(a) && key in x.w.cfg.keys && Stuck(x.w, key)
    ensures Stuck(Step2(x, a).w, key)
  {
    RecordRemovedExactly(x, a, key);
    match a
    case Whole(b) => StepKeepsOut(x.w, b, key);
    case ReleaseRead(f) => if !Owns(x.w, x.w.flights[f]) { StepKeepsOut(x.w, FlightMove(f, Release), key); }
    case ExtendRead(f) => if !Owns(x.w, x.w.flights[f]) { StepKeepsOut(x.w, FlightMove(f, BeatLand), key); }
    case _ =>
  }

  /** Such a record stays for good: no flight for its key ever gets into its section again. */
  lemma {:induction false} StuckForGood(xs: seq<World2>, acts: seq<Action2>, i: nat, j: nat, key: string)
    requires SurrealRun(xs, acts) && i <= j <= |acts| && key in xs[0].w.cfg.keys && Stuck(xs[i].w, key)
    ensures Stuck(xs[j].w, key)
  {
    if i < j {
      StuckForGood(xs, acts, i, j - 1, key);
      RunKeepsSafe(xs, acts, j - 1);
      Step2KeepsStuck(xs[j - 1], acts[j - 1], key);
    }
  }

  // ----- How keys get stuck -----

  /** A release that does not reach the server. */
  lemma FailedReleaseSticks(x: World2, f: FlightId)
    requires Safe(x.w) && Enabled2(x, Whole(FlightMove(f, ReleaseError)))
    ensures Stuck(Step2(x, Whole(FlightMove(f, ReleaseError))).w, x.w.flights[f].key)
  {
  }

  /** An acquire whose reply is lost: the flight counts the lock as taken by somebody else. */
  lemma LostAcquireSticks(x: World2, f: FlightId, token: string)
    requires Safe(x.w) && Enabled2(x, Whole(FlightMove(f, AcquireErrorAsTaken(token, true))))
    requires !Live(x.w.store, x.w.now, LockKey(x.w.flights[f].key))
    ensures Stuck(Step2(x, Whole(FlightMove(f, AcquireErrorAsTaken(token, true)))).w, x.w.flights[f].key)
  {
    var key := x.w.flights[f].key;
    assert !Recorded(x.w.store, key);
    assert forall g | g in x.w.flights :: !InSectionFor(x.w, g, key);
  }

  /**
  A late rewrite steals the token of the flight in the section: when that flight comes to release, it
  finds a token that is not its own and leaves the record.
  */
  lemma StolenTokenSticks(x: World2, f: FlightId, g: FlightId)
    requires Safe(x.w) && Enabled2(x, ExtendWrite(f)) && Enabled2(x, ReleaseRead(g))
    requires f != g && x.w.flights[f].key == x.w.flights[g].key
    ensures
      var y := Step2(x, ExtendWrite(f));
      && Enabled2(y, ReleaseRead(g)) && InSectionFor(y.w, g, x.w.flights[g].key)
      && Stuck(Step2(y, ReleaseRead(g)).w, x.w.flights[g].key)
  {
    StolenToken(x, f, g);
    var y := Step2(x, ExtendWrite(f));
    BlindKeepsSafe(x.w, f, true);
    ForeignReleaseSticks(y, g);
  }

  lemma StolenToken(x: World2, f: FlightId, g: FlightId)
    requires Safe(x.w) && Enabled2(x, ExtendWrite(f)) && Enabled2(x, ReleaseRead(g))
    requires f != g && x.w.flights[f].key == x.w.flights[g].key
    ensures
      var y := Step2(x, ExtendWrite(f));
      Enabled2(y, ReleaseRead(g)) && y.w.flights[g] == x.w.flights[g] && !Owns(y.w, y.w.flights[g])
  {
  }

  /** A flight that finds a foreign token leaves its section and the record behind. */
  lemma ForeignReleaseSticks(x: World2, g: FlightId)
    requires Safe(x.w) && Enabled2(x, ReleaseRead(g)) && !Owns(x.w, x.w.flights[g])
    ensures Stuck(Step2(x, ReleaseRead(g)).w, x.w.flights[g].key)
  {
  }
}
