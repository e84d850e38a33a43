/** Where the values come from that `GetOrSetWithLock` returns, over whole runs. */
module Provenance {
  import opened Wrappers
  import opened Expiry
  import opened Keyspace
  import opened Protocol
  import opened Exclusion

  /** The outcome a flight has settled on, delivered or not. */
  function ResultOf(phase: Phase): Option<Outcome> {
    match phase
    case WritingBack(value, at) => Some(Success(value, Loaded(at)))
    case Releasing(result) => Some(result)
    case Done(outcome) => Some(outcome)
    case _ => None
  }

  /** The value was live under the key at step `at`, or the flight's loader returned it at step `at`. */
  predicate Witnessed(ws: seq<World>, acts: seq<Action>, n: nat, f: Option<FlightId>, key: string, born: nat, value: string, source: Source)
    requires n <= |acts| < |ws|
  {
    match source
    case Cached(at) => born <= at < n && Lookup(ws[at].store, ws[at].now, key) == Some(value)
    case Loaded(at) => born <= at < n && f.Some? && acts[at] == FlightMove(f.value, LoaderOk(value))
  }

  predicate FlightWitnessed(ws: seq<World>, acts: seq<Action>, n: nat, f: FlightId)
    requires n <= |acts| < |ws| && f in ws[n].flights
  {
    var flight := ws[n].flights[f];
    && flight.born <= n
    && match ResultOf(flight.phase)
       case Some(Success(value, source)) => Witnessed(ws, acts, n, Some(f), flight.key, flight.born, value, source)
       case _ => true
  }

  ghost predicate HasJoined(acts: seq<Action>, n: nat, c: CallId, f: FlightId)
    requires n <= |acts|
  {
    exists j :: 0 <= j < n && acts[j] == CallTurn(c, Join(f))
  }

  ghost predicate CallWitnessed(ws: seq<World>, acts: seq<Action>, n: nat, c: CallId)
    requires n <= |acts| < |ws| && c in ws[n].calls
  {
    var call := ws[n].calls[c];
    && call.born <= n
    && match call.phase
       case Joined(f) => HasJoined(acts, n, c, f)
       case Returned(outcome, Some(f)) =>
         && HasJoined(acts, n, c, f) && f in ws[n].flights && ws[n].flights[f].phase == Done(outcome)
         && ws[n].flights[f].key == call.key
       case Returned(Success(value, source), None) => Witnessed(ws, acts, n, None, call.key, call.born, value, source)
       case _ => true
  }

  ghost predicate AllWitnessed(ws: seq<World>, acts: seq<Action>, n: nat)
    requires n <= |acts| < |ws|
  {
    && ws[n].step == n
    && (forall f | f in ws[n].flights :: FlightWitnessed(ws, acts, n, f))
    && (forall c | c in ws[n].calls :: CallWitnessed(ws, acts, n, c))
  }

  // ----- One step -----

  /** A flight's result is kept, dropped for a failure, read just now, or loaded just now. */
  lemma ResultAfterMove(w: World, flight: Flight, move: Move)
    requires Permits(w.issued, flight, move)
    ensures
      var r := ResultOf(Act(w, flight, move).flight.phase);
      || r == ResultOf(flight.phase) || r == Some(Failure) || r == None
      || (exists v :: r == Some(Success(v, Cached(w.step))) && Lookup(w.store, w.now, flight.key) == Some(v))
      || (move.LoaderOk? && r == Some(Success(move.value, Loaded(w.step))))
  {
    var found := Lookup(w.store, w.now, flight.key);
    if (move.SecondGet? || move.Poll?) && found.Some? {
      assert ResultOf(Act(w, flight, move).flight.phase) == Some(Success(found.value, Cached(w.step)));
    }
  }

  lemma MoveWitnessed(ws: seq<World>, acts: seq<Action>, n: nat, f: FlightId, move: Move)
    requires IsRun(ws, acts) && n < |acts| && AllWitnessed(ws, acts, n)
    requires acts[n] == FlightMove(f, move)
    ensures f in ws[n + 1].flights && FlightWitnessed(ws, acts, n + 1, f)
  {
    var before := ws[n].flights[f];
    assert FlightWitnessed(ws, acts, n, f);
    ActKeepsIdentity(ws[n], before, move);
    ResultAfterMove(ws[n], before, move);
  }

  lemma FlightsWitnessed(ws: seq<World>, acts: seq<Action>, n: nat, f: FlightId)
    requires IsRun(ws, acts) && n < |acts| && AllWitnessed(ws, acts, n)
    requires f in ws[n + 1].flights
    ensures FlightWitnessed(ws, acts, n + 1, f)
  {
    if acts[n].FlightMove? && acts[n].f == f {
      MoveWitnessed(ws, acts, n, f, acts[n].move);
    } else if f in ws[n].flights {
      assert ws[n + 1].flights[f] == ws[n].flights[f];
      assert FlightWitnessed(ws, acts, n, f);
    }
  }

  lemma DoneIsFinal(w: World, a: Action, f: FlightId)
    requires Enabled(w, a) && f in w.flights && w.flights[f].phase.Done?
    requires SingleFlight(w)
    ensures f in Step(w, a).flights
    ensures Step(w, a).flights[f].phase == w.flights[f].phase && Step(w, a).flights[f].key == w.flights[f].key
  {
    if a.FlightMove? && a.f == f {
      ActKeepsIdentity(w, w.flights[f], a.move);
    }
  }

  lemma TurnWitnessed(ws: seq<World>, acts: seq<Action>, n: nat, c: CallId, turn: Turn)
    requires IsRun(ws, acts) && n < |acts| && AllWitnessed(ws, acts, n) && KeysKnown(ws[n])
    requires acts[n] == CallTurn(c, turn)
    ensures c in ws[n + 1].calls && CallWitnessed(ws, acts, n + 1, c)
  {
    assert CallWitnessed(ws, acts, n, c);
    assert ws[n + 1] == TurnCall(ws[n], c, turn);
    if turn.Join? {
      assert acts[n] == CallTurn(c, Join(turn.flight));
    } else if turn.Receive? {
      var f := ws[n].calls[c].phase.flight;
      assert ws[n + 1].flights == ws[n].flights;
    }
  }

  lemma CallsWitnessed(ws: seq<World>, acts: seq<Action>, n: nat, c: CallId)
    requires IsRun(ws, acts) && n < |acts| && AllWitnessed(ws, acts, n) && KeysKnown(ws[n]) && SingleFlight(ws[n])
    requires c in ws[n + 1].calls
    ensures CallWitnessed(ws, acts, n + 1, c)
  {
    if acts[n].CallTurn? && acts[n].c == c {
      TurnWitnessed(ws, acts, n, c, acts[n].turn);
    } else if c in ws[n].calls {
      assert ws[n + 1].calls[c] == ws[n].calls[c];
      assert CallWitnessed(ws, acts, n, c);
      if ws[n].calls[c].phase.Returned? && ws[n].calls[c].phase.via.Some? {
        DoneIsFinal(ws[n], acts[n], ws[n].calls[c].phase.via.value);
      }
    }
  }

  lemma AllFlightsWitnessed(ws: seq<World>, acts: seq<Action>, n: nat)
    requires IsRun(ws, acts) && 0 < n <= |acts| && AllWitnessed(ws, acts, n - 1)
    ensures forall f | f in ws[n].flights :: FlightWitnessed(ws, acts, n, f)
  {
    forall f | f in ws[n].flights
      ensures FlightWitnessed(ws, acts, n, f)
    {
      FlightsWitnessed(ws, acts, n - 1, f);
    }
  }

  lemma AllCallsWitnessed(ws: seq<World>, acts: seq<Action>, n: nat)
    requires IsRun(ws, acts) && 0 < n <= |acts| && AllWitnessed(ws, acts, n - 1)
    requires KeysKnown(ws[n - 1]) && SingleFlight(ws[n - 1])
    ensures forall c | c in ws[n].calls :: CallWitnessed(ws, acts, n, c)
  {
    forall c | c in ws[n].calls
      ensures CallWitnessed(ws, acts, n, c)
    {
      CallsWitnessed(ws, acts, n - 1, c);
    }
  }

  lemma StepsCounted(w: World, a: Action)
    requires Enabled(w, a)
    ensures Step(w, a).step == w.step + 1
  {
  }

  lemma {:induction false} RunWitnessed(ws: seq<World>, acts: seq<Action>, n: nat)
    requires IsRun(ws, acts) && n <= |acts|
    ensures AllWitnessed(ws, acts, n)
  {
    if n > 0 {
      RunWitnessed(ws, acts, n - 1);
      RunKeepsInv(ws, acts, n - 1);
      AllFlightsWitnessed(ws, acts, n);
      AllCallsWitnessed(ws, acts, n);
      StepsCounted(ws[n - 1], acts[n - 1]);
    }
  }

  // ----- Whole runs -----

  ghost predicate SeenIn(ws: seq<World>, lo: nat, hi: nat, key: string, value: string)
    requires hi <= |ws|
  {
    exists at :: lo <= at < hi && Lookup(ws[at].store, ws[at].now, key) == Some(value)
  }

  ghost predicate LoadedIn(acts: seq<Action>, lo: nat, hi: nat, f: FlightId, value: string)
    requires hi <= |acts|
  {
    exists at :: lo <= at < hi && acts[at] == FlightMove(f, LoaderOk(value))
  }

  /**
  Every value a call returns was live in the store under its key during the call, or was live
  during the flight the call had joined, or was loaded by that very flight.
  */
  lemma ReturnedValuesWitnessed(ws: seq<World>, acts: seq<Action>, n: nat, c: CallId, value: string, source: Source, via: Option<FlightId>)
    requires IsRun(ws, acts) && n <= |acts|
    requires c in ws[n].calls && ws[n].calls[c].phase == Returned(Success(value, source), via)
    ensures
      var call := ws[n].calls[c];
      match via
      case None => SeenIn(ws, call.born, n, call.key, value)
      case Some(f) =>
        && HasJoined(acts, n, c, f) && f in ws[n].flights && ws[n].flights[f].key == call.key
        && (|| SeenIn(ws, ws[n].flights[f].born, n, call.key, value)
            || LoadedIn(acts, ws[n].flights[f].born, n, f, value))
  {
    RunWitnessed(ws, acts, n);
    assert CallWitnessed(ws, acts, n, c);
    if via.Some? {
      assert FlightWitnessed(ws, acts, n, via.value);
    }
  }

  /** All calls that receive a flight's outcome receive the same one. */
  lemma SharedOutcome(ws: seq<World>, acts: seq<Action>, n: nat, c: CallId, d: CallId, f: FlightId)
    requires IsRun(ws, acts) && n <= |acts|
    requires c in ws[n].calls && ws[n].calls[c].phase.Returned? && ws[n].calls[c].phase.via == Some(f)
    requires d in ws[n].calls && ws[n].calls[d].phase.Returned? && ws[n].calls[d].phase.via == Some(f)
    ensures ws[n].calls[c].phase.outcome == ws[n].calls[d].phase.outcome
    ensures ws[n].calls[c].key == ws[n].calls[d].key
  {
    RunWitnessed(ws, acts, n);
    assert CallWitnessed(ws, acts, n, c) && CallWitnessed(ws, acts, n, d);
  }

  /** A flight changes a data entry only by writing back what its own loader returned. */
  lemma OnlyLoadedValuesWritten(ws: seq<World>, acts: seq<Action>, i: nat, f: FlightId, move: Move, key: string)
    requires IsRun(ws, acts) && i < |acts| && acts[i] == FlightMove(f, move)
    requires key in ws[i].cfg.keys && !SameEntry(ws[i].store, ws[i + 1].store, key)
    ensures move.WriteBack? && ws[i].flights[f].key == key && key in ws[i + 1].store
    ensures LoadedIn(acts, ws[i].flights[f].born, i, f, ws[i + 1].store[key].payload)
  {
    RunKeepsInv(ws, acts, i);
    RunWitnessed(ws, acts, i);
    assert FlightWitnessed(ws, acts, i, f);
    DataAfterMove(ws[i], ws[i].flights[f], move, key);
  }

  lemma DataAfterMove(w: World, flight: Flight, move: Move, key: string)
    requires Permits(w.issued, flight, move) && key != LockKey(flight.key)
    requires !SameEntry(w.store, Act(w, flight, move).store, key)
    ensures move.WriteBack? && flight.key == key
  {
  }

  /** The flight is past its loader and its write-back. */
  predicate Past(w: World, f: FlightId) {
    f in w.flights && (w.flights[f].phase.Releasing? || w.flights[f].phase.Done?)
  }

  lemma StepStaysPast(w: World, a: Action, f: FlightId)
    requires SingleFlight(w) && Enabled(w, a) && Past(w, f)
    ensures Past(Step(w, a), f)
  {
  }

  lemma {:induction false} PastIsFinal(ws: seq<World>, acts: seq<Action>, i: nat, j: nat, f: FlightId)
    requires IsRun(ws, acts) && i <= j <= |acts| && Past(ws[i], f)
    ensures Past(ws[j], f)
  {
    if i < j {
      PastIsFinal(ws, acts, i, j - 1, f);
      RunKeepsInv(ws, acts, j - 1);
      StepStaysPast(ws[j - 1], acts[j - 1], f);
    }
  }

  /** A flight whose load fails or gives nil never writes the cache, before or after; nor does it load again. */
  lemma FailedLoadNeverWrites(ws: seq<World>, acts: seq<Action>, i: nat, j: nat, f: FlightId, lease: Lease)
    requires IsRun(ws, acts) && i < |acts| && j < |acts|
    requires acts[i] == FlightMove(f, LoaderFail)
    ensures acts[j] != FlightMove(f, WriteBack(lease))
    ensures i != j ==> acts[j] != FlightMove(f, LoaderFail)
  {
    assert ws[i + 1] == Step(ws[i], acts[i]) && ws[j + 1] == Step(ws[j], acts[j]);
    if i < j {
      PastIsFinal(ws, acts, i + 1, j, f);
    } else if j < i && acts[j].FlightMove? && acts[j].f == f && (acts[j].move.WriteBack? || acts[j].move.LoaderFail?) {
      PastIsFinal(ws, acts, j + 1, i, f);
    }
  }
}
