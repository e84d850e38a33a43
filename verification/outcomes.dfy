/** What callers get from `GetOrSetWithLock`, over whole runs: the loaded value, the cached value, or a failure that has a cause. */
module Outcomes {
  import opened Wrappers
  import opened Expiry
  import opened Keyspace
  import opened Protocol
  import opened Exclusion
  import opened Provenance

  // ----- Results stay -----

  lemma StepKeepsResult(w: World, a: Action, f: FlightId)
    requires Enabled(w, a) && SingleFlight(w) && f in w.flights && ResultOf(w.flights[f].phase).Some?
    ensures f in Step(w, a).flights && ResultOf(Step(w, a).flights[f].phase) == ResultOf(w.flights[f].phase)
    ensures w.flights[f].phase.Done? ==> Step(w, a).flights[f].phase.Done?
  {
  }

  /** Once a flight has a result it keeps it, through write-back and release, to its end. */
  lemma {:induction false} ResultStays(ws: seq<World>, acts: seq<Action>, i: nat, n: nat, f: FlightId)
    requires IsRun(ws, acts) && i <= n <= |acts| && f in ws[i].flights && ResultOf(ws[i].flights[f].phase).Some?
    ensures f in ws[n].flights && ResultOf(ws[n].flights[f].phase) == ResultOf(ws[i].flights[f].phase)
    ensures ws[i].flights[f].phase.Done? ==> ws[n].flights[f].phase.Done?
  {
    if i < n {
      ResultStays(ws, acts, i, n - 1, f);
      RunKeepsInv(ws, acts, n - 1);
      StepKeepsResult(ws[n - 1], acts[n - 1], f);
    }
  }

  /** The flight's outcome when it is done, and what every call has that received from it, is this value. */
  ghost predicate Delivers(w: World, f: FlightId, value: string, source: Source) {
    && f in w.flights
    && (w.flights[f].phase.Done? ==> w.flights[f].phase.outcome == Success(value, source))
    && (forall c | c in w.calls && w.calls[c].phase.Returned? && w.calls[c].phase.via == Some(f) ::
          w.calls[c].phase.outcome == Success(value, source))
  }

  lemma ResultIsDelivered(ws: seq<World>, acts: seq<Action>, n: nat, f: FlightId, value: string, source: Source)
    requires IsRun(ws, acts) && n <= |acts|
    requires f in ws[n].flights && ResultOf(ws[n].flights[f].phase) == Some(Success(value, source))
    ensures Delivers(ws[n], f, value, source)
  {
    RunWitnessed(ws, acts, n);
    forall c | c in ws[n].calls && ws[n].calls[c].phase.Returned? && ws[n].calls[c].phase.via == Some(f)
      ensures ws[n].calls[c].phase.outcome == Success(value, source)
    {
      assert CallWitnessed(ws, acts, n, c);
    }
  }

  // ----- Successes -----

  /** A value that the loader returns is what the flight and all its calls get, write-back or not, however the release goes. */
  lemma LoadDelivered(ws: seq<World>, acts: seq<Action>, i: nat, n: nat, f: FlightId, value: string)
    requires IsRun(ws, acts) && i < n <= |acts| && acts[i] == FlightMove(f, LoaderOk(value))
    ensures Delivers(ws[n], f, value, Loaded(i))
  {
    RunWitnessed(ws, acts, i);
    assert ws[i + 1] == Step(ws[i], acts[i]);
    ResultStays(ws, acts, i + 1, n, f);
    ResultIsDelivered(ws, acts, n, f, value, Loaded(i));
  }

  /** A value that is live when the flight reads again is what the flight and all its calls get. */
  lemma SecondGetDelivered(ws: seq<World>, acts: seq<Action>, i: nat, n: nat, f: FlightId, value: string)
    requires IsRun(ws, acts) && i < n <= |acts| && acts[i] == FlightMove(f, SecondGet)
    requires f in ws[i].flights && Lookup(ws[i].store, ws[i].now, ws[i].flights[f].key) == Some(value)
    ensures Delivers(ws[n], f, value, Cached(i))
  {
    RunWitnessed(ws, acts, i);
    assert ws[i + 1] == Step(ws[i], acts[i]);
    ResultStays(ws, acts, i + 1, n, f);
    ResultIsDelivered(ws, acts, n, f, value, Cached(i));
  }

  /** A value that is live when a waiting flight polls ends the wait, and the flight and all its calls get it. */
  lemma PollDelivered(ws: seq<World>, acts: seq<Action>, i: nat, n: nat, f: FlightId, value: string)
    requires IsRun(ws, acts) && i < n <= |acts| && acts[i] == FlightMove(f, Poll)
    requires f in ws[i].flights && Lookup(ws[i].store, ws[i].now, ws[i].flights[f].key) == Some(value)
    ensures Delivers(ws[n], f, value, Cached(i)) && ws[n].flights[f].phase.Done?
  {
    RunWitnessed(ws, acts, i);
    assert ws[i + 1] == Step(ws[i], acts[i]);
    ResultStays(ws, acts, i + 1, n, f);
    ResultIsDelivered(ws, acts, n, f, value, Cached(i));
  }

  lemma StepKeepsReturned(w: World, a: Action, c: CallId)
    requires Enabled(w, a) && c in w.calls && w.calls[c].phase.Returned?
    ensures c in Step(w, a).calls && Step(w, a).calls[c] == w.calls[c]
  {
  }

  lemma {:induction false} ReturnedStays(ws: seq<World>, acts: seq<Action>, i: nat, n: nat, c: CallId)
    requires IsRun(ws, acts) && i <= n <= |acts| && c in ws[i].calls && ws[i].calls[c].phase.Returned?
    ensures c in ws[n].calls && ws[n].calls[c] == ws[i].calls[c]
  {
    if i < n {
      ReturnedStays(ws, acts, i, n - 1, c);
      StepKeepsReturned(ws[n - 1], acts[n - 1], c);
    }
  }

  /** A call whose first read meets a live value returns it, with no flight; one that meets none goes on. */
  lemma FirstGetDelivered(ws: seq<World>, acts: seq<Action>, i: nat, n: nat, c: CallId)
    requires IsRun(ws, acts) && i < n <= |acts| && acts[i] == CallTurn(c, FirstGet)
    ensures c in ws[i].calls
    ensures
      match Lookup(ws[i].store, ws[i].now, ws[i].calls[c].key)
      case Some(value) => c in ws[n].calls && ws[n].calls[c].phase == Returned(Success(value, Cached(i)), None)
      case None => c in ws[i + 1].calls && ws[i + 1].calls[c].phase == Missed
  {
    RunWitnessed(ws, acts, i);
    assert ws[i + 1] == Step(ws[i], acts[i]);
    if ws[i + 1].calls[c].phase.Returned? {
      ReturnedStays(ws, acts, i + 1, n, c);
    }
  }

  // ----- Failures have causes -----

  /** The moves after which a flight fails. */
  predicate Fails(move: Move) {
    move.AcquireError? || move.AcquireReplyLost? || move.SecondGetAbort? || move.LoaderFail? || move.PollGiveUp?
  }

  lemma FailureIsMade(w: World, flight: Flight, move: Move)
    requires Permits(w.issued, flight, move)
    ensures ResultOf(Act(w, flight, move).flight.phase) == Some(Failure) <==>
      Fails(move) || ResultOf(flight.phase) == Some(Failure)
  {
  }

  ghost predicate FailedIn(acts: seq<Action>, n: nat, f: FlightId)
    requires n <= |acts|
  {
    exists j, move :: 0 <= j < n && acts[j] == FlightMove(f, move) && Fails(move)
  }

  /** A flight has failed exactly when its acquire, its loader, its wait or an aborted read has. */
  lemma {:induction false} FailureExactly(ws: seq<World>, acts: seq<Action>, n: nat, f: FlightId)
    requires IsRun(ws, acts) && n <= |acts| && f in ws[n].flights
    ensures ResultOf(ws[n].flights[f].phase) == Some(Failure) <==> FailedIn(acts, n, f)
  {
    if n > 0 {
      var w, a := ws[n - 1], acts[n - 1];
      if f in w.flights {
        FailureExactly(ws, acts, n - 1, f);
        if a.FlightMove? && a.f == f {
          FailureIsMade(w, w.flights[f], a.move);
        } else {
          assert ws[n].flights[f] == w.flights[f];
        }
        FailedGrows(acts, n, f);
      } else {
        NotBefore(ws, acts, n, f);
      }
    }
  }

  lemma FailedGrows(acts: seq<Action>, n: nat, f: FlightId)
    requires 0 < n <= |acts|
    ensures FailedIn(acts, n, f) <==>
      FailedIn(acts, n - 1, f) || (acts[n - 1].FlightMove? && acts[n - 1].f == f && Fails(acts[n - 1].move))
  {
    if acts[n - 1].FlightMove? && acts[n - 1].f == f && Fails(acts[n - 1].move) {
      assert acts[n - 1] == FlightMove(f, acts[n - 1].move);
    }
  }

  lemma {:induction false} FlightsStay(ws: seq<World>, acts: seq<Action>, i: nat, n: nat, f: FlightId)
    requires IsRun(ws, acts) && i <= n <= |acts| && f in ws[i].flights
    ensures f in ws[n].flights
  {
    if i < n {
      FlightsStay(ws, acts, i, n - 1, f);
      StepKeepsFlights(ws[n - 1], acts[n - 1], f);
    }
  }

  lemma StepKeepsFlights(w: World, a: Action, f: FlightId)
    requires Enabled(w, a) && f in w.flights
    ensures f in Step(w, a).flights
  {
  }

  lemma NotBefore(ws: seq<World>, acts: seq<Action>, n: nat, f: FlightId)
    requires IsRun(ws, acts) && 0 < n <= |acts| && f !in ws[n - 1].flights && f in ws[n].flights
    ensures !FailedIn(acts, n, f) && ResultOf(ws[n].flights[f].phase).None?
  {
    assert ws[n] == Step(ws[n - 1], acts[n - 1]);
    forall j, move | 0 <= j < n && acts[j] == FlightMove(f, move)
      ensures false
    {
      assert Enabled(ws[j], acts[j]) && f in ws[j].flights;
      FlightsStay(ws, acts, j, n - 1, f);
    }
  }

  /** A call that returns a failure received it from a flight that failed, or its own first read failed, or it was given up. */
  ghost predicate GaveUp(acts: seq<Action>, n: nat, c: CallId)
    requires n <= |acts|
  {
    exists j :: 0 <= j < n && (acts[j] == CallTurn(c, FirstGetError) || acts[j] == CallTurn(c, Abandon))
  }

  lemma GaveUpGrows(acts: seq<Action>, n: nat, c: CallId)
    requires 0 < n <= |acts| && GaveUp(acts, n - 1, c)
    ensures GaveUp(acts, n, c)
  {
  }

  lemma {:induction false} CallFailureHasCause(ws: seq<World>, acts: seq<Action>, n: nat, c: CallId)
    requires IsRun(ws, acts) && n <= |acts| && c in ws[n].calls && ws[n].calls[c].phase.Returned?
    requires ws[n].calls[c].phase.outcome == Failure
    ensures
      match ws[n].calls[c].phase.via
      case Some(f) => FailedIn(acts, n, f)
      case None => GaveUp(acts, n, c)
  {
    RunWitnessed(ws, acts, n);
    assert CallWitnessed(ws, acts, n, c);
    if ws[n].calls[c].phase.via.Some? {
      FailureExactly(ws, acts, n, ws[n].calls[c].phase.via.value);
    } else {
      var w, a := ws[n - 1], acts[n - 1];
      assert ws[n] == Step(w, a);
      if a.CallTurn? && a.c == c {
        assert a == CallTurn(c, FirstGetError) || a == CallTurn(c, Abandon);
      } else {
        assert c in w.calls && w.calls[c] == ws[n].calls[c];
        CallFailureHasCause(ws, acts, n - 1, c);
        GaveUpGrows(acts, n, c);
      }
    }
  }

  // ----- Write-back and loading -----

  /** What a flight writes back is the value its loader returned, readable for as long as its expiration says. */
  lemma WriteBackServes(ws: seq<World>, acts: seq<Action>, i: nat, f: FlightId, lease: Lease, t: int)
    requires IsRun(ws, acts) && i < |acts| && acts[i] == FlightMove(f, WriteBack(lease)) && ws[i].now <= t
    ensures f in ws[i].flights && ws[i].flights[f].phase.WritingBack?
    ensures
      var value := ws[i].flights[f].phase.value;
      && LoadedIn(acts, ws[i].flights[f].born, i, f, value)
      && Lookup(ws[i + 1].store, t, ws[i].flights[f].key)
         == if lease.Forever? || t <= ws[i].now + lease.duration then Some(value) else None
  {
    RunWitnessed(ws, acts, i);
    assert Enabled(ws[i], acts[i]) && ws[i + 1] == Step(ws[i], acts[i]);
    assert FlightWitnessed(ws, acts, i, f);
  }

  /** Whoever asks for a lock gets it exactly when nobody has it; otherwise it waits. */
  lemma AcquireExactly(ws: seq<World>, acts: seq<Action>, i: nat, f: FlightId, token: string)
    requires IsRun(ws, acts) && i < |acts| && acts[i] == FlightMove(f, Acquire(token))
    ensures f in ws[i].flights && f in ws[i + 1].flights
    ensures
      if Live(ws[i].store, ws[i].now, LockKey(ws[i].flights[f].key))
      then ws[i + 1].flights[f].phase == Polling && ws[i + 1].store == ws[i].store
      else ws[i + 1].flights[f].phase == Held && Owns(ws[i + 1], ws[i + 1].flights[f]) && ws[i + 1].flights[f].token == token
  {
    RunKeepsInv(ws, acts, i);
    assert Enabled(ws[i], acts[i]) && ws[i + 1] == Step(ws[i], acts[i]);
  }

  predicate Beating(phase: Phase, beat: Beat) {
    phase.Loading? || phase.WritingBack? ==> !beat.NoBeat?
  }

  lemma StepKeepsBeating(w: World, a: Action)
    requires Enabled(w, a) && forall f | f in w.flights :: Beating(w.flights[f].phase, w.flights[f].beat)
    ensures forall f | f in Step(w, a).flights :: Beating(Step(w, a).flights[f].phase, Step(w, a).flights[f].beat)
  {
  }

  /** No loader runs without a heartbeat having been started beside it. */
  lemma {:induction false} LoaderHasHeartbeat(ws: seq<World>, acts: seq<Action>, n: nat)
    requires IsRun(ws, acts) && n <= |acts|
    ensures forall f | f in ws[n].flights :: Beating(ws[n].flights[f].phase, ws[n].flights[f].beat)
  {
    if n > 0 {
      LoaderHasHeartbeat(ws, acts, n - 1);
      StepKeepsBeating(ws[n - 1], acts[n - 1]);
    }
  }

  // ----- Nothing gets stuck -----

  /** Every unfinished flight has a next move, and that move takes it on. */
  lemma FlightGoesOn(w: World, f: FlightId, token: string, value: string, lease: Lease)
    requires f in w.flights && token !in w.issued && lease != For(0)
    ensures
      match w.flights[f].phase
      case Starting => Enabled(w, FlightMove(f, Acquire(token)))
      case Held => Enabled(w, FlightMove(f, SecondGet))
      case Checked => Enabled(w, FlightMove(f, StartLoader)) && Step(w, FlightMove(f, StartLoader)).flights[f].phase.Loading?
      case Loading => Enabled(w, FlightMove(f, LoaderOk(value))) && Enabled(w, FlightMove(f, LoaderFail))
      case WritingBack(_, _) => Enabled(w, FlightMove(f, WriteBack(lease)))
      case Releasing(_) => Enabled(w, FlightMove(f, Release)) && Step(w, FlightMove(f, Release)).flights[f].phase.Done?
      case Polling => Enabled(w, FlightMove(f, Poll)) && Enabled(w, FlightMove(f, PollGiveUp))
      case Done(_) => true
  {
  }

  /** A call that missed can join the flight of its process for the key; one that joined a finished flight can receive. */
  lemma CallGoesOn(ws: seq<World>, acts: seq<Action>, n: nat, c: CallId, unused: FlightId)
    requires IsRun(ws, acts) && n <= |acts| && c in ws[n].calls && unused !in ws[n].flights
    ensures
      match ws[n].calls[c].phase
      case Fresh => Enabled(ws[n], CallTurn(c, FirstGet))
      case Missed =>
        var slot := (ws[n].calls[c].proc, ws[n].calls[c].key);
        var f := if slot in ws[n].active then ws[n].active[slot] else unused;
        && Enabled(ws[n], CallTurn(c, Join(f))) && f in Step(ws[n], CallTurn(c, Join(f))).flights
        && !Step(ws[n], CallTurn(c, Join(f))).flights[f].phase.Done?
      case Joined(f) =>
        f in ws[n].flights && (ws[n].flights[f].phase.Done? ==> Enabled(ws[n], CallTurn(c, Receive)))
      case Returned(_, _) => true
  {
    RunKeepsInv(ws, acts, n);
  }

  /** What the world around the flights can do to a key, as a reader sees it at instant `t` after the step. */
  lemma EnvironmentActs(w: World, a: Action, key: string, t: int)
    requires Enabled(w, a) && External(a) && w.now <= t
    ensures
      var w' := Step(w, a);
      match a
      case Advance(d) => w'.now == w.now + d && w'.store == w.store
      case ExternalSet(k, value, lease) =>
        && w'.now == w.now
        && (k == key ==> Lookup(w'.store, t, key) == if lease.Forever? || t <= w.now + lease.duration then Some(value) else None)
        && (k != key ==> Lookup(w'.store, t, key) == Lookup(w.store, t, key))
      case ExternalDelete(k) =>
        w'.now == w.now && Lookup(w'.store, t, key) == if k == key then None else Lookup(w.store, t, key)
      case Wipe => w'.now == w.now && Lookup(w'.store, t, key).None? && w'.epoch > w.epoch
      case Begin(c, proc, k) =>
        && w'.store == w.store && w'.now == w.now
        && c in w'.calls && w'.calls[c].proc == proc && w'.calls[c].key == k && w'.calls[c].phase.Fresh?
  {
  }
}
