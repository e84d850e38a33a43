/**
The single-loader protocol of `GetOrSetWithLock` as a step machine.

Any number of processes serve any number of calls.  A call reads the cache and, on a miss,
joins the one flight its process runs for that key (singleflight).  A flight acquires the
leased lock, reads the cache again, runs the loader while a heartbeat renews the lease, writes
the value back and releases the lock; a flight that finds the lock taken polls the cache.
Every remote command is one atomic step of the server; anything may happen between two steps.
A crashed process is one that takes no further step.
*/
module Protocol {
  import opened Wrappers
  import opened Expiry
  import opened Keyspace

  type Proc = nat
  type FlightId = nat
  type CallId = nat

  /** Where a result came from, with the number of the step that obtained it. */
  datatype Source = Cached(at: nat) | Loaded(at: nat)

  datatype Outcome = Success(value: string, source: Source) | Failure

  datatype Phase =
    | Starting
    | Held                            // lock acquired, cache not yet read again
    | Checked                         // second read missed or errored, loader not yet started
    | Loading
    | WritingBack(value: string, loadedAt: nat)
    | Releasing(result: Outcome)      // the deferred release is still to run
    | Polling                         // another flight holds the lock
    | Done(outcome: Outcome)

  /** The heartbeat goroutine.  Cancelling it is only a request: an extension may still be under way. */
  datatype Beat = NoBeat | Waiting | Sending | Stopped

  datatype Flight = Flight(
    proc: Proc, key: string, born: nat, token: string, phase: Phase, beat: Beat,
    lease: Deadline,  // end of the lease last granted to this flight
    epoch: nat)       // number of wipes of the keyspace before that grant

  datatype CallPhase = Fresh | Missed | Joined(flight: FlightId)
    | Returned(outcome: Outcome, via: Option<FlightId>)  // via: the flight that delivered it

  datatype Call = Call(proc: Proc, key: string, born: nat, phase: CallPhase)

  /** What a backend does with lock durations: the lease of a grant and of an extension. */
  datatype Config = Config(keys: set<string>, acquire: Lease, extend: Lease)

  datatype World = World(
    cfg: Config, now: int, store: Table<string>,
    flights: map<FlightId, Flight>, active: map<(Proc, string), FlightId>, calls: map<CallId, Call>,
    issued: set<string>,  // every token drawn so far
    epoch: nat, step: nat)

  /** What one flight may do next: its own goroutine, or its heartbeat. */
  datatype Move =
    | Acquire(token: string)
    | AcquireReplyLost(token: string)
    | AcquireError
    | AcquireErrorAsTaken(token: string, landed: bool)  // SurrealDB: any error counts as a taken lock
    | SecondGet
    | SecondGetError
    | SecondGetAbort                   // Valkey: an error other than a miss ends the call
    | StartLoader
    | LoaderOk(value: string)
    | LoaderFail                       // an error or a nil result
    | WriteBack(lease: Lease)
    | WriteBackError
    | Release
    | ReleaseError
    | Poll
    | PollGiveUp
    | BeatSend
    | BeatLand
    | BeatError
    | BeatStop

  datatype Turn =
    | FirstGet
    | FirstGetError
    | FirstGetErrorAsMiss             // SurrealDB: any error counts as a miss
    | Join(flight: FlightId)
    | Receive
    | Abandon

  datatype Action =
    | Advance(d: nat)
    | ExternalSet(key: string, value: string, lease: Lease)
    | ExternalDelete(key: string)
    | Wipe
    | Begin(c: CallId, proc: Proc, key: string)
    | CallTurn(c: CallId, turn: Turn)
    | FlightMove(f: FlightId, move: Move)

  /** The flight stands between a successful acquire and the end of its release. */
  predicate InSection(phase: Phase) {
    phase.Held? || phase.Checked? || phase.Loading? || phase.WritingBack? || phase.Releasing?
  }

  predicate Permits(issued: set<string>, flight: Flight, move: Move) {
    match move
    case Acquire(token) => flight.phase.Starting? && token !in issued
    case AcquireReplyLost(token) => flight.phase.Starting? && token !in issued
    case AcquireError => flight.phase.Starting?
    case AcquireErrorAsTaken(token, _) => flight.phase.Starting? && token !in issued
    case SecondGet => flight.phase.Held?
    case SecondGetError => flight.phase.Held?
    case SecondGetAbort => flight.phase.Held?
    case StartLoader => flight.phase.Checked?
    case LoaderOk(_) => flight.phase.Loading?
    case LoaderFail => flight.phase.Loading?
    case WriteBack(lease) => flight.phase.WritingBack? && lease != For(0)
    case WriteBackError => flight.phase.WritingBack?
    case Release => flight.phase.Releasing?
    case ReleaseError => flight.phase.Releasing?
    case Poll => flight.phase.Polling?
    case PollGiveUp => flight.phase.Polling?
    case BeatSend => flight.beat.Waiting?
    case BeatLand => flight.beat.Sending?
    case BeatError => flight.beat.Sending?
    case BeatStop => flight.beat.Waiting?
  }

  predicate Allows(w: World, call: Call, turn: Turn) {
    match turn
    case FirstGet => call.phase.Fresh?
    case FirstGetError => call.phase.Fresh?
    case FirstGetErrorAsMiss => call.phase.Fresh?
    case Join(f) =>
      && call.phase.Missed?
      && (if (call.proc, call.key) in w.active then f == w.active[(call.proc, call.key)] else f !in w.flights)
    case Receive =>
      call.phase.Joined? && call.phase.flight in w.flights && w.flights[call.phase.flight].phase.Done?
    case Abandon => call.phase.Joined?
  }

  predicate Enabled(w: World, a: Action) {
    match a
    case Advance(_) => true
    case ExternalSet(key, _, lease) => key in w.cfg.keys && lease != For(0)
    case ExternalDelete(key) => key in w.cfg.keys
    case Wipe => true
    case Begin(c, _, key) => c !in w.calls && key in w.cfg.keys
    case CallTurn(c, turn) => c in w.calls && Allows(w, w.calls[c], turn)
    case FlightMove(f, move) => f in w.flights && Permits(w.issued, w.flights[f], move)
  }

  /** The new state of the moving flight, and what its command did to the server. */
  datatype Effect = Effect(flight: Flight, store: Table<string>, issued: set<string>)

  function SetEntry(w: World, key: string, value: string, lease: Lease): Table<string> {
    w.store[key := Entry(value, LeaseEnd(lease, w.now))]
  }

  /** The result of a cache read as a finished outcome, or the phase to go on with after a miss. */
  function AfterRead(w: World, flight: Flight, hit: Outcome -> Phase, miss: Phase): Phase {
    match Lookup(w.store, w.now, flight.key)
    case Some(value) => hit(Success(value, Cached(w.step)))
    case None => miss
  }

  /** A failed write-back is only logged: the caller gets the loaded value all the same. */
  function AfterWriteBack(flight: Flight): Flight
    requires flight.phase.WritingBack?
  {
    flight.(phase := Releasing(Success(flight.phase.value, Loaded(flight.phase.loadedAt))))
  }

  function Act(w: World, flight: Flight, move: Move): Effect
    requires Permits(w.issued, flight, move)
  {
    var lock := LockKey(flight.key);
    match move
    case Acquire(token) =>
      var (store, ok) := SetNX(w.store, w.now, lock, token, w.cfg.acquire);
      var granted := flight.(token := token, phase := Held, lease := LeaseEnd(w.cfg.acquire, w.now), epoch := w.epoch);
      Effect(if ok then granted else flight.(phase := Polling), store, w.issued + {token})
    case AcquireReplyLost(token) =>
      var (store, _) := SetNX(w.store, w.now, lock, token, w.cfg.acquire);
      Effect(flight.(phase := Done(Failure)), store, w.issued + {token})
    case AcquireError => Effect(flight.(phase := Done(Failure)), w.store, w.issued)
    case AcquireErrorAsTaken(token, landed) =>
      var (store, _) := SetNX(w.store, w.now, lock, token, w.cfg.acquire);
      Effect(flight.(phase := Polling), if landed then store else w.store, w.issued + {token})
    case SecondGet =>
      Effect(flight.(phase := AfterRead(w, flight, o => Releasing(o), Checked)), w.store, w.issued)
    case SecondGetError => Effect(flight.(phase := Checked), w.store, w.issued)
    case SecondGetAbort => Effect(flight.(phase := Releasing(Failure)), w.store, w.issued)
    case StartLoader => Effect(flight.(phase := Loading, beat := Waiting), w.store, w.issued)
    case LoaderOk(value) => Effect(flight.(phase := WritingBack(value, w.step)), w.store, w.issued)
    case LoaderFail => Effect(flight.(phase := Releasing(Failure)), w.store, w.issued)
    case WriteBack(lease) =>
      Effect(AfterWriteBack(flight), SetEntry(w, flight.key, flight.phase.value, lease), w.issued)
    case WriteBackError => Effect(AfterWriteBack(flight), w.store, w.issued)
    case Release =>
      Effect(flight.(phase := Done(flight.phase.result)), ReleaseScript(w.store, w.now, lock, flight.token), w.issued)
    case ReleaseError => Effect(flight.(phase := Done(flight.phase.result)), w.store, w.issued)
    case Poll => Effect(flight.(phase := AfterRead(w, flight, o => Done(o), Polling)), w.store, w.issued)
    case PollGiveUp => Effect(flight.(phase := Done(Failure)), w.store, w.issued)
    case BeatSend => Effect(flight.(beat := Sending), w.store, w.issued)
    case BeatLand =>
      var (store, ok) := ExtendScript(w.store, w.now, lock, flight.token, w.cfg.extend);
      var extended := flight.(beat := Waiting, lease := LeaseEnd(w.cfg.extend, w.now), epoch := w.epoch);
      Effect(if ok then extended else flight.(beat := Stopped), store, w.issued)
    case BeatError => Effect(flight.(beat := Stopped), w.store, w.issued)
    case BeatStop => Effect(flight.(beat := Stopped), w.store, w.issued)
  }

  /** When a flight's function returns, singleflight forgets the flight. */
  function Install(w: World, f: FlightId, e: Effect): World
    requires f in w.flights
  {
    var before := w.flights[f];
    w.(flights := w.flights[f := e.flight], store := e.store, issued := e.issued,
       active := if e.flight.phase.Done? && !before.phase.Done? then w.active - {(before.proc, before.key)} else w.active,
       step := w.step + 1)
  }

  function MoveFlight(w: World, f: FlightId, move: Move): World
    requires f in w.flights && Permits(w.issued, w.flights[f], move)
  {
    Install(w, f, Act(w, w.flights[f], move))
  }

  function NewFlight(w: World, call: Call): Flight {
    Flight(call.proc, call.key, w.step, "", Starting, NoBeat, At(w.now - 1), w.epoch)
  }

  function JoinFlight(w: World, call: Call, f: FlightId): World {
    if (call.proc, call.key) in w.active then w
    else w.(flights := w.flights[f := NewFlight(w, call)], active := w.active[(call.proc, call.key) := f])
  }

  function AfterTurn(w: World, call: Call, turn: Turn): CallPhase
    requires Allows(w, call, turn)
  {
    match turn
    case FirstGet =>
      (match Lookup(w.store, w.now, call.key)
       case Some(value) => Returned(Success(value, Cached(w.step)), None)
       case None => Missed)
    case FirstGetError => Returned(Failure, None)
    case FirstGetErrorAsMiss => Missed
    case Join(f) => Joined(f)
    case Receive => Returned(w.flights[call.phase.flight].phase.outcome, Some(call.phase.flight))
    case Abandon => Returned(Failure, None)
  }

  function TurnCall(w: World, c: CallId, turn: Turn): World
    requires c in w.calls && Allows(w, w.calls[c], turn)
  {
    var call := w.calls[c];
    var w' := if turn.Join? then JoinFlight(w, call, turn.flight) else w;
    w'.(calls := w.calls[c := call.(phase := AfterTurn(w, call, turn))], step := w.step + 1)
  }

  function Step(w: World, a: Action): World
    requires Enabled(w, a)
  {
    var n := w.step + 1;
    match a
    case Advance(d) => w.(now := w.now + d, step := n)
    case ExternalSet(key, value, lease) => w.(store := SetEntry(w, key, value, lease), step := n)
    case ExternalDelete(key) => w.(store := w.store - {key}, step := n)
    case Wipe => w.(store := map[], epoch := w.epoch + 1, step := n)
    case Begin(c, proc, key) => w.(calls := w.calls[c := Call(proc, key, w.step, Fresh)], step := n)
    case CallTurn(c, turn) => TurnCall(w, c, turn)
    case FlightMove(f, move) => MoveFlight(w, f, move)
  }

  /** Nothing is under way; the store may hold any data and any locks of earlier owners. */
  predicate Init(w: World) {
    && w.flights == map[] && w.active == map[] && w.calls == map[]
    && w.issued == {""} && w.step == 0
    && NoCollision(w.cfg.keys) && w.cfg.acquire != For(0)
  }

  ghost predicate IsRun(ws: seq<World>, acts: seq<Action>) {
    && |ws| == |acts| + 1
    && Init(ws[0])
    && forall i | 0 <= i < |acts| :: Enabled(ws[i], acts[i]) && ws[i + 1] == Step(ws[i], acts[i])
  }

  function Last(ws: seq<World>): World
    requires |ws| > 0
  {
    ws[|ws| - 1]
  }
}
