/**
Concurrent GetOrSet calls on the in-memory cache.  Singleflight is the only lock: a caller that
misses joins the flight of its key, or starts one.  A Get is one atomic step, or it misses a key that
is there, as Memory.MissCanBeFalse shows it can.  Callers may join without having missed themselves.
*/
module MemoryFlights {
  import opened Wrappers
  import opened Expiry
  import opened Keys
  import opened Memory

  datatype Phase<+V> = Fresh | Missed | Loading | Loaded(value: V) | Stored(value: V)

  datatype Flight<+V> = Flight(number: nat, phase: Phase<V>)

  datatype World<+V> = World(
    store: Store<V>,
    flights: map<string, Flight<V>>,      // the active flight of each key
    joined: map<nat, nat>,                // which flight a caller waits for
    outcomes: map<nat, Option<V>>,        // what the finished flights returned, nothing for an error
    next: nat)

  datatype Action<+V> =
    | Outside(c: Cmd<V>)                  // any other command of any goroutine, or a sweep, or time
    | Join(caller: nat, key: Key)
    | SecondGet(key: Key)
    | FalseMiss(key: Key)
    | StartLoader(key: Key)
    | LoaderFail(key: Key)
    | LoaderOk(key: Key, value: V)
    | StoreValue(key: Key, ttl: int)
    | Finish(key: Key)

  function PhaseOf<V>(w: World<V>, form: string): Option<Phase<V>> {
    if form in w.flights then Some(w.flights[form].phase) else None
  }

  predicate Enabled<V>(w: World<V>, a: Action<V>) {
    match a
    case Outside(c) => !c.GetOrSet?
    case Join(caller, key) => caller !in w.joined
    case SecondGet(key) => ToString(key) in w.flights && w.flights[ToString(key)].phase.Fresh?
    case FalseMiss(key) => ToString(key) in w.flights && w.flights[ToString(key)].phase.Fresh?
    case StartLoader(key) => ToString(key) in w.flights && w.flights[ToString(key)].phase.Missed?
    case LoaderFail(key) => ToString(key) in w.flights && w.flights[ToString(key)].phase.Loading?
    case LoaderOk(key, _) => ToString(key) in w.flights && w.flights[ToString(key)].phase.Loading?
    case StoreValue(key, _) => ToString(key) in w.flights && w.flights[ToString(key)].phase.Loaded?
    case Finish(key) => ToString(key) in w.flights && w.flights[ToString(key)].phase.Stored?
  }

  function Go<V>(w: World<V>, key: Key, phase: Phase<V>): World<V>
    requires ToString(key) in w.flights
  {
    w.(flights := w.flights[ToString(key) := w.flights[ToString(key)].(phase := phase)])
  }

  function End<V>(w: World<V>, key: Key, outcome: Option<V>): World<V>
    requires ToString(key) in w.flights
  {
    w.(flights := w.flights - {ToString(key)}, outcomes := w.outcomes[w.flights[ToString(key)].number := outcome])
  }

  function Step<V>(w: World<V>, a: Action<V>): World<V>
    requires Enabled(w, a)
  {
    match a
    case Outside(c) => w.(store := Exec(w.store, c).0)
    case Join(caller, key) =>
      if ToString(key) in w.flights then w.(joined := w.joined[caller := w.flights[ToString(key)].number])
      else w.(flights := w.flights[ToString(key) := Flight(w.next, Fresh)], joined := w.joined[caller := w.next], next := w.next + 1)
    case SecondGet(key) =>
      (match Read(w.store, key)
       case Some(v) => End(w, key, Some(v))
       case None => Go(w, key, Missed))
    case FalseMiss(key) => Go(w, key, Missed)
    case StartLoader(key) => Go(w, key, Loading)
    case LoaderFail(key) => End(w, key, None)
    case LoaderOk(key, value) => Go(w, key, Loaded(value))
    case StoreValue(key, ttl) =>
      var value := w.flights[ToString(key)].phase.value;
      Go(w.(store := Put(w.store, key, value, ttl)), key, Stored(value))
    case Finish(key) => End(w, key, Some(w.flights[ToString(key)].phase.value))
  }

  ghost predicate IsRun<V>(ws: seq<World<V>>, acts: seq<Action<V>>) {
    && |ws| == |acts| + 1
    && ws[0].flights == map[] && ws[0].joined == map[] && ws[0].outcomes == map[] && ws[0].next == 0
    && forall i | 0 <= i < |acts| :: Enabled(ws[i], acts[i]) && ws[i + 1] == Step(ws[i], acts[i])
  }

  // ----- How often the loader starts -----

  datatype Ledger = Ledger(starts: nat, vanished: nat, failed: nat, falseMisses: nat)

  predicate ValueLive<V>(w: World<V>, form: string) {
    Live(w.store.table, w.store.now, form)
  }

  function StepLedger<V>(w: World<V>, a: Action<V>, w': World<V>, form: string): Ledger {
    Ledger(
      One(a.StartLoader? && ToString(a.key) == form),
      One(ValueLive(w, form) && !ValueLive(w', form)),
      One(a.LoaderFail? && ToString(a.key) == form),
      One(a.FalseMiss? && ToString(a.key) == form))
  }

  function LedgerOf<V>(ws: seq<World<V>>, acts: seq<Action<V>>, n: nat, form: string): Ledger
    requires n <= |acts| < |ws|
  {
    if n == 0 then Ledger(0, 0, 0, 0)
    else
      var l := LedgerOf(ws, acts, n - 1, form);
      var s := StepLedger(ws[n - 1], acts[n - 1], ws[n], form);
      Ledger(l.starts + s.starts, l.vanished + s.vanished, l.failed + s.failed, l.falseMisses + s.falseMisses)
  }

  function Potential<V>(w: World<V>, form: string): int {
    var phase := PhaseOf(w, form);
    One(phase.Some? && phase.value.Missed? && ValueLive(w, form))
    - One(ValueLive(w, form) || (phase.Some? && (phase.value.Loading? || phase.value.Loaded?)))
  }

  lemma StepPays<V>(w: World<V>, a: Action<V>, form: string)
    requires Enabled(w, a)
    ensures
      var s := StepLedger(w, a, Step(w, a), form);
      s.starts + Potential(Step(w, a), form) <= Potential(w, form) + s.vanished + s.failed + s.falseMisses
  {
  }

  lemma {:induction false} RunPays<V>(ws: seq<World<V>>, acts: seq<Action<V>>, n: nat, form: string)
    requires IsRun(ws, acts) && n <= |acts|
    ensures
      var l := LedgerOf(ws, acts, n, form);
      l.starts + Potential(ws[n], form) <= Potential(ws[0], form) + l.vanished + l.failed + l.falseMisses
  {
    if n > 0 {
      RunPays(ws, acts, n - 1, form);
      StepPays(ws[n - 1], acts[n - 1], form);
    }
  }

  /** Loader starts for a key <= 1 + disappearances of its value + failed loads + false misses. */
  lemma LoaderStartsBounded<V>(ws: seq<World<V>>, acts: seq<Action<V>>, n: nat, form: string)
    requires IsRun(ws, acts) && n <= |acts|
    ensures
      var l := LedgerOf(ws, acts, n, form);
      l.starts <= l.vanished + l.failed + l.falseMisses + One(!ValueLive(ws[0], form))
  {
    RunPays(ws, acts, n, form);
  }

  // ----- One outcome for all -----

  /** Active flights have numbers of their own, and have not returned yet. */
  predicate Numbered<V>(w: World<V>) {
    && (forall f | f in w.flights :: w.flights[f].number < w.next && w.flights[f].number !in w.outcomes)
    && (forall f, g | f in w.flights && g in w.flights && f != g :: w.flights[f].number != w.flights[g].number)
    && (forall n | n in w.outcomes :: n < w.next)
  }

  lemma StepNumbered<V>(w: World<V>, a: Action<V>)
    requires Enabled(w, a) && Numbered(w)
    ensures Numbered(Step(w, a))
  {
  }

  lemma StepKeepsOutcomes<V>(w: World<V>, a: Action<V>)
    requires Enabled(w, a) && Numbered(w)
    ensures forall n | n in w.outcomes :: n in Step(w, a).outcomes && Step(w, a).outcomes[n] == w.outcomes[n]
    ensures forall c | c in w.joined :: c in Step(w, a).joined && Step(w, a).joined[c] == w.joined[c]
  {
  }

  lemma {:induction false} RunNumbered<V>(ws: seq<World<V>>, acts: seq<Action<V>>, i: nat)
    requires IsRun(ws, acts) && i <= |acts|
    ensures Numbered(ws[i])
  {
    if i > 0 {
      RunNumbered(ws, acts, i - 1);
      StepNumbered(ws[i - 1], acts[i - 1]);
    }
  }

  /** What a flight returned never changes, and a caller stays with its flight: all joiners get one result. */
  lemma {:induction false} OutcomeIsFinal<V>(ws: seq<World<V>>, acts: seq<Action<V>>, i: nat, j: nat, caller: nat)
    requires IsRun(ws, acts) && i <= j <= |acts|
    requires caller in ws[i].joined && ws[i].joined[caller] in ws[i].outcomes
    ensures caller in ws[j].joined && ws[j].joined[caller] == ws[i].joined[caller]
    ensures ws[j].joined[caller] in ws[j].outcomes
    ensures ws[j].outcomes[ws[j].joined[caller]] == ws[i].outcomes[ws[i].joined[caller]]
  {
    if i < j {
      OutcomeIsFinal(ws, acts, i, j - 1, caller);
      RunNumbered(ws, acts, j - 1);
      StepKeepsOutcomes(ws[j - 1], acts[j - 1]);
    }
  }

  /** The flight with this number has the value, on its way to the cache or as its outcome. */
  predicate Carries<V(==)>(w: World<V>, form: string, number: nat, value: V) {
    || (number in w.outcomes && w.outcomes[number] == Some(value))
    || (form in w.flights && w.flights[form].number == number
        && (w.flights[form].phase == Loaded(value) || w.flights[form].phase == Stored(value)))
  }

  lemma StepCarries<V>(w: World<V>, a: Action<V>, form: string, number: nat, value: V)
    requires Enabled(w, a) && Numbered(w) && Carries(w, form, number, value)
    ensures Carries(Step(w, a), form, number, value)
  {
  }

  /** The flight has either not returned yet, or returned this value. */
  lemma {:induction false} CarriesOn<V>(ws: seq<World<V>>, acts: seq<Action<V>>, i: nat, n: nat, form: string, number: nat, value: V)
    requires IsRun(ws, acts) && i <= n <= |acts| && Carries(ws[i], form, number, value)
    ensures Carries(ws[n], form, number, value)
  {
    if i < n {
      CarriesOn(ws, acts, i, n - 1, form, number, value);
      RunNumbered(ws, acts, n - 1);
      StepCarries(ws[n - 1], acts[n - 1], form, number, value);
    }
  }

  /** What the loader returns, or what the second read finds, is what the flight returns, whatever happens in between. */
  lemma ValueDelivered<V>(ws: seq<World<V>>, acts: seq<Action<V>>, i: nat, n: nat, key: Key, value: V)
    requires IsRun(ws, acts) && i < n <= |acts|
    requires acts[i] == LoaderOk(key, value) || (acts[i] == SecondGet(key) && Read(ws[i].store, key) == Some(value))
    ensures ToString(key) in ws[i].flights
    ensures
      var number := ws[i].flights[ToString(key)].number;
      number in ws[n].outcomes ==> ws[n].outcomes[number] == Some(value)
  {
    assert Enabled(ws[i], acts[i]) && ws[i + 1] == Step(ws[i], acts[i]);
    RunNumbered(ws, acts, i);
    RunNumbered(ws, acts, n);
    CarriesOn(ws, acts, i + 1, n, ToString(key), ws[i].flights[ToString(key)].number, value);
  }

  /** A loaded value is readable once it is stored; a failed load is the flight's outcome and leaves the cache alone. */
  lemma LoadEnds<V>(w: World<V>, key: Key, value: V, ttl: int)
    requires ToString(key) in w.flights
    ensures w.flights[ToString(key)].phase == Loaded(value) ==>
      Enabled(w, StoreValue(key, ttl)) && Read(Step(w, StoreValue(key, ttl)).store, key) == Some(value)
    ensures w.flights[ToString(key)].phase.Loading? ==>
      var w' := Step(w, LoaderFail(key));
      w'.store == w.store && w'.outcomes == w.outcomes[w.flights[ToString(key)].number := None]
  {
  }
}
