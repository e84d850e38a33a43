/**
Memcached has no scripts: its ReleaseLock and ExtendLock read the lock, compare the token, and
then delete or rewrite the lock in a second command.  Between the two halves anything can happen.
*/
module TwoStep {
  import opened Wrappers
  import opened Expiry
  import opened Keyspace
  import opened Protocol
  import opened Exclusion

  /** The protocol's world, and the flights whose first half has found their own token. */
  datatype World2 = World2(w: World, releasing: set<FlightId>, extending: set<FlightId>)

  datatype Action2 =
    | Whole(a: Action)
    | ReleaseRead(f: FlightId)
    | ReleaseWrite(f: FlightId)
    | ExtendRead(f: FlightId)
    | ExtendWrite(f: FlightId)

  predicate InPhase(w: World, f: FlightId, sending: bool) {
    f in w.flights && if sending then w.flights[f].beat.Sending? else w.flights[f].phase.Releasing?
  }

  predicate Enabled2(x: World2, a: Action2) {
    match a
    case Whole(b) => Enabled(x.w, b) && !(b.FlightMove? && (b.move.Release? || b.move.BeatLand?))
    case ReleaseRead(f) => InPhase(x.w, f, false) && f !in x.releasing
    case ReleaseWrite(f) => InPhase(x.w, f, false) && f in x.releasing
    case ExtendRead(f) => InPhase(x.w, f, true) && f !in x.extending
    case ExtendWrite(f) => InPhase(x.w, f, true) && f in x.extending
  }

  /** Delete by key; a key that is not live is a cache miss and nothing happens. */
  function Delete(table: Table<string>, now: int, key: string): Table<string> {
    if Live(table, now, key) then table - {key} else table
  }

  /** The second half, a delete or a rewrite by key alone, as an effect of its flight. */
  function BlindEffect(w: World, f: FlightId, sending: bool): Effect
    requires InPhase(w, f, sending)
  {
    var flight := w.flights[f];
    if sending
    then Effect(flight.(beat := Waiting, lease := LeaseEnd(w.cfg.extend, w.now), epoch := w.epoch),
                SetEntry(w, LockKey(flight.key), flight.token, w.cfg.extend), w.issued)
    else Effect(flight.(phase := Done(flight.phase.result)), Delete(w.store, w.now, LockKey(flight.key)), w.issued)
  }

  /** A half that is never completed, because its flight or heartbeat gave up, is forgotten. */
  function Tidy(w: World, releasing: set<FlightId>, extending: set<FlightId>): World2 {
    World2(w, set f | f in releasing && InPhase(w, f, false), set f | f in extending && InPhase(w, f, true))
  }

  function Step2(x: World2, a: Action2): World2
    requires Enabled2(x, a)
  {
    match a
    case Whole(b) => Tidy(Step(x.w, b), x.releasing, x.extending)
    case ReleaseRead(f) =>
      if Owns(x.w, x.w.flights[f]) then x.(releasing := x.releasing + {f})
      else Tidy(Step(x.w, FlightMove(f, Release)), x.releasing, x.extending)
    case ReleaseWrite(f) => Tidy(Install(x.w, f, BlindEffect(x.w, f, false)), x.releasing - {f}, x.extending)
    case ExtendRead(f) =>
      if Owns(x.w, x.w.flights[f]) then x.(extending := x.extending + {f})
      else Tidy(Step(x.w, FlightMove(f, BeatLand)), x.releasing, x.extending)
    case ExtendWrite(f) => Tidy(Install(x.w, f, BlindEffect(x.w, f, true)), x.releasing, x.extending - {f})
  }

  /**
  The second half meets the lock as the first half left it, as far as that matters: a delete must
  not meet somebody else's lock, a rewrite must still meet its own.
  */
  predicate Clean(x: World2, a: Action2)
    requires Enabled2(x, a)
  {
    match a
    case ReleaseWrite(f) => var lock := LockKey(x.w.flights[f].key);
      Live(x.w.store, x.w.now, lock) ==> x.w.store[lock].payload == x.w.flights[f].token
    case ExtendWrite(f) => Owns(x.w, x.w.flights[f])
    case _ => true
  }

  // ----- One step -----

  /** The second half of a release equals the atomic script exactly when it is clean. */
  lemma ReleaseWriteExactly(x: World2, f: FlightId)
    requires Enabled2(x, ReleaseWrite(f))
    ensures Clean(x, ReleaseWrite(f)) <==> Step2(x, ReleaseWrite(f)).w == Step(x.w, FlightMove(f, Release))
  {
    var lock := LockKey(x.w.flights[f].key);
    if !Clean(x, ReleaseWrite(f)) {
      assert lock in Step(x.w, FlightMove(f, Release)).store;
      assert lock !in Step2(x, ReleaseWrite(f)).w.store;
    }
  }

  /** The second half of an extension equals the atomic script exactly when it is clean. */
  lemma ExtendWriteExactly(x: World2, f: FlightId)
    requires Enabled2(x, ExtendWrite(f)) && x.w.cfg.extend != For(0)
    ensures Clean(x, ExtendWrite(f)) <==> Step2(x, ExtendWrite(f)).w == Step(x.w, FlightMove(f, BeatLand))
  {
    if !Clean(x, ExtendWrite(f)) {
      assert Step(x.w, FlightMove(f, BeatLand)).flights[f].beat == Stopped;
      assert Step2(x, ExtendWrite(f)).w.flights[f].beat == Waiting;
    }
  }

  /** The atomic step that a step of the two-step machine stands for, if any. */
  function Meaning(x: World2, a: Action2): Option<Action>
    requires Enabled2(x, a)
  {
    match a
    case Whole(b) => Some(b)
    case ReleaseRead(f) => if Owns(x.w, x.w.flights[f]) then None else Some(FlightMove(f, Release))
    case ReleaseWrite(f) => Some(FlightMove(f, Release))
    case ExtendRead(f) => if Owns(x.w, x.w.flights[f]) then None else Some(FlightMove(f, BeatLand))
    case ExtendWrite(f) => Some(FlightMove(f, BeatLand))
  }

  lemma StepRefines(x: World2, a: Action2)
    requires Enabled2(x, a) && Clean(x, a) && x.w.cfg.extend != For(0)
    ensures
      match Meaning(x, a)
      case None => Step2(x, a).w == x.w
      case Some(b) => Enabled(x.w, b) && Step2(x, a).w == Step(x.w, b)
  {
    match a
    case ReleaseWrite(f) => ReleaseWriteExactly(x, f);
    case ExtendWrite(f) => ExtendWriteExactly(x, f);
    case _ =>
  }

  // ----- Whole runs -----

  ghost predicate IsRun2(xs: seq<World2>, acts: seq<Action2>) {
    && |xs| == |acts| + 1
    && Init(xs[0].w) && xs[0].releasing == {} && xs[0].extending == {} && xs[0].w.cfg.extend != For(0)
    && forall i | 0 <= i < |acts| :: Enabled2(xs[i], acts[i]) && xs[i + 1] == Step2(xs[i], acts[i])
  }

  ghost predicate CleanRun(xs: seq<World2>, acts: seq<Action2>)
    requires IsRun2(xs, acts)
  {
    forall i | 0 <= i < |acts| :: Clean(xs[i], acts[i])
  }

  lemma StepKeepsConfig(w: World, a: Action)
    requires Enabled(w, a)
    ensures Step(w, a).cfg == w.cfg
  {
  }

  /** Every clean run is a run of the atomic protocol, with the first halves left out. */
  lemma {:induction false} CleanRunRefines(xs: seq<World2>, acts: seq<Action2>) returns (ws: seq<World>, atomic: seq<Action>)
    requires IsRun2(xs, acts) && CleanRun(xs, acts)
    ensures IsRun(ws, atomic) && ws[0] == xs[0].w && Last(ws) == xs[|acts|].w
    ensures |atomic| <= |acts|
    ensures xs[|acts|].w.cfg == xs[0].w.cfg
  {
    if |acts| == 0 {
      ws, atomic := [xs[0].w], [];
    } else {
      var n := |acts| - 1;
      ws, atomic := CleanRunRefines(xs[..n + 1], acts[..n]);
      StepRefines(xs[n], acts[n]);
      match Meaning(xs[n], acts[n])
      case None =>
      case Some(b) =>
        StepKeepsConfig(xs[n].w, b);
        ws, atomic := ws + [Step(xs[n].w, b)], atomic + [b];
    }
  }

  // ----- How much exclusion really needs -----

  /** Another flight for the key is between acquire and release and within its lease. */
  predicate Contended(w: World, f: FlightId) {
    f in w.flights && exists g | g in w.flights ::
      g != f && w.flights[g].key == w.flights[f].key && InSection(w.flights[g].phase) && InLease(w, w.flights[g])
  }

  /** A second half that goes through while another flight holds the lock. */
  predicate Robs(x: World2, a: Action2) {
    (a.ReleaseWrite? || a.ExtendWrite?) && Contended(x.w, a.f)
  }

  lemma BlindKeepsRest(w: World, f: FlightId, sending: bool)
    requires Inv(w) && InPhase(w, f, sending)
    ensures
      var w' := Install(w, f, BlindEffect(w, f, sending));
      KeysKnown(w') && TokensDistinct(w') && SingleFlight(w')
  {
    var e := BlindEffect(w, f, sending);
    assert KeepsIdentity(w, w.flights[f], e);
    InstallKeepsKeys(w, f, e);
    InstallKeepsTokens(w, f, e);
    InstallKeepsSlots(w, f, e);
  }

  lemma BlindKeepsOwnLease(w: World, f: FlightId, sending: bool)
    requires Inv(w) && InPhase(w, f, sending)
    ensures
      var e := BlindEffect(w, f, sending);
      e.flight.epoch <= w.epoch && (InSection(e.flight.phase) && InLease(w, e.flight) ==> Backed(e.store, e.flight))
  {
  }

  /** The lock of a flight for another key is not touched; that of another flight for this key is taken away. */
  lemma BlindAgainstOther(w: World, f: FlightId, sending: bool, g: FlightId)
    requires Inv(w) && InPhase(w, f, sending) && g in w.flights && g != f
    requires InSection(w.flights[g].phase) && InLease(w, w.flights[g])
    ensures Backed(BlindEffect(w, f, sending).store, w.flights[g]) <==> w.flights[g].key != w.flights[f].key
  {
    if w.flights[g].key != w.flights[f].key && LockKey(w.flights[g].key) == LockKey(w.flights[f].key) {
      LockKeyInjective(w.flights[g].key, w.flights[f].key);
    }
  }

  /** From the invariant, a second half breaks it exactly when another flight holds the lock. */
  lemma BlindKeepsInvExactly(w: World, f: FlightId, sending: bool)
    requires Inv(w) && InPhase(w, f, sending)
    ensures Inv(Install(w, f, BlindEffect(w, f, sending))) <==> !Contended(w, f)
  {
    hide BlindEffect, KeysKnown, TokensDistinct, SingleFlight, Backed;
    var e := BlindEffect(w, f, sending);
    var w' := Install(w, f, e);
    BlindKeepsRest(w, f, sending);
    BlindKeepsOwnLease(w, f, sending);
    forall g | g in w.flights && g != f && InSection(w.flights[g].phase) && InLease(w, w.flights[g])
      ensures Backed(w'.store, w'.flights[g]) <==> w.flights[g].key != w.flights[f].key
    {
      BlindAgainstOther(w, f, sending, g);
    }
    if Contended(w, f) {
      var g :| g in w.flights && g != f && w.flights[g].key == w.flights[f].key
        && InSection(w.flights[g].phase) && InLease(w, w.flights[g]);
      assert !Backed(w'.store, w'.flights[g]) && InLease(w', w'.flights[g]);
    }
  }

  lemma Step2KeepsInvExactly(x: World2, a: Action2)
    requires Inv(x.w) && Enabled2(x, a) && x.w.cfg.extend != For(0)
    ensures Inv(Step2(x, a).w) <==> !Robs(x, a)
  {
    hide Inv, Contended, BlindEffect, Install;
    match a
    case ReleaseWrite(f) =>
      BlindKeepsInvExactly(x.w, f, false);
    case ExtendWrite(f) =>
      BlindKeepsInvExactly(x.w, f, true);
    case _ =>
      StepRefines(x, a);
      if Meaning(x, a).Some? { StepKeepsInv(x.w, Meaning(x, a).value); }
  }

  lemma Step2KeepsConfig(x: World2, a: Action2)
    requires Enabled2(x, a)
    ensures Step2(x, a).w.cfg == x.w.cfg
  {
  }

  lemma {:induction false} UnrobbedKeepsInv(xs: seq<World2>, acts: seq<Action2>, i: nat)
    requires IsRun2(xs, acts) && i <= |acts|
    requires forall j | 0 <= j < i :: !Robs(xs[j], acts[j])
    ensures Inv(xs[i].w) && xs[i].w.cfg == xs[0].w.cfg
  {
    if i > 0 {
      UnrobbedKeepsInv(xs, acts, i - 1);
      Step2KeepsInvExactly(xs[i - 1], acts[i - 1]);
      Step2KeepsConfig(xs[i - 1], acts[i - 1]);
    }
  }

  /** A run keeps the invariant throughout exactly when no second half in it goes through against a holder of the lock. */
  lemma RunKeepsInvExactly(xs: seq<World2>, acts: seq<Action2>)
    requires IsRun2(xs, acts)
    ensures (forall i | 0 <= i <= |acts| :: Inv(xs[i].w)) <==> forall i | 0 <= i < |acts| :: !Robs(xs[i], acts[i])
  {
    hide Inv, Robs, Step2, Enabled2;
    if forall i | 0 <= i < |acts| :: !Robs(xs[i], acts[i]) {
      forall i | 0 <= i <= |acts|
        ensures Inv(xs[i].w)
      {
        UnrobbedKeepsInv(xs, acts, i);
      }
    } else if forall i | 0 <= i <= |acts| :: Inv(xs[i].w) {
      var i := FirstRobbery(xs, acts);
      UnrobbedKeepsInv(xs, acts, i);
      Step2KeepsInvExactly(xs[i], acts[i]);
      assert xs[i + 1] == Step2(xs[i], acts[i]) && Inv(xs[i + 1].w);
    }
  }

  lemma FirstRobbery(xs: seq<World2>, acts: seq<Action2>) returns (i: nat)
    requires IsRun2(xs, acts) && exists j | 0 <= j < |acts| :: Robs(xs[j], acts[j])
    ensures i < |acts| && Robs(xs[i], acts[i]) && forall j | 0 <= j < i :: !Robs(xs[j], acts[j])
  {
    i := 0;
    while !Robs(xs[i], acts[i])
      invariant i < |acts| && forall j | 0 <= j < i :: !Robs(xs[j], acts[j])
      decreases |acts| - i
    {
      i := i + 1;
    }
  }

  /** No live lock of anybody else is there when a second half comes; this is weaker than being clean. */
  predicate MeetsNoOther(x: World2, a: Action2)
    requires Enabled2(x, a)
  {
    a.ReleaseWrite? || a.ExtendWrite? ==>
      var lock := LockKey(x.w.flights[a.f].key);
      Live(x.w.store, x.w.now, lock) ==> x.w.store[lock].payload == x.w.flights[a.f].token
  }

  lemma MeetingNoOtherRobsNobody(x: World2, a: Action2)
    requires Inv(x.w) && Enabled2(x, a) && MeetsNoOther(x, a)
    ensures !Robs(x, a)
  {
  }

  lemma {:induction false} MeetingNoOtherKeepsInv(xs: seq<World2>, acts: seq<Action2>, i: nat)
    requires IsRun2(xs, acts) && i <= |acts|
    requires forall j | 0 <= j < i :: MeetsNoOther(xs[j], acts[j])
    ensures Inv(xs[i].w) && forall j | 0 <= j < i :: !Robs(xs[j], acts[j])
  {
    if i > 0 {
      MeetingNoOtherKeepsInv(xs, acts, i - 1);
      MeetingNoOtherRobsNobody(xs[i - 1], acts[i - 1]);
      UnrobbedKeepsInv(xs, acts, i);
    } else {
      InitInv(xs[0].w);
    }
  }

  /** If no second half meets another flight's live lock, two flights for one key are never both within their leases. */
  lemma MutualExclusionIfNoneMet(xs: seq<World2>, acts: seq<Action2>, i: nat, f: FlightId, g: FlightId)
    requires IsRun2(xs, acts) && i <= |acts|
    requires forall j | 0 <= j < i :: MeetsNoOther(xs[j], acts[j])
    requires f in xs[i].w.flights && g in xs[i].w.flights && xs[i].w.flights[f].key == xs[i].w.flights[g].key
    requires InSection(xs[i].w.flights[f].phase) && InSection(xs[i].w.flights[g].phase)
    ensures InLease(xs[i].w, xs[i].w.flights[f]) ==> Owns(xs[i].w, xs[i].w.flights[f])
    ensures InLease(xs[i].w, xs[i].w.flights[f]) && InLease(xs[i].w, xs[i].w.flights[g]) ==> f == g
  {
    MeetingNoOtherKeepsInv(xs, acts, i);
  }

  // ----- What an unclean second half does -----

  /** An unclean delete robs the owner: the next flight to ask gets a second lease. */
  lemma UncleanReleaseBreaksExclusion(x: World2, f: FlightId, g: FlightId, h: FlightId, token: string)
    requires Inv(x.w) && Enabled2(x, ReleaseWrite(f)) && !Clean(x, ReleaseWrite(f))
    requires g in x.w.flights && g != f && x.w.flights[g].key == x.w.flights[f].key
    requires InSection(x.w.flights[g].phase) && InLease(x.w, x.w.flights[g])
    requires h in x.w.flights && x.w.flights[h].key == x.w.flights[g].key
    requires x.w.flights[h].phase.Starting? && token !in x.w.issued
    ensures
      var mid := Step2(x, ReleaseWrite(f)).w;
      && Enabled(mid, FlightMove(h, Acquire(token)))
      && var w := Step(mid, FlightMove(h, Acquire(token)));
         && g != h && InSection(w.flights[g].phase) && InSection(w.flights[h].phase)
         && InLease(w, w.flights[g]) && InLease(w, w.flights[h])
  {
  }

  /** An unclean rewrite steals the lock: both flights are within their leases at once. */
  lemma UncleanExtensionBreaksExclusion(x: World2, f: FlightId, g: FlightId)
    requires Inv(x.w) && Enabled2(x, ExtendWrite(f)) && !Clean(x, ExtendWrite(f)) && x.w.cfg.extend != For(0)
    requires InSection(x.w.flights[f].phase)
    requires g in x.w.flights && g != f && x.w.flights[g].key == x.w.flights[f].key
    requires InSection(x.w.flights[g].phase) && InLease(x.w, x.w.flights[g])
    ensures
      var w := Step2(x, ExtendWrite(f)).w;
      && InSection(w.flights[f].phase) && InSection(w.flights[g].phase)
      && InLease(w, w.flights[f]) && InLease(w, w.flights[g])
      && !Owns(w, w.flights[g])
  {
  }

  /** The flight is done, its lock is free, and yet its heartbeat has a rewrite under way. */
  predicate RewriteOutlivesFlight(y: World2, f: FlightId) {
    && Enabled2(y, ExtendWrite(f)) && Stale(y.w, f) && y.w.flights[f].phase.Done?
    && !Live(y.w.store, y.w.now, LockKey(y.w.flights[f].key))
  }

  /** It comes to this when a flight releases its lock between the two halves of an extension. */
  lemma ReleaseBetweenHalves(x: World2, f: FlightId)
    requires Inv(x.w) && Enabled2(x, ReleaseWrite(f)) && Enabled2(x, ExtendWrite(f)) && Owns(x.w, x.w.flights[f])
    ensures RewriteOutlivesFlight(Step2(x, ReleaseWrite(f)), f)
  {
    hide SingleFlight, LeasesBacked, KeysKnown;
  }

  /**
  The rewrite then re-creates the lock under a dead token, which nobody will release: the late
  extension that changes nothing with the atomic script is not inert here.
  */
  lemma LateRewriteRevivesLock(y: World2, f: FlightId)
    requires RewriteOutlivesFlight(y, f) && y.w.cfg.extend != For(0)
    ensures Step(y.w, FlightMove(f, BeatLand)).store == y.w.store
    ensures
      var w := Step2(y, ExtendWrite(f)).w;
      f in w.flights && w.flights[f].phase.Done? && Owns(w, w.flights[f]) && w.store != y.w.store
  {
  }
}
