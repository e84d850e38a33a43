/**
Does the heartbeat keep the lease alive while the loader runs?  The lock is granted for `ttl`, in
whole milliseconds, and then renewed every `interval`, but only for the whole seconds of `ttl`.
*/
module Heartbeat {
  import opened Wrappers
  import opened Expiry
  import opened Keyspace
  import opened Durations

  function ExtendLock<V(==)>(table: Table<V>, now: int, key: string, token: V, ttl: nat): (Table<V>, bool) {
    ExtendScript(table, now, LockKey(key), token, For(WholeSeconds(ttl)))
  }

  /** The server after the first `n` extensions, which land at the given instants. */
  function AfterBeats<V(==)>(table: Table<V>, key: string, token: V, ttl: nat, landings: seq<int>, n: nat): Table<V>
    requires n <= |landings|
  {
    if n == 0 then table
    else ExtendLock(AfterBeats(table, key, token, ttl, landings, n - 1), landings[n - 1], key, token, ttl).0
  }

  /** Once an extension is refused, all later ones are refused too: stopping there loses nothing. */
  lemma {:induction false} RefusedForGood<V>(table: Table<V>, key: string, token: V, ttl: nat, landings: seq<int>, n: nat, m: nat)
    requires n < m <= |landings|
    requires forall i | 0 < i < |landings| :: landings[i - 1] <= landings[i]
    requires !ExtendLock(AfterBeats(table, key, token, ttl, landings, n), landings[n], key, token, ttl).1
    ensures AfterBeats(table, key, token, ttl, landings, m) == AfterBeats(table, key, token, ttl, landings, n)
    ensures landings[n] <= landings[m - 1]
  {
    if m > n + 1 {
      RefusedForGood(table, key, token, ttl, landings, n, m - 1);
    }
  }

  /** Extensions touch nothing but the lock, and leave its token there if they leave it at all. */
  lemma {:induction false} BeatsTouchOnlyLock<V>(table: Table<V>, key: string, token: V, ttl: nat, landings: seq<int>, n: nat)
    requires n <= |landings|
    ensures
      var after := AfterBeats(table, key, token, ttl, landings, n);
      && after - {LockKey(key)} == table - {LockKey(key)}
      && (LockKey(key) in after ==> LockKey(key) in table && after[LockKey(key)].payload == table[LockKey(key)].payload)
  {
    if n > 0 {
      BeatsTouchOnlyLock(table, key, token, ttl, landings, n - 1);
    }
  }

  /**
  Extensions as the ticker sends them: one for each interval since `start`, each landing at most
  `lateness` after its tick, and never before an earlier one.
  */
  predicate OnSchedule(start: int, interval: nat, lateness: nat, landings: seq<int>) {
    && (forall i | 0 <= i < |landings| ::
          start + (i + 1) * interval <= landings[i] <= start + (i + 1) * interval + lateness)
    && (forall i | 0 < i < |landings| :: landings[i - 1] <= landings[i])
  }

  function Granted(now: int, key: string, token: string, ttl: nat): Table<string> {
    map[LockKey(key) := Entry(token, LeaseEnd(SetLease(ttl), now))]
  }

  predicate Alive(table: Table<string>, t: int, key: string, token: string) {
    Lookup(table, t, LockKey(key)) == Some(token)
  }

  /** All the extensions due by `t` have landed, and the next one is still to come. */
  predicate Between(start: int, interval: nat, lateness: nat, landings: seq<int>, t: int) {
    && (landings == [] ==> start <= t)
    && (landings != [] ==> landings[|landings| - 1] <= t)
    && t <= start + (|landings| + 1) * interval + lateness
  }

  /**
  The lease never lapses: in every execution in which the heartbeat starts within `delay` of the
  grant and its ticks are at most `lateness` late, the lock is alive at every instant.
  */
  ghost predicate LeaseKept(ttl: nat, interval: nat, delay: nat, lateness: nat) {
    forall granted: int, start: int, landings: seq<int>, t: int, key: string, token: string ::
      granted <= start <= granted + delay
      && OnSchedule(start, interval, lateness, landings)
      && Between(start, interval, lateness, landings, t)
      ==> Alive(AfterBeats(Granted(granted, key, token, ttl), key, token, ttl, landings, |landings|), t, key, token)
  }

  /** What the timing must satisfy, in terms a caller can check. */
  predicate TimingSafe(ttl: nat, interval: nat, delay: nat, lateness: nat) {
    delay + interval + lateness <= SetDuration(ttl) && interval + lateness <= WholeSeconds(ttl)
  }

  // ----- Sufficiency -----

  lemma {:induction false} BeatsKeep(granted: int, start: int, key: string, token: string, ttl: nat,
                                     interval: nat, delay: nat, lateness: nat, landings: seq<int>, n: nat)
    requires interval > 0 && TimingSafe(ttl, interval, delay, lateness)
    requires granted <= start <= granted + delay && OnSchedule(start, interval, lateness, landings) && n <= |landings|
    ensures
      var table := AfterBeats(Granted(granted, key, token, ttl), key, token, ttl, landings, n);
      var lastAt := if n == 0 then granted + SetDuration(ttl) else landings[n - 1] + WholeSeconds(ttl);
      LockKey(key) in table && table[LockKey(key)] == Entry(token, At(lastAt))
  {
    if n > 0 {
      BeatsKeep(granted, start, key, token, ttl, interval, delay, lateness, landings, n - 1);
      NextInTime(start, interval, lateness, landings, n - 1);
    }
  }

  /** The next landing is at most an interval and a lateness after the one before. */
  lemma NextInTime(start: int, interval: nat, lateness: nat, landings: seq<int>, n: nat)
    requires OnSchedule(start, interval, lateness, landings) && n < |landings|
    ensures n == 0 ==> landings[0] <= start + interval + lateness
    ensures n > 0 ==> landings[n] <= landings[n - 1] + interval + lateness
  {
    if n > 0 {
      assert landings[n - 1] >= start + n * interval;
      assert (n + 1) * interval == n * interval + interval;
    }
  }

  lemma SafeTimingKeeps(ttl: nat, interval: nat, delay: nat, lateness: nat)
    requires interval > 0 && TimingSafe(ttl, interval, delay, lateness)
    ensures LeaseKept(ttl, interval, delay, lateness)
  {
    forall granted: int, start: int, landings: seq<int>, t: int, key: string, token: string |
      granted <= start <= granted + delay
      && OnSchedule(start, interval, lateness, landings)
      && Between(start, interval, lateness, landings, t)
      ensures Alive(AfterBeats(Granted(granted, key, token, ttl), key, token, ttl, landings, |landings|), t, key, token)
    {
      var n := |landings|;
      BeatsKeep(granted, start, key, token, ttl, interval, delay, lateness, landings, n);
      if n > 0 {
        assert landings[n - 1] >= start + n * interval;
        assert (n + 1) * interval == n * interval + interval;
      }
    }
  }

  // ----- Necessity -----

  /** The first extension comes too late. */
  lemma FirstBeatTooLate(ttl: nat, interval: nat, delay: nat, lateness: nat)
    requires ttl > 0 && delay + interval + lateness > SetDuration(ttl)
    ensures !LeaseKept(ttl, interval, delay, lateness)
  {
    var t := delay + interval + lateness;
    assert OnSchedule(delay, interval, lateness, []) && Between(delay, interval, lateness, [], t);
    assert !Alive(AfterBeats(Granted(0, "k", "t", ttl), "k", "t", ttl, [], 0), t, "k", "t");
  }

  /** An extension is too short to reach the next one. */
  lemma ExtensionTooShort(ttl: nat, interval: nat, delay: nat, lateness: nat)
    requires interval > 0 && interval + lateness > WholeSeconds(ttl)
    ensures !LeaseKept(ttl, interval, delay, lateness)
  {
    var landings := [interval];
    var t := 2 * interval + lateness;
    var table := Granted(0, "k", "t", ttl);
    assert OnSchedule(0, interval, lateness, landings) && Between(0, interval, lateness, landings, t);
    assert AfterBeats(table, "k", "t", ttl, landings, 1)
        == ExtendLock(AfterBeats(table, "k", "t", ttl, landings, 0), interval, "k", "t", ttl).0;
    assert !Alive(AfterBeats(table, "k", "t", ttl, landings, |landings|), t, "k", "t");
  }

  /** The lease is kept in every execution exactly when the timing is safe. */
  lemma LeaseKeptExactly(ttl: nat, interval: nat, delay: nat, lateness: nat)
    requires interval > 0
    ensures LeaseKept(ttl, interval, delay, lateness) <==> TimingSafe(ttl, interval, delay, lateness)
  {
    if TimingSafe(ttl, interval, delay, lateness) {
      SafeTimingKeeps(ttl, interval, delay, lateness);
    } else if interval + lateness > WholeSeconds(ttl) {
      ExtensionTooShort(ttl, interval, delay, lateness);
    } else {
      FirstBeatTooLate(ttl, interval, delay, lateness);
    }
  }

  // ----- The default renewal interval -----

  function DefaultInterval(ttl: nat): nat {
    ttl / 3
  }

  /** From one second on, the default interval leaves a third of the ttl for the delay and a sixth for lateness. */
  lemma DefaultIntervalSuffices(ttl: nat, delay: nat, lateness: nat)
    requires ttl >= SECOND && delay <= ttl / 3 && lateness <= ttl / 6
    ensures LeaseKept(ttl, DefaultInterval(ttl), delay, lateness)
  {
    assert ttl < 2 * WholeSeconds(ttl);
    SetDurationExactly(ttl);
    SafeTimingKeeps(ttl, DefaultInterval(ttl), delay, lateness);
  }

  /** Below one second no timing keeps the lease, however prompt. */
  lemma SubSecondLeaseNotKept(ttl: nat, interval: nat, delay: nat, lateness: nat)
    requires ttl < SECOND && interval > 0
    ensures !LeaseKept(ttl, interval, delay, lateness)
  {
    LeaseKeptExactly(ttl, interval, delay, lateness);
  }

  /** Below one second the first extension to succeed gives the lock up, and no later one brings it back. */
  lemma {:induction false} FirstBeatGivesUpLock(table: Table<string>, key: string, token: string, ttl: nat, landings: seq<int>, n: nat)
    requires 0 < n <= |landings| && Alive(table, landings[0], key, token)
    ensures ttl < SECOND ==> LockKey(key) !in AfterBeats(table, key, token, ttl, landings, n)
    ensures ttl >= SECOND ==> Alive(AfterBeats(table, key, token, ttl, landings, 1), landings[0], key, token)
  {
    assert AfterBeats(table, key, token, ttl, landings, 0) == table;
    if n > 1 {
      FirstBeatGivesUpLock(table, key, token, ttl, landings, n - 1);
    }
  }
}
