/** What the Redis client makes of durations: whole seconds or milliseconds, and zero as no expiry. */
module Durations {
  import opened Expiry
  import opened Keyspace

  const MILLISECOND: nat := 1_000_000

  /** A duration cut down to whole seconds, as in the argument of ExtendLock's script. */
  function WholeSeconds(d: nat): nat {
    d / SECOND * SECOND
  }

  /** The client sends SET and SETNX with whole seconds when it can, else with milliseconds and at least one. */
  function SetDuration(d: nat): nat {
    if d >= SECOND && d % SECOND == 0 then d
    else if 0 < d < MILLISECOND then MILLISECOND
    else d / MILLISECOND * MILLISECOND
  }

  /** The client sends EXPIRE with whole seconds, at least one. */
  function ExpireDuration(d: nat): nat {
    if 0 < d < SECOND then SECOND else WholeSeconds(d)
  }

  function SetLease(d: nat): Lease {
    if d == 0 then Forever else For(SetDuration(d))
  }

  /** What SET is given: the number of whole milliseconds, but one for anything shorter. */
  lemma SetDurationExactly(d: nat)
    ensures SetDuration(d) % MILLISECOND == 0
    ensures d >= MILLISECOND ==> d - MILLISECOND < SetDuration(d) <= d
    ensures 0 < d < MILLISECOND ==> SetDuration(d) == MILLISECOND
    ensures d == 0 ==> SetDuration(d) == 0
  {
  }

  /** What EXPIRE is given: the number of whole seconds, but one for anything shorter. */
  lemma ExpireDurationExactly(d: nat)
    ensures ExpireDuration(d) % SECOND == 0 && WholeSeconds(d) % SECOND == 0 && d - SECOND < WholeSeconds(d) <= d
    ensures d >= SECOND ==> ExpireDuration(d) == WholeSeconds(d)
    ensures 0 < d < SECOND ==> ExpireDuration(d) == SECOND
  {
  }
}
