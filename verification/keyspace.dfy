/**
The Redis server as the carts see it: one atomic table of keys with expiries.
Data entries and locks share it; the lock of key `k` lives at `k + ":lock"`.
*/
module Keyspace {
  import opened Wrappers
  import opened Expiry

  const LOCK_SUFFIX := ":lock"

  function LockKey(key: string): string {
    key + LOCK_SUFFIX
  }

  lemma LockKeyInjective(a: string, b: string)
    requires LockKey(a) == LockKey(b)
    ensures a == b
  {
    assert LockKey(a)[..|LockKey(a)| - |LOCK_SUFFIX|] == a;
    assert LockKey(b)[..|LockKey(b)| - |LOCK_SUFFIX|] == b;
  }

  /** No application key is the lock key of an application key. */
  predicate NoCollision(keys: set<string>) {
    forall k, l | k in keys && l in keys :: l != LockKey(k)
  }

  /** How long a backend makes an entry last: a duration from now, or no expiry at all. */
  datatype Lease = For(duration: nat) | Forever

  /** The end of a lease granted now.  EXPIRE with a zero timeout ends it before now. */
  function LeaseEnd(lease: Lease, now: int): Deadline {
    match lease
    case Forever => Never
    case For(d) => if d == 0 then At(now - 1) else At(now + d)
  }

  /** SET key payload NX with an expiry. */
  function SetNX<V>(table: Table<V>, now: int, key: string, payload: V, lease: Lease): (r: (Table<V>, bool)) {
    if Live(table, now, key) then (table, false)
    else (table[key := Entry(payload, LeaseEnd(lease, now))], true)
  }

  /** The Lua script of ReleaseLock: delete the lock if it still carries the token. */
  function ReleaseScript<V(==)>(table: Table<V>, now: int, key: string, token: V): Table<V> {
    if Lookup(table, now, key) == Some(token) then table - {key} else table
  }

  /** The Lua script of ExtendLock: EXPIRE the lock if it still carries the token. */
  function ExtendScript<V(==)>(table: Table<V>, now: int, key: string, token: V, lease: Lease): (Table<V>, bool) {
    if Lookup(table, now, key) != Some(token) then (table, false)
    else if lease == For(0) then (table - {key}, true)
    else (table[key := Entry(token, LeaseEnd(lease, now))], true)
  }
}
