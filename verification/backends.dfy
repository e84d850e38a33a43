/** How each backend instantiates the protocol: what it makes of a lock duration. */
module Backends {
  import opened Expiry
  import opened Keyspace
  import opened Durations
  import opened Protocol
  import opened Exclusion
  import opened MemcachedExpiry

  /** Redis, Dragonfly and KeyDB: what the client makes of the duration at first, whole seconds from then on. */
  function RedisConfig(keys: set<string>, ttl: nat): Config {
    Config(keys, SetLease(ttl), For(WholeSeconds(ttl)))
  }

  /** Memcached: whole seconds in both, zero meaning forever. */
  function MemcachedConfig(keys: set<string>, ttl: nat, outOfRange: int, unixNow: nat): Config {
    var lease := ServerLease(ExpirationField(ttl, outOfRange), unixNow);
    Config(keys, lease, lease)
  }

  /** One heartbeat of the Redis cart keeps the lock exactly when the lock TTL is at least one second. */
  lemma BeatKeepsLockExactly(w: World, f: FlightId, ttl: nat)
    requires w.cfg == RedisConfig(w.cfg.keys, ttl) && Enabled(w, FlightMove(f, BeatLand))
    requires Owns(w, w.flights[f])
    ensures
      var w' := Step(w, FlightMove(f, BeatLand));
      Owns(w', w'.flights[f]) <==> ttl >= SECOND
  {
  }

  /** With a lock TTL from one second to thirty days a Memcached world meets what TwoStep assumes of it. */
  lemma MemcachedConfigAdmissible(keys: set<string>, ttl: nat, outOfRange: int, unixNow: nat)
    requires SECOND <= ttl < (MAX_RELATIVE + 1) * SECOND
    ensures MemcachedConfig(keys, ttl, outOfRange, unixNow).acquire == For(WholeSeconds(ttl))
    ensures MemcachedConfig(keys, ttl, outOfRange, unixNow).extend != For(0) && MemcachedConfig(keys, ttl, outOfRange, unixNow).acquire != For(0)
  {
    InRangeLease(ttl, outOfRange, unixNow);
  }
}
