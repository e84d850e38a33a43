/** Memcached's expiration field: whole seconds in an int32, read by the server in four different ways. */
module MemcachedExpiry {
  import opened Expiry
  import opened Keyspace

  const MAX_RELATIVE: nat := 30 * 24 * 60 * 60
  const INT32_LIMIT: int := 0x8000_0000

  predicate IsInt32(n: int) {
    -INT32_LIMIT <= n < INT32_LIMIT
  }

  /** Go's conversion from float64 drops the fraction. */
  function Truncated(d: int): int {
    if d < 0 then -((-d) / SECOND) else d / SECOND
  }

  /** The conversion in Set, AcquireLock and ExtendLock; what it gives out of range depends on the platform. */
  function ExpirationField(d: int, outOfRange: int): int {
    if IsInt32(Truncated(d)) then Truncated(d) else outOfRange
  }

  /** The server: negative is already expired, 0 never, up to 30 days relative, more an absolute Unix time. */
  function ServerLease(field: int, unixNow: nat): Lease {
    if field < 0 then For(0)
    else if field == 0 then Forever
    else if field <= MAX_RELATIVE then For(field * SECOND)
    else if field <= unixNow then For(0)
    else For((field - unixNow) * SECOND)
  }

  /** The entry lives for the requested duration, less at most the fraction of a second. */
  predicate Faithful(lease: Lease, d: int) {
    lease.For? && d - SECOND < lease.duration <= d
  }

  lemma SecondsBounds(d: int)
    ensures d >= 0 ==> Truncated(d) * SECOND <= d < (Truncated(d) + 1) * SECOND
  {
  }

  /** On every platform the requested lifetime is honoured exactly from one second to thirty days (and a fraction). */
  lemma FaithfulExactly(d: int, outOfRange: int, unixNow: nat)
    requires unixNow >= 1 && IsInt32(outOfRange)
    ensures Faithful(ServerLease(ExpirationField(d, outOfRange), unixNow), d) <==> SECOND <= d < (MAX_RELATIVE + 1) * SECOND
  {
    SecondsBounds(d);
    var field := ExpirationField(d, outOfRange);
    if field > MAX_RELATIVE && field > unixNow {
      assert (field - unixNow) * SECOND <= (field - 1) * SECOND;
    }
  }

  /** What happens outside the range: below a second never, beyond thirty days an absolute Unix time or nothing at all. */
  lemma OutOfRangeExactly(d: int, outOfRange: int, unixNow: nat)
    requires d < INT32_LIMIT * SECOND && !(SECOND <= d < (MAX_RELATIVE + 1) * SECOND)
    requires d > -INT32_LIMIT * SECOND
    ensures
      var lease := ServerLease(ExpirationField(d, outOfRange), unixNow);
      if d + SECOND <= 0 then lease == For(0)
      else if d < SECOND then lease == Forever
      else if d < (unixNow + 1) * SECOND then lease == For(0)
      else lease.For? && unixNow * SECOND + lease.duration <= d < unixNow * SECOND + lease.duration + SECOND
  {
    SecondsBounds(d);
  }

  /** A lock that is extended inside the range never takes the never-expires reading. */
  lemma InRangeLease(ttl: nat, outOfRange: int, unixNow: nat)
    requires SECOND <= ttl < (MAX_RELATIVE + 1) * SECOND
    ensures ServerLease(ExpirationField(ttl, outOfRange), unixNow) == For(ttl / SECOND * SECOND)
    ensures ServerLease(ExpirationField(ttl, outOfRange), unixNow) !in {For(0), Forever}
  {
  }
}
