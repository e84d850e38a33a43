/**
The Memcached cart as it talks to the server: single commands only.  Whatever happens between the
two halves of ReleaseLock and ExtendLock is handed in as the table that the second half meets.
*/
module MemcachedCart {
  import opened Wrappers
  import opened Expiry
  import opened Keyspace
  import opened Typed
  import opened MemcachedExpiry

  datatype Item = Text(json: Json) | Token(token: string)

  datatype CartError = NotFound | NotEncodable | NotDecodable | ServerError

  /** What Get answers when it reaches the server: a token is no JSON text. */
  function GetReply(table: Table<Item>, now: int, key: string): Result<Any, CartError> {
    if !Live(table, now, key) then Err(NotFound)
    else match table[key].payload
         case Text(json) => Ok(Dynamic(UnmarshalGeneric(json)))
         case Token(_) => Err(NotDecodable)
  }

  /** From now on Get answers until the deadline and not after it, and what it gives reads back as the value. */
  ghost predicate Serves(table: Table<Item>, now: int, key: string, value: Any, deadline: Deadline) {
    forall later: int | now <= later ::
      match GetReply(table, later, key)
      case Ok(got) => (deadline.Never? || later <= deadline.instant) && ReadsBack(got, value)
      case Err(error) => deadline.At? && later > deadline.instant && error == NotFound
  }

  lemma EntryServes(table: Table<Item>, now: int, key: string, value: Any, json: Json, deadline: Deadline)
    requires MarshalAny(value) == Some(json) && key in table && table[key] == Entry(Text(json), deadline)
    ensures Serves(table, now, key, value, deadline)
  {
    StoredReadsBack(value);
  }

  /** `outOfRange` is what the platform makes of a duration beyond an int32 of seconds. */
  function LeaseOf(d: nat, outOfRange: int, unixNow: nat): Lease {
    ServerLease(ExpirationField(d, outOfRange), unixNow)
  }

  class Cart {
    var table: Table<Item>
    var now: int
    const unixNow: nat
    const outOfRange: int

    constructor (now: int, unixNow: nat, outOfRange: int)
      ensures table == map[] && this.now == now && this.unixNow == unixNow && this.outOfRange == outOfRange
    {
      table := map[];
      this.now := now;
      this.unixNow := unixNow;
      this.outOfRange := outOfRange;
    }

    function DeadlineOf(d: nat): Deadline
      reads this
    {
      LeaseEnd(LeaseOf(d, outOfRange, unixNow), now)
    }

    method AcquireLock(key: string, token: string, ttl: nat, up: bool) returns (acquired: bool, err: Option<CartError>)
      modifies `table
      ensures err == if up then None else Some(ServerError)
      ensures if up then (table, acquired) == SetNX(old(table), now, LockKey(key), Token(token), LeaseOf(ttl, outOfRange, unixNow))
              else !acquired && table == old(table)
    {
      if !up {
        return false, Some(ServerError);
      }
      if Live(table, now, LockKey(key)) {
        return false, None;
      }
      table := table[LockKey(key) := Entry(Token(token), DeadlineOf(ttl))];
      return true, None;
    }

    /**
    Get, compare, Delete: it does what the atomic script does exactly when the delete meets nobody
    else's lock.  `getUp` and `deleteUp` tell which of the two commands reaches the server.
    */
    method ReleaseLock(key: string, token: string, between: Table<Item>, getUp: bool, deleteUp: bool) returns (err: Option<CartError>)
      modifies `table
      ensures !getUp ==> err == Some(ServerError) && table == old(table)
      ensures getUp && Lookup(old(table), now, LockKey(key)) != Some(Token(token)) ==> err == None && table == old(table)
      ensures getUp && Lookup(old(table), now, LockKey(key)) == Some(Token(token)) && !deleteUp ==>
        err == Some(ServerError) && table == between
      ensures getUp && Lookup(old(table), now, LockKey(key)) == Some(Token(token)) && deleteUp ==>
        && err == None
        && (table == ReleaseScript(between, now, LockKey(key), Token(token))
            <==> (Live(between, now, LockKey(key)) ==> between[LockKey(key)].payload == Token(token)))
        && !Live(table, now, LockKey(key))
        && (forall k | k != LockKey(key) :: k in table <==> k in between)
        && (forall k | k in table && k != LockKey(key) :: table[k] == between[k])
    {
      var lock := LockKey(key);
      if !getUp {
        return Some(ServerError);
      }
      if Lookup(table, now, lock) != Some(Token(token)) {
        return None;
      }
      table := between;
      if !deleteUp {
        return Some(ServerError);
      }
      if Live(table, now, lock) {
        table := table - {lock};
        assert lock in between && lock !in table;
      }
      err := None;
    }

    /** Get, compare, Set: it does what the atomic script does exactly when the lock is still its own. */
    method ExtendLock(key: string, token: string, ttl: nat, between: Table<Item>, getUp: bool, setUp: bool)
      returns (extended: bool, err: Option<CartError>)
      modifies `table
      ensures extended <==> getUp && setUp && Lookup(old(table), now, LockKey(key)) == Some(Token(token))
      ensures err.Some? <==> !getUp || (!setUp && Lookup(old(table), now, LockKey(key)) == Some(Token(token)))
      ensures !getUp || Lookup(old(table), now, LockKey(key)) != Some(Token(token)) ==> table == old(table)
      ensures getUp && !setUp && Lookup(old(table), now, LockKey(key)) == Some(Token(token)) ==> table == between
      ensures extended ==>
        && table == between[LockKey(key) := Entry(Token(token), DeadlineOf(ttl))]
        && (LeaseOf(ttl, outOfRange, unixNow) != For(0) ==>
              ((table, true) == ExtendScript(between, now, LockKey(key), Token(token), LeaseOf(ttl, outOfRange, unixNow))
               <==> Lookup(between, now, LockKey(key)) == Some(Token(token))))
    {
      var lock := LockKey(key);
      if !getUp {
        return false, Some(ServerError);
      }
      if Lookup(table, now, lock) != Some(Token(token)) {
        return false, None;
      }
      table := between;
      if !setUp {
        return false, Some(ServerError);
      }
      table := table[lock := Entry(Token(token), DeadlineOf(ttl))];
      return true, None;
    }

    method Get(key: string, up: bool) returns (r: Result<Any, CartError>)
      ensures r == if up then GetReply(table, now, key) else Err(ServerError)
    {
      if !up {
        return Err(ServerError);
      }
      if !Live(table, now, key) {
        return Err(NotFound);
      }
      match table[key].payload
      case Text(json) => r := Ok(Dynamic(UnmarshalGeneric(json)));
      case Token(_) => r := Err(NotDecodable);
    }

    method Set(key: string, value: Any, expiration: nat, up: bool) returns (err: Option<CartError>)
      modifies `table
      ensures err == Some(NotEncodable) <==> value.Unencodable?
      ensures !value.Unencodable? ==> err == if up then None else Some(ServerError)
      ensures err.Some? ==> table == old(table)
      ensures err == None ==>
        && MarshalAny(value).Some?
        && table == old(table)[key := Entry(Text(MarshalAny(value).value), DeadlineOf(expiration))]
      ensures err == None ==> Serves(table, now, key, value, DeadlineOf(expiration))
    {
      StoredReadsBack(value);
      var data := MarshalAny(value);
      if data.None? {
        return Some(NotEncodable);
      }
      if !up {
        return Some(ServerError);
      }
      table := table[key := Entry(Text(data.value), DeadlineOf(expiration))];
      EntryServes(table, now, key, value, data.value, DeadlineOf(expiration));
      err := None;
    }

    /** One Set after the other: one that fails, here or at the server, leaves the ones before it stored. */
    method SetMulti(items: map<string, Any>, expiration: nat, refused: set<string>)
      returns (err: Option<CartError>, ghost done: set<string>)
      modifies `table
      ensures done <= items.Keys && forall k | k in done :: MarshalAny(items[k]).Some? && k !in refused
      ensures err == None || err == Some(NotEncodable) || err == Some(ServerError)
      ensures err == None <==> done == items.Keys
      ensures err == Some(NotEncodable) ==> exists k | k in items :: k !in done && items[k].Unencodable?
      ensures err == Some(ServerError) ==> exists k | k in items :: k !in done && k in refused
      ensures table == old(table) + Stored(items, done, DeadlineOf(expiration))
      ensures forall k | k in done :: Serves(table, now, k, items[k], DeadlineOf(expiration))
    {
      hide Serves;
      done := {};
      var todo := items.Keys;
      assert table == old(table) + Stored(items, done, DeadlineOf(expiration));
      while todo != {}
        invariant todo <= items.Keys && done == items.Keys - todo
        invariant forall k | k in done :: MarshalAny(items[k]).Some? && k !in refused
        invariant table == old(table) + Stored(items, done, DeadlineOf(expiration))
        decreases todo
      {
        var k :| k in todo;
        err := Set(k, items[k], expiration, k !in refused);
        if err.Some? {
          assert k in items && k !in done;
          StoredServes(old(table), items, done, now, DeadlineOf(expiration));
          return;
        }
        StoredGrows(items, done, DeadlineOf(expiration), k);
        todo := todo - {k};
        done := done + {k};
      }
      StoredServes(old(table), items, done, now, DeadlineOf(expiration));
      err := None;
    }
  }

  lemma StoredServes(table: Table<Item>, items: map<string, Any>, done: set<string>, now: int, deadline: Deadline)
    requires done <= items.Keys && forall k | k in done :: MarshalAny(items[k]).Some?
    ensures forall k | k in done :: Serves(table + Stored(items, done, deadline), now, k, items[k], deadline)
  {
    forall k | k in done
      ensures Serves(table + Stored(items, done, deadline), now, k, items[k], deadline)
    {
      EntryServes(table + Stored(items, done, deadline), now, k, items[k], MarshalAny(items[k]).value, deadline);
    }
  }

  function Stored(items: map<string, Any>, done: set<string>, deadline: Deadline): Table<Item>
    requires done <= items.Keys && forall k | k in done :: MarshalAny(items[k]).Some?
  {
    map k | k in done :: Entry(Text(MarshalAny(items[k]).value), deadline)
  }

  lemma StoredGrows(items: map<string, Any>, done: set<string>, deadline: Deadline, k: string)
    requires done <= items.Keys && forall x | x in done :: MarshalAny(items[x]).Some?
    requires k in items && MarshalAny(items[k]).Some?
    ensures Stored(items, done + {k}, deadline) == Stored(items, done, deadline)[k := Entry(Text(MarshalAny(items[k]).value), deadline)]
  {
  }
}
