/** The Pebble cart: an embedded store whose reads delete what they find expired, and batches. */
module PebbleCart {
  import opened Wrappers
  import opened Typed

  /** A stored record: a cache entry, which always has a deadline, or bytes of some other origin. */
  datatype Record = Record(value: Json, deadline: int) | Foreign

  type Db = map<string, Record>

  datatype CartError = NotFound | NotEncodable | NotDecodable | DbError

  predicate Expired(r: Record, now: int) {
    r.Record? && now > r.deadline
  }

  /** What Get answers. */
  function Answer(db: Db, now: int, key: string): Result<Any, CartError> {
    if key !in db then Err(NotFound)
    else match db[key]
      case Foreign => Err(NotDecodable)
      case Record(value, deadline) => if now > deadline then Err(NotFound) else Ok(Dynamic(UnmarshalGeneric(value)))
  }

  /** From now on Get answers until the deadline and not after it, and what it gives reads back as the value. */
  ghost predicate Serves(db: Db, now: int, key: string, value: Any, deadline: int) {
    forall later: int | now <= later ::
      match Answer(db, later, key)
      case Ok(got) => later <= deadline && ReadsBack(got, value)
      case Err(error) => later > deadline && error == NotFound
  }

  lemma RecordServes(db: Db, now: int, key: string, value: Any, json: Json, deadline: int)
    requires MarshalAny(value) == Some(json) && key in db && db[key] == Record(json, deadline)
    ensures Serves(db, now, key, value, deadline)
  {
    StoredReadsBack(value);
  }

  /** What Get leaves behind. */
  function AfterGet(db: Db, now: int, key: string): Db {
    if key in db && Expired(db[key], now) then db - {key} else db
  }

  function AfterGets(db: Db, now: int, keys: seq<string>): Db {
    db - set k | k in keys && k in db && Expired(db[k], now)
  }

  predicate AllEncodable(items: map<string, Any>) {
    forall k | k in items :: MarshalAny(items[k]).Some?
  }

  function Records(items: map<string, Any>, deadline: int): Db
    requires AllEncodable(items)
  {
    map k | k in items :: Record(MarshalAny(items[k]).value, deadline)
  }

  function Found(db: Db, now: int, keys: seq<string>): map<string, Any> {
    map k | k in keys && Answer(db, now, k).Ok? :: Answer(db, now, k).value
  }

  /** What Get answers when the database fails to read some keys. */
  function Reply(db: Db, now: int, broken: set<string>, key: string): Result<Any, CartError> {
    if key in broken then Err(DbError) else Answer(db, now, key)
  }

  /** GetMulti ran into an error that is not a miss, after reading the keys before it. */
  predicate StoppedAtError(before: Db, now: int, broken: set<string>, keys: seq<string>, after: Db, error: CartError) {
    error != NotFound && exists i | 0 <= i < |keys| ::
      Reply(before, now, broken, keys[i]) == Err(error) && after == AfterGets(before, now, keys[..i])
  }

  lemma EncodableExactly(items: map<string, Any>)
    ensures AllEncodable(items) <==> forall k | k in items :: !items[k].Unencodable?
  {
    forall k | k in items
      ensures MarshalAny(items[k]).Some? <==> !items[k].Unencodable?
    {
      StoredReadsBack(items[k]);
    }
  }

  lemma RecordsServe(db: Db, items: map<string, Any>, now: int, deadline: int)
    requires AllEncodable(items)
    ensures forall k | k in items :: Serves(db + Records(items, deadline), now, k, items[k], deadline)
  {
    forall k | k in items
      ensures Serves(db + Records(items, deadline), now, k, items[k], deadline)
    {
      RecordServes(db + Records(items, deadline), now, k, items[k], MarshalAny(items[k]).value, deadline);
    }
  }

  class Cart {
    var db: Db
    var now: int

    constructor (now: int)
      ensures db == map[] && this.now == now
    {
      db := map[];
      this.now := now;
    }

    method Get(key: string, up: bool) returns (r: Result<Any, CartError>)
      modifies `db
      ensures if up then r == Answer(old(db), now, key) && db == AfterGet(old(db), now, key)
              else r == Err(DbError) && db == old(db)
    {
      if !up {
        return Err(DbError);
      }
      if key !in db {
        return Err(NotFound);
      }
      match db[key]
      case Foreign => r := Err(NotDecodable);
      case Record(value, deadline) =>
        if now > deadline {
          db := db - {key};
          return Err(NotFound);
        }
        r := Ok(Dynamic(UnmarshalGeneric(value)));
    }

    method Exists(key: string, up: bool) returns (r: Result<bool, CartError>)
      ensures r == if up then Ok(key in db) else Err(DbError)
    {
      r := if up then Ok(key in db) else Err(DbError);
    }

    method Set(key: string, value: Any, expiration: int, up: bool) returns (err: Option<CartError>)
      modifies `db
      ensures MarshalAny(value).None? ==> err == Some(NotEncodable) && db == old(db)
      ensures MarshalAny(value).Some? && !up ==> err == Some(DbError) && db == old(db)
      ensures MarshalAny(value).Some? && up ==>
        err == None && db == old(db)[key := Record(MarshalAny(value).value, now + expiration)]
      ensures err == Some(NotEncodable) <==> value.Unencodable?
      ensures err == None ==> Serves(db, now, key, value, now + expiration)
    {
      StoredReadsBack(value);
      var data := MarshalAny(value);
      if data.None? {
        return Some(NotEncodable);
      }
      if !up {
        return Some(DbError);
      }
      db := db[key := Record(data.value, now + expiration)];
      RecordServes(db, now, key, value, data.value, now + expiration);
      err := None;
    }

    /** Misses are skipped; the first other error ends the call. */
    method GetMulti(keys: seq<string>, broken: set<string>) returns (r: Result<map<string, Any>, CartError>)
      modifies `db
      ensures r.Ok? <==> forall k | k in keys :: Reply(old(db), now, broken, k).Ok? || Reply(old(db), now, broken, k).error == NotFound
      ensures r.Ok? ==> r.value == Found(old(db), now, keys) && db == AfterGets(old(db), now, keys)
      ensures r.Err? ==> StoppedAtError(old(db), now, broken, keys, db, r.error)
    {
      var result: map<string, Any> := map[];
      for i := 0 to |keys|
        invariant forall j | 0 <= j < i ::
          Reply(old(db), now, broken, keys[j]).Ok? || Reply(old(db), now, broken, keys[j]).error == NotFound
        invariant result == Found(old(db), now, keys[..i])
        invariant db == AfterGets(old(db), now, keys[..i])
      {
        assert keys[..i + 1] == keys[..i] + [keys[i]];
        GetUnaffected(old(db), now, keys[..i], keys[i]);
        FoundGrows(old(db), now, keys[..i], keys[i]);
        var value := Get(keys[i], keys[i] !in broken);
        if value.Err? {
          if value.error == NotFound {
            continue;
          }
          ReadingStops(old(db), now, broken, keys, i);
          return Err(value.error);
        }
        result := result[keys[i] := value.value];
      }
      assert keys[..|keys|] == keys;
      r := Ok(result);
    }

    /** One batch, committed only when every item was encoded: all of the items or none. */
    method SetMulti(items: map<string, Any>, expiration: int, commits: bool) returns (err: Option<CartError>)
      modifies `db
      ensures !AllEncodable(items) ==> err == Some(NotEncodable) && db == old(db)
      ensures AllEncodable(items) && !commits ==> err == Some(DbError) && db == old(db)
      ensures AllEncodable(items) && commits ==> err == None && db == old(db) + Records(items, now + expiration)
      ensures err == Some(NotEncodable) <==> exists k | k in items :: items[k].Unencodable?
      ensures err == None ==> forall k | k in items :: Serves(db, now, k, items[k], now + expiration)
    {
      hide Serves;
      EncodableExactly(items);
      var batch: Db := map[];
      var todo := items.Keys;
      while todo != {}
        invariant todo <= items.Keys && batch.Keys == items.Keys - todo
        invariant forall k | k in batch :: MarshalAny(items[k]).Some? && batch[k] == Record(MarshalAny(items[k]).value, now + expiration)
        decreases todo
      {
        var key :| key in todo;
        var data := MarshalAny(items[key]);
        if data.None? {
          return Some(NotEncodable);
        }
        batch := batch[key := Record(data.value, now + expiration)];
        todo := todo - {key};
      }
      if !commits {
        return Some(DbError);
      }
      assert batch == Records(items, now + expiration);
      RecordsServe(db, items, now, now + expiration);
      db := db + batch;
      err := None;
    }

    method DeleteMulti(keys: seq<string>, commits: bool) returns (err: Option<CartError>)
      modifies `db
      ensures err.Some? <==> !commits
      ensures db == if commits then old(db) - (set k | k in keys) else old(db)
    {
      var batch: set<string> := {};
      for i := 0 to |keys|
        invariant batch == set k | k in keys[..i]
      {
        batch := batch + {keys[i]};
        assert keys[..i + 1] == keys[..i] + [keys[i]];
      }
      assert keys[..|keys|] == keys;
      if !commits {
        return Some(DbError);
      }
      db := db - batch;
      err := None;
    }

    /** Deletes the keys the iterator saw; `meanwhile` is what others write before the commit. */
    method Clear(meanwhile: Db, commits: bool) returns (err: Option<CartError>)
      modifies `db
      ensures err.Some? <==> !commits
      ensures db == if commits then (old(db) + meanwhile) - old(db).Keys else old(db) + meanwhile
      ensures commits && meanwhile == map[] ==> db == map[]
    {
      var snapshot := db;
      var batch: set<string> := {};
      var rest := snapshot.Keys;
      while rest != {}
        invariant rest <= snapshot.Keys && batch == snapshot.Keys - rest
        decreases rest
      {
        var key :| key in rest;
        batch := batch + {key};
        rest := rest - {key};
      }
      db := db + meanwhile;
      if !commits {
        return Some(DbError);
      }
      db := db - batch;
      err := None;
    }
  }

  lemma FoundGrows(db: Db, now: int, keys: seq<string>, key: string)
    ensures
      Found(db, now, keys + [key]) == match Answer(db, now, key)
                                      case Ok(value) => Found(db, now, keys)[key := value]
                                      case Err(_) => Found(db, now, keys)
  {
  }

  lemma ReadingStops(before: Db, now: int, broken: set<string>, keys: seq<string>, i: nat)
    requires i < |keys| && Reply(before, now, broken, keys[i]).Err? && Reply(before, now, broken, keys[i]) != Err(NotFound)
    ensures StoppedAtError(before, now, broken, keys, AfterGets(before, now, keys[..i]), Reply(before, now, broken, keys[i]).error)
  {
  }

  /** Deleting expired records of some keys changes no answer. */
  lemma GetUnaffected(db: Db, now: int, keys: seq<string>, key: string)
    ensures Answer(AfterGets(db, now, keys), now, key) == Answer(db, now, key)
    ensures AfterGet(AfterGets(db, now, keys), now, key) == AfterGets(db, now, keys + [key])
  {
  }

  // ----- Deletion on read, over whole histories -----

  datatype Cmd =
    | Get(key: string)
    | Set(key: string, json: Json, ttl: int)
    | Delete(keys: set<string>)
    | Advance(d: nat)

  datatype Store = Store(db: Db, now: int)

  /** One command; `lazy` tells whether Get deletes what it finds expired. */
  function Exec(s: Store, c: Cmd, lazy: bool): Store {
    match c
    case Get(key) => if lazy then s.(db := AfterGet(s.db, s.now, key)) else s
    case Set(key, json, ttl) => s.(db := s.db[key := Record(json, s.now + ttl)])
    case Delete(keys) => s.(db := s.db - keys)
    case Advance(d) => s.(now := s.now + d)
  }

  function Final(s: Store, cmds: seq<Cmd>, lazy: bool): Store {
    if cmds == [] then s else Exec(Final(s, cmds[..|cmds| - 1], lazy), cmds[|cmds| - 1], lazy)
  }

  /** The second store lacks some records that are expired in the first. */
  ghost predicate Pruned(full: Store, pruned: Store) {
    && full.now == pruned.now
    && (forall k :: k in pruned.db ==> k in full.db && pruned.db[k] == full.db[k])
    && (forall k :: k in full.db && k !in pruned.db ==> Expired(full.db[k], full.now))
  }

  lemma {:induction false} LazyIsPruned(s: Store, cmds: seq<Cmd>)
    ensures Pruned(Final(s, cmds, false), Final(s, cmds, true))
  {
    if cmds != [] {
      LazyIsPruned(s, cmds[..|cmds| - 1]);
    }
  }

  /**
  Whether Get deletes what it finds expired makes no difference to any later Get; it can only turn
  an Exists from true to false, and only for a record that has expired.
  */
  lemma DeletionOnReadInvisible(s: Store, cmds: seq<Cmd>, key: string)
    ensures
      var (lazy, pure) := (Final(s, cmds, true), Final(s, cmds, false));
      && Answer(lazy.db, lazy.now, key) == Answer(pure.db, pure.now, key)
      && (key in lazy.db ==> key in pure.db)
      && (key in pure.db && key !in lazy.db ==> Expired(pure.db[key], pure.now))
  {
    LazyIsPruned(s, cmds);
  }

  /**
  The delete is a command of its own: if others write between the read and the delete, it is invisible
  exactly when it does not hit a record that was put there anew.
  */
  lemma LateDeletionExactly(between: Db, now: int, key: string)
    ensures Answer(between - {key}, now, key) == Answer(between, now, key) <==> key !in between || Expired(between[key], now)
  {
    assert Answer(between - {key}, now, key) == Err(NotFound);
  }

  /** Exists against Get: it is true exactly for the hits and for what is there but expired or foreign. */
  lemma ExistsAgainstGet(db: Db, now: int, key: string)
    ensures Answer(db, now, key).Ok? ==> key in db
    ensures key !in db ==> Answer(db, now, key) == Err(NotFound)
    ensures key in db && Answer(db, now, key) == Err(NotFound) <==> key in db && Expired(db[key], now)
    ensures Answer(db, now, key) == Err(NotFound) ==> key !in AfterGet(db, now, key)
  {
  }

  /** One Get after the other, keeping the hits. */
  function GetAll(db: Db, now: int, keys: seq<string>): map<string, Any> {
    if keys == [] then map[]
    else
      var n := |keys| - 1;
      match Answer(db, now, keys[n])
      case Ok(value) => GetAll(db, now, keys[..n])[keys[n] := value]
      case Err(_) => GetAll(db, now, keys[..n])
  }

  /** What GetMulti returns is the fold of single Gets. */
  lemma {:induction false} GetMultiEqualsGets(db: Db, now: int, keys: seq<string>)
    ensures Found(db, now, keys) == GetAll(db, now, keys)
  {
    if keys != [] {
      var n := |keys| - 1;
      GetMultiEqualsGets(db, now, keys[..n]);
      FoundGrows(db, now, keys[..n], keys[n]);
      assert keys == keys[..n] + [keys[n]];
    }
  }

  /** So Exists is not determined by the writes alone: a Get in between changes its answer. */
  lemma GetChangesExists()
    ensures exists s: Store, key, c: Cmd ::
      c.Get? && key in s.db && key !in Exec(s, c, true).db && Answer(s.db, s.now, key) == Err(NotFound)
  {
    var s := Store(map["k" := Record(JNull, 5)], 10);
    assert Cmd.Get("k").Get? && "k" in s.db && "k" !in Exec(s, Cmd.Get("k"), true).db;
    assert Answer(s.db, s.now, "k") == Err(NotFound);
  }

  // ----- Batches against single commands -----

  function SetAll(db: Db, items: Db, order: seq<string>): Db
    requires forall i | 0 <= i < |order| :: order[i] in items
  {
    if order == [] then db
    else SetAll(db, items, order[..|order| - 1])[order[|order| - 1] := items[order[|order| - 1]]]
  }

  lemma {:induction false} SetAllEntries(db: Db, items: Db, order: seq<string>, k: string)
    requires forall i | 0 <= i < |order| :: order[i] in items
    ensures
      var after := SetAll(db, items, order);
      if k in order then k in after && after[k] == items[k]
      else (k in after <==> k in db) && (k in db ==> after[k] == db[k])
  {
    if order != [] {
      SetAllEntries(db, items, order[..|order| - 1], k);
      assert order == order[..|order| - 1] + [order[|order| - 1]];
    }
  }

  /** A committed SetMulti is one Set after the other, in any order of the keys. */
  lemma BatchEqualsSets(db: Db, items: Db, order: seq<string>)
    requires forall i | 0 <= i < |order| :: order[i] in items
    requires forall k | k in items :: k in order
    ensures db + items == SetAll(db, items, order)
  {
    forall k
      ensures k in db + items <==> k in SetAll(db, items, order)
      ensures k in db + items ==> (db + items)[k] == SetAll(db, items, order)[k]
    {
      SetAllEntries(db, items, order, k);
    }
  }
}
