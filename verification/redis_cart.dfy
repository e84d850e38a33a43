/** The Redis cart: JSON payloads, batch operations, locks and the heartbeat loop. */
module RedisCart {
  import opened Wrappers
  import opened Expiry
  import opened Keyspace
  import opened Durations
  import opened Typed
  import opened Heartbeat
  import Wait

  /** A stored string: JSON text, or text that is not JSON. */
  datatype Payload = Encoded(json: Json) | Opaque(text: string)

  datatype CartError = NotFound | NotEncodable | ServerError | LoaderFailed
    | GaveUpWaiting(error: Wait.WaitError)
    | StillWaiting  // the polls handed in do not bring the wait to an end

  /** Get's fallback: what does not parse is returned as it is. */
  function ReadPayload(p: Payload): Any {
    match p
    case Encoded(j) => Dynamic(UnmarshalGeneric(j))
    case Opaque(text) => Dynamic(GStr(text))
  }

  function SetCommand(table: Table<Payload>, now: int, key: string, json: Json, d: nat): Table<Payload> {
    table[key := Entry(Encoded(json), LeaseEnd(SetLease(d), now))]
  }

  predicate AllEncodable(items: map<string, Any>) {
    forall k | k in items :: MarshalAny(items[k]).Some?
  }

  function Texts(items: map<string, Any>): map<string, Json>
    requires AllEncodable(items)
  {
    map k | k in items :: MarshalAny(items[k]).value
  }

  /** The table with all the items, of which those in `done` have a time to live. */
  function WithItems(table: Table<Payload>, texts: map<string, Json>, done: set<string>, now: int, d: nat): Table<Payload> {
    table + map k | k in texts :: Entry(Encoded(texts[k]), if k in done then At(now + ExpireDuration(d)) else Never)
  }

  lemma RestSize(all: set<string>, part: set<string>)
    requires part <= all
    ensures |all - part| == |all| - |part|
  {
    assert all == part + (all - part);
  }

  function ExpireCommand(table: Table<Payload>, now: int, key: string, d: nat): Table<Payload>
    requires key in table
  {
    table[key := table[key].(deadline := At(now + ExpireDuration(d)))]
  }

  lemma ExpireOne(table: Table<Payload>, texts: map<string, Json>, todo: set<string>, now: int, d: nat, key: string)
    requires key in texts && key in todo
    ensures
      ExpireCommand(WithItems(table, texts, texts.Keys - todo, now, d), now, key, d)
      == WithItems(table, texts, texts.Keys - (todo - {key}), now, d)
  {
  }

  /** What a single Get answers when it reaches the server. */
  function GetReply(table: Table<Payload>, now: int, key: string): Result<Any, CartError> {
    match Lookup(table, now, key)
    case Some(p) => Ok(ReadPayload(p))
    case None => Err(NotFound)
  }

  /**
  In a reader's terms: from now on Get answers for the key until the deadline and not after it, and what
  it gives reads back as the value that was stored.
  */
  ghost predicate Serves(table: Table<Payload>, now: int, key: string, value: Any, deadline: Deadline) {
    forall later: int | now <= later ::
      match GetReply(table, later, key)
      case Ok(got) => (deadline.Never? || later <= deadline.instant) && ReadsBack(got, value)
      case Err(error) => deadline.At? && later > deadline.instant && error == NotFound
  }

  function EndOfSet(now: int, d: nat): Deadline {
    if d == 0 then Never else At(now + SetDuration(d))
  }

  lemma EntryServes(table: Table<Payload>, now: int, key: string, value: Any, json: Json, deadline: Deadline)
    requires MarshalAny(value) == Some(json)
    requires key in table && table[key] == Entry(Encoded(json), deadline)
    ensures Serves(table, now, key, value, deadline)
  {
    StoredReadsBack(value);
  }

  lemma ServesApart(s: Table<Payload>, t: Table<Payload>, now: int, key: string, value: Any, deadline: Deadline)
    requires Serves(s, now, key, value, deadline) && (key in s <==> key in t) && (key in s ==> t[key] == s[key])
    ensures Serves(t, now, key, value, deadline)
  {
    forall later: int
      ensures GetReply(t, later, key) == GetReply(s, later, key)
    {
    }
  }

  /** What GetMulti must return: the decoded payloads of the live keys among those asked for. */
  function LiveValues(table: Table<Payload>, now: int, keys: set<string>): map<string, Any> {
    map k | k in keys && Live(table, now, k) :: ReadPayload(table[k].payload)
  }

  lemma EncodableExactly(items: map<string, Any>)
    ensures AllEncodable(items) <==> forall k | k in items :: !items[k].Unencodable?
  {
    forall k | k in items
      ensures MarshalAny(items[k]).Some? <==> !items[k].Unencodable?
    {
      StoredReadsBack(items[k]);
    }
  }

  lemma ItemsServe(table: Table<Payload>, items: map<string, Any>, done: set<string>, now: int, d: nat)
    requires AllEncodable(items)
    ensures forall k | k in items ::
      Serves(WithItems(table, Texts(items), done, now, d), now, k, items[k], if k in done then At(now + ExpireDuration(d)) else Never)
  {
    forall k | k in items
      ensures Serves(WithItems(table, Texts(items), done, now, d), now, k, items[k], if k in done then At(now + ExpireDuration(d)) else Never)
    {
      EntryServes(WithItems(table, Texts(items), done, now, d), now, k, items[k], MarshalAny(items[k]).value,
                  if k in done then At(now + ExpireDuration(d)) else Never);
    }
  }

  class Server {
    var table: Table<Payload>
    var now: int

    constructor (now: int)
      ensures table == map[] && this.now == now
    {
      table := map[];
      this.now := now;
    }
  }

  /** Which commands of a SetMulti the server refuses: MSET, or an EXPIRE after so many. */
  datatype Faults = Faults(mset: bool, expireAfter: Option<nat>)

  /** Which commands of one GetOrSetWithLock reach the server. */
  datatype Link = Link(firstGet: bool, acquire: bool, secondGet: bool, writeBack: bool, release: bool)

  /** The server just before the lock is acquired: another process may have stored the value meanwhile. */
  function Meanwhile(table: Table<Payload>, now: int, key: string, other: Option<Json>): Table<Payload> {
    if other.Some? then SetCommand(table, now, key, other.value, 0) else table
  }

  /** The loader gave no value to store: an error, or an untyped nil. */
  predicate NoValue(load: Option<Any>) {
    load.None? || load.value == Dynamic(GNil)
  }

  /** The server after the write-back of a loaded value, if there is one. */
  function WrittenBack(table: Table<Payload>, now: int, key: string, load: Option<Any>, d: nat, up: bool): Table<Payload> {
    if !NoValue(load) && up && MarshalAny(load.value).Some?
    then SetCommand(table, now, key, MarshalAny(load.value).value, d)
    else table
  }

  /** When the heartbeat's extensions land while the loader runs, and when the loader is done. */
  datatype Loading = Loading(landings: seq<int>, finish: int)

  predicate ValidLoading(loading: Loading, now: int) {
    && now <= loading.finish
    && (forall i | 0 <= i < |loading.landings| :: now <= loading.landings[i] <= loading.finish)
    && (forall i | 0 < i < |loading.landings| :: loading.landings[i - 1] <= loading.landings[i])
  }

  function WaitReply(waited: Wait.WaitResult<Any>): Result<Any, CartError> {
    match waited
    case Found(value) => Ok(value)
    case GaveUp(error) => Err(GaveUpWaiting(error))
    case StillWaiting => Err(CartError.StillWaiting)
  }

  lemma WriteApart(s: Table<Payload>, t: Table<Payload>, now: int, key: string, lock: string, load: Option<Any>, d: nat, up: bool)
    requires key != lock && s - {lock} == t - {lock}
    ensures WrittenBack(s, now, key, load, d, up) - {lock} == WrittenBack(t, now, key, load, d, up) - {lock}
  {
    if !NoValue(load) && MarshalAny(load.value).Some? {
      var entry := Entry(Encoded(MarshalAny(load.value).value), LeaseEnd(SetLease(d), now));
      assert (s[key := entry]) - {lock} == (s - {lock})[key := entry];
      assert (t[key := entry]) - {lock} == (t - {lock})[key := entry];
    }
  }

  lemma ViewApart(s: Table<Payload>, t: Table<Payload>, now: int, lock: string)
    requires s - {lock} == t - {lock} && !Live(s, now, lock) && !Live(t, now, lock)
    ensures View(s, now) == View(t, now)
  {
    forall k
      ensures k in View(s, now) <==> k in View(t, now)
      ensures k in View(s, now) ==> s[k] == t[k]
    {
      assert k != lock ==> (k in s - {lock} <==> k in s) && (k in t - {lock} <==> k in t);
    }
  }

  predicate SameAt(s: Table<Payload>, t: Table<Payload>, key: string) {
    (key in s <==> key in t) && (key in s ==> s[key] == t[key])
  }

  class Cart {
    const server: Server
    const lockTTL: nat
    const waiting: Wait.Config

    constructor (server: Server, lockTTL: nat, waiting: Wait.Config)
      ensures this.server == server && this.lockTTL == lockTTL && this.waiting == waiting
    {
      this.server := server;
      this.lockTTL := lockTTL;
      this.waiting := waiting;
    }

    function LeaseTime(ttl: nat): nat {
      if ttl == 0 then lockTTL else ttl
    }

    /** The lock as the heartbeat leaves it when the loader is done. */
    function BeatenLock(table: Table<Payload>, now: int, key: string, token: string, ttl: nat, landings: seq<int>): Table<Payload> {
      var locked := table[LockKey(key) := Entry(Opaque(token), LeaseEnd(SetLease(LeaseTime(ttl)), now))];
      AfterBeats(locked, key, Opaque(token), LeaseTime(ttl), landings, |landings|)
    }

    method Get(key: string, up: bool) returns (r: Result<Any, CartError>)
      ensures !up ==> r == Err(ServerError)
      ensures up ==> r == GetReply(server.table, server.now, key)
      ensures forall text | up && Lookup(server.table, server.now, key) == Some(Opaque(text)) :: r == Ok(Dynamic(GStr(text)))
    {
      if !up {
        return Err(ServerError);
      }
      if !Live(server.table, server.now, key) {
        return Err(NotFound);
      }
      match server.table[key].payload
      case Encoded(json) => r := Ok(Dynamic(UnmarshalGeneric(json)));
      case Opaque(text) => r := Ok(Dynamic(GStr(text)));
    }

    method Set(key: string, value: Any, expiration: nat, up: bool) returns (err: Option<CartError>)
      modifies server`table
      ensures MarshalAny(value).None? ==> err == Some(NotEncodable)
      ensures MarshalAny(value).Some? && !up ==> err == Some(ServerError)
      ensures err.Some? ==> server.table == old(server.table)
      ensures MarshalAny(value).Some? && up ==>
        err == None && server.table == SetCommand(old(server.table), server.now, key, MarshalAny(value).value, expiration)
      ensures err == Some(NotEncodable) <==> value.Unencodable?
      ensures err == None ==> Serves(server.table, server.now, key, value, EndOfSet(server.now, expiration))
    {
      StoredReadsBack(value);
      var data := MarshalAny(value);
      if data.None? {
        return Some(NotEncodable);
      }
      if !up {
        return Some(ServerError);
      }
      server.table := SetCommand(server.table, server.now, key, data.value, expiration);
      EntryServes(server.table, server.now, key, value, data.value, EndOfSet(server.now, expiration));
      err := None;
    }

    /** One MGET, decoded by position into a map. */
    method GetMulti(keys: seq<string>, up: bool) returns (r: Result<map<string, Any>, CartError>)
      ensures keys != [] && !up ==> r == Err(ServerError)
      ensures keys == [] || up ==> r == Ok(LiveValues(server.table, server.now, set k | k in keys))
    {
      if keys == [] {
        return Ok(map[]);
      }
      if !up {
        return Err(ServerError);
      }
      var values := seq(|keys|, i requires 0 <= i < |keys| reads server => Lookup(server.table, server.now, keys[i]));
      var result: map<string, Any> := map[];
      for i := 0 to |keys|
        invariant result == LiveValues(server.table, server.now, set k | k in keys[..i])
      {
        assert keys[..i + 1] == keys[..i] + [keys[i]];
        if values[i].None? {
          continue;
        }
        match values[i].value
        case Encoded(json) => result := result[keys[i] := Dynamic(UnmarshalGeneric(json))];
        case Opaque(text) => result := result[keys[i] := Dynamic(GStr(text))];
      }
      assert keys[..|keys|] == keys;
      r := Ok(result);
    }

    /** The argument list of MSET, or nothing when some value cannot be encoded. */
    method EncodeItems(items: map<string, Any>) returns (args: Option<map<string, Json>>)
      ensures args.Some? <==> AllEncodable(items)
      ensures args.Some? ==> args.value == Texts(items)
    {
      var texts: map<string, Json> := map[];
      var todo := items.Keys;
      while todo != {}
        invariant todo <= items.Keys && texts.Keys == items.Keys - todo
        invariant forall k | k in texts :: MarshalAny(items[k]) == Some(texts[k])
        decreases todo
      {
        var key :| key in todo;
        var data := MarshalAny(items[key]);
        if data.None? {
          return None;
        }
        texts := texts[key := data.value];
        todo := todo - {key};
      }
      args := Some(texts);
    }

    /** One EXPIRE for each key, in whatever order the map yields its keys. */
    method ExpireItems(ghost before: Table<Payload>, texts: map<string, Json>, expiration: nat, failAfter: Option<nat>)
      returns (err: Option<CartError>, ghost done: set<string>)
      requires server.table == WithItems(before, texts, {}, server.now, expiration)
      modifies server`table
      ensures done <= texts.Keys && server.table == WithItems(before, texts, done, server.now, expiration)
      ensures if err == None then done == texts.Keys else err == Some(ServerError) && failAfter == Some(|done|)
    {
      var todo := texts.Keys;
      var count := 0;
      assert texts.Keys - todo == {};
      while todo != {}
        invariant todo <= texts.Keys && count + |todo| == |texts.Keys|
        invariant server.table == WithItems(before, texts, texts.Keys - todo, server.now, expiration)
        decreases todo
      {
        if failAfter == Some(count) {
          RestSize(texts.Keys, todo);
          return Some(ServerError), texts.Keys - todo;
        }
        var key :| key in todo;
        ExpireOne(before, texts, todo, server.now, expiration, key);
        server.table := ExpireCommand(server.table, server.now, key, expiration);
        todo := todo - {key};
        count := count + 1;
      }
      assert texts.Keys - todo == texts.Keys;
      return None, texts.Keys;
    }

    /** One MSET for all the items, then the EXPIRE loop. */
    method SetMulti(items: map<string, Any>, expiration: nat, faults: Faults) returns (err: Option<CartError>, ghost done: set<string>)
      modifies server`table
      ensures items == map[] ==> err == None && server.table == old(server.table)
      ensures !AllEncodable(items) ==> err == Some(NotEncodable) && server.table == old(server.table)
      ensures items != map[] && AllEncodable(items) && faults.mset ==>
        err == Some(ServerError) && server.table == old(server.table)
      ensures items != map[] && AllEncodable(items) && !faults.mset ==>
        && done <= items.Keys
        && server.table == WithItems(old(server.table), Texts(items), done, server.now, expiration)
        && (if expiration == 0 then err == None && done == {}
            else if err == None then done == items.Keys
            else err == Some(ServerError) && faults.expireAfter == Some(|done|))
      ensures err == Some(NotEncodable) <==> exists k | k in items :: items[k].Unencodable?
      ensures items != map[] && err != Some(NotEncodable) && !faults.mset ==>
        forall k | k in items ::
          Serves(server.table, server.now, k, items[k], if k in done then At(server.now + ExpireDuration(expiration)) else Never)
    {
      hide Serves;
      done := {};
      EncodableExactly(items);
      if items == map[] {
        return None, done;
      }
      var args := EncodeItems(items);
      if args.None? {
        return Some(NotEncodable), done;
      }
      if faults.mset {
        return Some(ServerError), done;
      }
      server.table := WithItems(server.table, args.value, {}, server.now, 0);
      if expiration != 0 {
        err, done := ExpireItems(old(server.table), args.value, expiration, faults.expireAfter);
      } else {
        err := None;
      }
      ItemsServe(old(server.table), items, done, server.now, expiration);
    }

    method AcquireLock(key: string, token: string, ttl: nat, up: bool) returns (acquired: bool, err: Option<CartError>)
      modifies server`table
      ensures err.Some? <==> !up
      ensures acquired <==> up && !Live(old(server.table), server.now, LockKey(key))
      ensures !acquired ==> server.table == old(server.table)
      ensures acquired ==>
        server.table == old(server.table)[LockKey(key) := Entry(Opaque(token), LeaseEnd(SetLease(ttl), server.now))]
    {
      if !up {
        return false, Some(ServerError);
      }
      var (table, ok) := SetNX(server.table, server.now, LockKey(key), Opaque(token), SetLease(ttl));
      server.table := table;
      return ok, None;
    }

    method ReleaseLock(key: string, token: string, up: bool) returns (err: Option<CartError>)
      modifies server`table
      ensures err.Some? <==> !up
      ensures up && Lookup(old(server.table), server.now, LockKey(key)) == Some(Opaque(token)) ==>
        server.table == old(server.table) - {LockKey(key)}
      ensures !up || Lookup(old(server.table), server.now, LockKey(key)) != Some(Opaque(token)) ==>
        server.table == old(server.table)
    {
      if !up {
        return Some(ServerError);
      }
      server.table := ReleaseScript(server.table, server.now, LockKey(key), Opaque(token));
      err := None;
    }

    /** The loader with the heartbeat beside it, then the write-back; only the lock and the key change. */
    method LoadUnderLock(key: string, load: Option<Any>, expiration: nat, lease: nat, token: string, loading: Loading, up: bool)
      returns (r: Result<Any, CartError>)
      requires ValidLoading(loading, server.now)
      modifies server
      ensures server.now == loading.finish && r == if NoValue(load) then Err(LoaderFailed) else Ok(load.value)
      ensures server.table - {LockKey(key)}
           == WrittenBack(old(server.table), server.now, key, load, expiration, up) - {LockKey(key)}
      ensures SameAt(server.table, AfterBeats(old(server.table), key, Opaque(token), lease, loading.landings, |loading.landings|), LockKey(key))
      ensures LockKey(key) in server.table ==>
        LockKey(key) in old(server.table) && server.table[LockKey(key)].payload == old(server.table)[LockKey(key)].payload
      ensures !NoValue(load) && !load.value.Unencodable? && up ==>
        Serves(server.table, server.now, key, load.value, EndOfSet(server.now, expiration))
    {
      hide Serves;
      assert LockKey(key) != key by { assert |LockKey(key)| != |key|; }
      BeatsTouchOnlyLock(server.table, key, Opaque(token), lease, loading.landings, |loading.landings|);
      StartLockHeartbeat(key, token, lease, loading.landings);
      server.now := loading.finish;
      if NoValue(load) {
        return Err(LoaderFailed);
      }
      WriteApart(server.table, old(server.table), server.now, key, LockKey(key), load, expiration, up);
      var _ := Set(key, load.value, expiration, up);
      r := Ok(load.value);
    }

    /**
    The flight's function.  `load` is the loader's result, nothing standing for an error; the
    heartbeat runs beside the loader; `script` is what the polls of a waiting flight meet.  The lock is
    free afterwards whatever happens, unless the release itself does not reach the server.
    */
    method RunFlight(key: string, load: Option<Any>, expiration: nat, ttl: nat, token: string,
                     loading: Loading, script: seq<Wait.Attempt<Any>>, link: Link)
      returns (r: Result<Any, CartError>, loaded: bool, ghost waited: Wait.WaitResult<Any>, ghost polls: nat)
      requires ValidLoading(loading, server.now) && Wait.ValidConfig(waiting) && Wait.ValidScript(script)
      modifies server
      ensures !link.acquire || Live(old(server.table), old(server.now), LockKey(key)) ==>
        !loaded && server.table == old(server.table) && server.now == old(server.now)
      ensures !link.acquire ==> r == Err(ServerError)
      ensures link.acquire && Live(old(server.table), old(server.now), LockKey(key)) ==>
        && Wait.Waited(waiting, script, waited, polls) && r == WaitReply(waited)
        && (forall n: nat | n < |script| && Wait.EndsInHit(waiting, script, n) :: r == Ok(script[n].reply.value))
      ensures loaded && !NoValue(load) && !load.value.Unencodable? && link.writeBack ==>
        Serves(server.table, server.now, key, load.value, EndOfSet(server.now, expiration))
      ensures link.acquire && !Live(old(server.table), old(server.now), LockKey(key)) ==>
        var hit := link.secondGet && Live(old(server.table), old(server.now), key);
        && loaded == !hit && server.now == (if hit then old(server.now) else loading.finish)
        && r == (if hit then Ok(ReadPayload(old(server.table)[key].payload))
                 else if NoValue(load) then Err(LoaderFailed) else Ok(load.value))
        && var after := if hit then old(server.table) else WrittenBack(old(server.table), server.now, key, load, expiration, link.writeBack);
           && server.table - {LockKey(key)} == after - {LockKey(key)}
           && (link.release ==> !Live(server.table, server.now, LockKey(key)))
           && (!link.release ==>
                 var landings := if hit then [] else loading.landings;
                 SameAt(server.table, BeatenLock(old(server.table), old(server.now), key, token, ttl, landings), LockKey(key)))
    {
      hide Serves, Wait.Waited, WrittenBack;
      waited, polls := Wait.StillWaiting, 0;
      assert LockKey(key) != key by { assert |LockKey(key)| != |key|; }
      ghost var before := server.table;
      var acquired, err := AcquireLock(key, token, LeaseTime(ttl), link.acquire);
      if err.Some? {
        return Err(ServerError), false, waited, polls;
      }
      if !acquired {
        var result, n := Wait.WaitForCache(waiting, script);
        forall i: nat | i < |script| && Wait.EndsInHit(waiting, script, i)
          ensures result == Wait.Found(script[i].reply.value)
        {
          Wait.HitStops(waiting, script, result, n, i);
        }
        return WaitReply(result), false, result, n;
      }
      ghost var locked := server.table;
      r := Get(key, link.secondGet);
      loaded := r.Err?;
      if loaded {
        r := LoadUnderLock(key, load, expiration, LeaseTime(ttl), token, loading, link.writeBack);
        WriteApart(locked, before, server.now, key, LockKey(key), load, expiration, link.writeBack);
      }
      assert server.table - {LockKey(key)} - {LockKey(key)} == server.table - {LockKey(key)};
      ghost var written := server.table;
      var _ := ReleaseLock(key, token, link.release);
      if loaded && !NoValue(load) && !load.value.Unencodable? && link.writeBack {
        ServesApart(written, server.table, server.now, key, load.value, EndOfSet(server.now, expiration));
      }
    }

    /** A whole call; another process may store the value between the first read and the lock. */
    method GetOrSetWithLock(key: string, load: Option<Any>, expiration: nat, ttl: nat, token: string, other: Option<Json>,
                            loading: Loading, script: seq<Wait.Attempt<Any>>, link: Link)
      returns (r: Result<Any, CartError>, loaded: bool, ghost waited: Wait.WaitResult<Any>, ghost polls: nat)
      requires ValidLoading(loading, server.now) && Wait.ValidConfig(waiting) && Wait.ValidScript(script)
      modifies server
      ensures !link.firstGet ==> r == Err(ServerError) && !loaded && server.table == old(server.table)
      ensures link.firstGet && Live(old(server.table), old(server.now), key) ==>
        r == Ok(ReadPayload(old(server.table)[key].payload)) && !loaded && server.table == old(server.table)
      ensures link.firstGet && !Live(old(server.table), old(server.now), key) && !link.acquire ==> r == Err(ServerError) && !loaded
      ensures link.firstGet && !Live(old(server.table), old(server.now), key) && link.acquire
              && Live(old(server.table), old(server.now), LockKey(key)) ==>
        && Wait.Waited(waiting, script, waited, polls) && r == WaitReply(waited) && !loaded
        && (forall n: nat | n < |script| && Wait.EndsInHit(waiting, script, n) :: r == Ok(script[n].reply.value))
      ensures link.firstGet && !Live(old(server.table), old(server.now), key) && link.acquire
              && !Live(old(server.table), old(server.now), LockKey(key)) ==>
        && loaded == (other.None? || !link.secondGet)
        && r == (if !loaded then Ok(ReadPayload(Encoded(other.value)))
                 else if NoValue(load) then Err(LoaderFailed) else Ok(load.value))
      ensures loaded && !NoValue(load) && !load.value.Unencodable? && link.writeBack ==>
        Serves(server.table, server.now, key, load.value, EndOfSet(server.now, expiration))
      ensures link.release && !Live(old(server.table), old(server.now), LockKey(key)) ==> !Live(server.table, server.now, LockKey(key))
      ensures link.release && NoValue(load) && other.None? ==> View(server.table, server.now) == View(old(server.table), server.now)
    {
      hide Serves, Wait.Waited;
      waited, polls := Wait.StillWaiting, 0;
      var first := Get(key, link.firstGet);
      if first.Ok? || first.error != NotFound {
        return first, false, waited, polls;
      }
      assert LockKey(key) != key by { assert |LockKey(key)| != |key|; }
      server.table := Meanwhile(server.table, server.now, key, other);
      r, loaded, waited, polls := RunFlight(key, load, expiration, ttl, token, loading, script, link);
      if link.release && NoValue(load) && other.None? && link.acquire && !Live(old(server.table), old(server.now), LockKey(key)) {
        ViewApart(server.table, old(server.table), server.now, LockKey(key));
      }
    }

    /** The heartbeat goroutine: one extension after another until one is refused or the list ends. */
    method StartLockHeartbeat(key: string, token: string, ttl: nat, landings: seq<int>)
      requires forall i | 0 <= i < |landings| :: server.now <= landings[i]
      requires forall i | 0 < i < |landings| :: landings[i - 1] <= landings[i]
      modifies server
      ensures server.table == AfterBeats(old(server.table), key, Opaque(token), ttl, landings, |landings|)
    {
      var i := 0;
      while i < |landings|
        invariant i <= |landings|
        invariant server.table == AfterBeats(old(server.table), key, Opaque(token), ttl, landings, i)
      {
        server.now := landings[i];
        var (table, extended) := ExtendLock(server.table, server.now, key, Opaque(token), ttl);
        server.table := table;
        if !extended {
          RefusedForGood(old(server.table), key, Opaque(token), ttl, landings, i, |landings|);
          return;
        }
        i := i + 1;
      }
    }
  }

  // ----- Batch operations against single ones -----

  /** The order lists all the keys and nothing else, as any order in which a map yields its keys does. */
  predicate Lists(order: seq<string>, keys: set<string>) {
    && (forall k | k in keys :: k in order)
    && (forall i | 0 <= i < |order| :: order[i] in keys)
  }

  /** One Set after the other. */
  function SetAll(table: Table<Payload>, now: int, texts: map<string, Json>, order: seq<string>, d: nat): Table<Payload>
    requires forall i | 0 <= i < |order| :: order[i] in texts
  {
    if order == [] then table
    else
      var n := |order| - 1;
      SetCommand(SetAll(table, now, texts, order[..n], d), now, order[n], texts[order[n]], d)
  }

  lemma {:induction false} SetAllEntries(table: Table<Payload>, now: int, texts: map<string, Json>, order: seq<string>, d: nat, k: string)
    requires forall i | 0 <= i < |order| :: order[i] in texts
    ensures
      var after := SetAll(table, now, texts, order, d);
      if k in order then k in after && after[k] == Entry(Encoded(texts[k]), LeaseEnd(SetLease(d), now))
      else (k in after <==> k in table) && (k in table ==> after[k] == table[k])
  {
    if order != [] {
      var n := |order| - 1;
      SetAllEntries(table, now, texts, order[..n], d, k);
      assert order == order[..n] + [order[n]];
    }
  }

  /** The durations for which SET and EXPIRE agree; zero stands for no expiry in both. */
  predicate SameDuration(d: nat) {
    d == 0 || (d >= SECOND && d % SECOND < MILLISECOND)
  }

  lemma SameDurationExactly(d: nat)
    requires d > 0
    ensures SetDuration(d) == ExpireDuration(d) <==> SameDuration(d)
  {
    var whole, rest := d / SECOND, d % SECOND;
    assert d == whole * SECOND + rest && SECOND == 1000 * MILLISECOND;
    assert d / MILLISECOND == whole * 1000 + rest / MILLISECOND;
  }

  lemma SetAllAsUpdate(table: Table<Payload>, now: int, texts: map<string, Json>, order: seq<string>, d: nat)
    requires Lists(order, texts.Keys)
    ensures SetAll(table, now, texts, order, d) == table + map k | k in texts :: Entry(Encoded(texts[k]), LeaseEnd(SetLease(d), now))
  {
    var update := map k | k in texts :: Entry(Encoded(texts[k]), LeaseEnd(SetLease(d), now));
    forall k
      ensures k in SetAll(table, now, texts, order, d) <==> k in table + update
      ensures k in table + update ==> SetAll(table, now, texts, order, d)[k] == (table + update)[k]
    {
      SetAllEntries(table, now, texts, order, d, k);
    }
  }

  /**
  In an error-free run SetMulti leaves the server as repeated Set would, in any order of the keys,
  exactly when the expiration is zero or a number of whole seconds (up to the milliseconds that
  the client drops anyway).
  */
  lemma SetMultiEqualsSets(table: Table<Payload>, now: int, texts: map<string, Json>, order: seq<string>, d: nat)
    requires texts != map[] && Lists(order, texts.Keys)
    ensures
      var done := if d == 0 then {} else texts.Keys;
      WithItems(table, texts, done, now, d) == SetAll(table, now, texts, order, d) <==> SameDuration(d)
  {
    var done := if d == 0 then {} else texts.Keys;
    SetAllAsUpdate(table, now, texts, order, d);
    if d > 0 {
      SameDurationExactly(d);
      var k :| k in texts;
      assert SetAll(table, now, texts, order, d)[k].deadline == At(now + SetDuration(d));
      assert WithItems(table, texts, done, now, d)[k].deadline == At(now + ExpireDuration(d));
    }
  }

  /** One Get after the other, keeping the hits. */
  function GetAll(table: Table<Payload>, now: int, keys: seq<string>): map<string, Any> {
    if keys == [] then map[]
    else
      var n := |keys| - 1;
      match GetReply(table, now, keys[n])
      case Ok(value) => GetAll(table, now, keys[..n])[keys[n] := value]
      case Err(_) => GetAll(table, now, keys[..n])
  }

  /** What GetMulti returns is the fold of single Gets, in whatever order and however often the keys are listed. */
  lemma {:induction false} GetMultiEqualsGets(table: Table<Payload>, now: int, keys: seq<string>)
    ensures LiveValues(table, now, set k | k in keys) == GetAll(table, now, keys)
  {
    if keys != [] {
      var n := |keys| - 1;
      GetMultiEqualsGets(table, now, keys[..n]);
      assert keys == keys[..n] + [keys[n]];
    }
  }

  /** A typed value set and read back before it expires decodes to itself exactly when its integers survive float64. */
  lemma StoredValueDecodes(table: Table<Payload>, now: int, later: int, key: string, t: Type, v: Value, d: nat)
    requires HasType(v, t) && WellFormed(t)
    requires Live(SetCommand(table, now, key, Marshal(v), d), later, key)
    ensures Decode(t, ReadPayload(Lookup(SetCommand(table, now, key, Marshal(v), d), later, key).value)) == Ok(v) <==> AllSurvive(v)
  {
    HitEqualsMiss(t, v);
  }
}
