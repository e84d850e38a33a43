/** The Valkey cart: one SET for each item, and a GetMulti that takes an empty string for a miss. */
module ValkeyCart {
  import opened Wrappers
  import opened Expiry
  import opened Keyspace
  import opened Typed
  import opened Durations
  import opened RedisCart
  import opened Keys

  // ----- Stored strings -----

  ghost function Quote(s: string): string {
    "\"" + Escape(s) + "\""
  }

  /** Quotes, backslashes and control characters are escaped; which escape is used does not matter here. */
  ghost function Escape(s: string): string {
    if s == "" then ""
    else (if s[0] == '"' || s[0] == '\\' || s[0] < ' ' then ['\\', s[0]] else [s[0]]) + Escape(s[1..])
  }

  /** JSON text; the fields of an object stand in some order. */
  ghost function Render(j: Json): string
    decreases j, 1, 0
  {
    match j
    case JNull => "null"
    case JBool(b) => if b then "true" else "false"
    case JNum(n) => FormatInt(n)
    case JStr(s) => Quote(s)
    case JArr(items) => "[" + RenderItems(j, |items|) + "]"
    case JObj(fields) => "{" + RenderFields(j, fields.Keys) + "}"
  }

  ghost function RenderItems(j: Json, n: nat): string
    requires j.JArr? && n <= |j.items|
    decreases j, 0, n
  {
    if n == 0 then ""
    else RenderItems(j, n - 1) + (if n == 1 then "" else ",") + Render(j.items[n - 1])
  }

  ghost function RenderFields(j: Json, keys: set<string>): string
    requires j.JObj? && keys <= j.fields.Keys
    decreases j, 0, |keys|
  {
    if keys == {} then ""
    else
      var k :| k in keys;
      Quote(k) + ":" + Render(j.fields[k]) + (if |keys| == 1 then "" else ",") + RenderFields(j, keys - {k})
  }

  /** The string that the server holds. */
  ghost function TextOf(p: Payload): string {
    match p
    case Encoded(json) => Render(json)
    case Opaque(text) => text
  }

  /** JSON text is never empty: it starts with a letter, a digit, a sign, a quote or a bracket. */
  lemma RenderedIsNotEmpty(j: Json)
    ensures Render(j) != ""
  {
    match j
    case JNum(n) => ParseFormatInt(n);
    case _ =>
  }

  predicate ReadsEmpty(p: Payload)
    ensures ReadsEmpty(p) <==> TextOf(p) == ""
  {
    match p
    case Encoded(json) => RenderedIsNotEmpty(json); false
    case Opaque(text) => text == ""
  }

  // ----- Commands -----

  /** SET with EX: whole seconds, of which the server wants at least one; `up` tells whether it answers at all. */
  function Put(table: Table<Payload>, now: int, key: string, value: Any, expiration: nat, up: bool): (Table<Payload>, Option<CartError>) {
    match MarshalAny(value)
    case None => (table, Some(NotEncodable))
    case Some(json) =>
      if !up || expiration < SECOND then (table, Some(ServerError))
      else (table[key := Entry(Encoded(json), At(now + WholeSeconds(expiration)))], None)
  }

  /** One Put after the other, up to the first that fails. */
  function PutAll(table: Table<Payload>, now: int, items: seq<(string, Any)>, expiration: nat, refused: set<string>)
    : (Table<Payload>, Option<CartError>)
    decreases |items|
  {
    if items == [] then (table, None)
    else
      var n := |items| - 1;
      var (before, err) := PutAll(table, now, items[..n], expiration, refused);
      if err.Some? then (before, err) else Put(before, now, items[n].0, items[n].1, expiration, items[n].0 !in refused)
  }

  lemma {:induction false} PutAllEntry(table: Table<Payload>, now: int, order: seq<(string, Any)>, items: map<string, Any>,
                                       expiration: nat, refused: set<string>, k: string)
    requires forall i | 0 <= i < |order| :: order[i].0 in items && items[order[i].0] == order[i].1
    requires k in items && (k, items[k]) in order && PutAll(table, now, order, expiration, refused).1.None?
    ensures
      var after := PutAll(table, now, order, expiration, refused).0;
      && MarshalAny(items[k]).Some? && k in after
      && after[k] == Entry(Encoded(MarshalAny(items[k]).value), At(now + WholeSeconds(expiration)))
    decreases |order|
  {
    var n := |order| - 1;
    if order[n].0 != k {
      assert (k, items[k]) in order[..n];
      PutAllEntry(table, now, order[..n], items, expiration, refused, k);
    }
  }

  lemma PutAllServes(table: Table<Payload>, now: int, order: seq<(string, Any)>, items: map<string, Any>,
                     expiration: nat, refused: set<string>, k: string)
    requires forall i | 0 <= i < |order| :: order[i].0 in items && items[order[i].0] == order[i].1
    requires k in items && (k, items[k]) in order && PutAll(table, now, order, expiration, refused).1.None?
    ensures Serves(PutAll(table, now, order, expiration, refused).0, now, k, items[k], At(now + WholeSeconds(expiration)))
  {
    PutAllEntry(table, now, order, items, expiration, refused, k);
    EntryServes(PutAll(table, now, order, expiration, refused).0, now, k, items[k], MarshalAny(items[k]).value,
                At(now + WholeSeconds(expiration)));
  }

  /** What GetMulti returns: of the live keys, those whose string is not empty. */
  ghost function NonEmptyValues(table: Table<Payload>, now: int, keys: set<string>): map<string, Any> {
    map k | k in keys && Live(table, now, k) && TextOf(table[k].payload) != "" :: ReadPayload(table[k].payload)
  }

  /** MGET as strings: nil becomes the empty string. */
  function AsString(p: Option<Payload>): Payload {
    if p.Some? then p.value else Opaque("")
  }

  class Cart {
    var table: Table<Payload>
    var now: int

    constructor (now: int)
      ensures table == map[] && this.now == now
    {
      table := map[];
      this.now := now;
    }

    method Set(key: string, value: Any, expiration: nat, up: bool) returns (err: Option<CartError>)
      modifies `table
      ensures (table, err) == Put(old(table), now, key, value, expiration, up)
      ensures err == Some(NotEncodable) <==> value.Unencodable?
      ensures err == None ==> Serves(table, now, key, value, At(now + WholeSeconds(expiration)))
      ensures NoEmptyPayload(old(table)) ==> NoEmptyPayload(table)
    {
      StoredReadsBack(value);
      var data := MarshalAny(value);
      if data.None? {
        return Some(NotEncodable);
      }
      if !up || expiration < SECOND {
        return Some(ServerError);
      }
      RenderedIsNotEmpty(data.value);
      table := table[key := Entry(Encoded(data.value), At(now + WholeSeconds(expiration)))];
      EntryServes(table, now, key, value, data.value, At(now + WholeSeconds(expiration)));
      err := None;
    }

    /** Stops at the first item that fails, leaving the ones before it stored. */
    method SetMulti(items: map<string, Any>, expiration: nat, refused: set<string>)
      returns (err: Option<CartError>, ghost order: seq<(string, Any)>)
      modifies `table
      ensures (table, err) == PutAll(old(table), now, order, expiration, refused)
      ensures forall i | 0 <= i < |order| :: order[i].0 in items && items[order[i].0] == order[i].1
      ensures err == None ==> forall k | k in items :: (k, items[k]) in order
      ensures err == None ==> forall k | k in items :: Serves(table, now, k, items[k], At(now + WholeSeconds(expiration)))
      ensures NoEmptyPayload(old(table)) ==> NoEmptyPayload(table)
    {
      hide Serves;
      order := [];
      var todo := items.Keys;
      while todo != {}
        invariant todo <= items.Keys
        invariant forall i | 0 <= i < |order| :: order[i].0 in items && items[order[i].0] == order[i].1
        invariant forall k | k in items && k !in todo :: (k, items[k]) in order
        invariant (table, None) == PutAll(old(table), now, order, expiration, refused)
        invariant NoEmptyPayload(old(table)) ==> NoEmptyPayload(table)
        decreases todo
      {
        var k :| k in todo;
        assert (order + [(k, items[k])])[..|order|] == order;
        order := order + [(k, items[k])];
        err := Set(k, items[k], expiration, k !in refused);
        if err.Some? {
          return;
        }
        todo := todo - {k};
      }
      err := None;
      forall k | k in items
        ensures Serves(table, now, k, items[k], At(now + WholeSeconds(expiration)))
      {
        PutAllServes(old(table), now, order, items, expiration, refused, k);
      }
    }

    method GetMulti(keys: seq<string>, up: bool) returns (r: Result<map<string, Any>, CartError>)
      ensures keys != [] && !up ==> r == Err(ServerError)
      ensures keys == [] || up ==> r == Ok(NonEmptyValues(table, now, set k | k in keys))
    {
      if keys == [] {
        return Ok(map[]);
      }
      if !up {
        return Err(ServerError);
      }
      var result: map<string, Any> := map[];
      for i := 0 to |keys|
        invariant result == NonEmptyValues(table, now, set k | k in keys[..i])
      {
        var value := AsString(Lookup(table, now, keys[i]));
        assert keys[..i + 1] == keys[..i] + [keys[i]];
        if ReadsEmpty(value) {
          continue;
        }
        match value
        case Encoded(json) => result := result[keys[i] := Dynamic(UnmarshalGeneric(json))];
        case Opaque(text) => result := result[keys[i] := Dynamic(GStr(text))];
      }
      assert keys[..|keys|] == keys;
      r := Ok(result);
    }
  }

  /** GetMulti agrees with the pointwise Get exactly when no key asked for holds a live empty string. */
  lemma AgreesExactly(table: Table<Payload>, now: int, keys: set<string>)
    ensures
      NonEmptyValues(table, now, keys) == LiveValues(table, now, keys)
      <==> forall k | k in keys && Live(table, now, k) :: TextOf(table[k].payload) != ""
  {
    if k :| k in keys && Live(table, now, k) && TextOf(table[k].payload) == "" {
      assert k !in NonEmptyValues(table, now, keys) && k in LiveValues(table, now, keys);
    }
  }

  // ----- Whole histories -----

  datatype Cmd =
    | Set(key: string, value: Any, expiration: nat, up: bool)
    | SetMulti(items: seq<(string, Any)>, expiration: nat, refused: set<string>)
    | Delete(keys: set<string>)
    | Clear
    | Lock(key: string, token: string, ttl: nat)
    | Extend(key: string, token: string, ttl: nat)
    | Release(key: string, token: string)
    | Advance(d: nat)

  datatype Store = Store(table: Table<Payload>, now: int)

  ghost predicate NoEmptyPayload(table: Table<Payload>) {
    forall k | k in table :: TextOf(table[k].payload) != ""
  }

  /** Lock tokens live in the same keyspace; they are never empty. */
  predicate Proper(c: Cmd) {
    c.Lock? ==> c.token != ""
  }

  function Exec(s: Store, c: Cmd): Store {
    match c
    case Set(key, value, expiration, up) => s.(table := Put(s.table, s.now, key, value, expiration, up).0)
    case SetMulti(items, expiration, refused) => s.(table := PutAll(s.table, s.now, items, expiration, refused).0)
    case Delete(keys) => s.(table := s.table - keys)
    case Clear => s.(table := map[])
    case Lock(key, token, ttl) =>
      if ttl < SECOND then s
      else s.(table := SetNX(s.table, s.now, LockKey(key), Opaque(token), For(WholeSeconds(ttl))).0)
    case Extend(key, token, ttl) =>
      s.(table := ExtendScript(s.table, s.now, LockKey(key), Opaque(token), For(WholeSeconds(ttl))).0)
    case Release(key, token) => s.(table := ReleaseScript(s.table, s.now, LockKey(key), Opaque(token)))
    case Advance(d) => s.(now := s.now + d)
  }

  function Final(s: Store, cmds: seq<Cmd>): Store {
    if cmds == [] then s else Exec(Final(s, cmds[..|cmds| - 1]), cmds[|cmds| - 1])
  }

  lemma PutKeepsNonEmpty(table: Table<Payload>, now: int, key: string, value: Any, expiration: nat, up: bool)
    requires NoEmptyPayload(table)
    ensures NoEmptyPayload(Put(table, now, key, value, expiration, up).0)
  {
    if MarshalAny(value).Some? { RenderedIsNotEmpty(MarshalAny(value).value); }
  }

  lemma {:induction false} PutAllKeepsNonEmpty(table: Table<Payload>, now: int, items: seq<(string, Any)>, expiration: nat, refused: set<string>)
    requires NoEmptyPayload(table)
    ensures NoEmptyPayload(PutAll(table, now, items, expiration, refused).0)
    decreases |items|
  {
    if items != [] {
      var n := |items| - 1;
      PutAllKeepsNonEmpty(table, now, items[..n], expiration, refused);
      PutKeepsNonEmpty(PutAll(table, now, items[..n], expiration, refused).0, now, items[n].0, items[n].1, expiration, items[n].0 !in refused);
    }
  }

  lemma ExecKeepsNonEmpty(s: Store, c: Cmd)
    requires NoEmptyPayload(s.table) && Proper(c)
    ensures NoEmptyPayload(Exec(s, c).table)
  {
    match c
    case Set(key, value, expiration, up) => PutKeepsNonEmpty(s.table, s.now, key, value, expiration, up);
    case SetMulti(items, expiration, refused) => PutAllKeepsNonEmpty(s.table, s.now, items, expiration, refused);
    case _ =>
  }

  /** Every state that the cart's own commands can reach from an empty server is free of empty strings. */
  lemma {:induction false} ReachableNonEmpty(start: int, cmds: seq<Cmd>)
    requires forall i | 0 <= i < |cmds| :: Proper(cmds[i])
    ensures NoEmptyPayload(Final(Store(map[], start), cmds).table)
  {
    if cmds != [] {
      var n := |cmds| - 1;
      ReachableNonEmpty(start, cmds[..n]);
      ExecKeepsNonEmpty(Final(Store(map[], start), cmds[..n]), cmds[n]);
    }
  }

  /** So in all of them GetMulti answers as one Get for each key would. */
  lemma ReachableAgrees(start: int, cmds: seq<Cmd>, keys: set<string>)
    requires forall i | 0 <= i < |cmds| :: Proper(cmds[i])
    ensures
      var s := Final(Store(map[], start), cmds);
      NonEmptyValues(s.table, s.now, keys) == LiveValues(s.table, s.now, keys)
  {
    ReachableNonEmpty(start, cmds);
    AgreesExactly(Final(Store(map[], start), cmds).table, Final(Store(map[], start), cmds).now, keys);
  }
}
