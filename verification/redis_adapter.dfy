/** The Redis adapter: arbitrary keys on top of the string-keyed cart. */
module RedisAdapter {
  import opened Wrappers
  import opened Expiry
  import opened Typed
  import opened Keys
  import opened Durations
  import opened RedisCart

  const DEFAULT_TTL: nat := 24 * 60 * 60 * SECOND

  /** The requested TTL, else the configured one, else 24 hours. */
  function EffectiveTTL(requested: int, configured: int): (ttl: nat)
    ensures ttl > 0 && ttl as int in {requested, configured, DEFAULT_TTL}
    ensures requested > 0 ==> ttl == requested
    ensures requested <= 0 && configured > 0 ==> ttl == configured
    ensures requested <= 0 && configured <= 0 ==> ttl == 86_400 * SECOND
  {
    if requested > 0 then requested else if configured > 0 then configured else DEFAULT_TTL
  }

  function StringForms(keys: seq<Key>): set<string> {
    set k | k in keys :: ToString(k)
  }

  /** The store's items: one entry for each string form, with the value of some key of that form. */
  predicate Represents(stored: map<string, Any>, items: map<Key, Any>) {
    && (forall k | k in items :: ToString(k) in stored)
    && (forall s | s in stored :: exists k | k in items :: ToString(k) == s && items[k] == stored[s])
  }

  /** What GetMulti returns: the live values, each under the last key asked for with its string form. */
  function KeyedValues(table: Table<Payload>, now: int, keys: seq<Key>): map<Key, Any> {
    map k | k in keys && LastWithForm(keys, ToString(k)) == Some(k) && Live(table, now, ToString(k)) ::
      ReadPayload(table[ToString(k)].payload)
  }

  /** The values found, each moved from its string form back to the key that stands for it. */
  predicate Rekeyed(found: map<string, Any>, keyMap: map<string, Key>, out: map<Key, Any>)
    requires found.Keys <= keyMap.Keys
  {
    && (forall k | k in out :: ToString(k) in found && keyMap[ToString(k)] == k && out[k] == found[ToString(k)])
    && (forall s | s in found :: keyMap[s] in out)
  }

  class Adapter {
    const cart: Cart
    const defaultTTL: int

    constructor (cart: Cart, defaultTTL: int)
      ensures this.cart == cart && this.defaultTTL == defaultTTL
    {
      this.cart := cart;
      this.defaultTTL := defaultTTL;
    }

    method TranslateKeys(keys: seq<Key>) returns (strKeys: seq<string>, keyMap: map<string, Key>)
      ensures |strKeys| == |keys| && forall j | 0 <= j < |keys| :: strKeys[j] == ToString(keys[j])
      ensures forall s | s in keyMap :: LastWithForm(keys, s) == Some(keyMap[s])
      ensures forall k | k in keys :: ToString(k) in keyMap
    {
      strKeys, keyMap := [], map[];
      for i := 0 to |keys|
        invariant |strKeys| == i && forall j | 0 <= j < i :: strKeys[j] == ToString(keys[j])
        invariant forall s | s in keyMap :: LastWithForm(keys[..i], s) == Some(keyMap[s])
        invariant forall j | 0 <= j < i :: ToString(keys[j]) in keyMap
      {
        strKeys := strKeys + [ToString(keys[i])];
        keyMap := keyMap[ToString(keys[i]) := keys[i]];
        assert keys[..i + 1][..i] == keys[..i];
      }
      assert keys[..|keys|] == keys;
    }

    method TranslateBack(found: map<string, Any>, keyMap: map<string, Key>) returns (out: map<Key, Any>)
      requires found.Keys <= keyMap.Keys && forall s | s in keyMap :: ToString(keyMap[s]) == s
      ensures Rekeyed(found, keyMap, out)
    {
      out := map[];
      var todo := found.Keys;
      while todo != {}
        invariant todo <= found.Keys
        invariant forall k | k in out :: ToString(k) in found && keyMap[ToString(k)] == k && out[k] == found[ToString(k)]
        invariant forall s | s in found && s !in todo :: keyMap[s] in out
        decreases todo
      {
        var s :| s in todo;
        out := out[keyMap[s] := found[s]];
        todo := todo - {s};
      }
    }

    method GetMulti(keys: seq<Key>, up: bool) returns (r: Result<map<Key, Any>, CartError>)
      ensures keys != [] && !up ==> r == Err(ServerError)
      ensures keys == [] || up ==> r == Ok(KeyedValues(cart.server.table, cart.server.now, keys))
    {
      if keys == [] {
        return Ok(map[]);
      }
      var strKeys, keyMap := TranslateKeys(keys);
      var found := cart.GetMulti(strKeys, up);
      if found.Err? {
        return Err(found.error);
      }
      FormsListed(keys, strKeys);
      var out := TranslateBack(found.value, keyMap);
      RekeyedIsKeyed(cart.server.table, cart.server.now, keys, keyMap, found.value, out);
      r := Ok(out);
    }

    method SetMulti(items: map<Key, Any>, expiration: int, faults: Faults)
      returns (err: Option<CartError>, ghost stored: map<string, Any>, ghost done: set<string>)
      modifies cart.server`table
      ensures items == map[] ==> err == None && cart.server.table == old(cart.server.table)
      ensures items != map[] ==> Represents(stored, items)
      ensures items != map[] && !AllEncodable(stored) ==> err == Some(NotEncodable) && cart.server.table == old(cart.server.table)
      ensures items != map[] && AllEncodable(stored) && faults.mset ==>
        err == Some(ServerError) && cart.server.table == old(cart.server.table)
      ensures items != map[] && AllEncodable(stored) && !faults.mset ==>
        && cart.server.table == WithItems(old(cart.server.table), Texts(stored), done, cart.server.now, EffectiveTTL(expiration, defaultTTL))
        && (if err == None then done == stored.Keys else done <= stored.Keys)
      ensures items != map[] && err == None ==> forall s | s in stored ::
        Serves(cart.server.table, cart.server.now, s, stored[s], At(cart.server.now + ExpireDuration(EffectiveTTL(expiration, defaultTTL))))
    {
      stored, done := map[], {};
      if items == map[] {
        return None, stored, done;
      }
      var storeItems: map<string, Any> := map[];
      var todo := items.Keys;
      ghost var source: map<string, Key> := map[];
      while todo != {}
        invariant todo <= items.Keys
        invariant forall k | k in items && k !in todo :: ToString(k) in storeItems
        invariant source.Keys == storeItems.Keys
        invariant forall s | s in source :: source[s] in items && ToString(source[s]) == s && items[source[s]] == storeItems[s]
        decreases todo
      {
        var k :| k in todo;
        storeItems := storeItems[ToString(k) := items[k]];
        source := source[ToString(k) := k];
        todo := todo - {k};
      }
      stored := storeItems;
      var k :| k in items;
      assert ToString(k) in storeItems;
      err, done := cart.SetMulti(storeItems, EffectiveTTL(expiration, defaultTTL), faults);
    }
  }

  lemma FormsListed(keys: seq<Key>, strKeys: seq<string>)
    requires |strKeys| == |keys| && forall j | 0 <= j < |keys| :: strKeys[j] == ToString(keys[j])
    ensures (set s | s in strKeys) == StringForms(keys)
  {
    forall s | s in StringForms(keys)
      ensures s in strKeys
    {
      var k :| k in keys && ToString(k) == s;
      var j :| 0 <= j < |keys| && keys[j] == k;
      assert strKeys[j] == s;
    }
    forall s | s in strKeys
      ensures s in StringForms(keys)
    {
      var j :| 0 <= j < |keys| && strKeys[j] == s;
      assert keys[j] in keys;
    }
  }

  lemma RekeyedIsKeyed(table: Table<Payload>, now: int, keys: seq<Key>, keyMap: map<string, Key>,
                       found: map<string, Any>, out: map<Key, Any>)
    requires forall s | s in keyMap :: LastWithForm(keys, s) == Some(keyMap[s])
    requires forall k | k in keys :: ToString(k) in keyMap
    requires found == LiveValues(table, now, StringForms(keys)) && found.Keys <= keyMap.Keys
    requires Rekeyed(found, keyMap, out)
    ensures out == KeyedValues(table, now, keys)
  {
    var expected := KeyedValues(table, now, keys);
    forall k
      ensures k in out <==> k in expected
      ensures k in out ==> out[k] == expected[k]
    {
      var s := ToString(k);
      assert k in expected ==> s in StringForms(keys) && s in found && keyMap[s] == k;
      assert k in out ==> LastWithForm(keys, s) == Some(k);
    }
  }

  /** GetMulti answers every key whose form is live, and no other. */
  ghost predicate AnswersAll(table: Table<Payload>, now: int, keys: seq<Key>) {
    forall k | k in keys :: k in KeyedValues(table, now, keys) <==> Live(table, now, ToString(k))
  }

  /** It does so exactly when no two keys asked for share a live form; and every answer is that of a single Get. */
  lemma PointwiseExactly(table: Table<Payload>, now: int, keys: seq<Key>)
    ensures AnswersAll(table, now, keys) <==>
      forall a, b | a in keys && b in keys && ToString(a) == ToString(b) && Live(table, now, ToString(a)) :: a == b
    ensures forall k | k in KeyedValues(table, now, keys) ::
      Lookup(table, now, ToString(k)).Some? && KeyedValues(table, now, keys)[k] == ReadPayload(Lookup(table, now, ToString(k)).value)
  {
    if AnswersAll(table, now, keys) {
      forall a, b | a in keys && b in keys && ToString(a) == ToString(b) && Live(table, now, ToString(a))
        ensures a == b
      {
        assert a in KeyedValues(table, now, keys) && b in KeyedValues(table, now, keys);
      }
    } else {
      var k :| k in keys && Live(table, now, ToString(k)) && k !in KeyedValues(table, now, keys);
      var last := LastWithForm(keys, ToString(k)).value;
      assert last in keys && ToString(last) == ToString(k) && last != k;
    }
  }

  /** Ordinary keys, that is texts: GetMulti answers every live one with what the cart holds under that very text. */
  lemma TextKeysAnswered(table: Table<Payload>, now: int, keys: seq<Key>, s: string)
    requires forall k | k in keys :: k.Text?
    requires Text(s) in keys
    ensures Text(s) in KeyedValues(table, now, keys) <==> GetReply(table, now, s).Ok?
    ensures Text(s) in KeyedValues(table, now, keys) ==> Ok(KeyedValues(table, now, keys)[Text(s)]) == GetReply(table, now, s)
  {
    forall a, b | a in keys && b in keys && ToString(a) == ToString(b)
      ensures a == b
    {
      TextKeysFaithful(a.s, b.s);
    }
    TextKeysFaithful(s, s);
    PointwiseExactly(table, now, keys);
  }

  /** Of text keys SetMulti stores every one under that very text. */
  lemma TextKeysStored(stored: map<string, Any>, items: map<Key, Any>, s: string)
    requires Represents(stored, items) && forall k | k in items :: k.Text?
    ensures s in stored <==> Text(s) in items
    ensures s in stored ==> stored[s] == items[Text(s)]
  {
    TextKeysFaithful(s, s);
  }

  /** With a collision the earlier key gets no answer at all, even when the value is there. */
  lemma CollidingKeyIsDropped(table: Table<Payload>, now: int, before: seq<Key>, k: Key, after: seq<Key>, other: Key)
    requires other in after && ToString(other) == ToString(k) && k !in after
    ensures k !in KeyedValues(table, now, before + [k] + after)
  {
    LastIsInSuffix(before + [k], after, ToString(k));
  }

  lemma {:induction false} LastIsInSuffix(before: seq<Key>, after: seq<Key>, form: string)
    ensures LastWithForm(after, form).Some? ==> LastWithForm(before + after, form) == LastWithForm(after, form)
  {
    if after != [] {
      var n := |after| - 1;
      LastIsInSuffix(before, after[..n], form);
      assert (before + after)[..|before| + n] == before + after[..n];
    }
  }

  /** Without collisions SetMulti stores exactly the given values. */
  lemma ItemsWithoutCollisions(stored: map<string, Any>, items: map<Key, Any>, k: Key)
    requires Represents(stored, items) && NoneCollide(items.Keys) && k in items
    ensures stored[ToString(k)] == items[k]
  {
  }
}
