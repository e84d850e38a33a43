/** The in-memory cache: TTL checked on read, a sweeper that may run at any time, and GetOrSet. */
module Memory {
  import opened Wrappers
  import opened Expiry
  import opened Keys

  // ----- Specification: one command after the other -----

  datatype Store<+V> = Store(table: Table<V>, now: int, defaultTTL: int)

  datatype Cmd<+V> =
    | Get(key: Key)
    | Exists(key: Key)
    | GetMulti(keys: seq<Key>)
    | Set(key: Key, value: V, ttl: int)
    | SetMulti(items: seq<(Key, V)>, ttl: int)    // in the order in which the map yields them
    | Delete(key: Key)
    | DeleteMulti(keys: seq<Key>)
    | Clear
    | GetOrSet(key: Key, load: Option<V>, ttl: int)  // the loader's result, nothing for an error
    | Advance(d: nat)
    | Sweep

  datatype Reply<+V> = Found(value: V) | NotFound | Flag(b: bool) | Many(values: map<Key, V>) | Done | LoaderFailed

  /** A zero TTL means the default; what is still not positive means no expiry. */
  function DeadlineFor(now: int, ttl: int, defaultTTL: int): Deadline {
    var effective := if ttl == 0 then defaultTTL else ttl;
    if effective > 0 then At(now + effective) else Never
  }

  function Put<V>(s: Store<V>, key: Key, value: V, ttl: int): Store<V> {
    s.(table := s.table[ToString(key) := Entry(value, DeadlineFor(s.now, ttl, s.defaultTTL))])
  }

  function PutAll<V>(s: Store<V>, items: seq<(Key, V)>, ttl: int): Store<V>
    decreases |items|
  {
    if items == [] then s
    else Put(PutAll(s, items[..|items| - 1], ttl), items[|items| - 1].0, items[|items| - 1].1, ttl)
  }

  function StringForms(keys: seq<Key>): set<string> {
    set k | k in keys :: ToString(k)
  }

  function Read<V>(s: Store<V>, key: Key): Option<V> {
    Lookup(s.table, s.now, ToString(key))
  }

  function ReadAll<V>(s: Store<V>, keys: seq<Key>): map<Key, V> {
    map k | k in keys && Read(s, k).Some? :: Read(s, k).value
  }

  function Exec<V>(s: Store<V>, c: Cmd<V>): (Store<V>, Reply<V>) {
    match c
    case Get(key) => (s, match Read(s, key) case Some(v) => Found(v) case None => NotFound)
    case Exists(key) => (s, Flag(Read(s, key).Some?))
    case GetMulti(keys) => (s, Many(ReadAll(s, keys)))
    case Set(key, value, ttl) => (Put(s, key, value, ttl), Done)
    case SetMulti(items, ttl) => (PutAll(s, items, ttl), Done)
    case Delete(key) => (s.(table := s.table - {ToString(key)}), Done)
    case DeleteMulti(keys) => (s.(table := s.table - StringForms(keys)), Done)
    case Clear => (s.(table := map[]), Done)
    case GetOrSet(key, load, ttl) =>
      (match Read(s, key)
       case Some(v) => (s, Found(v))
       case None => if load.Some? then (Put(s, key, load.value, ttl), Found(load.value)) else (s, LoaderFailed))
    case Advance(d) => (s.(now := s.now + d), Done)
    case Sweep => (s.(table := View(s.table, s.now)), Done)
  }

  function Final<V>(s: Store<V>, cmds: seq<Cmd<V>>): Store<V> {
    if cmds == [] then s else Exec(Final(s, cmds[..|cmds| - 1]), cmds[|cmds| - 1]).0
  }

  /** The replies to everything but the sweeps. */
  function Replies<V>(s: Store<V>, cmds: seq<Cmd<V>>): seq<Reply<V>> {
    if cmds == [] then []
    else
      var n := |cmds| - 1;
      Replies(s, cmds[..n]) + if cmds[n].Sweep? then [] else [Exec(Final(s, cmds[..n]), cmds[n]).1]
  }

  // ----- Sweeps are invisible -----

  /** What can be observed of a store, now and at any later time. */
  predicate Alike<V(==)>(s: Store<V>, t: Store<V>) {
    s.now == t.now && s.defaultTTL == t.defaultTTL && View(s.table, s.now) == View(t.table, t.now)
  }

  lemma AlikeLookup<V>(s: Store<V>, t: Store<V>, key: string)
    requires Alike(s, t)
    ensures Live(s.table, s.now, key) <==> Live(t.table, t.now, key)
    ensures Live(s.table, s.now, key) ==> s.table[key] == t.table[key]
    ensures Lookup(s.table, s.now, key) == Lookup(t.table, t.now, key)
  {
    assert Live(s.table, s.now, key) <==> key in View(s.table, s.now);
    assert Live(t.table, t.now, key) <==> key in View(t.table, t.now);
  }

  lemma AlikePut<V>(s: Store<V>, t: Store<V>, key: Key, value: V, ttl: int)
    requires Alike(s, t)
    ensures Alike(Put(s, key, value, ttl), Put(t, key, value, ttl))
  {
    var s', t' := Put(s, key, value, ttl), Put(t, key, value, ttl);
    forall k
      ensures k in View(s'.table, s.now) <==> k in View(t'.table, t.now)
      ensures k in View(s'.table, s.now) ==> View(s'.table, s.now)[k] == View(t'.table, t.now)[k]
    {
      AlikeLookup(s, t, k);
    }
  }

  lemma {:induction false} AlikePutAll<V>(s: Store<V>, t: Store<V>, items: seq<(Key, V)>, ttl: int)
    requires Alike(s, t)
    ensures Alike(PutAll(s, items, ttl), PutAll(t, items, ttl))
    decreases |items|
  {
    if items != [] {
      var n := |items| - 1;
      AlikePutAll(s, t, items[..n], ttl);
      AlikePut(PutAll(s, items[..n], ttl), PutAll(t, items[..n], ttl), items[n].0, items[n].1, ttl);
    }
  }

  lemma AlikeRemove<V>(s: Store<V>, t: Store<V>, keys: set<string>)
    requires Alike(s, t)
    ensures Alike(s.(table := s.table - keys), t.(table := t.table - keys))
  {
    forall k
      ensures k in View(s.table - keys, s.now) <==> k in View(t.table - keys, t.now)
      ensures k in View(s.table - keys, s.now) ==> View(s.table - keys, s.now)[k] == View(t.table - keys, t.now)[k]
    {
      AlikeLookup(s, t, k);
    }
  }

  lemma SweepAlike<V>(s: Store<V>)
    ensures Alike(Exec(s, Sweep).0, s)
  {
    assert View(View(s.table, s.now), s.now) == View(s.table, s.now);
  }

  lemma ReadAllAlike<V>(s: Store<V>, t: Store<V>, keys: seq<Key>)
    requires Alike(s, t)
    ensures ReadAll(s, keys) == ReadAll(t, keys)
  {
    forall k
      ensures Read(s, k) == Read(t, k)
    {
      AlikeLookup(s, t, ToString(k));
    }
  }

  /** Stores that look alike answer alike and stay alike. */
  lemma ExecAlike<V>(s: Store<V>, t: Store<V>, c: Cmd<V>)
    requires Alike(s, t)
    ensures Exec(s, c).1 == Exec(t, c).1 && Alike(Exec(s, c).0, Exec(t, c).0)
  {
    match c
    case Get(key) => AlikeLookup(s, t, ToString(key));
    case Exists(key) => AlikeLookup(s, t, ToString(key));
    case GetMulti(keys) => ReadAllAlike(s, t, keys);
    case Set(key, value, ttl) => AlikePut(s, t, key, value, ttl);
    case SetMulti(items, ttl) => AlikePutAll(s, t, items, ttl);
    case Delete(key) => AlikeRemove(s, t, {ToString(key)});
    case DeleteMulti(keys) => AlikeRemove(s, t, StringForms(keys));
    case GetOrSet(key, load, ttl) =>
      AlikeLookup(s, t, ToString(key));
      if load.Some? { AlikePut(s, t, key, load.value, ttl); }
    case Advance(d) => ViewSurvivesSweep(t.table, s.table, s.now, s.now + d);
    case Sweep => SweepAlike(s); SweepAlike(t);
    case _ =>
  }

  function WithoutSweeps<V>(cmds: seq<Cmd<V>>): seq<Cmd<V>> {
    if cmds == [] then []
    else WithoutSweeps(cmds[..|cmds| - 1]) + if cmds[|cmds| - 1].Sweep? then [] else [cmds[|cmds| - 1]]
  }

  lemma Append<V>(s: Store<V>, cmds: seq<Cmd<V>>, c: Cmd<V>)
    requires !c.Sweep?
    ensures Final(s, cmds + [c]) == Exec(Final(s, cmds), c).0
    ensures Replies(s, cmds + [c]) == Replies(s, cmds) + [Exec(Final(s, cmds), c).1]
  {
    assert (cmds + [c])[..|cmds|] == cmds;
  }

  lemma {:induction false} SweepsDropOut<V>(s: Store<V>, cmds: seq<Cmd<V>>)
    ensures Alike(Final(s, cmds), Final(s, WithoutSweeps(cmds)))
    ensures Replies(s, cmds) == Replies(s, WithoutSweeps(cmds))
  {
    if cmds != [] {
      var n := |cmds| - 1;
      var c, rest := cmds[n], WithoutSweeps(cmds[..n]);
      SweepsDropOut(s, cmds[..n]);
      if c.Sweep? {
        assert WithoutSweeps(cmds) == rest && Replies(s, cmds) == Replies(s, cmds[..n]);
        SweepAlike(Final(s, cmds[..n]));
      } else {
        ExecAlike(Final(s, cmds[..n]), Final(s, rest), c);
        Append(s, rest, c);
        assert WithoutSweeps(cmds) == rest + [c];
      }
    }
  }

  /**
  Inserting or removing sweeps anywhere in a sequence of commands changes no reply, and at the end
  every key reads the same.
  */
  lemma SweepsInvisible<V>(s: Store<V>, cmds: seq<Cmd<V>>, cmds': seq<Cmd<V>>, key: Key)
    requires WithoutSweeps(cmds) == WithoutSweeps(cmds')
    ensures Replies(s, cmds) == Replies(s, cmds')
    ensures Read(Final(s, cmds), key) == Read(Final(s, cmds'), key)
  {
    SweepsDropOut(s, cmds);
    SweepsDropOut(s, cmds');
    AlikeLookup(Final(s, cmds), Final(s, WithoutSweeps(cmds)), ToString(key));
    AlikeLookup(Final(s, cmds'), Final(s, WithoutSweeps(cmds')), ToString(key));
  }

  // ----- The last write counts -----

  function TimeAfter<V>(start: int, cmds: seq<Cmd<V>>): int {
    if cmds == [] then start
    else TimeAfter(start, cmds[..|cmds| - 1]) + if cmds[|cmds| - 1].Advance? then cmds[|cmds| - 1].d else 0
  }

  function LastItem<V>(items: seq<(Key, V)>, form: string): Option<V>
    decreases |items|
  {
    if items == [] then None
    else if ToString(items[|items| - 1].0) == form then Some(items[|items| - 1].1)
    else LastItem(items[..|items| - 1], form)
  }

  function Unexpired<V>(e: Option<Entry<V>>, now: int): Option<V> {
    if e.Some? && !Passed(e.value.deadline, now) then Some(e.value.payload) else None
  }

  /**
  The history of one string key, read backwards: the last command that wrote or erased it.  There
  is no table here, and sweeps do not occur.
  */
  function LastWrite<V>(start: int, defaultTTL: int, cmds: seq<Cmd<V>>, form: string): Option<Entry<V>> {
    if cmds == [] then None
    else
      var n := |cmds| - 1;
      var before := LastWrite(start, defaultTTL, cmds[..n], form);
      var now := TimeAfter(start, cmds[..n]);
      match cmds[n]
      case Set(key, value, ttl) =>
        if ToString(key) == form then Some(Entry(value, DeadlineFor(now, ttl, defaultTTL))) else before
      case SetMulti(items, ttl) =>
        (match LastItem(items, form)
         case Some(value) => Some(Entry(value, DeadlineFor(now, ttl, defaultTTL)))
         case None => before)
      case Delete(key) => if ToString(key) == form then None else before
      case DeleteMulti(keys) => if form in StringForms(keys) then None else before
      case Clear => None
      case GetOrSet(key, load, ttl) =>
        if ToString(key) == form && Unexpired(before, now).None? && load.Some?
        then Some(Entry(load.value, DeadlineFor(now, ttl, defaultTTL))) else before
      case _ => before
  }

  lemma {:induction false} PutAllEntry<V>(s: Store<V>, items: seq<(Key, V)>, ttl: int, form: string)
    ensures
      var t := PutAll(s, items, ttl);
      && t.now == s.now && t.defaultTTL == s.defaultTTL
      && match LastItem(items, form)
         case Some(value) => form in t.table && t.table[form] == Entry(value, DeadlineFor(s.now, ttl, s.defaultTTL))
         case None => (form in t.table <==> form in s.table) && (form in s.table ==> t.table[form] == s.table[form])
    decreases |items|
  {
    if items != [] {
      PutAllEntry(s, items[..|items| - 1], ttl, form);
    }
  }

  /** The entry is what the last write left, unless a sweep has taken it after its deadline. */
  predicate Explains<V(==)>(s: Store<V>, form: string, last: Option<Entry<V>>) {
    if form in s.table then last == Some(s.table[form]) else Unexpired(last, s.now).None?
  }

  lemma ExecExplained<V>(start: int, s: Store<V>, cmds: seq<Cmd<V>>, c: Cmd<V>, form: string)
    requires s.now == TimeAfter(start, cmds)
    requires Explains(s, form, LastWrite(start, s.defaultTTL, cmds, form))
    ensures
      var t := Exec(s, c).0;
      && t.defaultTTL == s.defaultTTL && t.now == TimeAfter(start, cmds + [c])
      && Explains(t, form, LastWrite(start, s.defaultTTL, cmds + [c], form))
  {
    assert (cmds + [c])[..|cmds|] == cmds;
    if c.SetMulti? {
      PutAllEntry(s, c.items, c.ttl, form);
    }
  }

  /** From an empty cache, every read gives the last value written, as long as it has not expired. */
  lemma {:induction false} ReadsLastWrite<V>(start: int, defaultTTL: int, cmds: seq<Cmd<V>>, form: string)
    ensures
      var s := Final(Store(map[], start, defaultTTL), cmds);
      && s.defaultTTL == defaultTTL && s.now == TimeAfter(start, cmds)
      && Explains(s, form, LastWrite(start, defaultTTL, cmds, form))
      && Lookup(s.table, s.now, form) == Unexpired(LastWrite(start, defaultTTL, cmds, form), s.now)
  {
    if cmds != [] {
      var n := |cmds| - 1;
      ReadsLastWrite(start, defaultTTL, cmds[..n], form);
      assert cmds[..n] + [cmds[n]] == cmds;
      ExecExplained(start, Final(Store(map[], start, defaultTTL), cmds[..n]), cmds[..n], cmds[n], form);
    }
  }

  /** What the last write before now left under a key, if it has not expired. */
  function Current<V>(start: int, defaultTTL: int, cmds: seq<Cmd<V>>, key: Key): Option<V> {
    Unexpired(LastWrite(start, defaultTTL, cmds, ToString(key)), TimeAfter(start, cmds))
  }

  function FoundOr<V>(o: Option<V>, other: Reply<V>): Reply<V> {
    if o.Some? then Found(o.value) else other
  }

  /** This is the answer that the history of writes alone gives. */
  predicate Explained<V(==)>(start: int, defaultTTL: int, cmds: seq<Cmd<V>>, c: Cmd<V>, reply: Reply<V>) {
    match c
    case Get(key) => reply == FoundOr(Current(start, defaultTTL, cmds, key), NotFound)
    case Exists(key) => reply == Flag(Current(start, defaultTTL, cmds, key).Some?)
    case GetMulti(keys) =>
      && reply.Many? && (forall k | k in reply.values :: k in keys)
      && (forall k | k in keys ::
            if k in reply.values then Current(start, defaultTTL, cmds, k) == Some(reply.values[k])
            else Current(start, defaultTTL, cmds, k).None?)
    case GetOrSet(key, load, _) =>
      reply == FoundOr(Current(start, defaultTTL, cmds, key), FoundOr(load, LoaderFailed))
    case _ => reply == Done
  }

  /** Every reply, after every history from an empty cache, is what the history of writes gives. */
  lemma RepliesExplained<V>(start: int, defaultTTL: int, cmds: seq<Cmd<V>>, c: Cmd<V>)
    ensures Explained(start, defaultTTL, cmds, c, Exec(Final(Store(map[], start, defaultTTL), cmds), c).1)
  {
    match c
    case Get(key) => ReadsLastWrite(start, defaultTTL, cmds, ToString(key));
    case Exists(key) => ReadsLastWrite(start, defaultTTL, cmds, ToString(key));
    case GetOrSet(key, load, _) => ReadsLastWrite(start, defaultTTL, cmds, ToString(key));
    case GetMulti(keys) =>
      forall k | k in keys
        ensures Read(Final(Store(map[], start, defaultTTL), cmds), k) == Current(start, defaultTTL, cmds, k)
      {
        ReadsLastWrite(start, defaultTTL, cmds, ToString(k));
      }
    case _ =>
  }

  // ----- How long a value lives -----

  /** The command stores this value under the key. */
  predicate Stores<V(==)>(s: Store<V>, c: Cmd<V>, key: Key, value: V, ttl: int) {
    match c
    case Set(k, v, t) => k == key && v == value && t == ttl
    case SetMulti(items, t) => LastItem(items, ToString(key)) == Some(value) && t == ttl
    case GetOrSet(k, load, t) => k == key && load == Some(value) && t == ttl && Read(s, key).None?
    case _ => false
  }

  /** The requested time to live if there is one, else the default if there is one, else no end; `d` later. */
  predicate StillLives(ttl: int, defaultTTL: int, d: nat) {
    (ttl > 0 ==> d <= ttl) && (ttl == 0 && defaultTTL > 0 ==> d <= defaultTTL)
  }

  /** A stored value is found exactly as long as its time to live says, by every way of reading. */
  lemma LivesExactly<V>(s: Store<V>, c: Cmd<V>, key: Key, value: V, ttl: int, d: nat)
    requires Stores(s, c, key, value, ttl)
    ensures
      var later := Exec(Exec(s, c).0, Advance(d)).0;
      && Exec(later, Cmd.Get(key)).1 == (if StillLives(ttl, s.defaultTTL, d) then Found(value) else NotFound)
      && Exec(later, Cmd.Exists(key)).1 == Flag(StillLives(ttl, s.defaultTTL, d))
      && Exec(later, Cmd.GetMulti([key])).1 == Many(if StillLives(ttl, s.defaultTTL, d) then map[key := value] else map[])
  {
    if c.SetMulti? {
      PutAllEntry(s, c.items, ttl, ToString(key));
    }
  }

  // ----- Get in two steps -----

  /** States of the cache at successive instants; the clock never goes back. */
  predicate ClockMonotone<V>(h: seq<Store<V>>) {
    forall i, j | 0 <= i <= j < |h| :: h[i].now <= h[j].now
  }

  /** Get as it runs: the entry is read under the lock at instant `i`, its expiry is checked at `j`. */
  function TwoStepGet<V>(h: seq<Store<V>>, i: nat, j: nat, key: Key): Option<V>
    requires i <= j < |h|
  {
    var form := ToString(key);
    if form in h[i].table then Unexpired(Some(h[i].table[form]), h[j].now) else None
  }

  /** A hit is linearizable at the instant the entry was read. */
  lemma HitLinearizable<V>(h: seq<Store<V>>, i: nat, j: nat, key: Key)
    requires ClockMonotone(h) && i <= j < |h| && TwoStepGet(h, i, j, key).Some?
    ensures Read(h[i], key) == TwoStepGet(h, i, j, key)
  {
  }

  /** A miss is linearizable, at the read or at the check, unless the entry was replaced in between. */
  lemma MissLinearizable<V>(h: seq<Store<V>>, i: nat, j: nat, key: Key)
    requires ClockMonotone(h) && i <= j < |h| && TwoStepGet(h, i, j, key).None?
    requires ToString(key) in h[i].table && ToString(key) in h[j].table ==> h[j].table[ToString(key)] == h[i].table[ToString(key)]
    ensures Read(h[i], key).None? || Read(h[j], key).None?
  {
  }

  /** When it was replaced, a miss can be reported for a key that was live all the time. */
  lemma MissCanBeFalse()
    ensures exists h: seq<Store<int>>, key ::
      && |h| == 3 && ClockMonotone(h) && TwoStepGet(h, 0, 2, key).None?
      && Read(h[0], key).Some? && Read(h[1], key).Some? && Read(h[2], key).Some?
      && h[1] == Exec(h[0], Cmd.Set(key, 2, 0)).0 && h[2] == Exec(h[1], Advance(10)).0
  {
    var key := Text("k");
    var s := Store(map["k" := Entry(1, At(5))], 0, 0);
    var t := Exec(s, Cmd.Set(key, 2, 0)).0;
    var u := Exec(t, Advance(10)).0;
    assert t.table == map["k" := Entry(2, Never)] && u == t.(now := 10);
    var h := [s, t, u];
    assert |h| == 3 && ClockMonotone(h) && TwoStepGet(h, 0, 2, key).None?;
    assert Read(h[0], key).Some? && Read(h[1], key).Some? && Read(h[2], key).Some?;
  }

  /** The states that a sequence of commands leads through, from an empty cache. */
  function History<V>(start: int, defaultTTL: int, cmds: seq<Cmd<V>>): seq<Store<V>> {
    seq(|cmds| + 1, k requires 0 <= k <= |cmds| => Final(Store(map[], start, defaultTTL), cmds[..k]))
  }

  /** A Get between instants `i` and `j` misses, and yet the key is live all the time. */
  ghost predicate FalseMiss<V>(h: seq<Store<V>>, i: nat, j: nat, key: Key)
    requires i <= j < |h|
  {
    TwoStepGet(h, i, j, key).None? && forall k | i <= k <= j :: Read(h[k], key).Some?
  }

  function WriteAt<V>(start: int, defaultTTL: int, cmds: seq<Cmd<V>>, form: string, k: nat): Option<Entry<V>>
    requires k <= |cmds|
  {
    LastWrite(start, defaultTTL, cmds[..k], form)
  }

  /** Of the commands alone: the last write before instant `k` has not expired then. */
  predicate WrittenAt<V(==)>(start: int, defaultTTL: int, cmds: seq<Cmd<V>>, form: string, k: nat)
    requires k <= |cmds|
  {
    Unexpired(WriteAt(start, defaultTTL, cmds, form, k), TimeAfter(start, cmds[..k])).Some?
  }

  lemma HistoryAt<V>(start: int, defaultTTL: int, cmds: seq<Cmd<V>>, key: Key, k: nat)
    requires k <= |cmds|
    ensures
      var (s, form) := (History(start, defaultTTL, cmds)[k], ToString(key));
      && s.now == TimeAfter(start, cmds[..k])
      && (Read(s, key).Some? <==> WrittenAt(start, defaultTTL, cmds, form, k))
      && (form in s.table ==> WriteAt(start, defaultTTL, cmds, form, k) == Some(s.table[form]))
  {
    ReadsLastWrite(start, defaultTTL, cmds[..k], ToString(key));
  }

  /**
  Which command sequences make a miss false: the write seen at `i` has expired by `j`, and at every
  instant in between the last write by then has not.
  */
  lemma FalseMissExactly<V>(start: int, defaultTTL: int, cmds: seq<Cmd<V>>, i: nat, j: nat, key: Key)
    requires i <= j <= |cmds|
    ensures
      var form := ToString(key);
      FalseMiss(History(start, defaultTTL, cmds), i, j, key) <==>
        && Unexpired(WriteAt(start, defaultTTL, cmds, form, i), TimeAfter(start, cmds[..j])).None?
        && forall k | i <= k <= j :: WrittenAt(start, defaultTTL, cmds, form, k)
  {
    var h := History(start, defaultTTL, cmds);
    forall k | i <= k <= j
      ensures Read(h[k], key).Some? <==> WrittenAt(start, defaultTTL, cmds, ToString(key), k)
    {
      HistoryAt(start, defaultTTL, cmds, key, k);
    }
    HistoryAt(start, defaultTTL, cmds, key, i);
    HistoryAt(start, defaultTTL, cmds, key, j);
  }

  predicate Overwrites<V>(c: Cmd<V>, form: string) {
    (c.Set? && ToString(c.key) == form) || (c.SetMulti? && LastItem(c.items, form).Some?)
  }

  lemma OnlyOverwritesChange<V>(start: int, defaultTTL: int, cmds: seq<Cmd<V>>, form: string, k: nat)
    requires k < |cmds| && WrittenAt(start, defaultTTL, cmds, form, k) && WrittenAt(start, defaultTTL, cmds, form, k + 1)
    requires !Overwrites(cmds[k], form)
    ensures WriteAt(start, defaultTTL, cmds, form, k + 1) == WriteAt(start, defaultTTL, cmds, form, k)
  {
    assert cmds[..k + 1][..k] == cmds[..k] && cmds[..k + 1][k] == cmds[k];
  }

  lemma {:induction false} NoOverwriteNoChange<V>(start: int, defaultTTL: int, cmds: seq<Cmd<V>>, form: string, i: nat, j: nat)
    requires i <= j <= |cmds| && forall k | i <= k <= j :: WrittenAt(start, defaultTTL, cmds, form, k)
    requires forall k | i <= k < j :: !Overwrites(cmds[k], form)
    ensures WriteAt(start, defaultTTL, cmds, form, j) == WriteAt(start, defaultTTL, cmds, form, i)
  {
    if i < j {
      NoOverwriteNoChange(start, defaultTTL, cmds, form, i, j - 1);
      OnlyOverwritesChange(start, defaultTTL, cmds, form, j - 1);
    }
  }

  /** So no miss is false unless a Set or SetMulti of the key came between the two steps. */
  lemma FalseMissWasOverwritten<V>(start: int, defaultTTL: int, cmds: seq<Cmd<V>>, i: nat, j: nat, key: Key)
    requires i <= j <= |cmds| && FalseMiss(History(start, defaultTTL, cmds), i, j, key)
    ensures exists k | i <= k < j :: Overwrites(cmds[k], ToString(key))
  {
    FalseMissExactly(start, defaultTTL, cmds, i, j, key);
    assert WrittenAt(start, defaultTTL, cmds, ToString(key), j);
    if forall k | i <= k < j :: !Overwrites(cmds[k], ToString(key)) {
      NoOverwriteNoChange(start, defaultTTL, cmds, ToString(key), i, j);
    }
  }

  // ----- The adapter -----

  predicate ListsItems<V(==)>(order: seq<(Key, V)>, items: map<Key, V>) {
    && (forall i | 0 <= i < |order| :: order[i].0 in items && items[order[i].0] == order[i].1)
    && (forall k | k in items :: (k, items[k]) in order)
  }

  class Adapter<V(==)> {
    var data: Table<V>
    var now: int
    const defaultTTL: int

    constructor (defaultTTL: int, now: int)
      ensures State() == Store(map[], now, defaultTTL)
    {
      data := map[];
      this.now := now;
      this.defaultTTL := defaultTTL;
    }

    function State(): Store<V>
      reads this
    {
      Store(data, now, defaultTTL)
    }

    method EvictExpired()
      modifies `data
      ensures State() == Exec(old(State()), Sweep).0
      ensures |data| == |View(old(data), now)|
    {
      var todo := data.Keys;
      while todo != {}
        invariant todo <= data.Keys
        invariant forall k | k in old(data) && k in todo :: k in data
        invariant forall k | k in data :: k in old(data) && data[k] == old(data)[k]
        invariant forall k | k in old(data) && k !in todo :: k in data <==> Live(old(data), now, k)
        decreases todo
      {
        var k :| k in todo;
        todo := todo - {k};
        if Passed(data[k].deadline, now) {
          data := data - {k};
        }
      }
      assert data == View(old(data), now);
    }

    method Get(key: Key) returns (r: Reply<V>)
      ensures r == Exec(State(), Cmd.Get(key)).1
    {
      var k := ToString(key);
      if k !in data || Passed(data[k].deadline, now) {
        return NotFound;
      }
      r := Found(data[k].payload);
    }

    method Set(key: Key, value: V, ttl: int)
      modifies `data
      ensures State() == Exec(old(State()), Cmd.Set(key, value, ttl)).0
    {
      var effective := ttl;
      if effective == 0 {
        effective := defaultTTL;
      }
      var expiresAt := Never;
      if effective > 0 {
        expiresAt := At(now + effective);
      }
      data := data[ToString(key) := Entry(value, expiresAt)];
    }

    method Delete(key: Key)
      modifies `data
      ensures State() == Exec(old(State()), Cmd.Delete(key)).0
    {
      data := data - {ToString(key)};
    }

    method Clear()
      modifies `data
      ensures State() == Exec(old(State()), Cmd<V>.Clear).0
    {
      data := map[];
    }

    method Exists(key: Key) returns (b: bool)
      ensures Flag(b) == Exec(State(), Cmd.Exists(key)).1
    {
      var r := Get(key);
      b := r.Found?;
    }

    /** Undisturbed; what happens between concurrent callers is the subject of module MemoryFlights. */
    method GetOrSet(key: Key, load: Option<V>, ttl: int) returns (r: Reply<V>)
      modifies `data
      ensures (State(), r) == Exec(old(State()), Cmd.GetOrSet(key, load, ttl))
    {
      r := Get(key);
      if r.Found? {
        return;
      }
      if load.None? {
        return LoaderFailed;
      }
      Set(key, load.value, ttl);
      r := Found(load.value);
    }

    method GetMulti(keys: seq<Key>) returns (out: map<Key, V>)
      ensures Many(out) == Exec(State(), Cmd.GetMulti(keys)).1
    {
      out := map[];
      for i := 0 to |keys|
        invariant out == ReadAll(State(), keys[..i])
      {
        var r := Get(keys[i]);
        if r.Found? {
          out := out[keys[i] := r.value];
        }
        assert keys[..i + 1] == keys[..i] + [keys[i]];
      }
      assert keys[..|keys|] == keys;
    }

    /** The items go in one by one, in whatever order the map yields them. */
    method SetMulti(items: map<Key, V>, ttl: int) returns (ghost order: seq<(Key, V)>)
      modifies `data
      ensures ListsItems(order, items)
      ensures State() == Exec(old(State()), Cmd.SetMulti(order, ttl)).0
    {
      order := [];
      var todo := items.Keys;
      while todo != {}
        invariant todo <= items.Keys
        invariant forall i | 0 <= i < |order| :: order[i].0 in items && items[order[i].0] == order[i].1
        invariant forall k | k in items && k !in todo :: (k, items[k]) in order
        invariant State() == PutAll(old(State()), order, ttl)
        decreases todo
      {
        var k :| k in todo;
        Set(k, items[k], ttl);
        assert (order + [(k, items[k])])[..|order|] == order;
        order := order + [(k, items[k])];
        todo := todo - {k};
      }
    }

    method DeleteMulti(keys: seq<Key>)
      modifies `data
      ensures State() == Exec(old(State()), Cmd.DeleteMulti(keys)).0
    {
      for i := 0 to |keys|
        invariant data == old(data) - StringForms(keys[..i])
      {
        Delete(keys[i]);
        assert keys[..i + 1] == keys[..i] + [keys[i]];
        assert StringForms(keys[..i + 1]) == StringForms(keys[..i]) + {ToString(keys[i])};
      }
      assert keys[..|keys|] == keys;
    }
  }
}
