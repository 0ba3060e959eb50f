/** The two bounded caches beside the paid-call budget: insertion-ordered dictionaries with expiry. */
module HaisouCache {
  import opened PyText

  const CACHE_MAX := 256
  /** `max(1, _CACHE_MAX // 8)`. */
  const BATCH := 32

  datatype Entry<V> = Entry(key: string, expires: real, value: V)

  /** A Python dict in insertion order. */
  type Store<V> = seq<Entry<V>>

  predicate Distinct<V>(d: Store<V>) { forall i, j :: 0 <= i < j < |d| ==> d[i].key != d[j].key }

  function Find<V>(d: Store<V>, key: string): (i: nat)
    ensures i <= |d| && (i < |d| ==> d[i].key == key) && forall j :: 0 <= j < i ==> d[j].key != key
  {
    if d == [] || d[0].key == key then 0 else 1 + Find(d[1..], key)
  }

  function Lookup<V>(d: Store<V>, key: string): Option<Entry<V>> {
    var i := Find(d, key);
    if i < |d| then Some(d[i]) else None
  }

  /** `store.pop(key, None)`. */
  function Pop<V>(d: Store<V>, key: string): Store<V> {
    var i := Find(d, key);
    if i < |d| then d[..i] + d[i + 1..] else d
  }

  /** `store[key] = ...`: an existing key keeps its place. */
  function Put<V>(d: Store<V>, e: Entry<V>): Store<V> {
    var i := Find(d, e.key);
    if i < |d| then d[i := e] else d + [e]
  }

  function Fresh<V>(d: Store<V>, now: real): Store<V> {
    if d == [] then []
    else if d[0].expires <= now then Fresh(d[1..], now)
    else [d[0]] + Fresh(d[1..], now)
  }

  /** What is left of a full store: the first batch loses its expired entries, or all of them if none is. */
  function Evicted<V>(d: Store<V>, now: real): Store<V> {
    var head := d[..if |d| < BATCH then |d| else BATCH];
    if |d| < CACHE_MAX then d
    else if |Fresh(head, now)| + (|d| - |head|) < CACHE_MAX then Fresh(head, now) + d[|head|..]
    else d[|head|..]
  }

  function Got<V>(d: Store<V>, key: string, now: real): Option<V> {
    var e := Lookup(d, key);
    if e.Some? && now < e.value.expires then Some(e.value.value) else None
  }

  function AfterGet<V>(d: Store<V>, key: string, now: real): Store<V> {
    var e := Lookup(d, key);
    if e.Some? && e.value.expires <= now then Pop(d, key) else d
  }

  function AfterSet<V>(d: Store<V>, key: string, value: V, now: real, ttl: real): Store<V> {
    Put(Evicted(d, now), Entry(key, now + ttl, value))
  }

  // --------------------------------------------------------------- dictionaries

  lemma FindKey<V>(d: Store<V>, i: nat)
    requires Distinct(d) && i < |d|
    ensures Find(d, d[i].key) == i
  {
    var j := Find(d, d[i].key);
    assert j <= i;
    assert d[j].key == d[i].key;
  }

  lemma PopFirst<V>(kept: Store<V>, d: Store<V>)
    requires d != [] && Distinct(kept + d)
    ensures Pop(kept + d, d[0].key) == kept + d[1..] && Distinct(kept + d[1..])
  {
    assert (kept + d)[|kept|] == d[0];
    FindKey(kept + d, |kept|);
    DistinctCut(kept + d, |kept|);
    assert (kept + d)[..|kept|] + (kept + d)[|kept| + 1..] == kept + d[1..];
  }

  lemma PopHead<V>(d: Store<V>, i: nat)
    requires i < |d| && Distinct(d[i..])
    ensures Pop(d[i..], d[i].key) == d[i + 1..] && Distinct(d[i + 1..])
  {
    assert [] + d[i..] == d[i..] && d[i..][1..] == d[i + 1..] && [] + d[i + 1..] == d[i + 1..];
    hide Pop, Distinct;
    PopFirst([], d[i..]);
  }

  lemma DistinctCut<V>(d: Store<V>, i: nat)
    requires Distinct(d) && i < |d|
    ensures Distinct(d[..i] + d[i + 1..])
  {
    var r := d[..i] + d[i + 1..];
    forall k | 0 <= k < |r| ensures r[k] == if k < i then d[k] else d[k + 1] {}
  }

  lemma LookupCut<V>(d: Store<V>, i: nat, key: string)
    requires Distinct(d) && i < |d|
    ensures Lookup(d[..i] + d[i + 1..], key) == if key == d[i].key then None else Lookup(d, key)
  {
    var r := d[..i] + d[i + 1..];
    DistinctCut(d, i);
    forall k | 0 <= k < |r| ensures r[k] == if k < i then d[k] else d[k + 1] {}
    var j := Find(d, key);
    if key == d[i].key {
      FindKey(d, i);
    } else if j < |d| {
      FindKey(r, if j < i then j else j - 1);
    }
  }

  /** Reading a key back: the last entry put there, all others as before. */
  lemma LookupPut<V>(d: Store<V>, e: Entry<V>, key: string)
    requires Distinct(d)
    ensures Distinct(Put(d, e)) && Lookup(Put(d, e), key) == if key == e.key then Some(e) else Lookup(d, key)
  {
    var r, i, j := Put(d, e), Find(d, e.key), Find(d, key);
    assert forall k :: 0 <= k < |d| && k != i ==> r[k] == d[k];
    assert i < |r| && r[i] == e;
    assert forall k :: 0 <= k < |d| ==> r[k].key == d[k].key;
    FindKey(r, i);
    if key != e.key && j < |d| {
      FindKey(r, j);
    }
  }

  lemma PopAfter<V>(kept: Store<V>, d: Store<V>, i: nat)
    requires i < |d| && Distinct(kept + d[i..])
    ensures Pop(kept + d[i..], d[i].key) == kept + d[i + 1..] && Distinct(kept + d[i + 1..])
  {
    hide Pop, Distinct;
    assert d[i..][1..] == d[i + 1..];
    PopFirst(kept, d[i..]);
  }

  lemma FreshNone<V>(now: real)
    ensures Fresh<V>([], now) == []
  {
  }

  lemma FreshStep<V>(d: Store<V>, head: Store<V>, i: nat, now: real)
    requires i < |head| <= |d| && head == d[..|head|]
    ensures d[i..] == [head[i]] + d[i + 1..]
    ensures Fresh(head[i..], now) == (if head[i].expires <= now then [] else [head[i]]) + Fresh(head[i + 1..], now)
  {
    assert head[i..][1..] == head[i + 1..];
  }

  lemma DropStep<V>(kept: Store<V>, d: Store<V>, head: Store<V>, i: nat, now: real)
    requires i < |head| <= |d| && head == d[..|head|] && Distinct(kept + d[i..])
    ensures head[i].expires <= now ==>
              Pop(kept + d[i..], head[i].key) == kept + d[i + 1..] && Distinct(kept + d[i + 1..])
                                       && kept + Fresh(head[i..], now) == kept + Fresh(head[i + 1..], now)
    ensures head[i].expires > now ==> kept + d[i..] == kept + [head[i]] + d[i + 1..]
                                      && kept + Fresh(head[i..], now) == kept + [head[i]] + Fresh(head[i + 1..], now)
  {
    PopAfter(kept, d, i);
    FreshStep(d, head, i, now);
    hide *;
  }

  lemma {:induction false} FreshLength<V>(d: Store<V>, now: real)
    ensures |Fresh(d, now)| <= |d| && (|Fresh(d, now)| == |d| ==> Fresh(d, now) == d)
  {
    if d != [] {
      FreshLength(d[1..], now);
    }
  }

  // ------------------------------------------------------------ runs of one cache

  datatype Op<V> = Get(key: string, now: real) | Set(key: string, now: real, value: V)

  function StoreAfter<V>(ops: seq<Op<V>>, ttl: real): Store<V> {
    if ops == [] then []
    else
      var d, op := StoreAfter(ops[..|ops| - 1], ttl), ops[|ops| - 1];
      if op.Get? then AfterGet(d, op.key, op.now) else AfterSet(d, op.key, op.value, op.now, ttl)
  }

  /** An unbounded cache: what was last set for each key. */
  function LastSet<V>(ops: seq<Op<V>>, ttl: real): map<string, Entry<V>> {
    if ops == [] then map[]
    else
      var m, op := LastSet(ops[..|ops| - 1], ttl), ops[|ops| - 1];
      if op.Get? then m else m[op.key := Entry(op.key, op.now + ttl, op.value)]
  }

  predicate TimePasses<V>(ops: seq<Op<V>>, now: real) {
    && (forall i, j :: 0 <= i < j < |ops| ==> ops[i].now <= ops[j].now)
    && (forall i :: 0 <= i < |ops| ==> ops[i].now <= now)
  }

  lemma LookupIn<V>(d: Store<V>, e: Entry<V>)
    requires Distinct(d)
    ensures Lookup(d, e.key) == Some(e) <==> e in d
  {
    if e in d {
      var i :| 0 <= i < |d| && d[i] == e;
      FindKey(d, i);
    }
  }

  lemma {:induction false} FreshDistinct<V>(kept: Store<V>, d: Store<V>, tail: Store<V>, now: real)
    requires Distinct(kept + d + tail)
    ensures Distinct(kept + Fresh(d, now) + tail) && forall e :: e in Fresh(d, now) ==> e in d
    decreases |d|
  {
    if d != [] {
      var all := kept + d + tail;
      if d[0].expires <= now {
        DistinctCut(all, |kept|);
        assert all[..|kept|] + all[|kept| + 1..] == kept + d[1..] + tail;
        FreshDistinct(kept, d[1..], tail, now);
      } else {
        assert all == kept + [d[0]] + d[1..] + tail;
        FreshDistinct(kept + [d[0]], d[1..], tail, now);
        assert kept + Fresh(d, now) + tail == kept + [d[0]] + Fresh(d[1..], now) + tail;
      }
    }
  }

  /** Eviction only removes entries, and makes room. */
  lemma EvictedIsPart<V>(d: Store<V>, now: real)
    requires Distinct(d) && |d| <= CACHE_MAX
    ensures Distinct(Evicted(d, now)) && |Evicted(d, now)| < CACHE_MAX && forall e :: e in Evicted(d, now) ==> e in d
  {
    var n := if |d| < BATCH then |d| else BATCH;
    var head, tail := d[..n], d[n..];
    assert [] + head + tail == d;
    FreshDistinct([], head, tail, now);
    assert [] + Fresh(head, now) + tail == Fresh(head, now) + tail;
    TailDistinct(d, n);
    hide Fresh, Distinct;
  }

  lemma TailDistinct<V>(d: Store<V>, n: nat)
    requires Distinct(d) && n <= |d|
    ensures Distinct(d[n..]) && (forall e :: e in d[n..] ==> e in d) && forall e :: e in d[..n] ==> e in d
  {
  }

  /** One operation leaves entries of the store either alone or out. */
  lemma OpEntries<V>(d: Store<V>, op: Op<V>, ttl: real, key: string)
    requires Distinct(d) && |d| <= CACHE_MAX
    ensures var r := if op.Get? then AfterGet(d, op.key, op.now) else AfterSet(d, op.key, op.value, op.now, ttl);
            && Distinct(r) && |r| <= CACHE_MAX
            && (op.Set? && key == op.key ==> Lookup(r, key) == Some(Entry(key, op.now + ttl, op.value)))
            && (op.Get? || key != op.key ==> Lookup(r, key) == None || Lookup(r, key) == Lookup(d, key))
  {
    if op.Get? {
      var i := Find(d, op.key);
      if i < |d| { DistinctCut(d, i); LookupCut(d, i, key); }
    } else {
      EvictedIsPart(d, op.now);
      var kept := Evicted(d, op.now);
      hide Evicted;
      LookupPut(kept, Entry(op.key, op.now + ttl, op.value), key);
      var e := Lookup(kept, key);
      if e.Some? {
        LookupIn(kept, e.value);
        LookupIn(d, e.value);
      }
    }
  }

  /** Without a full store nothing live is dropped. */
  lemma GetKeeps<V>(d: Store<V>, read: string, now: real, key: string)
    requires Distinct(d)
    ensures var r := AfterGet(d, read, now);
            Lookup(r, key) == Lookup(d, key)
            || (Lookup(r, key) == None && Lookup(d, key).Some? && Lookup(d, key).value.expires <= now)
  {
    var i, r := Find(d, read), AfterGet(d, read, now);
    if i < |d| && d[i].expires <= now {
      assert r == d[..i] + d[i + 1..] && Lookup(d, read) == Some(d[i]) && (key == d[i].key ==> key == read);
      hide AfterGet, Find, Lookup, Distinct;
      LookupCut(d, i, key);
    } else {
      assert r == d;
    }
  }

  lemma OpKeeps<V>(d: Store<V>, op: Op<V>, ttl: real, key: string)
    requires Distinct(d) && |d| < CACHE_MAX && (op.Get? || key != op.key)
    ensures var r := if op.Get? then AfterGet(d, op.key, op.now) else AfterSet(d, op.key, op.value, op.now, ttl);
            Lookup(r, key) == Lookup(d, key)
            || (Lookup(r, key) == None && Lookup(d, key).Some? && Lookup(d, key).value.expires <= op.now)
  {
    if op.Get? {
      hide AfterSet, Distinct;
      GetKeeps(d, op.key, op.now, key);
      hide AfterGet, Lookup;
    } else {
      assert Evicted(d, op.now) == d;
      hide Evicted, Put, Lookup, Distinct;
      LookupPut(d, Entry(op.key, op.now + ttl, op.value), key);
    }
  }

  lemma RunStep<V>(ops: seq<Op<V>>, ttl: real)
    requires ops != []
    ensures var op := ops[|ops| - 1];
            var d, m := StoreAfter(ops[..|ops| - 1], ttl), LastSet(ops[..|ops| - 1], ttl);
            StoreAfter(ops, ttl)
              == (if op.Get? then AfterGet(d, op.key, op.now) else AfterSet(d, op.key, op.value, op.now, ttl))
            && LastSet(ops, ttl) == if op.Get? then m else m[op.key := Entry(op.key, op.now + ttl, op.value)]
  {
    hide AfterGet, AfterSet;
  }

  /** After any run the store is bounded and holds nothing but what was last set. */
  lemma {:induction false} BoundedAndHonest<V>(ops: seq<Op<V>>, ttl: real)
    ensures Distinct(StoreAfter(ops, ttl)) && |StoreAfter(ops, ttl)| <= 256
    ensures forall key :: Lookup(StoreAfter(ops, ttl), key).Some?
                      ==> key in LastSet(ops, ttl) && Lookup(StoreAfter(ops, ttl), key).value == LastSet(ops, ttl)[key]
    decreases |ops|
  {
    if ops != [] {
      var init, op := ops[..|ops| - 1], ops[|ops| - 1];
      BoundedAndHonest(init, ttl);
      RunStep(ops, ttl);
      hide *;
      OpEntries(StoreAfter(init, ttl), op, ttl, "");
      forall key | Lookup(StoreAfter(ops, ttl), key).Some?
        ensures key in LastSet(ops, ttl) && Lookup(StoreAfter(ops, ttl), key).value == LastSet(ops, ttl)[key]
      {
        OpEntries(StoreAfter(init, ttl), op, ttl, key);
      }
    }
  }

  /** A hit is the value last set for the key, still within its time to live. */
  lemma HitsAreFresh<V>(ops: seq<Op<V>>, ttl: real, key: string, now: real)
    ensures var r := Got(StoreAfter(ops, ttl), key, now);
            r.Some? ==>
              && key in LastSet(ops, ttl) && r.value == LastSet(ops, ttl)[key].value
              && now < LastSet(ops, ttl)[key].expires
  {
    BoundedAndHonest(ops, ttl);
  }

  lemma {:induction false} DistinctSize<V>(d: Store<V>, keys: set<string>)
    requires Distinct(d) && forall e :: e in d ==> e.key in keys
    ensures |d| <= |keys|
    decreases |d|
  {
    if d != [] {
      assert d[0] in d;
      forall e | e in d[1..] ensures e.key in keys - {d[0].key} {
        var i :| 0 <= i < |d[1..]| && d[1..][i] == e;
        assert d[i + 1] == e;
      }
      DistinctSize(d[1..], keys - {d[0].key});
    }
  }

  lemma RoomLeft<V>(ops: seq<Op<V>>, ttl: real)
    requires |LastSet(ops, ttl).Keys| < CACHE_MAX
    ensures Distinct(StoreAfter(ops, ttl)) && |StoreAfter(ops, ttl)| < CACHE_MAX
  {
    var d := StoreAfter(ops, ttl);
    BoundedAndHonest(ops, ttl);
    forall e | e in d ensures e.key in LastSet(ops, ttl).Keys { LookupIn(d, e); }
    DistinctSize(d, LastSet(ops, ttl).Keys);
  }

  lemma KeysGrow<V>(ops: seq<Op<V>>, ttl: real)
    requires ops != []
    ensures |LastSet(ops[..|ops| - 1], ttl).Keys| <= |LastSet(ops, ttl).Keys|
  {
    var op, before, after := ops[|ops| - 1], LastSet(ops[..|ops| - 1], ttl).Keys, LastSet(ops, ttl).Keys;
    if op.Set? {
      assert after == before + {op.key};
    }
  }

  /** With fewer distinct keys than the bound, the cache answers exactly as the unbounded one. */
  lemma ExactBelowTheBound<V>(ops: seq<Op<V>>, ttl: real, key: string, now: real)
    requires |LastSet(ops, ttl).Keys| < 256 && TimePasses(ops, now)
    ensures Got(StoreAfter(ops, ttl), key, now)
         == (if key in LastSet(ops, ttl) && now < LastSet(ops, ttl)[key].expires
             then Some(LastSet(ops, ttl)[key].value)
             else None)
  {
    BoundedAndHonest(ops, ttl);
    LiveKept(ops, ttl, key, now);
  }

  lemma {:induction false} LiveKept<V>(ops: seq<Op<V>>, ttl: real, key: string, now: real)
    requires |LastSet(ops, ttl).Keys| < 256 && TimePasses(ops, now)
    ensures key in LastSet(ops, ttl) && now < LastSet(ops, ttl)[key].expires
            ==> Lookup(StoreAfter(ops, ttl), key) == Some(LastSet(ops, ttl)[key])
    decreases |ops|
  {
    if ops != [] {
      var init, op := ops[..|ops| - 1], ops[|ops| - 1];
      KeysGrow(ops, ttl);
      RoomLeft(init, ttl);
      RunStep(ops, ttl);
      assert TimePasses(init, now) && op.now <= now;
      hide AfterGet, AfterSet, Lookup, Distinct, StoreAfter, LastSet, TimePasses;
      LiveKept(init, ttl, key, now);
      OpEntries(StoreAfter(init, ttl), op, ttl, key);
      if op.Get? || key != op.key {
        OpKeeps(StoreAfter(init, ttl), op, ttl, key);
      }
    }
  }

  // ------------------------------------------------------------------- the class

  class ResultCache<V(0)> {
    var store: Store<V>
    const ttl: real

    constructor (ttl: real)
      ensures Valid() && store == [] && this.ttl == ttl
    {
      store := [];
      this.ttl := ttl;
    }

    predicate Valid()
      reads this
    {
      Distinct(store) && |store| <= CACHE_MAX
    }

    /** `_cache_get`. */
    method CacheGet(key: string, now: real) returns (r: Option<V>)
      requires Valid()
      modifies this
      ensures Valid()
      ensures r == Got(old(store), key, now)
      ensures store == AfterGet(old(store), key, now)
    {
      var item := Lookup(store, key);
      if item.None? {
        return None;
      }
      if item.value.expires <= now {
        DistinctCut(store, Find(store, key));
        store := Pop(store, key);
        return None;
      }
      return Some(item.value.value);
    }

    /** `_cache_set`. */
    method CacheSet(key: string, value: V, now: real)
      requires Valid()
      modifies this
      ensures Valid()
      ensures store == AfterSet(old(store), key, value, now, ttl)
    {
      if |store| >= CACHE_MAX {
        DropExpired(now);
        if |store| >= CACHE_MAX {
          DropFirst();
        }
      }
      FreshLength(old(store)[..if |old(store)| < BATCH then |old(store)| else BATCH], now);
      LookupPut(store, Entry(key, now + ttl, value), key);
      store := Put(store, Entry(key, now + ttl, value));
    }

    /** The loop over a snapshot of the first entries, dropping the expired ones. */
    method DropExpired(now: real)
      requires Distinct(store) && |store| >= CACHE_MAX
      modifies this
      ensures Distinct(store) && store == Fresh(old(store)[..BATCH], now) + old(store)[BATCH..]
    {
      hide Pop, Distinct, Fresh;
      ghost var start := store;
      var listed := store[..BATCH];
      ghost var kept: Store<V> := [];
      for i := 0 to BATCH
        invariant listed == start[..BATCH] && |start| >= CACHE_MAX
        invariant store == kept + start[i..] && Distinct(store)
        invariant Fresh(listed, now) == kept + Fresh(listed[i..], now)
      {
        DropStep(kept, start, listed, i, now);
        if listed[i].expires <= now {
          store := Pop(store, listed[i].key);
        } else {
          kept := kept + [listed[i]];
        }
      }
      assert listed[BATCH..] == [];
      FreshNone<V>(now);
    }

    method DropFirst()
      requires Distinct(store) && |store| >= CACHE_MAX
      modifies this
      ensures Distinct(store) && store == old(store)[BATCH..]
    {
      hide Pop, Distinct;
      ghost var start := store;
      var listed := store[..BATCH];
      for i := 0 to BATCH
        invariant listed == start[..BATCH] && |start| >= CACHE_MAX
        invariant store == start[i..] && Distinct(store)
      {
        PopHead(start, i);
        store := Pop(store, listed[i].key);
      }
    }
  }

  lemma {:induction false} FreshAll<V>(d: Store<V>, now: real)
    ensures (forall e :: e in d ==> now < e.expires) ==> Fresh(d, now) == d
    ensures (forall e :: e in d ==> e.expires <= now) ==> Fresh(d, now) == []
  {
    if d != [] {
      assert d[0] in d && forall e :: e in d[1..] ==> e in d;
      FreshAll(d[1..], now);
    }
  }

  /** A set in a full store: if none of the 32 oldest has expired all 32 go, and if all have they go as well;
      below the bound nothing does. */
  lemma SetMakesRoom<V>(d: Store<V>, key: string, value: V, now: real, ttl: real)
    ensures |d| < 256 ==> AfterSet(d, key, value, now, ttl) == Put(d, Entry(key, now + ttl, value))
    ensures |d| == 256 && (|| (forall e :: e in d[..32] ==> now < e.expires)
                           || (forall e :: e in d[..32] ==> e.expires <= now)) ==>
              AfterSet(d, key, value, now, ttl) == Put(d[32..], Entry(key, now + ttl, value))
  {
    hide Put;
    if |d| == 256 {
      FreshAll(d[..32], now);
      hide Fresh;
      assert [] + d[32..] == d[32..];
    }
  }
}
