/** The workspace revision tracker and the revision-aware cache in front of a context provider. */
module RevisionCache {
  import opened Wrappers
  import opened Sequences
  import opened Sorting
  import opened CacheKeys

  // ---------------------------------------------------------------- an insertion-ordered cache

  /** A JavaScript `Map`: its keys in insertion order and its values. */
  datatype Cache<V> = Cache(order: seq<string>, values: map<string, V>) {
    ghost predicate Valid() {
      && NoDuplicates(order)
      && (forall k :: k in order <==> k in values)
    }
  }

  function IsNot(key: string): string -> bool {
    (k: string) => k != key
  }

  function Remove<V>(c: Cache<V>, key: string): Cache<V> {
    if key in c.values then Cache(Filter(IsNot(key), c.order), c.values - {key}) else c
  }

  function Outside(root: string): string -> bool {
    (k: string) => !BelongsTo(k, root)
  }

  /** Every key of a root is dropped, every other key stays. */
  function EvictRoot<V>(c: Cache<V>, root: string): Cache<V> {
    Cache(Filter(Outside(root), c.order), map k | k in c.values && !BelongsTo(k, root) :: c.values[k])
  }

  /** The cache without its `n` oldest entries. */
  function DropOldest<V>(c: Cache<V>, n: nat): Cache<V>
    requires n <= |c.order|
  {
    Cache(c.order[n..], c.values - set k | k in c.order[..n])
  }

  /** How many entries are over the limit. */
  function Excess(size: nat, limit: int): nat {
    if size <= limit then 0 else if limit < 0 then size else size - limit
  }

  /** The newest `limit` entries. */
  function Trim<V>(c: Cache<V>, limit: int): Cache<V> {
    DropOldest(c, Excess(|c.order|, limit))
  }

  lemma DropNext<V>(c: Cache<V>, n: nat)
    requires n < |c.order|
    ensures DropOldest(c, n + 1) == Cache(DropOldest(c, n).order[1..], DropOldest(c, n).values - {c.order[n]})
  {
    assert c.order[..n + 1] == c.order[..n] + [c.order[n]];
    assert forall k :: k in c.order[..n + 1] <==> k in c.order[..n] || k == c.order[n];
  }

  function Put<V>(c: Cache<V>, key: string, value: V): Cache<V> {
    var without := Remove(c, key);
    Cache(without.order + [key], without.values[key := value])
  }

  function Store<V>(c: Cache<V>, key: string, value: V, limit: int): Cache<V> {
    Trim(Put(c, key, value), limit)
  }

  lemma RemoveIsValid<V>(c: Cache<V>, key: string)
    requires c.Valid()
    ensures Remove(c, key).Valid() && key !in Remove(c, key).values
  {
    FilterHasNoDuplicates(IsNot(key), c.order);
    FilterMembers(IsNot(key), c.order);
  }

  lemma EvictIsValid<V>(c: Cache<V>, root: string)
    requires c.Valid()
    ensures EvictRoot(c, root).Valid()
  {
    FilterHasNoDuplicates(Outside(root), c.order);
    FilterMembers(Outside(root), c.order);
  }

  lemma StoreIsValid<V>(c: Cache<V>, key: string, value: V, limit: int)
    requires c.Valid()
    ensures Store(c, key, value, limit).Valid()
    ensures |Store(c, key, value, limit).order| <= if limit < 0 then 0 else limit
    ensures forall k | k in Store(c, key, value, limit).values ::
              Store(c, key, value, limit).values[k] == if k == key then value else (if k in c.values then c.values[k] else value)
    ensures forall k | k in Store(c, key, value, limit).values :: k == key || k in c.values
  {
    RemoveIsValid(c, key);
    var put := Put(c, key, value);
    assert put.Valid() by {
      assert key !in Remove(c, key).order;
    }
  }

  // ---------------------------------------------------------------- the tracker

  datatype Revision = Revision(generation: nat, cacheable: bool)

  /** The tracked roots; the first look at a root starts watching it, when the host can. */
  function Ensure(states: map<string, Revision>, root: string, watchable: bool): map<string, Revision> {
    if root in states then states else states[root := Revision(0, watchable)]
  }

  class WorkspaceRevisionTracker {
    var states: map<string, Revision>

    constructor ()
      ensures states == map[]
    {
      states := map[];
    }

    method EnsureState(root: string, watchable: bool) returns (r: Revision)
      modifies this
      ensures states == Ensure(old(states), root, watchable) && r == states[root]
    {
      if root !in states {
        var generation, cacheable := 0, false;
        if watchable {
          cacheable := true;
        }
        states := states[root := Revision(generation, cacheable)];
      }
      r := states[root];
    }

    method Bump(root: string, watchable: bool)
      modifies this
      ensures var before := Ensure(old(states), root, watchable);
              states == before[root := before[root].(generation := before[root].generation + 1)]
    {
      var r := EnsureState(root, watchable);
      states := states[root := r.(generation := r.generation + 1)];
    }

    /** The watcher of a root reports a change. */
    method OnChange(root: string)
      requires root in states
      modifies this
      ensures states == old(states)[root := old(states)[root].(generation := old(states)[root].generation + 1)]
    {
      states := states[root := states[root].(generation := states[root].generation + 1)];
    }

    /** The watcher of a root fails: the root is never cacheable again. */
    method OnError(root: string)
      requires root in states
      modifies this
      ensures states == old(states)[root := Revision(old(states)[root].generation + 1, false)]
    {
      states := states[root := states[root].(cacheable := false)];
      states := states[root := states[root].(generation := states[root].generation + 1)];
    }

    method Close()
      modifies this
      ensures states == map[]
    {
      states := map[];
    }
  }

  // ---------------------------------------------------------------- the cached port

  /** A search after its first synchronous part: answered from the cache, handed straight to the
      delegate, or awaiting the delegate with the key and revision it started from. */
  datatype Started<V> = Hit(value: V) | Bypass | Awaiting(key: string, revision: nat)

  function Lookup<V>(states: map<string, Revision>, cache: Cache<V>, request: Request): Started<V>
    requires request.root in states
  {
    var before := states[request.root];
    var key := Key(request, before.generation);
    if !before.cacheable then Bypass
    else if key in cache.values then Hit(cache.values[key])
    else Awaiting(key, before.generation)
  }

  class RevisionAwarePort<V> {
    const revisions: WorkspaceRevisionTracker
    const cacheLimit: int
    var cache: Cache<V>

    constructor (revisions: WorkspaceRevisionTracker, cacheLimit: int)
      ensures this.revisions == revisions && this.cacheLimit == cacheLimit && cache == Cache([], map[])
    {
      this.revisions, this.cacheLimit := revisions, cacheLimit;
      cache := Cache([], map[]);
    }

    /** Up to the first `await`: read the revision, look the key up. */
    method Begin(request: Request, watchable: bool) returns (s: Started<V>)
      modifies revisions
      ensures revisions.states == Ensure(old(revisions.states), request.root, watchable)
      ensures s == Lookup(revisions.states, cache, request)
    {
      var before := revisions.EnsureState(request.root, watchable);
      if !before.cacheable {
        return Bypass;
      }
      var key := Key(request, before.generation);
      if key in cache.values {
        return Hit(cache.values[key]);
      }
      s := Awaiting(key, before.generation);
    }

    /** After the delegate answered: read the revision again and store only if it has not moved. */
    method End(root: string, key: string, revision: nat, result: V, watchable: bool)
      requires cache.Valid() && this as object != revisions
      modifies revisions, this
      ensures revisions.states == Ensure(old(revisions.states), root, watchable)
      ensures cache == if revisions.states[root] == Revision(revision, true)
                       then Store(old(cache), key, result, cacheLimit) else old(cache)
      ensures cache.Valid()
    {
      var after := revisions.EnsureState(root, watchable);
      if after.cacheable && after.generation == revision {
        StoreEntry(key, result);
      }
    }

    method StoreEntry(key: string, value: V)
      requires cache.Valid()
      modifies this`cache
      ensures cache == Store(old(cache), key, value, cacheLimit) && cache.Valid()
    {
      RemoveIsValid(cache, key);
      StoreIsValid(cache, key, value, cacheLimit);
      cache := Remove(cache, key);
      cache := Cache(cache.order + [key], cache.values[key := value]);
      TrimCache();
    }

    method TrimCache()
      requires cache.Valid()
      modifies this`cache
      ensures cache == Trim(old(cache), cacheLimit)
    {
      ghost var dropped := 0;
      assert cache.values - {} == cache.values;
      while |cache.order| > cacheLimit && cache.order != []
        invariant dropped <= Excess(|old(cache).order|, cacheLimit)
        invariant cache == DropOldest(old(cache), dropped)
        decreases |cache.order|
      {
        var oldest := cache.order[0];
        DropNext(old(cache), dropped);
        cache := Cache(cache.order[1..], cache.values - {oldest});
        dropped := dropped + 1;
      }
    }

    method Invalidate(root: string)
      requires cache.Valid()
      modifies this`cache
      ensures cache == EvictRoot(old(cache), root) && cache.Valid()
    {
      EvictIsValid(cache, root);
      var keys, values, kept := cache.order, cache.values, [];
      for i := 0 to |keys|
        invariant cache == old(cache)
        invariant kept == Filter(Outside(root), keys[..i])
        invariant values.Keys == cache.values.Keys - set k | k in keys[..i] && BelongsTo(k, root)
        invariant forall k | k in values :: values[k] == cache.values[k]
      {
        assert keys[..i + 1] == keys[..i] + [keys[i]];
        FilterAppend(Outside(root), keys[..i], keys[i]);
        if BelongsTo(keys[i], root) {
          values := values - {keys[i]};
        } else {
          kept := kept + [keys[i]];
        }
      }
      assert keys[..|keys|] == keys;
      assert values == EvictRoot(cache, root).values;
      cache := Cache(kept, values);
    }
  }
}
