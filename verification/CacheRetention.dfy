/** What the cache is for: an answer that was stored is given again, until its root moves, is evicted, or newer answers
    take its place. */
module CacheRetention {
  import opened Wrappers
  import opened Sequences
  import opened Sorting
  import opened CacheKeys
  import opened RevisionCache
  import opened CacheAgreement

  // ---------------------------------------------------------------- one store

  /** The entries of `t` are those of `s` other than `key`, with `key` as the newest, but for `dropped`, the oldest. */
  ghost predicate IsStored<V>(s: Cache<V>, t: Cache<V>, key: string, value: V, limit: int, dropped: seq<string>) {
    && Filter(IsNot(key), s.order) + [key] == dropped + t.order
    && (dropped != [] ==> |t.order| == if limit < 0 then 0 else limit)
    && |t.order| <= (if limit < 0 then 0 else limit)
    && forall k | k in t.order :: k in t.values && t.values[k] == if k == key then value else if k in s.values then s.values[k] else value
  }

  lemma StoredOrder<V>(c: Cache<V>, key: string, value: V, limit: int) returns (dropped: seq<string>)
    requires c.Valid()
    ensures var t := Store(c, key, value, limit);
            && Filter(IsNot(key), c.order) + [key] == dropped + t.order
            && (dropped != [] ==> |t.order| == if limit < 0 then 0 else limit)
  {
    var put := Put(c, key, value);
    NotThere(c, key);
    hide Filter, Remove;
    dropped := put.order[..Excess(|put.order|, limit)];
    assert put.order == dropped + Store(c, key, value, limit).order;
  }

  /** A store makes its entry the newest, and drops the oldest ones that are over the limit and no more. */
  lemma StoreIsExact<V>(c: Cache<V>, key: string, value: V, limit: int) returns (dropped: seq<string>)
    requires c.Valid()
    ensures IsStored(c, Store(c, key, value, limit), key, value, limit, dropped)
  {
    StoreIsValid(c, key, value, limit);
    dropped := StoredOrder(c, key, value, limit);
    hide Store, Filter;
  }

  lemma {:induction false} KeepsAll(xs: seq<string>, key: string)
    requires key !in xs
    ensures Filter(IsNot(key), xs) == xs
  {
    if xs != [] {
      KeepsAll(xs[..|xs| - 1], key);
      assert xs == xs[..|xs| - 1] + [xs[|xs| - 1]];
    }
  }

  lemma NotThere<V>(c: Cache<V>, key: string)
    requires c.Valid()
    ensures Remove(c, key).order == Filter(IsNot(key), c.order)
  {
    if key !in c.values {
      KeepsAll(c.order, key);
    }
  }

  // ---------------------------------------------------------------- what is newer than an entry

  /** The key is in the order, and after it come only members of `newer`. */
  ghost predicate Follows(order: seq<string>, key: string, newer: set<string>) {
    exists i | 0 <= i < |order| :: order[i] == key && forall j | i < j < |order| :: order[j] in newer
  }

  lemma {:induction false} FilterFollows(order: seq<string>, key: string, newer: set<string>, keep: string -> bool)
    requires Follows(order, key, newer) && keep(key) && NoDuplicates(order)
    ensures Follows(Filter(keep, order), key, newer)
    decreases |order|
  {
    var n := |order| - 1;
    var i :| 0 <= i < |order| && order[i] == key && forall j | i < j < |order| :: order[j] in newer;
    if i == n {
      assert Filter(keep, order)[|Filter(keep, order)| - 1] == key;
    } else {
      assert order[..n][i] == key;
      assert Follows(order[..n], key, newer);
      FilterFollows(order[..n], key, newer, keep);
      if keep(order[n]) {
        LaterFollows(Filter(keep, order[..n]), key, newer, order[n]);
      }
    }
  }

  lemma LaterFollows(order: seq<string>, key: string, newer: set<string>, next: string)
    requires Follows(order, key, newer)
    ensures Follows(order + [next], key, newer + {next})
    ensures next in newer ==> Follows(order + [next], key, newer)
  {
    var i :| 0 <= i < |order| && order[i] == key && forall j | i < j < |order| :: order[j] in newer;
    assert (order + [next])[i] == key;
    assert forall j | i < j <= |order| :: (order + [next])[j] in newer + {next};
  }

  lemma {:induction false} DistinctWithin(xs: seq<string>, all: set<string>)
    requires NoDuplicates(xs) && forall x | x in xs :: x in all
    ensures |xs| <= |all|
    decreases |xs|
  {
    if xs != [] {
      var n := |xs| - 1;
      assert xs[n] in xs;
      assert forall x | x in xs[..n] :: x in xs;
      forall x | x in xs[..n] ensures x in all - {xs[n]} {
        var i :| 0 <= i < n && xs[i] == x;
      }
      DistinctWithin(xs[..n], all - {xs[n]});
    }
  }

  /** Dropping from the front keeps a key that has fewer than the limit after it. */
  lemma DroppingKeeps(order: seq<string>, dropped: seq<string>, kept: seq<string>, key: string, newer: set<string>)
    requires order == dropped + kept && NoDuplicates(order) && Follows(order, key, newer)
    requires dropped != [] ==> |newer| < |kept|
    ensures Follows(kept, key, newer)
  {
    var i :| 0 <= i < |order| && order[i] == key && forall j | i < j < |order| :: order[j] in newer;
    var after := order[i + 1..];
    forall x | x in after ensures x in newer {
      var j :| 0 <= j < |after| && after[j] == x;
      assert order[i + 1 + j] == x;
    }
    DistinctWithin(after, newer);
    assert i >= |dropped|;
    assert kept[i - |dropped|] == key;
    assert forall j | i - |dropped| < j < |kept| :: kept[j] == order[j + |dropped|];
  }

  // ---------------------------------------------------------------- over a run

  /** What this step stores: the answer of a search whose root is still at the revision it started from. */
  function Stores<V>(s: System<V>, e: Event<V>): set<string> {
    if e.SearchEnds?
       && Ensure(s.world.states, e.flight.request.root, e.watchable)[e.flight.request.root] == Revision(e.flight.revision, true)
    then {e.flight.key} else {}
  }

  function StoredIn<V>(limit: int, s: System<V>, events: seq<Event<V>>): set<string> {
    if events == [] then {}
    else StoredIn(limit, s, events[..|events| - 1]) + Stores(RunFrom(limit, s, events[..|events| - 1]), events[|events| - 1])
  }

  /** No step of the run evicts the key. */
  predicate Unevicted<V>(events: seq<Event<V>>, key: string) {
    forall i | 0 <= i < |events| :: events[i].Evicts? ==> !BelongsTo(key, events[i].root)
  }

  /** The cache has this value for the key, and only these keys are newer. */
  ghost predicate Holds<V>(c: Cache<V>, key: string, value: V, newer: set<string>) {
    c.Valid() && key in c.values && c.values[key] == value && Follows(c.order, key, newer)
  }

  lemma StoreHolds<V>(c: Cache<V>, key: string, value: V, newer: set<string>, other: string, answer: V, limit: int)
    requires Holds(c, key, value, newer) && other != key && |newer + {other}| < limit
    ensures Holds(Store(c, other, answer, limit), key, value, newer + {other})
  {
    var t := Store(c, other, answer, limit);
    StoreIsValid(c, other, answer, limit);
    var dropped := StoreIsExact(c, other, answer, limit);
    var others := Filter(IsNot(other), c.order);
    hide Store;
    FilterHasNoDuplicates(IsNot(other), c.order);
    FilterMembers(IsNot(other), c.order);
    FilterFollows(c.order, key, newer, IsNot(other));
    hide Filter;
    LaterFollows(others, key, newer, other);
    DroppingKeeps(others + [other], dropped, t.order, key, newer + {other});
    FollowsIsIn(t.order, key, newer + {other});
  }

  lemma FollowsIsIn(order: seq<string>, key: string, newer: set<string>)
    requires Follows(order, key, newer)
    ensures key in order
  {
  }

  lemma StoredHolds<V>(c: Cache<V>, key: string, value: V, limit: int)
    requires c.Valid() && limit > 0
    ensures Holds(Store(c, key, value, limit), key, value, {})
  {
    var t := Store(c, key, value, limit);
    StoreIsValid(c, key, value, limit);
    var dropped := StoreIsExact(c, key, value, limit);
    hide Store, Filter;
    assert |t.order| > 0 by {
      if dropped == [] {
        assert |t.order| == |Filter(IsNot(key), c.order)| + 1;
      }
    }
    assert t.order[|t.order| - 1] == key by {
      var all := Filter(IsNot(key), c.order) + [key];
      assert all[|all| - 1] == (dropped + t.order)[|all| - 1];
    }
    assert key in t.order;
  }

  lemma EvictHolds<V>(c: Cache<V>, key: string, value: V, newer: set<string>, root: string)
    requires Holds(c, key, value, newer) && !BelongsTo(key, root)
    ensures Holds(EvictRoot(c, root), key, value, newer)
  {
    hide BelongsTo;
    EvictIsValid(c, root);
    FilterFollows(c.order, key, newer, Outside(root));
  }

  lemma StepHolds<V>(limit: int, s: System<V>, e: Event<V>, key: string, value: V, newer: set<string>)
    requires Holds(s.cache, key, value, newer) && (e.Evicts? ==> !BelongsTo(key, e.root))
    requires key !in Stores(s, e) && |newer + Stores(s, e)| < limit
    ensures Holds(Next(limit, s, e).cache, key, value, newer + Stores(s, e))
  {
    hide Holds, BelongsTo, Store, EvictRoot;
    assert newer + {} == newer;
    match e
    case SearchEnds(f, result, watchable) =>
      if Stores(s, e) != {} {
        StoreHolds(s.cache, key, value, newer, f.key, result, limit);
      }
    case Evicts(root) => EvictHolds(s.cache, key, value, newer, root);
    case _ =>
  }

  lemma FewerNewer(a: set<string>, b: set<string>)
    requires a <= b
    ensures |a| <= |b|
  {
    assert b == a + (b - a);
  }

  lemma {:induction false} RunHolds<V>(limit: int, s: System<V>, events: seq<Event<V>>, key: string, value: V)
    requires Holds(s.cache, key, value, {}) && Unevicted(events, key)
    requires key !in StoredIn(limit, s, events) && |StoredIn(limit, s, events)| < limit
    ensures Holds(RunFrom(limit, s, events).cache, key, value, StoredIn(limit, s, events))
  {
    if events != [] {
      hide Holds, BelongsTo, Next, Stores;
      var n := |events| - 1;
      assert forall i | 0 <= i < n :: events[..n][i] == events[i];
      FewerNewer(StoredIn(limit, s, events[..n]), StoredIn(limit, s, events));
      RunHolds(limit, s, events[..n], key, value);
      StepHolds(limit, RunFrom(limit, s, events[..n]), events[n], key, value, StoredIn(limit, s, events[..n]));
    }
  }

  /** An answer that came while its root stayed at one revision is given to every later search for the request, whatever
      happens in between, as long as the root stays there, is not evicted, and fewer than `limit` other answers are stored. */
  lemma AnswersAreHit<V>(limit: int, s: System<V>, f: Flight, answer: V, watchable: bool, more: seq<Event<V>>)
    requires s.cache.Valid() && f.key == Key(f.request, f.revision)
    requires Ensure(s.world.states, f.request.root, watchable)[f.request.root] == Revision(f.revision, true)
    requires var t := Next(limit, s, SearchEnds(f, answer, watchable));
             && Unevicted(more, f.key) && f.key !in StoredIn(limit, t, more) && |StoredIn(limit, t, more)| < limit
    requires var t := RunFrom(limit, Next(limit, s, SearchEnds(f, answer, watchable)), more);
             f.request.root in t.world.states && t.world.states[f.request.root] == Revision(f.revision, true)
    ensures var t := RunFrom(limit, Next(limit, s, SearchEnds(f, answer, watchable)), more);
            RevisionCache.Lookup(t.world.states, t.cache, f.request) == Hit(answer)
  {
    hide Key, Store, StoredIn, Unevicted, RunFrom;
    var t := Next(limit, s, SearchEnds(f, answer, watchable));
    StoredHolds(s.cache, f.key, answer, limit);
    RunHolds(limit, t, more, f.key, answer);
  }

  // ---------------------------------------------------------------- from the first search to the first hit

  /** A root that can be watched and has not failed: the first search for a request asks the provider, and the second is
      given its answer. */
  lemma SecondSearchIsHit<V>(limit: int, s: System<V>, request: Request, answer: V)
    requires s.cache.Valid() && limit > 0
    requires request.root in s.world.states ==> s.world.states[request.root].cacheable
    ensures var t := Next(limit, s, SearchStarts(request, true));
            && request.root in t.world.states && t.world.states[request.root].cacheable
            && var revision := t.world.states[request.root].generation;
               var f := Flight(request, Key(request, revision), revision, ChangesOf(t.world, request.root));
               if f.key in s.cache.values then RevisionCache.Lookup(t.world.states, s.cache, request) == Hit(s.cache.values[f.key])
               else
                 && f in t.flights
                 && var u := Next(limit, t, SearchEnds(f, answer, true));
                    RevisionCache.Lookup(u.world.states, u.cache, request) == Hit(answer)
  {
    hide Key, Store;
    var t := Next(limit, s, SearchStarts(request, true));
    var revision := t.world.states[request.root].generation;
    if Key(request, revision) !in s.cache.values {
      StoredHolds(t.cache, Key(request, revision), answer, limit);
    }
  }

  // ---------------------------------------------------------------- the tracker

  /** A root moves to a new generation when it changes while it can be watched, when it is told to, and when its watcher
      fails, which ends caching for good; a first look begins at generation zero; closing forgets all roots. */
  lemma TrackingIsExact<V>(w: World, e: Event<V>, root: string)
    ensures var before := if root in w.states then Some(w.states[root]) else None;
            var states := NextWorld(w, e).states;
            (if root in states then Some(states[root]) else None) ==
            match e
            case Closes => None
            case Changes(r, _) =>
              if r == root && before.Some? && before.value.cacheable then Some(Revision(before.value.generation + 1, true)) else before
            case WatchFails(r) =>
              if r == root && before.Some? then Some(Revision(before.value.generation + 1, false)) else before
            case Bumps(r, watchable) =>
              if r != root then before
              else if before == None then Some(Revision(1, watchable))
              else Some(Revision(before.value.generation + 1, before.value.cacheable))
            case Looks(r, watchable) => if r == root && before == None then Some(Revision(0, watchable)) else before
            case SearchStarts(request, watchable) => if request.root == root && before == None then Some(Revision(0, watchable)) else before
            case SearchEnds(f, _, watchable) => if f.request.root == root && before == None then Some(Revision(0, watchable)) else before
            case Evicts(_) => before
  {
  }

  /** Only an eviction removes entries for their root, and it removes all of them. */
  lemma EvictionsAreExact<V>(limit: int, s: System<V>, root: string, key: string)
    ensures var t := Next(limit, s, Evicts(root));
            && (key in t.cache.values <==> key in s.cache.values && !(|root| < |key| && key[..|root|] == root && key[|root|] == NUL))
            && (key in t.cache.values ==> t.cache.values[key] == s.cache.values[key])
            && t.world == s.world && t.flights == s.flights
  {
  }

  /** A search is under way from a start that finds nothing to its end, and is answered once. */
  lemma FlightsAreExact<V>(limit: int, s: System<V>, e: Event<V>, f: Flight)
    ensures var t := Next(limit, s, e);
            var starts :=
              && e.SearchStarts? && f.request == e.request
              && RevisionCache.Lookup(t.world.states, s.cache, e.request) == Awaiting(f.key, f.revision)
              && f.epoch == ChangesOf(t.world, e.request.root);
            var ends := e.SearchEnds? && e.flight == f && f in s.flights;
            t.flights[f] == s.flights[f] + (if starts then 1 else 0) - (if ends then 1 else 0)
  {
  }
}
