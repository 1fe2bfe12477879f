/** Every interleaving of searches, workspace changes, evictions and trims: a cache hit is what the
    provider would answer now. */
module CacheAgreement {
  import opened Wrappers
  import opened CacheKeys
  import opened RevisionCache

  /** A search awaiting the delegate. `epoch` counts the root's changes when it started. */
  datatype Flight = Flight(request: Request, key: string, revision: nat, epoch: nat)

  /** The tracked roots, and the world they watch: what each root holds and how often it has changed. */
  datatype World = World(states: map<string, Revision>, content: map<string, int>, changes: map<string, nat>)

  /** `owners` remembers what each cache key was stored for. */
  datatype System<V> = System(world: World, cache: Cache<V>, flights: multiset<Flight>, owners: map<string, (Request, nat)>)

  datatype Event<V> =
    | Looks(root: string, watchable: bool)
    | SearchStarts(request: Request, watchable: bool)
    | SearchEnds(flight: Flight, result: V, watchable: bool)
    | Changes(root: string, content: int)
    | Bumps(root: string, watchable: bool)
    | WatchFails(root: string)
    | Evicts(root: string)
    | Closes

  /** What the delegate answers on given content of the root. */
  type Provider<V> = (int, Request) -> V

  ghost predicate ForgetsFileOrder<V(!new)>(provider: Provider<V>) {
    forall c, r: Request, files: seq<string> | multiset(files) == multiset(r.files) ::
      provider(c, r.(files := files)) == provider(c, r)
  }

  function ContentOf(w: World, root: string): int {
    if root in w.content then w.content[root] else 0
  }

  function ChangesOf(w: World, root: string): nat {
    if root in w.changes then w.changes[root] else 0
  }

  function Initial<V>(): System<V> {
    System(World(map[], map[], map[]), Cache([], map[]), multiset{}, map[])
  }

  function Moved(states: map<string, Revision>, root: string): map<string, Revision>
    requires root in states
  {
    states[root := states[root].(generation := states[root].generation + 1)]
  }

  /** The delegate may answer anything if the root changed while it worked; otherwise it answers for
      what the root holds. */
  ghost predicate Legal<V>(provider: Provider<V>, s: System<V>, e: Event<V>) {
    match e
    case SearchStarts(request, _) => Clean(request)
    case SearchEnds(f, result, _) =>
      f in s.flights &&
      (ChangesOf(s.world, f.request.root) == f.epoch ==> result == provider(ContentOf(s.world, f.request.root), f.request))
    case WatchFails(root) => root in s.world.states
    case Closes => false
    case _ => true
  }

  function NextWorld<V>(w: World, e: Event<V>): World {
    match e
    case Looks(root, watchable) => w.(states := Ensure(w.states, root, watchable))
    case SearchStarts(request, watchable) => w.(states := Ensure(w.states, request.root, watchable))
    case SearchEnds(f, _, watchable) => w.(states := Ensure(w.states, f.request.root, watchable))
    case Changes(root, content) =>
      World(if root in w.states && w.states[root].cacheable then Moved(w.states, root) else w.states,
            w.content[root := content], w.changes[root := ChangesOf(w, root) + 1])
    case Bumps(root, watchable) => w.(states := Moved(Ensure(w.states, root, watchable), root))
    case WatchFails(root) =>
      if root in w.states then w.(states := w.states[root := Revision(w.states[root].generation + 1, false)]) else w
    case Evicts(_) => w
    case Closes => w.(states := map[])
  }

  function Next<V>(limit: int, s: System<V>, e: Event<V>): System<V> {
    var w := NextWorld(s.world, e);
    match e
    case SearchStarts(request, _) =>
      (match RevisionCache.Lookup(w.states, s.cache, request)
       case Awaiting(key, revision) =>
         s.(world := w, flights := s.flights + multiset{Flight(request, key, revision, ChangesOf(w, request.root))})
       case _ => s.(world := w))
    case SearchEnds(f, result, _) =>
      if w.states[f.request.root] == Revision(f.revision, true)
      then System(w, Store(s.cache, f.key, result, limit), s.flights - multiset{f}, s.owners[f.key := (f.request, f.revision)])
      else s.(world := w, flights := s.flights - multiset{f})
    case Evicts(root) => s.(world := w, cache := EvictRoot(s.cache, root))
    case _ => s.(world := w)
  }

  /** A flight of a root that has not moved since has seen no change. */
  ghost predicate FlightOk(w: World, f: Flight) {
    && Clean(f.request) && f.key == Key(f.request, f.revision)
    && f.request.root in w.states && f.revision <= w.states[f.request.root].generation
    && (w.states[f.request.root] == Revision(f.revision, true) ==> ChangesOf(w, f.request.root) == f.epoch)
  }

  /** A value of a root at its current revision is what the provider answers now. */
  ghost predicate ValueOk<V>(provider: Provider<V>, w: World, request: Request, revision: nat, value: V) {
    && request.root in w.states && revision <= w.states[request.root].generation
    && (w.states[request.root] == Revision(revision, true) ==> value == provider(ContentOf(w, request.root), request))
  }

  ghost predicate EntryOk<V>(provider: Provider<V>, s: System<V>, key: string)
    requires key in s.cache.values
  {
    && key in s.owners
    && var (request, revision) := s.owners[key];
       Clean(request) && key == Key(request, revision) && ValueOk(provider, s.world, request, revision, s.cache.values[key])
  }

  ghost predicate Consistent<V>(provider: Provider<V>, s: System<V>) {
    && s.cache.Valid()
    && (forall f | f in s.flights :: FlightOk(s.world, f))
    && (forall k | k in s.cache.values :: EntryOk(provider, s, k))
  }

  /** A tracked root never goes back: its generation only grows, a dead watcher stays dead, and while it
      is live and keeps its generation it keeps its content. */
  ghost predicate RootAdvances(w: World, w': World, root: string)
    requires root in w.states
  {
    && root in w'.states && w.states[root].generation <= w'.states[root].generation
    && (w'.states[root].cacheable ==> w.states[root].cacheable)
    && (w'.states[root].cacheable && w'.states[root].generation == w.states[root].generation ==>
          ChangesOf(w', root) == ChangesOf(w, root) && ContentOf(w', root) == ContentOf(w, root))
  }

  ghost predicate Advances(w: World, w': World) {
    forall root | root in w.states :: RootAdvances(w, w', root)
  }

  lemma NextAdvances<V>(w: World, e: Event<V>)
    requires !e.Closes?
    ensures Advances(w, NextWorld(w, e))
  {
  }

  lemma FlightStaysOk(w: World, w': World, f: Flight)
    requires FlightOk(w, f) && Advances(w, w')
    ensures FlightOk(w', f)
  {
    hide Key, Clean;
    assert RootAdvances(w, w', f.request.root);
  }

  lemma ValueStaysOk<V>(provider: Provider<V>, w: World, w': World, request: Request, revision: nat, value: V)
    requires ValueOk(provider, w, request, revision, value) && Advances(w, w')
    ensures ValueOk(provider, w', request, revision, value)
  {
    assert RootAdvances(w, w', request.root);
  }

  lemma EntryStaysOk<V>(provider: Provider<V>, s: System<V>, t: System<V>, key: string)
    requires key in s.cache.values && key in t.cache.values && EntryOk(provider, s, key) && Advances(s.world, t.world)
    requires t.cache.values[key] == s.cache.values[key]
    requires key in t.owners && t.owners[key] == s.owners[key]
    ensures EntryOk(provider, t, key)
  {
    hide Key, Clean, ValueOk;
    ValueStaysOk(provider, s.world, t.world, s.owners[key].0, s.owners[key].1, s.cache.values[key]);
  }

  lemma FlightIsTracked(w: World, f: Flight)
    requires FlightOk(w, f)
    ensures f.request.root in w.states
  {
  }

  lemma EntryIsOwned<V>(provider: Provider<V>, s: System<V>, key: string)
    requires key in s.cache.values && EntryOk(provider, s, key)
    ensures key in s.owners
  {
  }

  lemma NewFlightIsOk<V>(limit: int, s: System<V>, request: Request, watchable: bool, f: Flight)
    requires Clean(request)
    requires f in Next(limit, s, SearchStarts(request, watchable)).flights && f !in s.flights
    ensures FlightOk(Next(limit, s, SearchStarts(request, watchable)).world, f)
  {
    hide Key, Clean;
  }

  lemma StoredEntryIsOk<V(!new)>(provider: Provider<V>, limit: int, s: System<V>, f: Flight, result: V, watchable: bool)
    requires Consistent(provider, s) && Legal(provider, s, SearchEnds(f, result, watchable))
    requires f.key in Next(limit, s, SearchEnds(f, result, watchable)).cache.values
    requires f.request.root in s.world.states && s.world.states[f.request.root] == Revision(f.revision, true)
    ensures EntryOk(provider, Next(limit, s, SearchEnds(f, result, watchable)), f.key)
  {
    hide Key, Clean, Store;
    assert FlightOk(s.world, f);
    StoreIsValid(s.cache, f.key, result, limit);
  }

  lemma EndKeepsTheWorld<V>(w: World, f: Flight, result: V, watchable: bool)
    requires f.request.root in w.states
    ensures NextWorld(w, SearchEnds(f, result, watchable)) == w
  {
  }

  lemma EndKeepsCacheConsistent<V(!new)>(provider: Provider<V>, limit: int, s: System<V>, f: Flight, result: V, watchable: bool)
    requires Consistent(provider, s) && Legal(provider, s, SearchEnds(f, result, watchable))
    ensures var t := Next(limit, s, SearchEnds(f, result, watchable));
            t.cache.Valid() && forall k | k in t.cache.values :: EntryOk(provider, t, k)
  {
    hide Key, Clean, Store, EntryOk, FlightOk, NextWorld, Advances;
    var t := Next(limit, s, SearchEnds(f, result, watchable));
    NextAdvances(s.world, SearchEnds(f, result, watchable));
    StoreIsValid(s.cache, f.key, result, limit);
    FlightIsTracked(s.world, f);
    EndKeepsTheWorld(s.world, f, result, watchable);
    forall k | k in t.cache.values ensures EntryOk(provider, t, k) {
      if k == f.key && s.world.states[f.request.root] == Revision(f.revision, true) {
        StoredEntryIsOk(provider, limit, s, f, result, watchable);
      } else {
        EntryIsOwned(provider, s, k);
        EntryStaysOk(provider, s, t, k);
      }
    }
  }

  lemma CacheStaysConsistent<V(!new)>(provider: Provider<V>, limit: int, s: System<V>, e: Event<V>)
    requires Consistent(provider, s) && Legal(provider, s, e)
    ensures var t := Next(limit, s, e); t.cache.Valid() && forall k | k in t.cache.values :: EntryOk(provider, t, k)
  {
    hide Key, Clean, Store, EntryOk, FlightOk, NextWorld, Advances;
    if e.SearchEnds? {
      EndKeepsCacheConsistent(provider, limit, s, e.flight, e.result, e.watchable);
    } else {
      var t := Next(limit, s, e);
      NextAdvances(s.world, e);
      if e.Evicts? {
        EvictIsValid(s.cache, e.root);
      }
      forall k | k in t.cache.values ensures EntryOk(provider, t, k) {
        EntryIsOwned(provider, s, k);
        EntryStaysOk(provider, s, t, k);
      }
    }
  }

  lemma FlightsStayConsistent<V(!new)>(provider: Provider<V>, limit: int, s: System<V>, e: Event<V>)
    requires Consistent(provider, s) && Legal(provider, s, e)
    ensures forall f | f in Next(limit, s, e).flights :: FlightOk(Next(limit, s, e).world, f)
  {
    hide Key, Clean, Store, EvictRoot, FlightOk, EntryOk, NextWorld, Advances;
    var t := Next(limit, s, e);
    NextAdvances(s.world, e);
    forall f | f in t.flights ensures FlightOk(t.world, f) {
      if f in s.flights {
        FlightStaysOk(s.world, t.world, f);
      } else {
        NewFlightIsOk(limit, s, e.request, e.watchable, f);
      }
    }
  }

  /** Every legal step, in any order, keeps the system consistent. */
  lemma NextIsConsistent<V(!new)>(provider: Provider<V>, limit: int, s: System<V>, e: Event<V>)
    requires Consistent(provider, s) && Legal(provider, s, e)
    ensures Consistent(provider, Next(limit, s, e))
  {
    CacheStaysConsistent(provider, limit, s, e);
    FlightsStayConsistent(provider, limit, s, e);
  }

  function RunFrom<V>(limit: int, s: System<V>, events: seq<Event<V>>): System<V> {
    if events == [] then s else Next(limit, RunFrom(limit, s, events[..|events| - 1]), events[|events| - 1])
  }

  function Run<V>(limit: int, events: seq<Event<V>>): System<V> {
    RunFrom(limit, Initial(), events)
  }

  /** A run in which the tracker is never closed and the delegate answers truthfully. */
  ghost predicate LegalFrom<V>(provider: Provider<V>, limit: int, s: System<V>, events: seq<Event<V>>) {
    events == [] ||
    (LegalFrom(provider, limit, s, events[..|events| - 1]) &&
     Legal(provider, RunFrom(limit, s, events[..|events| - 1]), events[|events| - 1]))
  }

  ghost predicate LegalRun<V>(provider: Provider<V>, limit: int, events: seq<Event<V>>) {
    LegalFrom(provider, limit, Initial(), events)
  }

  lemma {:induction false} RunFromIsConsistent<V(!new)>(provider: Provider<V>, limit: int, s: System<V>, events: seq<Event<V>>)
    requires Consistent(provider, s) && LegalFrom(provider, limit, s, events)
    ensures Consistent(provider, RunFrom(limit, s, events))
  {
    hide Next, Consistent, Legal;
    if events != [] {
      RunFromIsConsistent(provider, limit, s, events[..|events| - 1]);
      NextIsConsistent(provider, limit, RunFrom(limit, s, events[..|events| - 1]), events[|events| - 1]);
    }
  }

  lemma RunIsConsistent<V(!new)>(provider: Provider<V>, limit: int, events: seq<Event<V>>)
    requires LegalRun(provider, limit, events)
    ensures Consistent(provider, Run(limit, events))
  {
    InitialIsConsistent(provider);
    RunFromIsConsistent(provider, limit, Initial(), events);
  }

  lemma InitialIsConsistent<V>(provider: Provider<V>)
    ensures Consistent(provider, Initial())
  {
  }

  /** A search for the request now, if it is a hit, gives what the provider would answer on what the root holds now. */
  predicate Agrees<V(==)>(provider: Provider<V>, s: System<V>, request: Request, watchable: bool) {
    var started := RevisionCache.Lookup(Ensure(s.world.states, request.root, watchable), s.cache, request);
    started.Hit? ==> started.value == provider(ContentOf(s.world, request.root), request)
  }

  lemma HitAgrees<V(!new)>(provider: Provider<V>, s: System<V>, request: Request, watchable: bool)
    requires Consistent(provider, s) && Clean(request) && ForgetsFileOrder(provider)
    ensures Agrees(provider, s, request, watchable)
  {
    hide Clean;
    var states := Ensure(s.world.states, request.root, watchable);
    var key := Key(request, states[request.root].generation);
    if RevisionCache.Lookup(states, s.cache, request).Hit? {
      assert EntryOk(provider, s, key);
      var (owner, revision) := s.owners[key];
      hide Key;
      KeyIsInjective(owner, revision, request, states[request.root].generation);
      assert request == owner.(files := request.files);
    }
  }

  /** In every run with the tracker open, whatever was in flight when, every hit is what the provider
      would answer on what the root holds now. */
  lemma EveryHitAgrees<V(!new)>(provider: Provider<V>, limit: int, events: seq<Event<V>>, request: Request, watchable: bool)
    requires LegalRun(provider, limit, events) && Clean(request) && ForgetsFileOrder(provider)
    ensures Agrees(provider, Run(limit, events), request, watchable)
  {
    RunIsConsistent(provider, limit, events);
    HitAgrees(provider, Run(limit, events), request, watchable);
  }

  /** Evicting a root removes exactly the entries stored for it. */
  lemma EvictionRemovesExactlyTheRoot<V(!new)>(provider: Provider<V>, limit: int, events: seq<Event<V>>, root: string, key: string)
    requires LegalRun(provider, limit, events) && NUL !in root
    requires key in Run(limit, events).cache.values
    ensures key in Run(limit, events).owners
    ensures key in EvictRoot(Run(limit, events).cache, root).values <==> Run(limit, events).owners[key].0.root != root
  {
    RunIsConsistent(provider, limit, events);
    var s := Run(limit, events);
    assert EntryOk(provider, s, key);
    var (owner, revision) := s.owners[key];
    EvictionIsExact(owner, revision, root);
  }

  // ---------------------------------------------------------------- closing the tracker

  ghost predicate AlwaysAgrees<V(!new)>(provider: Provider<V>, s: System<V>) {
    forall request, watchable | Clean(request) :: Agrees(provider, s, request, watchable)
  }

  /** Whatever legally follows a close, every hit agrees with the provider. */
  ghost predicate HarmlessToClose<V(!new)>(provider: Provider<V>, limit: int, s: System<V>) {
    forall events | LegalFrom(provider, limit, Next(limit, s, Closes), events) ::
      AlwaysAgrees(provider, RunFrom(limit, Next(limit, s, Closes), events))
  }

  ghost predicate Distinguishes<V(!new)>(provider: Provider<V>, request: Request) {
    exists a, b :: provider(a, request) != provider(b, request)
  }

  /** For no request is the answer the same on all content. */
  ghost predicate TellsContentsApart<V(!new)>(provider: Provider<V>) {
    forall request :: Distinguishes(provider, request)
  }

  lemma OtherContent<V(!new)>(provider: Provider<V>, request: Request, value: V) returns (content: int)
    requires TellsContentsApart(provider)
    ensures provider(content, request) != value
  {
    assert Distinguishes(provider, request);
    var a, b :| provider(a, request) != provider(b, request);
    content := if provider(a, request) != value then a else b;
  }

  lemma RunAppend<V>(limit: int, s: System<V>, events: seq<Event<V>>, e: Event<V>)
    ensures RunFrom(limit, s, events + [e]) == Next(limit, RunFrom(limit, s, events), e)
  {
    assert (events + [e])[..|events|] == events;
  }

  lemma LegalAppend<V>(provider: Provider<V>, limit: int, s: System<V>, events: seq<Event<V>>, e: Event<V>)
    requires LegalFrom(provider, limit, s, events) && Legal(provider, RunFrom(limit, s, events), e)
    ensures LegalFrom(provider, limit, s, events + [e])
  {
    assert (events + [e])[..|events|] == events;
  }

  function ChangeAll<V>(root: string, contents: seq<int>): seq<Event<V>> {
    if contents == [] then [] else ChangeAll(root, contents[..|contents| - 1]) + [Changes(root, contents[|contents| - 1])]
  }

  /** The root changed to each of `contents` in turn, watched again, and bumped until the root is back at its `n`-th generation. */
  function Replay<V>(root: string, contents: seq<int>, n: nat): seq<Event<V>>
    decreases n
  {
    if n > 0 then Replay(root, contents, n - 1) + [Bumps(root, true)]
    else ChangeAll(root, contents) + [Looks(root, true)]
  }

  lemma ChangeUntracked<V>(limit: int, s: System<V>, root: string, content: int)
    requires root !in s.world.states
    ensures var t := Next(limit, s, Changes(root, content));
            && t == s.(world := t.world) && t.world.states == s.world.states
            && ContentOf(t.world, root) == content && ChangesOf(t.world, root) == ChangesOf(s.world, root) + 1
  {
  }

  lemma {:induction false} ChangeAllChanges<V>(provider: Provider<V>, limit: int, s: System<V>, root: string, contents: seq<int>)
    requires root !in s.world.states
    ensures LegalFrom(provider, limit, s, ChangeAll(root, contents))
    ensures var t := RunFrom(limit, s, ChangeAll(root, contents));
            && t == s.(world := t.world) && t.world.states == s.world.states
            && (contents != [] ==> ContentOf(t.world, root) == contents[|contents| - 1])
            && ChangesOf(t.world, root) == ChangesOf(s.world, root) + |contents|
  {
    hide Next, ContentOf, ChangesOf;
    if contents != [] {
      var init, e := contents[..|contents| - 1], Event<V>.Changes(root, contents[|contents| - 1]);
      ChangeAllChanges(provider, limit, s, root, init);
      RunAppend(limit, s, ChangeAll(root, init), e);
      LegalAppend(provider, limit, s, ChangeAll(root, init), e);
      ChangeUntracked(limit, RunFrom(limit, s, ChangeAll(root, init)), root, contents[|contents| - 1]);
    }
  }

  lemma {:induction false} ReplayReaches<V>(provider: Provider<V>, limit: int, s: System<V>, root: string, contents: seq<int>, n: nat)
    requires root !in s.world.states && contents != []
    ensures LegalFrom(provider, limit, s, Replay(root, contents, n))
    ensures var t := RunFrom(limit, s, Replay(root, contents, n));
            && t == s.(world := t.world)
            && root in t.world.states && t.world.states[root] == Revision(n, true)
            && ContentOf(t.world, root) == contents[|contents| - 1]
            && ChangesOf(t.world, root) == ChangesOf(s.world, root) + |contents|
    decreases n
  {
    var before, e := ChangeAll<V>(root, contents), Event<V>.Looks(root, true);
    if n > 0 {
      before, e := Replay<V>(root, contents, n - 1), Event<V>.Bumps(root, true);
      ReplayReaches(provider, limit, s, root, contents, n - 1);
    } else {
      ChangeAllChanges(provider, limit, s, root, contents);
    }
    RunAppend(limit, s, before, e);
    LegalAppend(provider, limit, s, before, e);
  }

  /** With nothing cached and nothing in flight, closing forgets nothing that matters. */
  lemma ClosingNothingIsConsistent<V(!new)>(provider: Provider<V>, limit: int, s: System<V>)
    requires Consistent(provider, s) && s.cache.values == map[] && s.flights == multiset{}
    ensures Consistent(provider, Next(limit, s, Closes))
  {
    hide EntryOk, FlightOk;
  }

  lemma ClosedSystem<V>(limit: int, s: System<V>)
    ensures Next(limit, s, Closes) == s.(world := s.world.(states := map[]))
  {
  }

  lemma StaleHitIsHarm<V(!new)>(provider: Provider<V>, limit: int, s: System<V>, events: seq<Event<V>>, request: Request)
    requires LegalFrom(provider, limit, Next(limit, s, Closes), events) && Clean(request)
    requires !Agrees(provider, RunFrom(limit, Next(limit, s, Closes), events), request, true)
    ensures !HarmlessToClose(provider, limit, s)
  {
    hide Clean, LegalFrom, RunFrom, Next, Agrees;
    assert !AlwaysAgrees(provider, RunFrom(limit, Next(limit, s, Closes), events));
  }

  lemma EntryKnowsItsRequest<V(!new)>(provider: Provider<V>, s: System<V>, key: string)
    requires Consistent(provider, s) && key in s.cache.values
    ensures key in s.owners && Clean(s.owners[key].0) && key == Key(s.owners[key].0, s.owners[key].1)
  {
    hide Clean, Key, ValueOk;
    assert EntryOk(provider, s, key);
  }

  /** An entry in the cache is hit again, over changed content, once the generations have been replayed. */
  lemma CachedEntryIsHitAgain<V(!new)>(provider: Provider<V>, limit: int, s: System<V>, key: string)
    requires Consistent(provider, s) && TellsContentsApart(provider) && key in s.cache.values
    ensures !HarmlessToClose(provider, limit, s)
  {
    hide Clean, Consistent, Legal;
    EntryKnowsItsRequest(provider, s, key);
    var (request, revision) := s.owners[key];
    var content := OtherContent(provider, request, s.cache.values[key]);
    var closed := Next(limit, s, Closes);
    ReplayReaches(provider, limit, closed, request.root, [content], revision);
    var events := Replay<V>(request.root, [content], revision);
    hide Key, LegalFrom, RunFrom;
    assert !Agrees(provider, RunFrom(limit, closed, events), request, true);
    StaleHitIsHarm(provider, limit, s, events, request);
  }

  lemma StoreKeepsNewest<V>(c: Cache<V>, key: string, value: V, limit: int)
    requires c.Valid() && limit >= 1
    ensures key in Store(c, key, value, limit).values && Store(c, key, value, limit).values[key] == value
  {
    RemoveIsValid(c, key);
    var put := Put(c, key, value);
    var n := Excess(|put.order|, limit);
    assert n < |put.order| && put.order[|put.order| - 1] == key;
    assert key !in put.order[..n] by {
      assert key !in Remove(c, key).order;
      assert put.order[..n] == Remove(c, key).order[..n];
      assert forall k | k in Remove(c, key).order[..n] :: k in Remove(c, key).order;
    }
  }

  predicate CaughtUp(w: World, f: Flight, content: int) {
    && f.request.root in w.states && w.states[f.request.root] == Revision(f.revision, true)
    && ContentOf(w, f.request.root) == content
  }

  /** A search that began before the root went untracked stores its answer, once the generations are replayed. */
  lemma LateAnswerIsStored<V>(provider: Provider<V>, limit: int, s: System<V>, f: Flight, result: V, contents: seq<int>)
    requires f.request.root !in s.world.states && f in s.flights && contents != []
    requires ChangesOf(s.world, f.request.root) + |contents| != f.epoch
    ensures var events := Replay(f.request.root, contents, f.revision) + [SearchEnds(f, result, true)];
            && LegalFrom(provider, limit, s, events)
            && var t := RunFrom(limit, s, events);
               t.cache == Store(s.cache, f.key, result, limit) && CaughtUp(t.world, f, contents[|contents| - 1])
  {
    hide Store, LegalFrom, RunFrom;
    var events, e := Replay<V>(f.request.root, contents, f.revision), SearchEnds(f, result, true);
    ReplayReaches(provider, limit, s, f.request.root, contents, f.revision);
    LegalAppend(provider, limit, s, events, e);
    RunAppend(limit, s, events, e);
    EndKeepsTheWorld(RunFrom(limit, s, events).world, f, result, true);
  }

  lemma StaleEntryIsHit<V>(provider: Provider<V>, s: System<V>, f: Flight, content: int, watchable: bool)
    requires CaughtUp(s.world, f, content) && f.key == Key(f.request, f.revision) && f.key in s.cache.values
    requires s.cache.values[f.key] != provider(content, f.request)
    ensures !Agrees(provider, s, f.request, watchable)
  {
    hide Key;
  }

  lemma FlightKnowsItsRequest<V(!new)>(provider: Provider<V>, s: System<V>, f: Flight)
    requires Consistent(provider, s) && f in s.flights
    ensures s.cache.Valid() && Clean(f.request) && f.key == Key(f.request, f.revision)
  {
    hide Clean, Key;
    assert FlightOk(s.world, f);
  }

  /** An answer that was on its way is stored after the close, over changed content, and then hit. */
  lemma FlightIsHitAfterwards<V(!new)>(provider: Provider<V>, limit: int, s: System<V>, f: Flight)
    requires Consistent(provider, s) && TellsContentsApart(provider) && f in s.flights && limit >= 1
    ensures !HarmlessToClose(provider, limit, s)
  {
    hide *;
    var closed, result := Next(limit, s, Closes), provider(0, f.request);
    ClosedSystem(limit, s);
    FlightKnowsItsRequest(provider, s, f);
    var content := OtherContent(provider, f.request, result);
    var contents := if ChangesOf(closed.world, f.request.root) + 1 == f.epoch then [content, content] else [content];
    LateAnswerIsStored(provider, limit, closed, f, result, contents);
    var events := Replay(f.request.root, contents, f.revision) + [SearchEnds(f, result, true)];
    StoreKeepsNewest(s.cache, f.key, result, limit);
    StaleEntryIsHit(provider, RunFrom(limit, closed, events), f, content, true);
    StaleHitIsHarm(provider, limit, s, events, f.request);
  }

  /** Closing the tracker is harmless for whatever may follow exactly when nothing is cached and no search is in flight:
      the generations begin again, so an answer from before can be hit although the root has changed since. */
  lemma ClosingIsHarmlessOnlyWhenIdle<V(!new)>(provider: Provider<V>, limit: int, s: System<V>)
    requires Consistent(provider, s) && ForgetsFileOrder(provider) && TellsContentsApart(provider) && limit >= 1
    ensures HarmlessToClose(provider, limit, s) <==> s.cache.values == map[] && s.flights == multiset{}
  {
    if key :| key in s.cache.values {
      CachedEntryIsHitAgain(provider, limit, s, key);
    } else if f :| f in s.flights {
      FlightIsHitAfterwards(provider, limit, s, f);
    } else {
      assert s.cache.values == map[];
      assert s.flights == multiset{};
      ClosingNothingIsConsistent(provider, limit, s);
      var closed := Next(limit, s, Closes);
      hide Consistent, Agrees;
      forall events | LegalFrom(provider, limit, closed, events) ensures AlwaysAgrees(provider, RunFrom(limit, closed, events)) {
        RunFromIsConsistent(provider, limit, closed, events);
        forall request, watchable | Clean(request) ensures Agrees(provider, RunFrom(limit, closed, events), request, watchable) {
          HitAgrees(provider, RunFrom(limit, closed, events), request, watchable);
        }
      }
    }
  }
}
