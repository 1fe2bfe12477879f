/** The lowered maps form one ordered forest below the page, and reading them back gives the tree. */
module NotionForest {
  import opened NotionTree
  import opened NotionModel

  // ---------------------------------------------------------------- what a lowering leaves alone

  ghost predicate SameAt(m: Maps, m': Maps, id: string, parent: string) {
    && (id in m.blocks <==> id in m'.blocks) && (id in m.blocks ==> m'.blocks[id] == m.blocks[id])
    && (id in m.parents <==> id in m'.parents) && (id in m.parents ==> m'.parents[id] == m.parents[id])
    && (id != parent ==> (id in m.children <==> id in m'.children) && ChildrenOf(m', id) == ChildrenOf(m, id))
  }

  /** Adding a subtree touches nothing but its own ids and its parent's children list. */
  lemma {:induction false} AddTreeFrame(ids: Ids, m: Maps, t: Tree, n: nat, parent: string, id: string)
    requires ids.Injective() && ids.Outside(id, n, n + Size(t))
    ensures SameAt(m, AddTree(ids, m, t, n, parent), id, parent)
    decreases t
  {
    hide AddTree, AddTrees, SizeAll;
    AddTreeSteps(ids, m, t, n, parent);
    var self := ids.make(n);
    assert ids.number(self) == n && id != self;
    AddTreesFrame(ids, Insert(m, self, t.content, parent), t.children, n + 1, self, id);
  }

  lemma {:induction false} AddTreesFrame(ids: Ids, m: Maps, ts: seq<Tree>, n: nat, parent: string, id: string)
    requires ids.Injective() && ids.Outside(id, n, n + SizeAll(ts))
    ensures SameAt(m, AddTrees(ids, m, ts, n, parent), id, parent)
    decreases ts
  {
    hide Size, AddTree;
    if ts != [] {
      var init, last := ts[..|ts| - 1], ts[|ts| - 1];
      AddTreesFrame(ids, m, init, n, parent, id);
      AddTreeFrame(ids, AddTrees(ids, m, init, n, parent), last, n + SizeAll(init), parent, id);
    }
  }

  // ---------------------------------------------------------------- preorder layout

  /** The ids of siblings `ts` when the first free number is `n`. */
  function SiblingIds(ids: Ids, ts: seq<Tree>, n: nat): (siblings: seq<string>)
    ensures |siblings| == |ts|
  {
    if ts == [] then []
    else SiblingIds(ids, ts[..|ts| - 1], n) + [ids.make(n + SizeAll(ts[..|ts| - 1]))]
  }

  /** The maps hold `t` in preorder from number `n`, below `parent`, with exact flags. */
  ghost predicate Laid(ids: Ids, m: Maps, t: Tree, n: nat, parent: string)
    decreases t
  {
    var id := ids.make(n);
    && id in m.blocks && m.blocks[id] == Block(id, t.content, t.children != [])
    && id in m.parents && m.parents[id] == parent
    && id in m.children && m.children[id] == SiblingIds(ids, t.children, n + 1)
    && LaidAll(ids, m, t.children, n + 1, id)
  }

  ghost predicate LaidAll(ids: Ids, m: Maps, ts: seq<Tree>, n: nat, parent: string)
    decreases ts
  {
    ts == [] ||
    (LaidAll(ids, m, ts[..|ts| - 1], n, parent) && Laid(ids, m, ts[|ts| - 1], n + SizeAll(ts[..|ts| - 1]), parent))
  }

  /** `m'` says of the ids numbered from `lo` up to `hi` what `m` says. */
  ghost predicate Agree(ids: Ids, m: Maps, m': Maps, lo: nat, hi: nat) {
    forall n: nat | lo <= n < hi :: AgreeAt(m, m', ids.make(n))
  }

  ghost predicate AgreeAt(m: Maps, m': Maps, id: string) {
    && (id in m.blocks ==> id in m'.blocks && m'.blocks[id] == m.blocks[id])
    && (id in m.children ==> id in m'.children && m'.children[id] == m.children[id])
    && (id in m.parents ==> id in m'.parents && m'.parents[id] == m.parents[id])
  }

  /** A finished subtree is disturbed by nothing that leaves its own ids alone. */
  lemma {:induction false} LaidFrame(ids: Ids, m: Maps, m': Maps, t: Tree, n: nat, parent: string)
    requires Laid(ids, m, t, n, parent) && Agree(ids, m, m', n, n + Size(t))
    ensures Laid(ids, m', t, n, parent)
    decreases t
  {
    assert AgreeAt(m, m', ids.make(n));
    LaidAllFrame(ids, m, m', t.children, n + 1, ids.make(n));
  }

  lemma {:induction false} LaidAllFrame(ids: Ids, m: Maps, m': Maps, ts: seq<Tree>, n: nat, parent: string)
    requires LaidAll(ids, m, ts, n, parent) && Agree(ids, m, m', n, n + SizeAll(ts))
    ensures LaidAll(ids, m', ts, n, parent)
    decreases ts
  {
    if ts != [] {
      var init, last := ts[..|ts| - 1], ts[|ts| - 1];
      LaidAllFrame(ids, m, m', init, n, parent);
      LaidFrame(ids, m, m', last, n + SizeAll(init), parent);
    }
  }

  ghost predicate Fresh(ids: Ids, m: Maps, lo: nat, hi: nat) {
    forall k: nat | lo <= k < hi :: ids.make(k) !in m.children
  }

  lemma InsertStaysFresh(ids: Ids, m: Maps, n: nat, hi: nat, content: Content, parent: string)
    requires ids.Injective() && n < hi && Fresh(ids, m, n, hi) && ids.Outside(parent, n, hi)
    ensures Fresh(ids, Insert(m, ids.make(n), content, parent), n + 1, hi)
    ensures ChildrenOf(Insert(m, ids.make(n), content, parent), ids.make(n)) == []
  {
    assert ids.number(ids.make(n)) == n;
    assert ids.make(n) !in m.children;
    forall k: nat | n + 1 <= k < hi ensures ids.make(k) !in Insert(m, ids.make(n), content, parent).children {
      assert ids.number(ids.make(k)) == k;
    }
  }

  /** The ids of the children of whichever nodes of `t`, numbered from `n`, carry the id `id`. */
  function ChildIds(ids: Ids, t: Tree, n: nat, id: string): (kids: seq<string>)
    ensures ids.Injective() && ids.Outside(id, n, n + Size(t)) ==> kids == []
    decreases t
  {
    (if ids.make(n) == id then SiblingIds(ids, t.children, n + 1) else []) + ChildIdsAll(ids, t.children, n + 1, id)
  }

  function ChildIdsAll(ids: Ids, ts: seq<Tree>, n: nat, id: string): (kids: seq<string>)
    ensures ids.Injective() && ids.Outside(id, n, n + SizeAll(ts)) ==> kids == []
    decreases ts
  {
    if ts == [] then []
    else
      ChildIdsAll(ids, ts[..|ts| - 1], n, id) + ChildIds(ids, ts[|ts| - 1], n + SizeAll(ts[..|ts| - 1]), id)
  }

  /** How a children list grows: by what the tree lists below its id, and, for the parent, by the new siblings. */
  predicate Grown(before: seq<string>, after: seq<string>, isParent: bool, siblings: seq<string>, kids: seq<string>) {
    if !isParent then after == before + kids
    else |after| == |before| + |siblings| + |kids| && (kids == [] ==> after == before + siblings)
  }

  lemma InsertLists(m: Maps, self: string, content: Content, parent: string, id: string)
    ensures ChildrenOf(Insert(m, self, content, parent), id) == ChildrenOf(m, id) + if id == parent then [self] else []
  {
  }

  lemma AddTreeLists(ids: Ids, m: Maps, t: Tree, n: nat, parent: string, id: string)
    ensures ChildrenOf(AddTree(ids, m, t, n, parent), id)
         == ChildrenOf(AddTrees(ids, Insert(m, ids.make(n), t.content, parent), t.children, n + 1, ids.make(n)), id)
  {
    hide AddTrees, Insert;
    AddTreeSteps(ids, m, t, n, parent);
  }

  lemma {:induction false} AddTreeGrows(ids: Ids, m: Maps, t: Tree, n: nat, parent: string, id: string)
    requires ids.Injective()
    ensures Grown(ChildrenOf(m, id), ChildrenOf(AddTree(ids, m, t, n, parent), id), id == parent,
                  [ids.make(n)], ChildIds(ids, t, n, id))
    decreases t
  {
    hide Size, AddTree, AddTrees, Insert, ChildrenOf;
    AddTreeLists(ids, m, t, n, parent, id);
    InsertLists(m, ids.make(n), t.content, parent, id);
    assert ids.number(ids.make(n)) == n;
    AddTreesGrow(ids, Insert(m, ids.make(n), t.content, parent), t.children, n + 1, ids.make(n), id);
  }

  lemma {:induction false} AddTreesGrow(ids: Ids, m: Maps, ts: seq<Tree>, n: nat, parent: string, id: string)
    requires ids.Injective()
    ensures Grown(ChildrenOf(m, id), ChildrenOf(AddTrees(ids, m, ts, n, parent), id), id == parent,
                  SiblingIds(ids, ts, n), ChildIdsAll(ids, ts, n, id))
    decreases ts
  {
    hide Size, AddTree, ChildIds, ChildrenOf;
    if ts != [] {
      var init, last := ts[..|ts| - 1], ts[|ts| - 1];
      AddTreesGrow(ids, m, init, n, parent, id);
      AddTreeGrows(ids, AddTrees(ids, m, init, n, parent), last, n + SizeAll(init), parent, id);
    }
  }

  lemma {:induction false} AddTreesStaysFresh(ids: Ids, m: Maps, ts: seq<Tree>, n: nat, hi: nat, parent: string)
    requires ids.Injective() && n + SizeAll(ts) <= hi && Fresh(ids, m, n, hi) && ids.Outside(parent, n, hi)
    ensures Fresh(ids, AddTrees(ids, m, ts, n, parent), n + SizeAll(ts), hi)
  {
    forall k: nat | n + SizeAll(ts) <= k < hi ensures ids.make(k) !in AddTrees(ids, m, ts, n, parent).children {
      assert ids.number(ids.make(k)) == k;
      AddTreesFrame(ids, m, ts, n, parent, ids.make(k));
    }
  }

  /** Lowering a tree lays it out in preorder. */
  lemma {:induction false} AddTreeLays(ids: Ids, m: Maps, t: Tree, n: nat, parent: string)
    requires ids.Injective() && Fresh(ids, m, n, n + Size(t)) && ids.Outside(parent, n, n + Size(t)) && Rectangular(t)
    ensures Laid(ids, AddTree(ids, m, t, n, parent), t, n, parent)
    decreases t
  {
    hide AddTrees, AddTree, SizeAll;
    var id := ids.make(n);
    var m1 := Insert(m, id, t.content, parent);
    var m2 := AddTrees(ids, m1, t.children, n + 1, id);
    assert ids.number(id) == n;
    AddTreeSteps(ids, m, t, n, parent);
    InsertStaysFresh(ids, m, n, n + Size(t), t.content, parent);
    AddTreesLay(ids, m1, t.children, n + 1, id);
    AddTreesFrame(ids, m1, t.children, n + 1, id, id);
    assert SameAt(m1, m2, id, id);
    AddTreesGrow(ids, m1, t.children, n + 1, id, id);
    assert [] + SiblingIds(ids, t.children, n + 1) == SiblingIds(ids, t.children, n + 1);
    MarkKeepsLaid(ids, m2, t.children, n + 1, id);
  }

  lemma MarkKeepsLaid(ids: Ids, m: Maps, ts: seq<Tree>, n: nat, id: string)
    requires ids.Injective() && LaidAll(ids, m, ts, n, id) && ids.Outside(id, n, n + SizeAll(ts))
    ensures LaidAll(ids, Mark(m, id), ts, n, id)
  {
    hide LaidAll, SizeAll;
    forall k: nat | n <= k < n + SizeAll(ts) ensures AgreeAt(m, Mark(m, id), ids.make(k)) {
      assert ids.number(ids.make(k)) == k;
    }
    LaidAllFrame(ids, m, Mark(m, id), ts, n, id);
  }

  lemma {:induction false} AddTreesLay(ids: Ids, m: Maps, ts: seq<Tree>, n: nat, parent: string)
    requires ids.Injective() && Fresh(ids, m, n, n + SizeAll(ts)) && ids.Outside(parent, n, n + SizeAll(ts))
    requires forall t | t in ts :: Rectangular(t)
    ensures LaidAll(ids, AddTrees(ids, m, ts, n, parent), ts, n, parent)
    decreases ts
  {
    hide Rectangular, Size, AddTree, Laid;
    if ts != [] {
      var init, last, k := ts[..|ts| - 1], ts[|ts| - 1], n + SizeAll(ts[..|ts| - 1]);
      var m1 := AddTrees(ids, m, init, n, parent);
      var m2 := AddTree(ids, m1, last, k, parent);
      AddTreesLay(ids, m, init, n, parent);
      AddTreesStaysFresh(ids, m, init, n, n + SizeAll(ts), parent);
      AddTreeLays(ids, m1, last, k, parent);
      forall j: nat | n <= j < k ensures AgreeAt(m1, m2, ids.make(j)) {
        assert ids.number(ids.make(j)) == j && ids.make(j) != parent;
        AddTreeFrame(ids, m1, last, k, parent, ids.make(j));
      }
      LaidAllFrame(ids, m1, m2, init, n, parent);
    }
  }

  // ---------------------------------------------------------------- reading the maps back

  /** The tree below `id`, read from the maps alone, to the given depth. */
  function ReadBack(m: Maps, id: string, depth: nat): Tree
    decreases depth, 0, 0
  {
    if depth == 0 || id !in m.blocks then Tree(DividerBlock, [])
    else Tree(m.blocks[id].content, ReadAll(m, ChildrenOf(m, id), depth - 1))
  }

  function ReadAll(m: Maps, siblings: seq<string>, depth: nat): (ts: seq<Tree>)
    ensures |ts| == |siblings|
    decreases depth, 1, |siblings|
  {
    if siblings == [] then []
    else ReadAll(m, siblings[..|siblings| - 1], depth) + [ReadBack(m, siblings[|siblings| - 1], depth)]
  }

  lemma ReadSplits(ids: Ids, m: Maps, ts: seq<Tree>, n: nat, depth: nat)
    requires ts != []
    ensures var init := ts[..|ts| - 1];
            ReadAll(m, SiblingIds(ids, ts, n), depth)
            == ReadAll(m, SiblingIds(ids, init, n), depth) + [ReadBack(m, ids.make(n + SizeAll(init)), depth)]
  {
    hide ReadBack, SizeAll;
    var siblings := SiblingIds(ids, ts, n);
    assert siblings[..|siblings| - 1] == SiblingIds(ids, ts[..|ts| - 1], n);
  }

  lemma {:induction false} ReadLaid(ids: Ids, m: Maps, t: Tree, n: nat, parent: string, depth: nat)
    requires Laid(ids, m, t, n, parent) && depth >= Size(t)
    ensures ReadBack(m, ids.make(n), depth) == t
    decreases t
  {
    hide LaidAll, ReadAll, SizeAll, SiblingIds;
    ReadLaidAll(ids, m, t.children, n + 1, ids.make(n), depth - 1);
  }

  lemma {:induction false} ReadLaidAll(ids: Ids, m: Maps, ts: seq<Tree>, n: nat, parent: string, depth: nat)
    requires LaidAll(ids, m, ts, n, parent) && depth >= SizeAll(ts)
    ensures ReadAll(m, SiblingIds(ids, ts, n), depth) == ts
    decreases ts
  {
    hide Laid, Size, ReadBack;
    if ts == [] {
      assert SiblingIds(ids, ts, n) == [];
    }
    if ts != [] {
      var init, last := ts[..|ts| - 1], ts[|ts| - 1];
      ReadSplits(ids, m, ts, n, depth);
      ReadLaidAll(ids, m, init, n, parent, depth);
      ReadLaid(ids, m, last, n + SizeAll(init), parent, depth);
    }
  }

  function Lowered(ids: Ids, ts: seq<Tree>, pageId: string): Maps {
    AddTrees(ids, Maps(map[], map[pageId := []], map[]), ts, 1, pageId)
  }

  /** The maps of a page are laid out below it when its own id is none of those handed out. */
  lemma LoweredIsLaid(ids: Ids, ts: seq<Tree>, pageId: string)
    requires ids.Injective() && ids.Outside(pageId, 1, 1 + SizeAll(ts)) && forall t | t in ts :: Rectangular(t)
    ensures LaidAll(ids, Lowered(ids, ts, pageId), ts, 1, pageId)
    ensures ChildrenOf(Lowered(ids, ts, pageId), pageId) == SiblingIds(ids, ts, 1)
  {
    hide LaidAll, Rectangular, AddTrees, SizeAll;
    var empty := Maps(map[], map[pageId := []], map[]);
    forall k: nat | 1 <= k < 1 + SizeAll(ts) ensures ids.make(k) !in empty.children {
      assert ids.number(ids.make(k)) == k;
    }
    AddTreesLay(ids, empty, ts, 1, pageId);
    AddTreesGrow(ids, empty, ts, 1, pageId, pageId);
    assert [] + SiblingIds(ids, ts, 1) == SiblingIds(ids, ts, 1);
  }

  lemma {:induction false} CountNumbered(ids: Ids, keys: set<string>, n: nat, count: nat)
    requires ids.Injective() && forall k: nat | n <= k < n + count :: ids.make(k) in keys
    ensures |keys| >= count
  {
    if count > 0 {
      var last := ids.make(n + count - 1);
      forall k: nat | n <= k < n + count - 1 ensures ids.make(k) in keys - {last} {
        assert ids.number(ids.make(k)) == k && ids.number(last) == n + count - 1;
      }
      CountNumbered(ids, keys - {last}, n, count - 1);
    }
  }

  // ---------------------------------------------------------------- flags and links

  /** In a laid-out tree every block's flag says whether it has children. */
  ghost predicate FlagExact(m: Maps, id: string) {
    id in m.blocks && id in m.children && (m.blocks[id].hasChildren <==> m.children[id] != [])
  }

  lemma {:induction false} LaidFlags(ids: Ids, m: Maps, t: Tree, n: nat, parent: string, k: nat)
    requires Laid(ids, m, t, n, parent) && n <= k < n + Size(t)
    ensures FlagExact(m, ids.make(k))
    decreases t
  {
    if k > n {
      LaidAllFlags(ids, m, t.children, n + 1, ids.make(n), k);
    }
  }

  lemma {:induction false} LaidAllFlags(ids: Ids, m: Maps, ts: seq<Tree>, n: nat, parent: string, k: nat)
    requires LaidAll(ids, m, ts, n, parent) && n <= k < n + SizeAll(ts)
    ensures FlagExact(m, ids.make(k))
    decreases ts
  {
    var init, last := ts[..|ts| - 1], ts[|ts| - 1];
    if k < n + SizeAll(init) {
      LaidAllFlags(ids, m, init, n, parent, k);
    } else {
      LaidFlags(ids, m, last, n + SizeAll(init), parent, k);
    }
  }

  /** The keys are the ids handed out so far, and for the children also the page, which is no block. */
  ghost predicate Keyed(ids: Ids, m: Maps, pageId: string, next: nat) {
    && (forall id | id in m.blocks :: id == ids.make(ids.number(id)) && 1 <= ids.number(id) < next)
    && m.parents.Keys == m.blocks.Keys
    && m.children.Keys == m.blocks.Keys + {pageId} && pageId !in m.blocks
  }

  /** The parent map and the children map say the same thing, and no child is listed twice. */
  ghost predicate Inverse(m: Maps) {
    && (forall id | id in m.parents :: m.parents[id] in m.children && id in m.children[m.parents[id]])
    && (forall p, i | p in m.children && 0 <= i < |m.children[p]| ::
          m.children[p][i] in m.parents && m.parents[m.children[p][i]] == p)
    && (forall p, i, j | p in m.children && 0 <= i < j < |m.children[p]| :: m.children[p][i] != m.children[p][j])
  }

  /** Parents are numbered below their children, so every block leads up to the page. */
  ghost predicate Rooted(ids: Ids, m: Maps, pageId: string) {
    forall id | id in m.parents :: m.parents[id] == pageId || ids.number(m.parents[id]) < ids.number(id)
  }

  ghost predicate Forest(ids: Ids, m: Maps, pageId: string, next: nat) {
    Keyed(ids, m, pageId, next) && Inverse(m) && Rooted(ids, m, pageId)
  }

  lemma InsertIsInverse(m: Maps, id: string, content: Content, parent: string)
    requires Inverse(m) && parent in m.children && id !in m.children && id !in m.parents
    ensures Inverse(Insert(m, id, content, parent))
  {
    var m' := Insert(m, id, content, parent);
    forall p, i | p in m'.children && 0 <= i < |m'.children[p]|
      ensures m'.children[p][i] in m'.parents && m'.parents[m'.children[p][i]] == p
    {
      if p != id && i < |m.children[p]| {
        assert m'.children[p][i] == m.children[p][i];
      }
    }
    forall p, i, j | p in m'.children && 0 <= i < j < |m'.children[p]| ensures m'.children[p][i] != m'.children[p][j] {
      if p != id {
        assert m'.children[p][i] == m.children[p][i];
      }
    }
    forall c | c in m'.parents ensures m'.parents[c] in m'.children && c in m'.children[m'.parents[c]] {
      if c == id {
        assert m'.children[parent][|m.children[parent]|] == id;
      } else {
        assert m.children[m.parents[c]] <= m'.children[m.parents[c]];
      }
    }
  }

  lemma InsertIsKeyed(ids: Ids, m: Maps, pageId: string, next: nat, content: Content, parent: string)
    requires ids.Injective() && next >= 1 && ids.make(next) != pageId && Keyed(ids, m, pageId, next) && parent in m.children
    ensures ids.make(next) !in m.children && ids.make(next) !in m.parents
    ensures Keyed(ids, Insert(m, ids.make(next), content, parent), pageId, next + 1)
  {
    var id := ids.make(next);
    assert ids.number(id) == next;
    assert id !in m.blocks;
  }

  lemma InsertKeepsForest(ids: Ids, m: Maps, pageId: string, next: nat, content: Content, parent: string)
    requires ids.Injective() && next >= 1 && ids.make(next) != pageId && Forest(ids, m, pageId, next) && parent in m.children
    ensures Forest(ids, Insert(m, ids.make(next), content, parent), pageId, next + 1)
  {
    hide Inverse, Rooted, Keyed;
    InsertIsKeyed(ids, m, pageId, next, content, parent);
    InsertIsInverse(m, ids.make(next), content, parent);
    InsertIsRooted(ids, m, pageId, next, content, parent);
  }

  lemma InsertIsRooted(ids: Ids, m: Maps, pageId: string, next: nat, content: Content, parent: string)
    requires ids.Injective() && Keyed(ids, m, pageId, next) && Rooted(ids, m, pageId) && parent in m.children
    ensures Rooted(ids, Insert(m, ids.make(next), content, parent), pageId)
  {
    assert ids.number(ids.make(next)) == next;
    assert parent == pageId || ids.number(parent) < next;
  }

  lemma MarkKeepsForest(ids: Ids, m: Maps, pageId: string, next: nat, id: string)
    requires Forest(ids, m, pageId, next)
    ensures Forest(ids, Mark(m, id), pageId, next)
  {
    assert Mark(m, id).blocks.Keys == m.blocks.Keys;
  }

  lemma InsertAddsKey(m: Maps, id: string, content: Content, parent: string)
    ensures id in Insert(m, id, content, parent).children
  {
  }

  /** Adding subtrees keeps the maps one forest: exact inverses, distinct children, rooted at the page. */
  lemma {:induction false} AddTreeKeepsForest(ids: Ids, m: Maps, pageId: string, t: Tree, n: nat, parent: string)
    requires ids.Injective() && ids.Outside(pageId, n, n + Size(t))
    requires n >= 1 && Forest(ids, m, pageId, n) && parent in m.children
    ensures Forest(ids, AddTree(ids, m, t, n, parent), pageId, n + Size(t))
    ensures m.children.Keys <= AddTree(ids, m, t, n, parent).children.Keys
    decreases t
  {
    hide Forest, AddTree, AddTrees, Insert, Mark, SizeAll;
    var id := ids.make(n);
    var m1 := Insert(m, id, t.content, parent);
    AddTreeSteps(ids, m, t, n, parent);
    assert ids.number(id) == n;
    InsertAddsKey(m, id, t.content, parent);
    InsertKeepsForest(ids, m, pageId, n, t.content, parent);
    AddTreesKeepForest(ids, m1, pageId, t.children, n + 1, id);
    MarkKeepsForest(ids, AddTrees(ids, m1, t.children, n + 1, id), pageId, n + Size(t), id);
  }

  lemma {:induction false} AddTreesKeepForest(ids: Ids, m: Maps, pageId: string, ts: seq<Tree>, n: nat, parent: string)
    requires ids.Injective() && ids.Outside(pageId, n, n + SizeAll(ts))
    requires n >= 1 && Forest(ids, m, pageId, n) && parent in m.children
    ensures Forest(ids, AddTrees(ids, m, ts, n, parent), pageId, n + SizeAll(ts))
    ensures m.children.Keys <= AddTrees(ids, m, ts, n, parent).children.Keys
    decreases ts
  {
    hide Forest, Size, AddTree;
    if ts != [] {
      var init, last := ts[..|ts| - 1], ts[|ts| - 1];
      AddTreesKeepForest(ids, m, pageId, init, n, parent);
      AddTreeKeepsForest(ids, AddTrees(ids, m, init, n, parent), pageId, last, n + SizeAll(init), parent);
    }
  }

  lemma EmptyPageIsAForest(ids: Ids, pageId: string)
    ensures Forest(ids, Maps(map[], map[pageId := []], map[]), pageId, 1)
  {
  }
}
