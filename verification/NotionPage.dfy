/** A whole page: its maps read back, and form a forest below it, exactly when the page's own id was not handed out. */
module NotionPage {
  import opened NotionTree
  import opened NotionModel
  import opened NotionForest
  import opened NotionShown

  /** `id` is none of the ids the factory makes from `lo` up to `hi`. */
  ghost predicate Unused(ids: Ids, id: string, lo: nat, hi: nat) {
    forall k: nat | lo <= k < hi :: ids.make(k) != id
  }

  lemma UnusedIsOutside(ids: Ids, id: string, lo: nat, hi: nat)
    requires ids.Injective()
    ensures Unused(ids, id, lo, hi) <==> ids.Outside(id, lo, hi)
  {
    if !Unused(ids, id, lo, hi) {
      var k: nat :| lo <= k < hi && ids.make(k) == id;
      assert ids.number(ids.make(k)) == k;
    }
  }

  // ---------------------------------------------------------------- every id is a block

  ghost predicate Populated(ids: Ids, m: Maps, lo: nat, hi: nat) {
    forall k: nat | lo <= k < hi :: ids.make(k) in m.blocks
  }

  lemma MarkKeepsBlocks(m: Maps, id: string)
    ensures Mark(m, id).blocks.Keys == m.blocks.Keys
  {
  }

  lemma {:induction false} AddTreePopulates(ids: Ids, m: Maps, t: Tree, n: nat, parent: string)
    ensures Populated(ids, AddTree(ids, m, t, n, parent), n, n + Size(t))
    decreases t
  {
    hide AddTree, AddTrees, Insert, Mark, SizeAll;
    AddTreeSteps(ids, m, t, n, parent);
    AddTreesPopulate(ids, Insert(m, ids.make(n), t.content, parent), t.children, n + 1, ids.make(n));
    MarkKeepsBlocks(AddTrees(ids, Insert(m, ids.make(n), t.content, parent), t.children, n + 1, ids.make(n)), ids.make(n));
  }

  lemma {:induction false} AddTreesPopulate(ids: Ids, m: Maps, ts: seq<Tree>, n: nat, parent: string)
    ensures Populated(ids, AddTrees(ids, m, ts, n, parent), n, n + SizeAll(ts))
    decreases ts
  {
    hide AddTree, Size;
    if ts != [] {
      var init, last := ts[..|ts| - 1], ts[|ts| - 1];
      AddTreesPopulate(ids, m, init, n, parent);
      AddTreePopulates(ids, AddTrees(ids, m, init, n, parent), last, n + SizeAll(init), parent);
    }
  }

  lemma LoweredIsPopulated(ids: Ids, ts: seq<Tree>, pageId: string)
    requires ids.Injective()
    ensures Populated(ids, Lowered(ids, ts, pageId), 1, 1 + SizeAll(ts))
    ensures |Lowered(ids, ts, pageId).blocks| >= SizeAll(ts)
  {
    hide AddTrees, SizeAll;
    AddTreesPopulate(ids, Maps(map[], map[pageId := []], map[]), ts, 1, pageId);
    CountNumbered(ids, Lowered(ids, ts, pageId).blocks.Keys, 1, SizeAll(ts));
  }

  // ---------------------------------------------------------------- a page whose id was handed out

  /** `pageId` is the id of a leaf numbered from `lo` up to `hi`, and has children listed all the same. */
  ghost predicate HidesALeaf(ids: Ids, m: Maps, pageId: string, lo: nat, hi: nat) {
    ids.Injective() && Populated(ids, m, lo, hi) && ChildrenOf(m, pageId) != [] && !ids.Outside(pageId, lo, hi)
  }

  /** The children lists are right everywhere but at `pageId`, a leaf of the tree. */
  ghost predicate LinksBut(ids: Ids, m: Maps, t: Tree, n: nat, pageId: string) {
    && HidesALeaf(ids, m, pageId, n, n + Size(t)) && ChildIds(ids, t, n, pageId) == []
    && forall k: nat | n <= k < n + Size(t) && ids.make(k) != pageId ::
         ChildrenOf(m, ids.make(k)) == ChildIds(ids, t, n, ids.make(k))
  }

  ghost predicate LinksButAll(ids: Ids, m: Maps, ts: seq<Tree>, n: nat, pageId: string) {
    && HidesALeaf(ids, m, pageId, n, n + SizeAll(ts)) && ChildIdsAll(ids, ts, n, pageId) == []
    && forall k: nat | n <= k < n + SizeAll(ts) && ids.make(k) != pageId ::
         ChildrenOf(m, ids.make(k)) == ChildIdsAll(ids, ts, n, ids.make(k))
  }

  lemma NarrowToChildren(ids: Ids, m: Maps, t: Tree, n: nat, pageId: string)
    requires LinksBut(ids, m, t, n, pageId) && ids.make(n) != pageId
    ensures LinksButAll(ids, m, t.children, n + 1, pageId)
    ensures ChildrenOf(m, ids.make(n)) == SiblingIds(ids, t.children, n + 1)
  {
    hide ChildIdsAll, SiblingIds, SizeAll;
    assert ids.number(ids.make(n)) == n;
    forall k: nat | n + 1 <= k < n + Size(t)
      ensures ChildIdsAll(ids, t.children, n + 1, ids.make(k)) == ChildIds(ids, t, n, ids.make(k))
    {
      assert ids.number(ids.make(k)) == k;
    }
  }

  lemma KidsSplit(ids: Ids, ts: seq<Tree>, n: nat, id: string)
    requires ts != [] && ids.Injective()
    ensures var init, last := ts[..|ts| - 1], ts[|ts| - 1];
            var mid := n + SizeAll(init);
            && mid + Size(last) == n + SizeAll(ts)
            && (ids.Outside(id, n, mid) ==> ChildIdsAll(ids, ts, n, id) == ChildIds(ids, last, mid, id))
            && (ids.Outside(id, mid, mid + Size(last)) ==> ChildIdsAll(ids, ts, n, id) == ChildIdsAll(ids, init, n, id))
            && (ChildIdsAll(ids, ts, n, id) == [] ==> ChildIdsAll(ids, init, n, id) == [] && ChildIds(ids, last, mid, id) == [])
  {
    hide ChildIds, Size;
    var init, last := ts[..|ts| - 1], ts[|ts| - 1];
    var first, second := ChildIdsAll(ids, init, n, id), ChildIds(ids, last, n + SizeAll(init), id);
    assert ChildIdsAll(ids, ts, n, id) == first + second;
    assert [] + second == second && first + [] == first;
    assert |first + second| == |first| + |second|;
  }

  lemma NarrowToInit(ids: Ids, m: Maps, ts: seq<Tree>, n: nat, pageId: string)
    requires ts != [] && LinksButAll(ids, m, ts, n, pageId)
    requires ids.number(pageId) < n + SizeAll(ts[..|ts| - 1])
    ensures LinksButAll(ids, m, ts[..|ts| - 1], n, pageId)
  {
    hide ChildIds, ChildIdsAll, Size, SizeAll, ChildrenOf;
    var init := ts[..|ts| - 1];
    KidsSplit(ids, ts, n, pageId);
    forall k: nat | n <= k < n + SizeAll(init) && ids.make(k) != pageId
      ensures ChildrenOf(m, ids.make(k)) == ChildIdsAll(ids, init, n, ids.make(k))
    {
      assert ids.number(ids.make(k)) == k && ChildrenOf(m, ids.make(k)) == ChildIdsAll(ids, ts, n, ids.make(k));
      KidsSplit(ids, ts, n, ids.make(k));
    }
  }

  lemma NarrowToLast(ids: Ids, m: Maps, ts: seq<Tree>, n: nat, pageId: string)
    requires ts != [] && LinksButAll(ids, m, ts, n, pageId)
    requires ids.number(pageId) >= n + SizeAll(ts[..|ts| - 1])
    ensures var last, mid := ts[|ts| - 1], n + SizeAll(ts[..|ts| - 1]);
            LinksBut(ids, m, last, mid, pageId)
  {
    hide ChildIds, ChildIdsAll, Size, SizeAll, ChildrenOf;
    var last, mid := ts[|ts| - 1], n + SizeAll(ts[..|ts| - 1]);
    KidsSplit(ids, ts, n, pageId);
    forall k: nat | mid <= k < mid + Size(last) && ids.make(k) != pageId
      ensures ChildrenOf(m, ids.make(k)) == ChildIds(ids, last, mid, ids.make(k))
    {
      assert ids.number(ids.make(k)) == k && ChildrenOf(m, ids.make(k)) == ChildIdsAll(ids, ts, n, ids.make(k));
      KidsSplit(ids, ts, n, ids.make(k));
    }
  }

  lemma PageReadsWrong(ids: Ids, m: Maps, t: Tree, n: nat, depth: nat)
    requires LinksBut(ids, m, t, n, ids.make(n)) && depth >= Size(t)
    ensures ReadBack(m, ids.make(n), depth) != t
  {
    hide SizeAll;
    assert ChildIds(ids, t, n, ids.make(n)) == [];
    assert SiblingIds(ids, t.children, n + 1) == [];
    assert |ReadBack(m, ids.make(n), depth).children| == |ChildrenOf(m, ids.make(n))|;
  }

  lemma RangeIsNotEmpty(ids: Ids, m: Maps, ts: seq<Tree>, n: nat, pageId: string)
    requires LinksButAll(ids, m, ts, n, pageId)
    ensures ts != []
  {
  }

  /** Reading back goes wrong somewhere on the way down to the leaf that shares the page's id. */
  lemma {:induction false} ReadsWrong(ids: Ids, m: Maps, t: Tree, n: nat, pageId: string, depth: nat)
    requires LinksBut(ids, m, t, n, pageId) && depth >= Size(t)
    ensures ReadBack(m, ids.make(n), depth) != t
    decreases t
  {
    hide SizeAll, ReadAll;
    if ids.make(n) == pageId {
      PageReadsWrong(ids, m, t, n, depth);
    } else {
      NarrowToChildren(ids, m, t, n, pageId);
      ReadsWrongAll(ids, m, t.children, n + 1, pageId, depth - 1);
    }
  }

  lemma {:induction false} ReadsWrongAll(ids: Ids, m: Maps, ts: seq<Tree>, n: nat, pageId: string, depth: nat)
    requires LinksButAll(ids, m, ts, n, pageId) && depth >= SizeAll(ts)
    ensures ReadAll(m, SiblingIds(ids, ts, n), depth) != ts
    decreases ts
  {
    hide Size, ChildIds, ChildIdsAll, LinksBut, LinksButAll, ReadAll, ReadBack, SiblingIds;
    RangeIsNotEmpty(ids, m, ts, n, pageId);
    var init, last, mid := ts[..|ts| - 1], ts[|ts| - 1], n + SizeAll(ts[..|ts| - 1]);
    ReadSplits(ids, m, ts, n, depth);
    if ids.number(pageId) < mid {
      NarrowToInit(ids, m, ts, n, pageId);
      ReadsWrongAll(ids, m, init, n, pageId, depth);
      assert ReadAll(m, SiblingIds(ids, ts, n), depth)[..|init|] == ReadAll(m, SiblingIds(ids, init, n), depth);
    } else {
      NarrowToLast(ids, m, ts, n, pageId);
      ReadsWrong(ids, m, last, mid, pageId, depth);
    }
  }

  /** The children lists of a page's maps. */
  lemma LoweredLists(ids: Ids, ts: seq<Tree>, pageId: string, id: string)
    requires ids.Injective()
    ensures id != pageId ==> ChildrenOf(Lowered(ids, ts, pageId), id) == ChildIdsAll(ids, ts, 1, id)
    ensures id == pageId ==> |ChildrenOf(Lowered(ids, ts, pageId), id)| == |ts| + |ChildIdsAll(ids, ts, 1, id)|
    ensures id == pageId && ChildIdsAll(ids, ts, 1, id) == [] ==>
              ChildrenOf(Lowered(ids, ts, pageId), id) == SiblingIds(ids, ts, 1)
  {
    hide AddTrees, ChildIdsAll, SiblingIds;
    AddTreesGrow(ids, Maps(map[], map[pageId := []], map[]), ts, 1, pageId, id);
    assert [] + ChildIdsAll(ids, ts, 1, id) == ChildIdsAll(ids, ts, 1, id);
    assert [] + SiblingIds(ids, ts, 1) == SiblingIds(ids, ts, 1);
  }

  lemma NotEmpty(ts: seq<Tree>)
    requires SizeAll(ts) > 0
    ensures ts != []
  {
  }

  /** A page that carries an id handed out to one of its blocks does not read back: either its list also holds that
      block's children, or the block, a leaf, reads back with the page's children. */
  lemma UsedPageIdBreaksReading(ids: Ids, ts: seq<Tree>, pageId: string)
    requires ids.Injective() && !ids.Outside(pageId, 1, 1 + SizeAll(ts))
    ensures var m := Lowered(ids, ts, pageId); ReadAll(m, ChildrenOf(m, pageId), |m.blocks|) != ts
  {
    hide ReadAll, ReadBack, Lowered, ChildIdsAll, SizeAll, SiblingIds, ChildrenOf;
    var m := Lowered(ids, ts, pageId);
    LoweredLists(ids, ts, pageId, pageId);
    LoweredIsPopulated(ids, ts, pageId);
    if ChildIdsAll(ids, ts, 1, pageId) == [] {
      NotEmpty(ts);
      forall k: nat | 1 <= k < 1 + SizeAll(ts) && ids.make(k) != pageId
        ensures ChildrenOf(m, ids.make(k)) == ChildIdsAll(ids, ts, 1, ids.make(k))
      {
        LoweredLists(ids, ts, pageId, ids.make(k));
      }
      ReadsWrongAll(ids, m, ts, 1, pageId, |m.blocks|);
    }
  }

  // ---------------------------------------------------------------- the page

  /** Lowering a page and reading its maps back gives the trees the AST denotes exactly when the page's own id is
      none of those handed out to its blocks. */
  lemma LoweringReadsBack(ids: Ids, r: Rendering, asts: seq<Ast>, pageId: string)
    requires ids.Injective() && r.Valid()
    ensures var ts := LowerAll(r, asts);
            var m := Lowered(ids, ts, pageId);
            ReadAll(m, ChildrenOf(m, pageId), |m.blocks|) == ts <==> Unused(ids, pageId, 1, 1 + SizeAll(ts))
  {
    hide *;
    var ts := LowerAll(r, asts);
    UnusedIsOutside(ids, pageId, 1, 1 + SizeAll(ts));
    if Unused(ids, pageId, 1, 1 + SizeAll(ts)) {
      LowerAllIsRectangular(r, asts);
      LoweredIsLaid(ids, ts, pageId);
      LoweredIsPopulated(ids, ts, pageId);
      ReadLaidAll(ids, Lowered(ids, ts, pageId), ts, 1, pageId, |Lowered(ids, ts, pageId).blocks|);
    } else {
      UsedPageIdBreaksReading(ids, ts, pageId);
    }
  }

  lemma UsedPageIsNoForest(ids: Ids, m: Maps, pageId: string, hi: nat)
    requires Populated(ids, m, 1, hi) && !Unused(ids, pageId, 1, hi)
    ensures !Forest(ids, m, pageId, hi)
  {
    hide Inverse, Rooted;
  }

  lemma LaidFlagsAreExact(ids: Ids, m: Maps, ts: seq<Tree>, pageId: string)
    requires LaidAll(ids, m, ts, 1, pageId) && Keyed(ids, m, pageId, 1 + SizeAll(ts))
    ensures forall id | id in m.blocks :: FlagExact(m, id)
  {
    hide LaidAll, SizeAll, FlagExact;
    forall id | id in m.blocks ensures FlagExact(m, id) {
      LaidAllFlags(ids, m, ts, 1, pageId, ids.number(id));
    }
  }

  lemma LoweredIsAForest(ids: Ids, ts: seq<Tree>, pageId: string)
    requires ids.Injective() && ids.Outside(pageId, 1, 1 + SizeAll(ts))
    ensures Forest(ids, Lowered(ids, ts, pageId), pageId, 1 + SizeAll(ts))
  {
    hide Forest, AddTrees, SizeAll;
    EmptyPageIsAForest(ids, pageId);
    AddTreesKeepForest(ids, Maps(map[], map[pageId := []], map[]), pageId, ts, 1, pageId);
  }

  lemma ForestIsKeyed(ids: Ids, m: Maps, pageId: string, next: nat)
    requires Forest(ids, m, pageId, next)
    ensures Keyed(ids, m, pageId, next)
  {
  }

  /** The maps of a page form one forest below it exactly when its own id is none of those handed out, and then every
      flag is exact. */
  lemma LoweredPageIsAForest(ids: Ids, r: Rendering, asts: seq<Ast>, pageId: string)
    requires ids.Injective() && r.Valid()
    ensures var ts := LowerAll(r, asts);
            var m := Lowered(ids, ts, pageId);
            && (Forest(ids, m, pageId, 1 + SizeAll(ts)) <==> Unused(ids, pageId, 1, 1 + SizeAll(ts)))
            && (Unused(ids, pageId, 1, 1 + SizeAll(ts)) ==> forall id | id in m.blocks :: FlagExact(m, id))
  {
    hide *;
    var ts := LowerAll(r, asts);
    var m := Lowered(ids, ts, pageId);
    UnusedIsOutside(ids, pageId, 1, 1 + SizeAll(ts));
    LoweredIsPopulated(ids, ts, pageId);
    if Unused(ids, pageId, 1, 1 + SizeAll(ts)) {
      LoweredIsAForest(ids, ts, pageId);
      LowerAllIsRectangular(r, asts);
      LoweredIsLaid(ids, ts, pageId);
      ForestIsKeyed(ids, m, pageId, 1 + SizeAll(ts));
      LaidFlagsAreExact(ids, m, ts, pageId);
    } else {
      UsedPageIsNoForest(ids, m, pageId, 1 + SizeAll(ts));
    }
  }

  lemma LoweredIs(ids: Ids, ts: seq<Tree>, pageId: string)
    ensures Lowered(ids, ts, pageId) == AddTrees(ids, Maps(map[], map[pageId := []], map[]), ts, 1, pageId)
  {
  }

  /** With the renderer's own contents, a page whose id was not handed out shows its blocks, in order, each with what is
      in it. */
  lemma PageShowsItsBlocks(ids: Ids, asts: seq<Ast>, pageId: string)
    requires ids.Injective() && Unused(ids, pageId, 1, 1 + SizeAll(LowerAll(NotionRendering(), asts)))
    ensures var m := Lowered(ids, LowerAll(NotionRendering(), asts), pageId);
            ShowsAll(m, ChildrenOf(m, pageId), pageId, asts)
  {
    hide *;
    var ts := LowerAll(NotionRendering(), asts);
    NotionRenderingIsValid();
    LowerAllIsRectangular(NotionRendering(), asts);
    UnusedIsOutside(ids, pageId, 1, 1 + SizeAll(ts));
    LoweredIsLaid(ids, ts, pageId);
    LaidAllShows(ids, Lowered(ids, ts, pageId), asts, 1, pageId);
  }

  /** The renderer's entry point: the page's blocks, lowered into empty maps. */
  method CreateModel(ids: Ids, r: Rendering, asts: seq<Ast>, pageId: string) returns (m: Maps, topLevelIds: seq<string>)
    requires ids.Injective() && r.Valid()
    ensures m == Lowered(ids, LowerAll(r, asts), pageId) && topLevelIds == ChildrenOf(m, pageId)
    ensures ReadAll(m, topLevelIds, |m.blocks|) == LowerAll(r, asts)
       <==> Unused(ids, pageId, 1, 1 + SizeAll(LowerAll(r, asts)))
    ensures r == NotionRendering() && Unused(ids, pageId, 1, 1 + SizeAll(LowerAll(r, asts))) ==>
              ShowsAll(m, topLevelIds, pageId, asts)
  {
    hide ReadAll, LowerAll, Lowered, SizeAll, Unused, ShowsAll, NotionRendering, AddTrees;
    var lowering := new Lowering(ids, r, pageId);
    lowering.AddAll(asts, pageId);
    m := lowering.maps;
    topLevelIds := ChildrenOf(m, pageId);
    assert m == Lowered(ids, LowerAll(r, asts), pageId) by {
      LoweredIs(ids, LowerAll(r, asts), pageId);
    }
    LoweringReadsBack(ids, r, asts, pageId);
    if r == NotionRendering() && Unused(ids, pageId, 1, 1 + SizeAll(LowerAll(r, asts))) {
      PageShowsItsBlocks(ids, asts, pageId);
    }
  }
}
