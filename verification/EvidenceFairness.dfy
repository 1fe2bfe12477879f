/** Fairness, maximality and cost of the selected evidence. */
module EvidenceFairness {
  import opened Sorting
  import opened Wrappers
  import opened TaskContext
  import opened EvidenceSelection

  predicate SameItem(a: Evidence, b: Evidence) {
    a.provider == b.provider && a.id == b.id
  }

  predicate SameTopic(h: Heuristics, a: Evidence, b: Evidence) {
    h.normalizeContent(a.content) == h.normalizeContent(b.content)
  }

  /** From position `n` on, an item shares neither its topic nor its identity with any other. */
  ghost predicate Novel(h: Heuristics, chosen: seq<Evidence>, n: nat) {
    forall i, j | n <= i < |chosen| && 0 <= j < |chosen| && i != j ::
      !SameTopic(h, chosen[i], chosen[j]) && !SameItem(chosen[i], chosen[j])
  }

  ghost predicate Redundant(h: Heuristics, chosen: seq<Evidence>, e: Evidence) {
    exists x | x in chosen :: SameItem(x, e) || SameTopic(h, x, e)
  }

  /** Keys tell items apart by provider and id, whatever the id holds. */
  lemma SelectionKeyIsExact(a: Evidence, b: Evidence)
    ensures SelectionKey(a) == SelectionKey(b) <==> SameItem(a, b)
  {
    if SelectionKey(a) == SelectionKey(b) {
      assert SelectionKey(a)[0] == ProviderName(a.provider)[0];
      assert SelectionKey(b)[0] == ProviderName(b.provider)[0];
      assert a.provider == b.provider;
      var n := |ProviderName(a.provider)| + 1;
      assert SelectionKey(a)[n..] == a.id && SelectionKey(b)[n..] == b.id;
    }
  }

  lemma RedundantIsHeldBack(h: Heuristics, chosen: seq<Evidence>, e: Evidence)
    ensures Redundant(h, chosen, e) <==> Has(chosen, e) || Covers(h, chosen, e)
  {
    forall x: Evidence ensures SelectionKey(x) == SelectionKey(e) <==> SameItem(x, e) {
      SelectionKeyIsExact(x, e);
    }
    hide SelectionKey, SameItem;
    if Redundant(h, chosen, e) {
      var x :| x in chosen && (SameItem(x, e) || SameTopic(h, x, e));
    }
    if Has(chosen, e) {
      var x :| x in chosen && SelectionKey(x) == SelectionKey(e);
      assert SameItem(x, e);
    }
    if Covers(h, chosen, e) {
      var x :| x in chosen && SemanticKey(h, x) == SemanticKey(h, e);
      assert SameTopic(h, x, e);
    }
  }

  /** A provider's cap is its share of the limit, rounded up: half for the file system, 35 percent for the semantic search
      and the code graph, a fifth for the memory, and at least one. */
  lemma CapIsTheShare(limit: nat, p: Provider)
    ensures var percent := if p.Filesystem? then 50 else if p.Agentmemory? then 20 else 35;
            && Cap(limit, p) >= 1 && 100 * Cap(limit, p) >= limit * percent
            && (Cap(limit, p) > 1 ==> 100 * (Cap(limit, p) - 1) < limit * percent)
  {
  }

  lemma CountAppend(chosen: seq<Evidence>, e: Evidence, p: Provider)
    ensures Count(chosen + [e], p) == Count(chosen, p) + if e.provider == p then 1 else 0
  {
    assert (chosen + [e])[..|chosen|] == chosen;
  }

  /** One item of the capped pass: taken, or redundant, or kept out by a cap or the limit. */
  lemma CappedFillStep(h: Heuristics, limit: nat, start: seq<Evidence>, ranked: seq<Evidence>)
    requires ranked != []
    ensures var last := ranked[|ranked| - 1];
            var before, c := CappedFill(h, limit, start, ranked[..|ranked| - 1]), CappedFill(h, limit, start, ranked);
            var capped := Count(before, last.provider) >= Cap(limit, last.provider);
            || (c == before + [last] && |before| < limit && !Redundant(h, before, last) && !capped)
            || (c == before && (|before| >= limit || Redundant(h, before, last) || capped))
  {
    hide Cap, Count, Redundant, Has, Covers;
    var last := ranked[|ranked| - 1];
    RedundantIsHeldBack(h, CappedFill(h, limit, start, ranked[..|ranked| - 1]), last);
  }

  lemma PrefixIsRedundant(h: Heuristics, chosen: seq<Evidence>, more: seq<Evidence>, e: Evidence)
    requires chosen <= more && Redundant(h, chosen, e)
    ensures Redundant(h, more, e)
  {
    hide SameTopic, SameItem;
    var x :| x in chosen && (SameItem(x, e) || SameTopic(h, x, e));
    assert x in more;
  }

  lemma StaysRedundant(h: Heuristics, chosen: seq<Evidence>, last: Evidence, e: Evidence)
    ensures Redundant(h, chosen, e) ==> Redundant(h, chosen + [last], e)
  {
    hide Redundant;
    if Redundant(h, chosen, e) {
      PrefixIsRedundant(h, chosen, chosen + [last], e);
    }
  }

  lemma ChosenIsRedundant(h: Heuristics, chosen: seq<Evidence>, last: Evidence)
    ensures Redundant(h, chosen + [last], last)
  {
    assert (chosen + [last])[|chosen|] == last && last in chosen + [last];
    assert SameItem(last, last);
  }

  lemma StaysNovel(h: Heuristics, chosen: seq<Evidence>, last: Evidence, n: nat)
    requires Novel(h, chosen, n) && !Redundant(h, chosen, last) && n <= |chosen|
    ensures Novel(h, chosen + [last], n)
  {
    assert forall i | 0 <= i < |chosen| :: chosen[i] in chosen && !SameItem(chosen[i], last) && !SameTopic(h, chosen[i], last);
    hide Redundant;
  }

  /** One item of the second pass: taken when it is new, or redundant, or kept out by the limit. */
  lemma RefillStep(h: Heuristics, limit: nat, start: seq<Evidence>, ranked: seq<Evidence>)
    requires ranked != []
    ensures var last := ranked[|ranked| - 1];
            var before, c := Refill(h, limit, start, ranked[..|ranked| - 1]), Refill(h, limit, start, ranked);
            || (c == before + [last] && |before| < limit && !Redundant(h, before, last))
            || (c == before && (|before| >= limit || Redundant(h, before, last)))
  {
    hide Redundant, Has, Covers;
    RedundantIsHeldBack(h, Refill(h, limit, start, ranked[..|ranked| - 1]), ranked[|ranked| - 1]);
  }

  lemma {:induction false} CappedFillBounds(h: Heuristics, limit: nat, start: seq<Evidence>, ranked: seq<Evidence>)
    requires |start| <= limit && forall p :: Count(start, p) <= Cap(limit, p)
    ensures var c := CappedFill(h, limit, start, ranked);
            && start <= c && |c| <= limit && Novel(h, c, |start|)
            && (forall p :: Count(c, p) <= Cap(limit, p))
            && (forall e | e in c :: e in start || e in ranked)
  {
    if ranked != [] {
      var prefix, last := ranked[..|ranked| - 1], ranked[|ranked| - 1];
      hide Cap, Count;
      CappedFillBounds(h, limit, start, prefix);
      var before := CappedFill(h, limit, start, prefix);
      CappedFillStep(h, limit, start, ranked);
      hide CappedFill, Redundant, Novel;
      if CappedFill(h, limit, start, ranked) != before {
        StaysNovel(h, before, last, |start|);
        forall p { CountAppend(before, last, p); }
      }
    }
  }

  /** After the capped pass every ranked item is chosen, redundant, or kept out by its provider's cap
      or by the limit. */
  lemma {:induction false} CappedFillExhausts(h: Heuristics, limit: nat, start: seq<Evidence>, ranked: seq<Evidence>, e: Evidence)
    requires e in ranked && |CappedFill(h, limit, start, ranked)| < limit
    ensures var c := CappedFill(h, limit, start, ranked);
            Redundant(h, c, e) || Count(c, e.provider) >= Cap(limit, e.provider)
  {
    hide Cap, Redundant, Count;
    var prefix, last := ranked[..|ranked| - 1], ranked[|ranked| - 1];
    var before := CappedFill(h, limit, start, prefix);
    CappedFillStep(h, limit, start, ranked);
    if e in prefix {
      CappedFillExhausts(h, limit, start, prefix, e);
      StaysRedundant(h, before, last, e);
      CountAppend(before, last, e.provider);
    } else {
      assert ranked == prefix + [last];
      ChosenIsRedundant(h, before, last);
    }
  }

  /** After the second pass only redundant items or the limit keep anything out. */
  lemma {:induction false} RefillFacts(h: Heuristics, limit: nat, start: seq<Evidence>, ranked: seq<Evidence>, n: nat)
    requires n <= |start| <= limit && Novel(h, start, n)
    ensures var c := Refill(h, limit, start, ranked);
            && start <= c && |c| <= limit && Novel(h, c, n)
            && (forall e | e in c :: e in start || e in ranked)
            && (forall e | e in ranked && |c| < limit :: Redundant(h, c, e))
            && (forall p :: Count(start, p) <= Count(c, p))
  {
    hide Redundant, Count;
    if ranked != [] {
      var prefix, last := ranked[..|ranked| - 1], ranked[|ranked| - 1];
      RefillFacts(h, limit, start, prefix, n);
      var before := Refill(h, limit, start, prefix);
      assert ranked == prefix + [last];
      RefillStep(h, limit, start, ranked);
      hide Novel, Refill;
      ChosenIsRedundant(h, before, last);
      forall p { CountAppend(before, last, p); }
      forall e { StaysRedundant(h, before, last, e); }
      if !Redundant(h, before, last) {
        StaysNovel(h, before, last, n);
      }
    }
  }

  lemma RepresentsAppend(xs: seq<Evidence>, x: Evidence, p: Provider)
    ensures Represents(xs + [x], p) <==> Represents(xs, p) || x.provider == p
  {
    assert forall y :: y in xs + [x] <==> y in xs || y == x;
  }

  lemma {:induction false} ReservedRepresents(ranked: seq<Evidence>, p: Provider)
    ensures Represents(Reserved(ranked), p) <==> Represents(ranked, p)
    ensures Count(Reserved(ranked), p) == if Represents(ranked, p) then 1 else 0
  {
    if ranked != [] {
      hide Represents, Count;
      var prefix, last := ranked[..|ranked| - 1], ranked[|ranked| - 1];
      ReservedRepresents(prefix, p);
      ReservedRepresents(prefix, last.provider);
      assert ranked == prefix + [last];
      RepresentsAppend(prefix, last, p);
      RepresentsAppend(Reserved(prefix), last, p);
      CountAppend(Reserved(prefix), last, p);
    }
  }

  function ProvidersIn(xs: seq<Evidence>): set<Provider> {
    set e | e in xs :: e.provider
  }

  lemma ProvidersInAppend(prefix: seq<Evidence>, last: Evidence)
    ensures |ProvidersIn(prefix + [last])| == |ProvidersIn(prefix)| + if Represents(prefix, last.provider) then 0 else 1
  {
    assert ProvidersIn(prefix + [last]) == ProvidersIn(prefix) + {last.provider};
    assert last.provider in ProvidersIn(prefix) <==> Represents(prefix, last.provider);
  }

  lemma ReservedAppend(prefix: seq<Evidence>, last: Evidence)
    ensures |Reserved(prefix + [last])| == |Reserved(prefix)| + if Represents(prefix, last.provider) then 0 else 1
  {
    assert (prefix + [last])[..|prefix|] == prefix;
    ReservedRepresents(prefix, last.provider);
  }

  lemma {:induction false} ReservedOnePerProvider(ranked: seq<Evidence>)
    ensures |Reserved(ranked)| == |ProvidersIn(ranked)|
  {
    if ranked != [] {
      var prefix, last := ranked[..|ranked| - 1], ranked[|ranked| - 1];
      ReservedOnePerProvider(prefix);
      ReservedAppend(prefix, last);
      ProvidersInAppend(prefix, last);
      assert ranked == prefix + [last];
    }
  }

  lemma {:induction false} ReservedAreRanked(ranked: seq<Evidence>)
    ensures forall e | e in Reserved(ranked) :: e in ranked
  {
    if ranked != [] {
      ReservedAreRanked(ranked[..|ranked| - 1]);
    }
  }

  /** A reserved item comes before every other item of its provider. */
  lemma {:induction false} ReservedComesFirst(ranked: seq<Evidence>, e: Evidence, i: nat)
    requires e in Reserved(ranked) && i < |ranked| && ranked[i].provider == e.provider
    ensures exists k :: 0 <= k <= i && ranked[k] == e
  {
    var prefix, last := ranked[..|ranked| - 1], ranked[|ranked| - 1];
    if e in Reserved(prefix) {
      if i < |prefix| {
        ReservedComesFirst(prefix, e, i);
        var k :| 0 <= k <= i && prefix[k] == e;
        assert ranked[k] == e;
      } else {
        ReservedAreRanked(prefix);
        var k :| 0 <= k < |prefix| && prefix[k] == e;
        assert ranked[k] == e;
      }
    } else {
      assert e == last && !Represents(Reserved(prefix), last.provider);
      ReservedRepresents(prefix, last.provider);
      assert forall k | 0 <= k < |prefix| :: prefix[k] in prefix && prefix[k].provider != last.provider;
      assert i == |prefix|;
    }
  }

  function CappedPhase(h: Heuristics, maxItems: int, ranked: seq<Evidence>): seq<Evidence> {
    CappedFill(h, EffectiveLimit(maxItems, ranked), Reserved(ranked), ranked)
  }

  lemma CappedPhaseFacts(h: Heuristics, maxItems: int, ranked: seq<Evidence>)
    ensures var c, limit := CappedPhase(h, maxItems, ranked), EffectiveLimit(maxItems, ranked);
            && Reserved(ranked) <= c && |c| <= limit && Novel(h, c, |Reserved(ranked)|)
            && (forall p :: Count(c, p) <= Cap(limit, p))
            && (forall e | e in ranked && |c| < limit :: Redundant(h, c, e) || Count(c, e.provider) >= Cap(limit, e.provider))
  {
    forall p { ReservedRepresents(ranked, p); }
    CappedFillBounds(h, EffectiveLimit(maxItems, ranked), Reserved(ranked), ranked);
    forall e | e in ranked && |CappedPhase(h, maxItems, ranked)| < EffectiveLimit(maxItems, ranked)
      ensures Redundant(h, CappedPhase(h, maxItems, ranked), e)
           || Count(CappedPhase(h, maxItems, ranked), e.provider) >= Cap(EffectiveLimit(maxItems, ranked), e.provider)
    {
      CappedFillExhausts(h, EffectiveLimit(maxItems, ranked), Reserved(ranked), ranked, e);
    }
  }

  lemma SelectedFacts(h: Heuristics, maxItems: int, ranked: seq<Evidence>)
    ensures var c, s, limit := CappedPhase(h, maxItems, ranked), Selected(h, maxItems, ranked), EffectiveLimit(maxItems, ranked);
            && c <= s && |s| <= limit && Novel(h, s, |Reserved(ranked)|)
            && (forall e | e in ranked && |s| < limit :: Redundant(h, s, e))
            && (forall p :: Count(c, p) <= Count(s, p))
  {
    CappedPhaseFacts(h, maxItems, ranked);
    RefillFacts(h, EffectiveLimit(maxItems, ranked), CappedPhase(h, maxItems, ranked), ranked, |Reserved(ranked)|);
  }

  lemma ReservedFits(ranked: seq<Evidence>, limit: nat)
    ensures forall p :: Count(Reserved(ranked), p) <= Cap(limit, p)
  {
    hide Reserved, Represents;
    forall p ensures Count(Reserved(ranked), p) <= Cap(limit, p) {
      ReservedRepresents(ranked, p);
    }
  }

  lemma SelectedAreRanked(h: Heuristics, maxItems: int, ranked: seq<Evidence>)
    ensures forall e | e in Selected(h, maxItems, ranked) :: e in ranked
  {
    var limit := EffectiveLimit(maxItems, ranked);
    ReservedFits(ranked, limit);
    ReservedAreRanked(ranked);
    CappedFillBounds(h, limit, Reserved(ranked), ranked);
    hide CappedFill, Reserved, Cap, Count, EffectiveLimit;
    RefillFacts(h, limit, CappedFill(h, limit, Reserved(ranked), ranked), ranked, |CappedFill(h, limit, Reserved(ranked), ranked)|);
  }

  /** The output order is rank order, over exactly the selected items. */
  lemma ChosenIsTheSelectionInRankOrder(h: Heuristics, results: seq<ProviderResult>, maxItems: Option<int>)
    requires h.Valid()
    ensures Sorted(Ranking(h), Chosen(h, results, maxItems))
    ensures multiset(Chosen(h, results, maxItems)) ==
            multiset(Selected(h, Max(1, maxItems.GetOr(50)), RankedResults(h, results)))
  {
    RankingIsStrictWeakOrder(h);
    var selected := Selected(h, Max(1, maxItems.GetOr(50)), RankedResults(h, results));
    SortIsSorted(Ranking(h), selected);
    SortIsPermutation(Ranking(h), selected);
  }

  /** Every provider with evidence keeps its best item. */
  lemma EveryProviderKeepsItsBest(h: Heuristics, results: seq<ProviderResult>, maxItems: Option<int>, x: Evidence)
    returns (best: Evidence)
    requires h.Valid()
    requires x in RescoreAll(h, GraphHints(h, results), Flatten(results))
    ensures best in Chosen(h, results, maxItems) && best.provider == x.provider
    ensures forall y | y in RescoreAll(h, GraphHints(h, results), Flatten(results)) && y.provider == x.provider ::
              !Before(h, y, best)
  {
    var xs := RescoreAll(h, GraphHints(h, results), Flatten(results));
    var ranked := Ranked(h, xs);
    best := ReservedFor(h, xs, x);
    SelectedFacts(h, Max(1, maxItems.GetOr(50)), ranked);
    CappedPhaseFacts(h, Max(1, maxItems.GetOr(50)), ranked);
    assert best in Selected(h, Max(1, maxItems.GetOr(50)), ranked);
    ChosenIsTheSelectionInRankOrder(h, results, maxItems);
    SameMultisetSameMembers(Chosen(h, results, maxItems), Selected(h, Max(1, maxItems.GetOr(50)), ranked));
    forall y | y in xs && y.provider == x.provider ensures !Before(h, y, best) {
      ReservedIsBest(h, xs, best, y);
    }
  }

  lemma ReservedFor(h: Heuristics, xs: seq<Evidence>, x: Evidence) returns (best: Evidence)
    requires h.Valid() && x in xs
    ensures best in Reserved(Ranked(h, xs)) && best.provider == x.provider
  {
    var i := RankedPositionFor(h, xs, x);
    var ranked := Ranked(h, xs);
    assert ranked[i] in ranked;
    ReservedRepresents(ranked, x.provider);
    best :| best in Reserved(ranked) && best.provider == x.provider;
  }

  lemma ReservedIsBest(h: Heuristics, xs: seq<Evidence>, best: Evidence, y: Evidence)
    requires h.Valid() && y in xs
    requires best in Reserved(Ranked(h, xs)) && best.provider == y.provider
    ensures !Before(h, y, best)
  {
    hide Reserved, Ranked, Before;
    var ranked := Ranked(h, xs);
    var j := RankedPositionFor(h, xs, y);
    ReservedComesFirst(ranked, best, j);
    var i :| 0 <= i <= j && ranked[i] == best;
    RankedIsSorted(h, xs);
    if i < j {
      assert !Ranking(h)(ranked[j], ranked[i]);
      NotBeforeIsTransitive(h, y, ranked[j], best);
    }
  }

  lemma NotBeforeIsTransitive(h: Heuristics, x: Evidence, y: Evidence, z: Evidence)
    requires h.Valid() && !Before(h, x, y) && !Before(h, y, z)
    ensures !Before(h, x, z)
  {
    RankingIsStrictWeakOrder(h);
    hide Before;
    assert !Ranking(h)(x, y) && !Ranking(h)(y, z);
  }

  /** The selection never exceeds the limit, and stops short of it only when nothing new is left. */
  lemma SelectionIsBoundedAndMaximal(h: Heuristics, maxItems: int, ranked: seq<Evidence>)
    ensures var bound := Max(1, Max(maxItems, |ProvidersIn(ranked)|));
            && |Selected(h, maxItems, ranked)| <= bound
            && (|Selected(h, maxItems, ranked)| < bound ==>
                  forall e | e in ranked :: Redundant(h, Selected(h, maxItems, ranked), e))
  {
    ReservedOnePerProvider(ranked);
    SelectedFacts(h, maxItems, ranked);
  }

  /** Only reserved items may repeat a topic; no item is chosen twice. */
  lemma OnlyReservedItemsShareATopic(h: Heuristics, maxItems: int, ranked: seq<Evidence>, x: Evidence, y: Evidence)
    requires x in Selected(h, maxItems, ranked) && y in Selected(h, maxItems, ranked) && x != y
    requires x !in Reserved(ranked)
    ensures !SameTopic(h, x, y) && !SameItem(x, y)
  {
    hide Cap, Redundant, CappedPhase, Selected, EffectiveLimit, Reserved, Count, SameTopic, SameItem;
    SelectedFacts(h, maxItems, ranked);
    CappedPhaseFacts(h, maxItems, ranked);
    var all, reserved := Selected(h, maxItems, ranked), Reserved(ranked);
    assert reserved <= all;
    var i :| 0 <= i < |all| && all[i] == x;
    var j :| 0 <= j < |all| && all[j] == y;
    assert forall k | 0 <= k < |reserved| :: all[k] == reserved[k];
  }

  /** A provider exceeds its cap only when no provider below its cap has anything new left. */
  lemma CapsYieldOnlyToExhaustion(h: Heuristics, maxItems: int, ranked: seq<Evidence>, over: Provider, e: Evidence)
    requires e in ranked
    requires Count(Selected(h, maxItems, ranked), over) > Cap(EffectiveLimit(maxItems, ranked), over)
    requires Count(Selected(h, maxItems, ranked), e.provider) < Cap(EffectiveLimit(maxItems, ranked), e.provider)
    ensures Redundant(h, Selected(h, maxItems, ranked), e)
  {
    hide Cap, Count, Redundant, Novel, CappedPhase, Selected, EffectiveLimit, Reserved;
    var capped, all := CappedPhase(h, maxItems, ranked), Selected(h, maxItems, ranked);
    CappedPhaseFacts(h, maxItems, ranked);
    SelectedFacts(h, maxItems, ranked);
    assert Count(capped, over) <= Cap(EffectiveLimit(maxItems, ranked), over);
    assert capped != all && |capped| < |all|;
    assert Count(capped, e.provider) <= Count(all, e.provider);
    PrefixIsRedundant(h, capped, all, e);
  }

  /** Within one provider a better-ranked item is passed over only when it is redundant. */
  lemma BestFirstWithinAProvider(h: Heuristics, maxItems: int, ranked: seq<Evidence>, a: nat, b: nat)
    requires NoDuplicates(ranked) && a < b < |ranked|
    requires ranked[a].provider == ranked[b].provider
    requires ranked[b] in Selected(h, maxItems, ranked)
    ensures Redundant(h, Selected(h, maxItems, ranked), ranked[a])
  {
    var limit := EffectiveLimit(maxItems, ranked);
    var capped, all := CappedPhase(h, maxItems, ranked), Selected(h, maxItems, ranked);
    assert all == Refill(h, limit, capped, ranked) && capped == CappedFill(h, limit, Reserved(ranked), ranked);
    hide Cap, Redundant, Novel, CappedPhase, Selected, EffectiveLimit, Reserved, CappedFill, Refill, Count;
    ReservedFits(ranked, limit);
    CappedPhaseFacts(h, maxItems, ranked);
    SelectedFacts(h, maxItems, ranked);
    if ranked[b] in Reserved(ranked) {
      ReservedComesFirst(ranked, ranked[b], a);
      assert false;
    } else if ranked[b] in capped {
      CappedFillIsBestFirst(h, limit, Reserved(ranked), ranked, a, b);
      PrefixIsRedundant(h, capped, all, ranked[a]);
    } else {
      RefillIsBestFirst(h, limit, capped, ranked, a, b);
    }
  }

  lemma {:induction false} CappedFillIsBestFirst(h: Heuristics, limit: nat, start: seq<Evidence>, ranked: seq<Evidence>, a: nat, b: nat)
    requires |start| <= limit && (forall p :: Count(start, p) <= Cap(limit, p)) && NoDuplicates(ranked)
    requires a < b < |ranked| && ranked[a].provider == ranked[b].provider
    requires ranked[b] in CappedFill(h, limit, start, ranked) && ranked[b] !in start
    ensures Redundant(h, CappedFill(h, limit, start, ranked), ranked[a])
    decreases |ranked|
  {
    var prefix := ranked[..|ranked| - 1];
    var before, c := CappedFill(h, limit, start, prefix), CappedFill(h, limit, start, ranked);
    CappedFillBounds(h, limit, start, prefix);
    assert prefix[a] == ranked[a] && ranked[a] in prefix;
    if b == |ranked| - 1 {
      if |before| < limit {
        CappedFillExhausts(h, limit, start, prefix, ranked[a]);
      }
      assert forall k | 0 <= k < |prefix| :: prefix[k] != ranked[b];
    } else {
      assert prefix[b] == ranked[b];
      CappedFillIsBestFirst(h, limit, start, prefix, a, b);
    }
  }

  lemma {:induction false} RefillIsBestFirst(h: Heuristics, limit: nat, start: seq<Evidence>, ranked: seq<Evidence>, a: nat, b: nat)
    requires |start| <= limit && NoDuplicates(ranked)
    requires a < b < |ranked|
    requires ranked[b] in Refill(h, limit, start, ranked) && ranked[b] !in start
    ensures Redundant(h, Refill(h, limit, start, ranked), ranked[a])
    decreases |ranked|
  {
    var prefix := ranked[..|ranked| - 1];
    var before, c := Refill(h, limit, start, prefix), Refill(h, limit, start, ranked);
    RefillFacts(h, limit, start, prefix, |start|);
    assert prefix[a] == ranked[a] && ranked[a] in prefix;
    if b == |ranked| - 1 {
      assert forall k | 0 <= k < |prefix| :: prefix[k] != ranked[b];
    } else {
      assert prefix[b] == ranked[b];
      RefillIsBestFirst(h, limit, start, prefix, a, b);
    }
  }

  /** What is kept costs at most the budget, unless it is one item whose content is empty. */
  lemma BudgetIsRespected(items: seq<Evidence>, maxChars: int, out: seq<Evidence>)
    requires IsBudgeted(items, maxChars, out)
    ensures Cost(out) <= Max(0, maxChars) || (|out| == 1 && out[0].content == "")
  {
    if out != [] {
      var k := |out| - 1;
      assert out[..k] == items[..k];
      var room := Room(items, maxChars, k);
      assert FixedCost(out[k]) == FixedCost(items[k]);
      assert |out[k].content| <= room;
      if room > 0 {
        assert room == maxChars - Cost(items[..k]) - FixedCost(items[k]);
      } else {
        assert k == 0;
      }
    }
  }
}
