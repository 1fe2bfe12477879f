/** What the evidence merge promises: independence from arrival order, a fair and maximal selection,
    and a character budget that keeps a prefix. */
module EvidenceSelection {
  import opened Sorting
  import opened Wrappers
  import opened TaskContext
  import BestPerKey

  // ---------------------------------------------------------------- the merge

  function RankedResults(h: Heuristics, results: seq<ProviderResult>): seq<Evidence>
    requires h.Valid()
  {
    Ranked(h, RescoreAll(h, GraphHints(h, results), Flatten(results)))
  }

  /** The selection in output order, before the character budget. */
  function Chosen(h: Heuristics, results: seq<ProviderResult>, maxItems: Option<int>): seq<Evidence>
    requires h.Valid()
  {
    Sort(Ranking(h), Selected(h, Max(1, maxItems.GetOr(50)), RankedResults(h, results)))
  }

  ghost predicate IsMerged(h: Heuristics, results: seq<ProviderResult>, maxItems: Option<int>, maxChars: Option<int>,
                           out: seq<Evidence>)
    requires h.Valid()
  {
    IsBudgeted(Chosen(h, results, maxItems), Max(1_000, maxChars.GetOr(100_000)), out)
  }

  function Deduplicated(h: Heuristics, hints: set<string>, xs: seq<Evidence>): BestPerKey.Best<Evidence> {
    BestPerKey.KeepAll(EvidenceKey, Ranking(h), RescoreAll(h, hints, xs))
  }

  lemma DeduplicatedAppend(h: Heuristics, hints: set<string>, xs: seq<Evidence>, e: Evidence)
    ensures Deduplicated(h, hints, xs + [e])
         == BestPerKey.Keep(EvidenceKey, Ranking(h), Deduplicated(h, hints, xs), Rescore(h, hints, e))
  {
    var all := RescoreAll(h, hints, xs + [e]);
    assert all[..|xs|] == RescoreAll(h, hints, xs);
    assert all[|all| - 1] == Rescore(h, hints, e);
  }

  lemma KeepIsTheBranch(h: Heuristics, b: BestPerKey.Best<Evidence>, e: Evidence)
    ensures BestPerKey.Keep(EvidenceKey, Ranking(h), b, e)
         == var key := EvidenceKey(e);
            if key !in b.items then BestPerKey.Best(b.order + [key], b.items[key := e])
            else if Before(h, e, b.items[key]) then BestPerKey.Best(b.order, b.items[key := e])
            else b
  {
    hide EvidenceKey, Before;
  }

  lemma TakenUpTo(seen: seq<Evidence>, evidence: seq<Evidence>, j: nat)
    requires j < |evidence|
    ensures seen + evidence[..j] + [evidence[j]] == seen + evidence[..j + 1]
  {
  }

  method DeduplicateResult(h: Heuristics, hints: set<string>, evidence: seq<Evidence>, start: BestPerKey.Best<Evidence>,
                           ghost seen: seq<Evidence>)
    returns (b: BestPerKey.Best<Evidence>)
    requires start == Deduplicated(h, hints, seen)
    ensures b == Deduplicated(h, hints, seen + evidence)
  {
    hide Deduplicated, BestPerKey.Keep, Rescore, EvidenceKey, Before, Ranking;
    b := start;
    assert seen + evidence[..0] == seen;
    for j := 0 to |evidence|
      invariant b == Deduplicated(h, hints, seen + evidence[..j])
    {
      DeduplicatedAppend(h, hints, seen + evidence[..j], evidence[j]);
      TakenUpTo(seen, evidence, j);
      var reranked := Rescore(h, hints, evidence[j]);
      KeepIsTheBranch(h, b, reranked);
      var key := EvidenceKey(reranked);
      if key !in b.items {
        b := BestPerKey.Best(b.order + [key], b.items[key := reranked]);
      } else if Before(h, reranked, b.items[key]) {
        b := BestPerKey.Best(b.order, b.items[key := reranked]);
      }
    }
    assert evidence[..|evidence|] == evidence;
  }

  method DeduplicateResults(h: Heuristics, results: seq<ProviderResult>, hints: set<string>) returns (b: BestPerKey.Best<Evidence>)
    ensures b == Deduplicated(h, hints, Flatten(results))
  {
    b := BestPerKey.Best([], map[]);
    for i := 0 to |results|
      invariant b == Deduplicated(h, hints, Flatten(results[..i]))
    {
      assert results[..i + 1][..i] == results[..i];
      b := DeduplicateResult(h, hints, results[i].evidence, b, Flatten(results[..i]));
    }
    assert results[..|results|] == results;
  }

  method ReserveOnePerProvider(ranked: seq<Evidence>) returns (guaranteed: seq<Evidence>, counts: map<Provider, nat>)
    ensures guaranteed == Reserved(ranked)
    ensures CountsMatch(counts, guaranteed)
  {
    hide CountsMatch, Count, Represents;
    guaranteed, counts := [], map[];
    NothingMatches();
    for i := 0 to |ranked|
      invariant guaranteed == Reserved(ranked[..i])
      invariant CountsMatch(counts, guaranteed)
      invariant forall p :: p in counts <==> Represents(guaranteed, p)
    {
      assert ranked[..i + 1][..i] == ranked[..i];
      var e := ranked[i];
      if e.provider !in counts {
        FirstOfProvider(counts, guaranteed, e);
        guaranteed := guaranteed + [e];
        counts := counts[e.provider := 1];
      }
    }
    assert ranked[..|ranked|] == ranked;
  }

  lemma NothingMatches()
    ensures CountsMatch(map[], []) && forall p :: !Represents([], p)
  {
  }

  lemma FirstOfProvider(counts: map<Provider, nat>, chosen: seq<Evidence>, e: Evidence)
    requires CountsMatch(counts, chosen) && e.provider !in counts
    requires forall p :: p in counts <==> Represents(chosen, p)
    ensures CountsMatch(counts[e.provider := 1], chosen + [e])
    ensures forall p :: p in counts[e.provider := 1] <==> Represents(chosen + [e], p)
  {
    assert (chosen + [e])[..|chosen|] == chosen && (chosen + [e])[|chosen|] == e;
    CountZero(chosen, e.provider);
    forall p ensures Represents(chosen + [e], p) <==> Represents(chosen, p) || p == e.provider {
      assert forall x :: x in chosen + [e] <==> x in chosen || x == e;
    }
  }

  ghost predicate CountsMatch(counts: map<Provider, nat>, chosen: seq<Evidence>) {
    forall p :: Count(chosen, p) == if p in counts then counts[p] else 0
  }

  lemma {:induction false} CountZero(chosen: seq<Evidence>, p: Provider)
    requires !Represents(chosen, p)
    ensures Count(chosen, p) == 0
  {
    if chosen != [] {
      assert chosen[|chosen| - 1] in chosen;
      forall x | x in chosen[..|chosen| - 1] ensures x.provider != p {
        assert x in chosen;
      }
      CountZero(chosen[..|chosen| - 1], p);
    }
  }

  /** The key sets the two passes keep beside the selection. */
  function KeysOf(selected: seq<Evidence>): set<string> {
    set e | e in selected :: SelectionKey(e)
  }

  function TopicsOf(h: Heuristics, selected: seq<Evidence>): set<string> {
    set e | e in selected :: SemanticKey(h, e)
  }

  lemma KeysMean(h: Heuristics, selected: seq<Evidence>, e: Evidence)
    ensures SelectionKey(e) in KeysOf(selected) <==> Has(selected, e)
    ensures SemanticKey(h, e) in TopicsOf(h, selected) <==> Covers(h, selected, e)
    ensures KeysOf(selected + [e]) == KeysOf(selected) + {SelectionKey(e)}
    ensures TopicsOf(h, selected + [e]) == TopicsOf(h, selected) + {SemanticKey(h, e)}
  {
    var more := selected + [e];
    assert forall x :: x in more <==> x in selected || x == e;
  }

  lemma CountsAppend(counts: map<Provider, nat>, selected: seq<Evidence>, e: Evidence, current: nat)
    requires CountsMatch(counts, selected) && current == Count(selected, e.provider)
    ensures CountsMatch(counts[e.provider := current + 1], selected + [e])
  {
    assert (selected + [e])[..|selected|] == selected;
  }

  /** One item of the capped pass. */
  lemma CappedFillTakes(h: Heuristics, limit: nat, start: seq<Evidence>, ranked: seq<Evidence>, i: nat)
    requires i < |ranked|
    ensures var c, e := CappedFill(h, limit, start, ranked[..i]), ranked[i];
            CappedFill(h, limit, start, ranked[..i + 1])
            == if |c| >= limit || Has(c, e) || Covers(h, c, e) || Count(c, e.provider) >= Cap(limit, e.provider) then c else c + [e]
  {
    hide Has, Covers, Count, Cap;
    assert ranked[..i + 1][..i] == ranked[..i];
  }

  lemma CountIs(counts: map<Provider, nat>, chosen: seq<Evidence>, p: Provider)
    requires CountsMatch(counts, chosen)
    ensures Count(chosen, p) == if p in counts then counts[p] else 0
  {
  }

  method FillUnderCaps(h: Heuristics, limit: nat, start: seq<Evidence>, startCounts: map<Provider, nat>, ranked: seq<Evidence>)
    returns (selected: seq<Evidence>)
    requires CountsMatch(startCounts, start)
    ensures selected == CappedFill(h, limit, start, ranked)
  {
    selected := start;
    var counts: map<Provider, nat> := startCounts;
    var keys, topics := KeysOf(start), TopicsOf(h, start);
    assert CappedFill(h, limit, start, ranked[..0]) == start;
    hide CappedFill, Has, Covers, Count, Cap, SelectionKey, SemanticKey, CountsMatch, KeysOf, TopicsOf;
    for i := 0 to |ranked|
      invariant selected == CappedFill(h, limit, start, ranked[..i])
      invariant CountsMatch(counts, selected)
      invariant keys == KeysOf(selected) && topics == TopicsOf(h, selected)
    {
      var e := ranked[i];
      if |selected| >= limit {
        CappedFillStops(h, limit, start, ranked, i);
        return;
      }
      KeysMean(h, selected, e);
      CappedFillTakes(h, limit, start, ranked, i);
      if SelectionKey(e) !in keys && SemanticKey(h, e) !in topics {
        var current := if e.provider in counts then counts[e.provider] else 0;
        CountIs(counts, selected, e.provider);
        if current < Cap(limit, e.provider) {
          CountsAppend(counts, selected, e, current);
          selected := selected + [e];
          keys := keys + {SelectionKey(e)};
          topics := topics + {SemanticKey(h, e)};
          counts := counts[e.provider := current + 1];
        }
      }
    }
    assert ranked[..|ranked|] == ranked;
  }

  /** One item of the second pass. */
  lemma RefillTakes(h: Heuristics, limit: nat, start: seq<Evidence>, ranked: seq<Evidence>, i: nat)
    requires i < |ranked|
    ensures var c, e := Refill(h, limit, start, ranked[..i]), ranked[i];
            Refill(h, limit, start, ranked[..i + 1]) == if |c| >= limit || Has(c, e) || Covers(h, c, e) then c else c + [e]
  {
    hide Has, Covers;
    assert ranked[..i + 1][..i] == ranked[..i];
  }

  method RefillToLimit(h: Heuristics, limit: nat, start: seq<Evidence>, ranked: seq<Evidence>) returns (selected: seq<Evidence>)
    ensures selected == Refill(h, limit, start, ranked)
  {
    selected := start;
    var keys, topics := KeysOf(start), TopicsOf(h, start);
    assert Refill(h, limit, start, ranked[..0]) == start;
    hide Refill, Has, Covers, SelectionKey, SemanticKey, KeysOf, TopicsOf;
    for i := 0 to |ranked|
      invariant selected == Refill(h, limit, start, ranked[..i])
      invariant keys == KeysOf(selected) && topics == TopicsOf(h, selected)
    {
      var e := ranked[i];
      if |selected| >= limit {
        RefillStops(h, limit, start, ranked, i);
        return;
      }
      KeysMean(h, selected, e);
      RefillTakes(h, limit, start, ranked, i);
      if SelectionKey(e) !in keys && SemanticKey(h, e) !in topics {
        selected := selected + [e];
        keys := keys + {SelectionKey(e)};
        topics := topics + {SemanticKey(h, e)};
      }
    }
    assert ranked[..|ranked|] == ranked;
  }

  lemma {:induction false} CappedFillStops(h: Heuristics, limit: nat, start: seq<Evidence>, ranked: seq<Evidence>, i: nat)
    requires i <= |ranked| && |CappedFill(h, limit, start, ranked[..i])| >= limit
    ensures CappedFill(h, limit, start, ranked) == CappedFill(h, limit, start, ranked[..i])
    decreases |ranked|
  {
    if i < |ranked| {
      assert ranked[..|ranked| - 1][..i] == ranked[..i];
      CappedFillStops(h, limit, start, ranked[..|ranked| - 1], i);
    } else {
      assert ranked[..i] == ranked;
    }
  }

  lemma {:induction false} RefillStops(h: Heuristics, limit: nat, start: seq<Evidence>, ranked: seq<Evidence>, i: nat)
    requires i <= |ranked| && |Refill(h, limit, start, ranked[..i])| >= limit
    ensures Refill(h, limit, start, ranked) == Refill(h, limit, start, ranked[..i])
    decreases |ranked|
  {
    if i < |ranked| {
      assert ranked[..|ranked| - 1][..i] == ranked[..i];
      RefillStops(h, limit, start, ranked[..|ranked| - 1], i);
    } else {
      assert ranked[..i] == ranked;
    }
  }

  method MergeEvidence(h: Heuristics, results: seq<ProviderResult>, maxItems: Option<int>, maxChars: Option<int>)
    returns (out: seq<Evidence>)
    requires h.Valid()
    ensures IsMerged(h, results, maxItems, maxChars, out)
  {
    var itemLimit := Max(1, maxItems.GetOr(50));
    var charLimit := Max(1_000, maxChars.GetOr(100_000));
    var hints := GraphHints(h, results);
    var best := DeduplicateResults(h, results, hints);
    RankingIsStrictWeakOrder(h);
    BestPerKey.KeepAllKeepsBest(EvidenceKey, Ranking(h), RescoreAll(h, hints, Flatten(results)));
    var ranked := Sort(Ranking(h), BestPerKey.Values(best));
    var guaranteed, counts := ReserveOnePerProvider(ranked);
    var limit := Max(1, Max(itemLimit, |guaranteed|));
    var filled := FillUnderCaps(h, limit, guaranteed, counts, ranked);
    var selected := RefillToLimit(h, limit, filled, ranked);
    out := EnforceCharBudget(Sort(Ranking(h), selected), charLimit);
  }

  // ---------------------------------------------------------------- arrival order

  ghost predicate UniqueIds(xs: seq<Evidence>) {
    forall i, j | 0 <= i < j < |xs| :: (xs[i].provider, xs[i].id) != (xs[j].provider, xs[j].id)
  }

  ghost predicate LabelledOnce(results: seq<ProviderResult>) {
    forall i, j | 0 <= i < j < |results| :: results[i].provider != results[j].provider
  }

  /** The same evidence under the same labels, in any order of results and of items within one. */
  ghost predicate SameArrivals(a: seq<ProviderResult>, b: seq<ProviderResult>) {
    && LabelledOnce(a) && LabelledOnce(b)
    && forall p :: multiset(EvidenceOf(a, p)) == multiset(EvidenceOf(b, p))
  }

  /** The merged context is the same list whatever order the providers and their items arrive in. */
  lemma MergeIgnoresArrivalOrder(h: Heuristics, a: seq<ProviderResult>, b: seq<ProviderResult>, maxItems: Option<int>,
                                 maxChars: Option<int>, outA: seq<Evidence>, outB: seq<Evidence>)
    requires h.Valid() && SameArrivals(a, b) && UniqueIds(Flatten(a))
    requires IsMerged(h, a, maxItems, maxChars, outA) && IsMerged(h, b, maxItems, maxChars, outB)
    ensures outA == outB
  {
    FlattenByProvider(a);
    FlattenByProvider(b);
    SameMultisetSameMembers(EvidenceOf(a, Codegraph), EvidenceOf(b, Codegraph));
    assert GraphHints(h, a) == GraphHints(h, b);
    var hints := GraphHints(h, a);
    RescoringKeepsPermutation(h, hints, Flatten(a), Flatten(b));
    RankedIgnoresOrder(h, RescoreAll(h, hints, Flatten(a)), RescoreAll(h, hints, Flatten(b)));
    BudgetedIsUnique(Chosen(h, a, maxItems), Max(1_000, maxChars.GetOr(100_000)), outA, outB);
  }

  lemma {:induction false} EvidenceOfAppend(results: seq<ProviderResult>, last: ProviderResult, p: Provider)
    requires LabelledOnce(results + [last])
    ensures EvidenceOf(results + [last], p) == if last.provider == p then last.evidence else EvidenceOf(results, p)
    ensures last.provider == p ==> EvidenceOf(results, p) == []
  {
    if results != [] {
      assert (results + [last])[0] == results[0] && (results + [last])[1..] == results[1..] + [last];
      assert results[0].provider != last.provider by {
        assert (results + [last])[|results|] == last;
      }
      assert LabelledOnce(results[1..] + [last]) by {
        assert results[1..] + [last] == (results + [last])[1..];
      }
      EvidenceOfAppend(results[1..], last, p);
    }
  }

  lemma {:induction false} FlattenByProvider(results: seq<ProviderResult>)
    requires LabelledOnce(results)
    ensures multiset(Flatten(results)) ==
            multiset(EvidenceOf(results, Filesystem)) + multiset(EvidenceOf(results, Semantic)) +
            multiset(EvidenceOf(results, Codegraph)) + multiset(EvidenceOf(results, Agentmemory))
  {
    if results != [] {
      var prefix, last := results[..|results| - 1], results[|results| - 1];
      assert results == prefix + [last];
      FlattenByProvider(prefix);
      EvidenceOfAppend(prefix, last, Filesystem);
      EvidenceOfAppend(prefix, last, Semantic);
      EvidenceOfAppend(prefix, last, Codegraph);
      EvidenceOfAppend(prefix, last, Agentmemory);
    }
  }

  lemma RescoringKeepsPermutation(h: Heuristics, hints: set<string>, xs: seq<Evidence>, ys: seq<Evidence>)
    requires UniqueIds(xs) && multiset(xs) == multiset(ys)
    ensures UniqueIds(RescoreAll(h, hints, xs))
    ensures forall e :: e in RescoreAll(h, hints, xs) <==> e in RescoreAll(h, hints, ys)
  {
    SameMultisetSameMembers(xs, ys);
    var rx, ry := RescoreAll(h, hints, xs), RescoreAll(h, hints, ys);
    forall e | e in rx ensures e in ry {
      var i :| 0 <= i < |rx| && rx[i] == e;
      assert xs[i] in ys;
      var j :| 0 <= j < |ys| && ys[j] == xs[i];
      assert ry[j] == e;
    }
    forall e | e in ry ensures e in rx {
      var i :| 0 <= i < |ry| && ry[i] == e;
      assert ys[i] in xs;
      var j :| 0 <= j < |xs| && xs[j] == ys[i];
      assert rx[j] == e;
    }
  }

  lemma UniqueIdsAreSeparated(h: Heuristics, xs: seq<Evidence>)
    requires h.Valid() && UniqueIds(xs)
    ensures Separates(Ranking(h), xs)
  {
    forall x, y | x in xs && y in xs && x != y ensures Ranking(h)(x, y) || Ranking(h)(y, x) {
      var i :| 0 <= i < |xs| && xs[i] == x;
      var j :| 0 <= j < |xs| && xs[j] == y;
      assert (x.provider, x.id) != (y.provider, y.id);
    }
  }

  lemma RankedIgnoresOrder(h: Heuristics, xs: seq<Evidence>, ys: seq<Evidence>)
    requires h.Valid() && UniqueIds(xs)
    requires forall e :: e in xs <==> e in ys
    ensures Ranked(h, xs) == Ranked(h, ys)
  {
    RankingIsStrictWeakOrder(h);
    UniqueIdsAreSeparated(h, xs);
    BestPerKey.RankedIgnoresOrder(EvidenceKey, Ranking(h), xs, ys);
  }

  /** The budget leaves no freedom: it is a function of the items and the limit. */
  lemma BudgetedIsUnique(items: seq<Evidence>, maxChars: int, a: seq<Evidence>, b: seq<Evidence>)
    requires IsBudgeted(items, maxChars, a) && IsBudgeted(items, maxChars, b)
    ensures a == b
  {
    assert |a| == |b|;
    assert forall i | 0 <= i < |a| :: a[i] == b[i];
  }
}
