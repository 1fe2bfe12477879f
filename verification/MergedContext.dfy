/** The merged context as a caller sees it: where its items come from, in which order they stand, and what is left out,
    in terms of the fields of the evidence alone. */
module MergedContext {
  import opened Sorting
  import opened Wrappers
  import opened TaskContext
  import opened EvidenceSelection
  import opened EvidenceFairness

  // ---------------------------------------------------------------- order

  /** Of two items with equal scores, that of the provider named first here comes first. */
  predicate EarlierProvider(p: Provider, q: Provider) {
    || (p.Filesystem? && (q.Semantic? || q.Codegraph? || q.Agentmemory?))
    || (p.Semantic? && (q.Codegraph? || q.Agentmemory?))
    || (p.Codegraph? && q.Agentmemory?)
  }

  /** `a` is at least as good as `b`: a higher score, else an earlier provider, else an id that does not come later. */
  predicate AtLeastAsGood(h: Heuristics, a: Evidence, b: Evidence) {
    && a.score.GetOr(0.0) >= b.score.GetOr(0.0)
    && (a.score.GetOr(0.0) == b.score.GetOr(0.0) ==>
          EarlierProvider(a.provider, b.provider) || (a.provider == b.provider && !h.idBefore(b.id, a.id)))
  }

  lemma BeforeIsSpelledOut(h: Heuristics, a: Evidence, b: Evidence)
    ensures AtLeastAsGood(h, a, b) <==> !Before(h, b, a)
  {
  }

  lemma RankedItemsAreInOrder(h: Heuristics, items: seq<Evidence>, i: nat, j: nat)
    requires Sorted(Ranking(h), items) && i < j < |items|
    ensures AtLeastAsGood(h, items[i], items[j])
  {
    hide Before;
    assert !Ranking(h)(items[j], items[i]);
    BeforeIsSpelledOut(h, items[i], items[j]);
  }

  /** Scores fall from item to item, and ties are broken by provider and id. */
  lemma MergedIsInOrder(h: Heuristics, results: seq<ProviderResult>, maxItems: Option<int>, maxChars: Option<int>,
                        out: seq<Evidence>, i: nat, j: nat)
    requires h.Valid() && IsMerged(h, results, maxItems, maxChars, out) && i < j < |out|
    ensures AtLeastAsGood(h, out[i], out[j])
  {
    hide Chosen;
    var items := Chosen(h, results, maxItems);
    ChosenIsTheSelectionInRankOrder(h, results, maxItems);
    RankedItemsAreInOrder(h, items, i, j);
    BudgetKeepsRank(items, Max(1_000, maxChars.GetOr(100_000)), out, i);
    BudgetKeepsRank(items, Max(1_000, maxChars.GetOr(100_000)), out, j);
  }

  /** The budget shortens contents only. */
  lemma BudgetKeepsRank(items: seq<Evidence>, maxChars: int, out: seq<Evidence>, i: nat)
    requires IsBudgeted(items, maxChars, out) && i < |out|
    ensures i < |items| && IsCutFrom(items[i], out[i]) && (i < |out| - 1 ==> out[i] == items[i])
  {
    hide Room;
  }

  predicate IsCutFrom(e: Evidence, kept: Evidence) {
    && kept.content <= e.content
    && kept == e.(content := kept.content, metadata := e.metadata.(truncated := kept.metadata.truncated))
    && kept.metadata.truncated == (e.metadata.truncated || |kept.content| < |e.content|)
  }

  // ---------------------------------------------------------------- origin

  /** The hints are those in the evidence of the first code-graph result. */
  ghost predicate IsHint(h: Heuristics, results: seq<ProviderResult>, hint: string) {
    exists k | 0 <= k < |results| :: IsHintOf(h, results, k, hint)
  }

  ghost predicate IsHintOf(h: Heuristics, results: seq<ProviderResult>, k: nat, hint: string)
    requires k < |results|
  {
    && results[k].provider == Codegraph && (forall j | 0 <= j < k :: results[j].provider != Codegraph)
    && exists e | e in results[k].evidence :: hint in h.pathHints(e)
  }

  lemma {:induction false} FirstResultOf(results: seq<ProviderResult>, p: Provider) returns (k: nat)
    ensures if k < |results| then results[k].provider == p && EvidenceOf(results, p) == results[k].evidence
            else k == |results| && EvidenceOf(results, p) == []
    ensures forall j | 0 <= j < k :: results[j].provider != p
  {
    if results == [] || results[0].provider == p {
      k := 0;
    } else {
      k := FirstResultOf(results[1..], p);
      k := k + 1;
      assert forall j | 0 < j < k :: results[j] == results[1..][j - 1];
    }
  }

  lemma HintsAreOfTheFirstGraph(h: Heuristics, results: seq<ProviderResult>, hint: string)
    ensures hint in GraphHints(h, results) <==> IsHint(h, results, hint)
  {
    var k := FirstResultOf(results, Codegraph);
    if hint in GraphHints(h, results) {
      assert IsHintOf(h, results, k, hint);
    }
    if IsHint(h, results, hint) {
      var j :| 0 <= j < |results| && IsHintOf(h, results, j, hint);
      assert j == k;
    }
  }

  /** `r` is `e` with its score for this task. */
  predicate IsScored(h: Heuristics, hints: set<string>, e: Evidence, r: Evidence) {
    r == e.(score := Some(h.rescore(e, hints)), metadata := e.metadata.(rerankedScore := Some(h.rescore(e, hints))))
  }

  lemma {:induction false} FlattenIndex(results: seq<ProviderResult>, x: Evidence) returns (k: nat, n: nat)
    requires x in Flatten(results)
    ensures k < |results| && n < |results[k].evidence| && results[k].evidence[n] == x
  {
    var m := |results| - 1;
    if x in Flatten(results[..m]) {
      k, n := FlattenIndex(results[..m], x);
    } else {
      k := m;
      n :| 0 <= n < |results[m].evidence| && results[m].evidence[n] == x;
    }
  }

  lemma {:induction false} FlattenHolds(results: seq<ProviderResult>, k: nat, n: nat)
    requires k < |results| && n < |results[k].evidence|
    ensures results[k].evidence[n] in Flatten(results)
  {
    if k < |results| - 1 {
      FlattenHolds(results[..|results| - 1], k, n);
    }
  }

  /** Every item is some provider's, with the score for this task and the hints of the code graph, and only the last may
      be shortened. */
  lemma MergedComesFromTheResults(h: Heuristics, results: seq<ProviderResult>, maxItems: Option<int>, maxChars: Option<int>,
                                  out: seq<Evidence>, i: nat) returns (k: nat, n: nat, hints: set<string>, scored: Evidence)
    requires h.Valid() && IsMerged(h, results, maxItems, maxChars, out) && i < |out|
    ensures k < |results| && n < |results[k].evidence|
    ensures forall hint :: hint in hints <==> IsHint(h, results, hint)
    ensures IsScored(h, hints, results[k].evidence[n], scored)
    ensures IsCutFrom(scored, out[i]) && (i < |out| - 1 ==> out[i] == scored)
  {
    hints := GraphHints(h, results);
    forall hint ensures hint in hints <==> IsHint(h, results, hint) {
      HintsAreOfTheFirstGraph(h, results, hint);
    }
    var items := Chosen(h, results, maxItems);
    BudgetKeepsRank(items, Max(1_000, maxChars.GetOr(100_000)), out, i);
    scored := items[i];
    var x := ChosenIsScored(h, results, maxItems, scored);
    hide *;
    k, n := FlattenIndex(results, x);
  }

  lemma ChosenIsScored(h: Heuristics, results: seq<ProviderResult>, maxItems: Option<int>, r: Evidence) returns (x: Evidence)
    requires h.Valid() && r in Chosen(h, results, maxItems)
    ensures x in Flatten(results) && IsScored(h, GraphHints(h, results), x, r)
  {
    hide Selected, Chosen, GraphHints;
    var hints := GraphHints(h, results);
    var xs := RescoreAll(h, hints, Flatten(results));
    ChosenIsTheSelectionInRankOrder(h, results, maxItems);
    SameMultisetSameMembers(Chosen(h, results, maxItems), Selected(h, Max(1, maxItems.GetOr(50)), RankedResults(h, results)));
    SelectedAreRanked(h, Max(1, maxItems.GetOr(50)), RankedResults(h, results));
    RankedIsSorted(h, xs);
    assert r in xs;
    var i :| 0 <= i < |xs| && xs[i] == r;
    x := Flatten(results)[i];
  }

  // ---------------------------------------------------------------- copies

  /** Copies agree in provider, and in path, symbol and content as they read joined by NUL. */
  predicate IsCopy(a: Evidence, b: Evidence) {
    && a.provider == b.provider
    && a.path.GetOr("") + ([NUL] + (a.symbol.GetOr("") + ([NUL] + a.content)))
       == b.path.GetOr("") + ([NUL] + (b.symbol.GetOr("") + ([NUL] + b.content)))
  }

  predicate NulFree(e: Evidence) {
    NUL !in e.path.GetOr("") && NUL !in e.symbol.GetOr("")
  }

  lemma EvidenceKeyIsExact(a: Evidence, b: Evidence)
    ensures EvidenceKey(a) == EvidenceKey(b) <==> IsCopy(a, b)
  {
    KeySplits(a);
    KeySplits(b);
    if EvidenceKey(a) == EvidenceKey(b) {
      SameKeySameProvider(a, b);
    }
  }

  lemma KeySplits(e: Evidence)
    ensures var n := |ProviderName(e.provider)| + 1;
            && |EvidenceKey(e)| >= n && EvidenceKey(e)[..n] == ProviderName(e.provider) + [NUL]
            && EvidenceKey(e)[n..] == e.path.GetOr("") + ([NUL] + (e.symbol.GetOr("") + ([NUL] + e.content)))
  {
    var front := ProviderName(e.provider) + [NUL];
    var path, symbol := e.path.GetOr(""), e.symbol.GetOr("");
    Regrouped(front, path, symbol, e.content);
    Dropped(front, path + ([NUL] + (symbol + ([NUL] + e.content))));
  }

  lemma Dropped(front: string, rest: string)
    ensures (front + rest)[..|front|] == front && (front + rest)[|front|..] == rest
  {
  }

  lemma Regrouped(front: string, path: string, symbol: string, content: string)
    ensures front + path + [NUL] + symbol + [NUL] + content == front + (path + ([NUL] + (symbol + ([NUL] + content))))
  {
  }

  lemma FirstNul(a: string, x: string, b: string, y: string)
    requires NUL !in a && NUL !in b && a + ([NUL] + x) == b + ([NUL] + y)
    ensures a == b && x == y
  {
    var l, r := a + ([NUL] + x), b + ([NUL] + y);
    assert l[|a|] == NUL && r[|b|] == NUL;
    assert forall k | 0 <= k < |a| :: l[k] == a[k] && a[k] in a;
    assert forall k | 0 <= k < |b| :: r[k] == b[k] && b[k] in b;
    assert |a| == |b|;
    assert l[..|a|] == a && r[..|b|] == b;
    assert l[|a| + 1..] == x && r[|b| + 1..] == y;
  }

  lemma CopiesAgree(a: Evidence, b: Evidence)
    requires NulFree(a) && NulFree(b)
    ensures IsCopy(a, b) <==>
            a.provider == b.provider && a.path.GetOr("") == b.path.GetOr("") && a.symbol.GetOr("") == b.symbol.GetOr("")
            && a.content == b.content
  {
    if IsCopy(a, b) {
      FirstNul(a.path.GetOr(""), a.symbol.GetOr("") + ([NUL] + a.content),
               b.path.GetOr(""), b.symbol.GetOr("") + ([NUL] + b.content));
      FirstNul(a.symbol.GetOr(""), a.content, b.symbol.GetOr(""), b.content);
    }
  }

  /** Of the copies of one item exactly one is ranked, and none is better. */
  lemma OneOfEachCopyIsRanked(h: Heuristics, xs: seq<Evidence>, x: Evidence) returns (kept: Evidence)
    requires h.Valid() && x in xs
    ensures kept in Ranked(h, xs) && kept in xs && IsCopy(kept, x)
    ensures forall y | y in xs && IsCopy(y, x) :: AtLeastAsGood(h, kept, y)
    ensures forall y | y in Ranked(h, xs) && IsCopy(y, x) :: y == kept
  {
    hide Ranked;
    var i := RankedPositionFor(h, xs, x);
    kept := Ranked(h, xs)[i];
    RankedIsSorted(h, xs);
    EvidenceKeyIsExact(kept, x);
    forall y | y in Ranked(h, xs) && IsCopy(y, x) ensures y == kept {
      EvidenceKeyIsExact(y, kept);
      RankedIsOnePerKey(h, xs, y, kept);
    }
    forall y | y in xs && IsCopy(y, x) ensures AtLeastAsGood(h, kept, y) {
      var j := RankedPositionFor(h, xs, y);
      EvidenceKeyIsExact(y, x);
      RankedIsOnePerKey(h, xs, Ranked(h, xs)[j], kept);
      BeforeIsSpelledOut(h, kept, y);
    }
  }

  lemma RankedIsOnePerKey(h: Heuristics, xs: seq<Evidence>, a: Evidence, b: Evidence)
    requires h.Valid() && a in Ranked(h, xs) && b in Ranked(h, xs) && EvidenceKey(a) == EvidenceKey(b)
    ensures a == b
  {
    hide EvidenceKey;
    RankingIsStrictWeakOrder(h);
    BestPerKey.MemberOfRanked(EvidenceKey, Ranking(h), xs, a);
    BestPerKey.MemberOfRanked(EvidenceKey, Ranking(h), xs, b);
  }

  // ---------------------------------------------------------------- what every provider shows

  /** Before the budget, each provider with evidence shows one item at least as good as all it sent. */
  lemma EachProviderShowsItsBest(h: Heuristics, results: seq<ProviderResult>, maxItems: Option<int>, k: nat, n: nat)
    returns (hints: set<string>, best: Evidence)
    requires h.Valid() && k < |results| && n < |results[k].evidence|
    ensures forall hint :: hint in hints <==> IsHint(h, results, hint)
    ensures best in Chosen(h, results, maxItems) && best.provider == results[k].evidence[n].provider
    ensures forall j, m, y | 0 <= j < |results| && 0 <= m < |results[j].evidence| && IsScored(h, hints, results[j].evidence[m], y)
              && y.provider == best.provider :: AtLeastAsGood(h, best, y)
  {
    hints := GraphHints(h, results);
    forall hint ensures hint in hints <==> IsHint(h, results, hint) {
      HintsAreOfTheFirstGraph(h, results, hint);
    }
    var xs := RescoreAll(h, hints, Flatten(results));
    var x := ScoredIsRescored(h, results, k, n);
    best := EveryProviderKeepsItsBest(h, results, maxItems, x);
    hide Chosen, RescoreAll, GraphHints, Before;
    forall j, m, y | 0 <= j < |results| && 0 <= m < |results[j].evidence| && IsScored(h, hints, results[j].evidence[m], y)
        && y.provider == best.provider ensures AtLeastAsGood(h, best, y) {
      var z := ScoredIsRescored(h, results, j, m);
      assert z == y;
      BeforeIsSpelledOut(h, best, y);
    }
  }

  lemma ScoredIsRescored(h: Heuristics, results: seq<ProviderResult>, k: nat, n: nat) returns (x: Evidence)
    requires k < |results| && n < |results[k].evidence|
    ensures x in RescoreAll(h, GraphHints(h, results), Flatten(results))
    ensures IsScored(h, GraphHints(h, results), results[k].evidence[n], x)
  {
    hide GraphHints;
    FlattenHolds(results, k, n);
    var all := Flatten(results);
    var i :| 0 <= i < |all| && all[i] == results[k].evidence[n];
    x := RescoreAll(h, GraphHints(h, results), all)[i];
  }

  // ---------------------------------------------------------------- the budget

  /** What an item costs: its texts and 40 characters. */
  lemma CostOfOne(e: Evidence)
    ensures Cost([e]) == |e.title| + |e.path.GetOr("")| + |e.content| + 40
  {
    assert [e][..0] == [];
  }

  lemma {:induction false} CostAddsUp(a: seq<Evidence>, b: seq<Evidence>)
    ensures Cost(a + b) == Cost(a) + Cost(b)
  {
    if b == [] {
      assert a + b == a;
    } else {
      assert (a + b)[..|a + b| - 1] == a + b[..|b| - 1];
      CostAddsUp(a, b[..|b| - 1]);
    }
  }

  /** Everything chosen is returned as it is when it costs less than the budget; when it costs exactly the budget, an
      item without content at the end of several is dropped. */
  lemma NothingIsCutWithinBudget(h: Heuristics, results: seq<ProviderResult>, maxItems: Option<int>, maxChars: Option<int>,
                                 out: seq<Evidence>)
    requires h.Valid() && IsMerged(h, results, maxItems, maxChars, out)
    requires Cost(Chosen(h, results, maxItems)) <= Max(1_000, maxChars.GetOr(100_000))
    ensures var items := Chosen(h, results, maxItems);
            out == items <==>
            Cost(items) < Max(1_000, maxChars.GetOr(100_000)) || |items| <= 1 || items[|items| - 1].content != ""
  {
    hide Chosen;
    AllFits(Chosen(h, results, maxItems), Max(1_000, maxChars.GetOr(100_000)), out);
  }

  lemma RoomForTheRest(items: seq<Evidence>, maxChars: int, k: nat)
    requires k < |items| && Cost(items) <= maxChars
    ensures Room(items, maxChars, k) == maxChars - Cost(items) + |items[k].content| + Cost(items[k + 1..])
    ensures k + 1 < |items| ==> Cost(items[k + 1..]) > 0
    ensures k + 1 == |items| ==> Cost(items[k + 1..]) == 0
  {
    CostAppend(items, k);
    CostAddsUp(items[..k + 1], items[k + 1..]);
    assert items == items[..k + 1] + items[k + 1..];
    if k + 1 == |items| {
      assert items[k + 1..] == [];
    }
  }

  lemma AllFits(items: seq<Evidence>, maxChars: int, out: seq<Evidence>)
    requires IsBudgeted(items, maxChars, out) && Cost(items) <= maxChars && maxChars > 0
    ensures out == items <==> Cost(items) < maxChars || |items| <= 1 || items[|items| - 1].content != ""
  {
    hide Room, Cost;
    forall k | 0 <= k < |items| ensures Room(items, maxChars, k) >= |items[k].content| {
      RoomForTheRest(items, maxChars, k);
    }
    assert out == items[..|out|];
    if 0 < |out| < |items| {
      RoomForTheRest(items, maxChars, |out|);
    } else if |items| > 1 {
      RoomForTheRest(items, maxChars, |items| - 1);
    }
  }
}
