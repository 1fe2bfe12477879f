/** Evidence selection for a task context: rerank, deduplicate, reserve one item per provider, fill
    under per-provider caps, refill, sort and cut to a character budget. */
module TaskContext {
  import opened Sorting
  import opened Wrappers
  import BestPerKey

  datatype Provider = Filesystem | Semantic | Codegraph | Agentmemory

  datatype JevDecision = JevDecision(score: real, confidence: real)

  datatype Metadata = Metadata(rerankedScore: Option<real>, truncated: bool, jevRerank: Option<JevDecision>)

  datatype Evidence = Evidence(
    id: string, provider: Provider, title: string, content: string,
    path: Option<string>, symbol: Option<string>, score: Option<real>, metadata: Metadata)

  datatype ProviderResult = ProviderResult(provider: Provider, evidence: seq<Evidence>)

  /** The parts of the merge that are text heuristics: scoring a candidate against the task and the
      graph hints, the path hints in one code-graph item, the normalised text two duplicates share,
      and the locale order of ids. */
  datatype Heuristics = Heuristics(
    rescore: (Evidence, set<string>) -> real,
    pathHints: Evidence -> set<string>,
    normalizeContent: string -> string,
    idBefore: (string, string) -> bool)
  {
    ghost predicate Valid() {
      && StrictWeakOrder(idBefore)
      && forall a, b :: a != b ==> idBefore(a, b) || idBefore(b, a)
    }
  }

  const NUL: char := 0 as char

  function ProviderName(p: Provider): string {
    match p
    case Filesystem => "filesystem"
    case Semantic => "semantic"
    case Codegraph => "codegraph"
    case Agentmemory => "agentmemory"
  }

  function Priority(p: Provider): nat {
    match p
    case Filesystem => 4
    case Semantic => 3
    case Codegraph => 2
    case Agentmemory => 1
  }

  function SelectionKey(e: Evidence): string {
    ProviderName(e.provider) + [NUL] + e.id
  }

  function EvidenceKey(e: Evidence): string {
    ProviderName(e.provider) + [NUL] + e.path.GetOr("") + [NUL] + e.symbol.GetOr("") + [NUL] + e.content
  }

  function SemanticKey(h: Heuristics, e: Evidence): string {
    h.normalizeContent(e.content)
  }

  /** `compareEvidence(l, r) < 0`: higher score first, then provider priority, then id. */
  predicate Before(h: Heuristics, l: Evidence, r: Evidence) {
    var ls, rs := l.score.GetOr(0.0), r.score.GetOr(0.0);
    if ls != rs then ls > rs
    else if Priority(l.provider) != Priority(r.provider) then Priority(l.provider) > Priority(r.provider)
    else h.idBefore(l.id, r.id)
  }

  function Ranking(h: Heuristics): (Evidence, Evidence) -> bool {
    (l: Evidence, r: Evidence) => Before(h, l, r)
  }

  lemma RankingIsStrictWeakOrder(h: Heuristics)
    requires h.Valid()
    ensures StrictWeakOrder(Ranking(h))
  {
    var less := Ranking(h);
    forall x: Evidence, y: Evidence, z: Evidence | !less(x, y) && !less(y, z) ensures !less(x, z) {
      assert !h.idBefore(x.id, y.id) && !h.idBefore(y.id, z.id) ==> !h.idBefore(x.id, z.id);
    }
  }

  function Rescore(h: Heuristics, hints: set<string>, e: Evidence): Evidence {
    var score := h.rescore(e, hints);
    e.(score := Some(score), metadata := e.metadata.(rerankedScore := Some(score)))
  }

  function RescoreAll(h: Heuristics, hints: set<string>, xs: seq<Evidence>): seq<Evidence> {
    seq(|xs|, i requires 0 <= i < |xs| => Rescore(h, hints, xs[i]))
  }

  function Flatten(results: seq<ProviderResult>): seq<Evidence> {
    if results == [] then [] else Flatten(results[..|results| - 1]) + results[|results| - 1].evidence
  }

  /** The evidence of the first result labelled `p`. */
  function EvidenceOf(results: seq<ProviderResult>, p: Provider): seq<Evidence> {
    if results == [] then []
    else if results[0].provider == p then results[0].evidence
    else EvidenceOf(results[1..], p)
  }

  function GraphHints(h: Heuristics, results: seq<ProviderResult>): set<string> {
    set e, hint | e in EvidenceOf(results, Codegraph) && hint in h.pathHints(e) :: hint
  }

  // ---------------------------------------------------------------- deduplication and ranking

  /** The best item of every evidence key, best first. */
  function Ranked(h: Heuristics, xs: seq<Evidence>): seq<Evidence>
    requires h.Valid()
  {
    RankingIsStrictWeakOrder(h);
    BestPerKey.Ranked(EvidenceKey, Ranking(h), xs)
  }

  lemma RankedIsSorted(h: Heuristics, xs: seq<Evidence>)
    requires h.Valid()
    ensures Sorted(Ranking(h), Ranked(h, xs)) && NoDuplicates(Ranked(h, xs))
    ensures forall e | e in Ranked(h, xs) :: e in xs
  {
    RankingIsStrictWeakOrder(h);
    BestPerKey.RankedIsSorted(EvidenceKey, Ranking(h), xs);
  }

  lemma SameKeySameProvider(a: Evidence, b: Evidence)
    requires EvidenceKey(a) == EvidenceKey(b)
    ensures a.provider == b.provider
  {
    assert EvidenceKey(a)[0] == ProviderName(a.provider)[0];
    assert EvidenceKey(b)[0] == ProviderName(b.provider)[0];
  }

  /** Every input item is represented in the ranking by one of its own key and provider, no worse. */
  lemma RankedPositionFor(h: Heuristics, xs: seq<Evidence>, x: Evidence) returns (i: nat)
    requires h.Valid() && x in xs
    ensures i < |Ranked(h, xs)| && EvidenceKey(Ranked(h, xs)[i]) == EvidenceKey(x)
    ensures Ranked(h, xs)[i].provider == x.provider && !Before(h, x, Ranked(h, xs)[i])
  {
    RankingIsStrictWeakOrder(h);
    i := BestPerKey.RankedPositionFor(EvidenceKey, Ranking(h), xs, x);
    SameKeySameProvider(x, Ranked(h, xs)[i]);
    assert !Ranking(h)(x, Ranked(h, xs)[i]);
  }

  // ---------------------------------------------------------------- selection

  /** `Math.ceil(limit * percent / 100)`, at least one. */
  function Cap(limit: nat, p: Provider): nat {
    var percent := match p case Filesystem => 50 case Semantic => 35 case Codegraph => 35 case Agentmemory => 20;
    var share := (limit * percent + 99) / 100;
    if share < 1 then 1 else share
  }

  predicate Has(chosen: seq<Evidence>, e: Evidence) {
    exists x | x in chosen :: SelectionKey(x) == SelectionKey(e)
  }

  predicate Covers(h: Heuristics, chosen: seq<Evidence>, e: Evidence) {
    exists x | x in chosen :: SemanticKey(h, x) == SemanticKey(h, e)
  }

  predicate Represents(chosen: seq<Evidence>, p: Provider) {
    exists x | x in chosen :: x.provider == p
  }

  function Count(chosen: seq<Evidence>, p: Provider): nat {
    if chosen == [] then 0
    else Count(chosen[..|chosen| - 1], p) + if chosen[|chosen| - 1].provider == p then 1 else 0
  }

  /** The first ranked item of every provider. */
  function Reserved(ranked: seq<Evidence>): seq<Evidence> {
    if ranked == [] then []
    else
      var before, e := Reserved(ranked[..|ranked| - 1]), ranked[|ranked| - 1];
      if Represents(before, e.provider) then before else before + [e]
  }

  function CappedFill(h: Heuristics, limit: nat, start: seq<Evidence>, ranked: seq<Evidence>): seq<Evidence> {
    if ranked == [] then start
    else
      var chosen, e := CappedFill(h, limit, start, ranked[..|ranked| - 1]), ranked[|ranked| - 1];
      if |chosen| >= limit || Has(chosen, e) || Covers(h, chosen, e) || Count(chosen, e.provider) >= Cap(limit, e.provider)
      then chosen
      else chosen + [e]
  }

  function Refill(h: Heuristics, limit: nat, start: seq<Evidence>, ranked: seq<Evidence>): seq<Evidence> {
    if ranked == [] then start
    else
      var chosen, e := Refill(h, limit, start, ranked[..|ranked| - 1]), ranked[|ranked| - 1];
      if |chosen| >= limit || Has(chosen, e) || Covers(h, chosen, e) then chosen else chosen + [e]
  }

  function Max(a: int, b: int): int {
    if a < b then b else a
  }

  function EffectiveLimit(maxItems: int, ranked: seq<Evidence>): nat {
    Max(1, Max(maxItems, |Reserved(ranked)|))
  }

  function Selected(h: Heuristics, maxItems: int, ranked: seq<Evidence>): seq<Evidence> {
    var limit := EffectiveLimit(maxItems, ranked);
    Refill(h, limit, CappedFill(h, limit, Reserved(ranked), ranked), ranked)
  }

  // ---------------------------------------------------------------- character budget

  function FixedCost(e: Evidence): nat {
    |e.title| + |e.path.GetOr("")| + 40
  }

  function Cost(items: seq<Evidence>): nat {
    if items == [] then 0
    else Cost(items[..|items| - 1]) + FixedCost(items[|items| - 1]) + |items[|items| - 1].content|
  }

  function Cut(e: Evidence, available: nat): Evidence {
    if |e.content| <= available then e
    else e.(content := e.content[..available], metadata := e.metadata.(truncated := true))
  }

  /** Room left for the content of the item at `k` once everything before it is kept whole. */
  function Room(items: seq<Evidence>, maxChars: int, k: nat): nat
    requires k < |items|
  {
    Max(0, maxChars - Cost(items[..k]) - FixedCost(items[k]))
  }

  /** `out` is a prefix of `items` in which only the last item may be cut, and it stops only where
      the budget is spent. */
  ghost predicate IsBudgeted(items: seq<Evidence>, maxChars: int, out: seq<Evidence>) {
    && |out| <= |items|
    && (forall i | 0 <= i < |out| - 1 :: out[i] == items[i])
    && (out != [] ==> out[|out| - 1] == Cut(items[|out| - 1], Room(items, maxChars, |out| - 1)))
    && (forall i | 0 < i < |out| :: Room(items, maxChars, i) > 0)
    && (out == [] && items != [] ==> maxChars <= 0)
    && (0 < |out| < |items| ==> Room(items, maxChars, |out|) == 0)
    && (0 < |out| ==> maxChars > 0)
  }

  lemma CostAppend(items: seq<Evidence>, k: nat)
    requires k < |items|
    ensures Cost(items[..k + 1]) == Cost(items[..k]) + FixedCost(items[k]) + |items[k].content|
  {
    assert items[..k + 1][..k] == items[..k];
  }

  /** What holds while the first `|out|` items have been looked at and the budget was not spent before the last. */
  ghost predicate IsBudgetedSoFar(items: seq<Evidence>, maxChars: int, out: seq<Evidence>, remaining: int) {
    && |out| <= |items|
    && (forall i | 0 <= i < |out| - 1 :: out[i] == items[i])
    && (forall i | 0 < i < |out| :: Room(items, maxChars, i) > 0)
    && (out != [] ==> maxChars > 0 && out[|out| - 1] == Cut(items[|out| - 1], Room(items, maxChars, |out| - 1)))
    && (out != [] && remaining > 0 ==> out[|out| - 1] == items[|out| - 1])
    && (if remaining > 0 then remaining == maxChars - Cost(items[..|out|]) else maxChars <= Cost(items[..|out|]))
  }

  lemma NothingCosts(items: seq<Evidence>)
    ensures Cost(items[..0]) == 0
    ensures forall e: Evidence :: FixedCost(e) >= 0
  {
  }

  lemma NothingIsBudgeted(items: seq<Evidence>, maxChars: int)
    ensures IsBudgetedSoFar(items, maxChars, [], maxChars)
  {
    NothingCosts(items);
  }

  lemma RoomIsAvailable(items: seq<Evidence>, maxChars: int, out: seq<Evidence>, remaining: int)
    requires IsBudgetedSoFar(items, maxChars, out, remaining) && remaining > 0 && |out| < |items|
    ensures Room(items, maxChars, |out|) == Max(0, remaining - FixedCost(items[|out|]))
  {
    hide Cost, FixedCost;
  }

  lemma BudgetGoesOn(items: seq<Evidence>, maxChars: int, out: seq<Evidence>, remaining: int)
    requires IsBudgetedSoFar(items, maxChars, out, remaining) && remaining > 0 && |out| < |items|
    requires out == [] || Room(items, maxChars, |out|) > 0
    ensures var kept := Cut(items[|out|], Room(items, maxChars, |out|));
            IsBudgetedSoFar(items, maxChars, out + [kept], remaining - (FixedCost(items[|out|]) + |kept.content|))
  {
    hide Cost, FixedCost, Room;
    RoomIsAvailable(items, maxChars, out, remaining);
    CostAppend(items, |out|);
  }

  lemma BudgetEnds(items: seq<Evidence>, maxChars: int, out: seq<Evidence>, remaining: int)
    requires IsBudgetedSoFar(items, maxChars, out, remaining)
    requires |out| == |items| || remaining <= 0 || (out != [] && Room(items, maxChars, |out|) == 0)
    ensures IsBudgeted(items, maxChars, out)
  {
    hide FixedCost;
    NothingCosts(items);
  }

  method EnforceCharBudget(items: seq<Evidence>, maxChars: int) returns (out: seq<Evidence>)
    ensures IsBudgeted(items, maxChars, out)
  {
    hide IsBudgetedSoFar, IsBudgeted, Room;
    out := [];
    var remaining := maxChars;
    var k := 0;
    NothingIsBudgeted(items, maxChars);
    while k < |items|
      invariant 0 <= k == |out| <= |items|
      invariant IsBudgetedSoFar(items, maxChars, out, remaining)
    {
      if remaining <= 0 {
        break;
      }
      var item := items[k];
      var fixed := FixedCost(item);
      var available := Max(0, remaining - fixed);
      RoomIsAvailable(items, maxChars, out, remaining);
      if available <= 0 && |out| > 0 {
        break;
      }
      var content := item.content[..if available < |item.content| then available else |item.content|];
      var kept := if |content| == |item.content| then item
                  else item.(content := content, metadata := item.metadata.(truncated := true));
      assert kept == Cut(item, available);
      BudgetGoesOn(items, maxChars, out, remaining);
      out := out + [kept];
      remaining := remaining - (fixed + |content|);
      k := k + 1;
    }
    BudgetEnds(items, maxChars, out, remaining);
  }
}
