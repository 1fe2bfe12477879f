/** The remote reranker: which evidence it may change and how far, and what it does to the breaker. */
module JevReranker {
  import opened JevBreaker
  import opened JevPayload
  import opened Sequences
  import opened Sorting
  import opened TaskContext
  import opened Wrappers

  datatype Options = Options(maxCandidates: nat, maxStateChars: nat, scoreWeight: real, minConfidence: real,
                             breaker: JevBreaker.Settings) {
    /** The bounds the constructor enforces. */
    predicate Valid() {
      && 2 <= maxCandidates <= 64 && 2_000 <= maxStateChars <= 100_000
      && 0.0 <= scoreWeight <= 100.0 && 0.0 <= minConfidence <= 1.0
      && breaker.Valid()
    }
  }

  /** The options as they are given; what is absent or no finite number is `None`. */
  datatype Given = Given(maxCandidates: Option<real>, maxStateChars: Option<real>, scoreWeight: Option<real>,
                         minConfidence: Option<real>, circuitFailures: Option<real>, circuitOpenMs: Option<real>)

  /** The nearest whole number, half a number counting as the next, within the bounds. */
  function BoundedInteger(value: Option<real>, fallback: nat, min: nat, max: nat): (r: nat)
    requires min <= fallback <= max
    ensures min <= r <= max
    ensures value == None ==> r == fallback
    ensures value.Some? && min as real <= value.value <= max as real ==> r as real <= value.value + 0.5 < r as real + 1.0
    ensures value.Some? && value.value < min as real ==> r == min
    ensures value.Some? && value.value > max as real ==> r == max
  {
    if value == None then fallback
    else
      var rounded := (value.value + 0.5).Floor;
      if rounded < min then min else if rounded > max then max else rounded
  }

  function BoundedNumber(value: Option<real>, fallback: real, min: real, max: real): (r: real)
    requires min <= fallback <= max
    ensures min <= r <= max
    ensures value == None ==> r == fallback
    ensures value.Some? && min <= value.value <= max ==> r == value.value
    ensures value.Some? && !(min <= value.value <= max) ==> r == if value.value < min then min else max
  {
    if value == None then fallback else if value.value < min then min else if value.value > max then max else value.value
  }

  function OptionsOf(given: Given): (o: Options)
    ensures o.Valid()
    ensures given == Given(None, None, None, None, None, None) ==>
              o == Options(24, 24_000, 30.0, 0.35, JevBreaker.Settings(3, 30_000))
  {
    Options(BoundedInteger(given.maxCandidates, 24, 2, 64), BoundedInteger(given.maxStateChars, 24_000, 2_000, 100_000),
            BoundedNumber(given.scoreWeight, 30.0, 0.0, 100.0), BoundedNumber(given.minConfidence, 0.35, 0.0, 1.0),
            JevBreaker.Settings(BoundedInteger(given.circuitFailures, 3, 1, 20),
                                BoundedInteger(given.circuitOpenMs, 30_000, 1_000, 300_000)))
  }

  /** Numbers that are absent or not finite are `None`. */
  datatype Answer = Answer(score: Option<real>, confidence: Option<real>)

  /** What comes of sending the request; `Broken` is an exception before anything is sent. */
  datatype Response = Broken | NoAnswer | HttpError | MalformedJson | Answers(answers: map<string, Answer>)

  datatype Status = Skipped | CircuitOpen | Fallback | Reranked

  predicate IsMalformed(answers: map<string, Answer>, i: nat) {
    QuestionName(i) !in answers ||
    var a := answers[QuestionName(i)];
    !(a.score.Some? && a.confidence.Some? && 0.0 <= a.score.value <= 2.0 && 0.0 <= a.confidence.value <= 1.0)
  }

  predicate IsAccepted(options: Options, answers: map<string, Answer>, i: nat) {
    !IsMalformed(answers, i) && answers[QuestionName(i)].confidence.value >= options.minConfidence
  }

  function Boost(weight: real, score: real, confidence: real): real {
    score / 2.0 * confidence * weight
  }

  function Boosted(options: Options, e: Evidence, score: real, confidence: real): Evidence {
    e.(score := Some(e.score.GetOr(0.0) + Boost(options.scoreWeight, score, confidence)),
       metadata := e.metadata.(jevRerank := Some(JevDecision(score, confidence))))
  }

  function BoostedBy(options: Options, answers: map<string, Answer>, active: seq<Evidence>, i: nat): Evidence
    requires i < |active| && !IsMalformed(answers, i)
  {
    Boosted(options, active[i], answers[QuestionName(i)].score.value, answers[QuestionName(i)].confidence.value)
  }

  /** The replacements that the first `n` answers give, by selection key. */
  function Replacements(options: Options, answers: map<string, Answer>, active: seq<Evidence>, n: nat): map<string, Evidence>
    requires n <= |active|
  {
    if n == 0 then map[]
    else
      var before := Replacements(options, answers, active, n - 1);
      if IsAccepted(options, answers, n - 1)
      then before[SelectionKey(active[n - 1]) := BoostedBy(options, answers, active, n - 1)]
      else before
  }

  function Replaced(replacements: map<string, Evidence>, e: Evidence): Evidence {
    if SelectionKey(e) in replacements then replacements[SelectionKey(e)] else e
  }

  predicate ScoresHigher(l: Evidence, r: Evidence) {
    l.score.GetOr(0.0) > r.score.GetOr(0.0)
  }

  /** The candidates: what is not sensitive, best scores first, as many as allowed. */
  function Candidates(options: Options, sensitive: Evidence -> bool, evidence: seq<Evidence>): seq<Evidence> {
    var ranked := Sort(ScoresHigher, Filter(e => !sensitive(e), evidence));
    if |ranked| <= options.maxCandidates then ranked else ranked[..options.maxCandidates]
  }

  /** `active` are the candidates that fit the state text, and no more could be packed. */
  ghost predicate IsPacked(header: string, describe: Evidence -> string, candidates: seq<Evidence>, maxStateChars: nat,
                           active: seq<Evidence>)
  {
    active <= candidates && exists blocks ::
      && IsPacking(header, describe, candidates, maxStateChars, blocks) && |blocks| == |active|
      && (|active| < |candidates| ==> maxStateChars - |Joined(header, blocks)| < 162)
  }

  /** How a rerank ends that the breaker lets through. */
  ghost function OutcomeOf(options: Options, active: seq<Evidence>, response: Response): Outcome {
    if response.Broken? then Failed(false)
    else if |active| < 2 then OverBudget
    else if !response.Answers? then Failed(true)
    else if exists i: nat | i < |active| :: IsMalformed(response.answers, i) then Failed(true)
    else if !exists i: nat | i < |active| :: IsAccepted(options, response.answers, i) then Failed(true)
    else Applied
  }

  class JevContextReranker {
    const options: Options
    const sensitive: Evidence -> bool
    const describe: Evidence -> string
    var consecutiveFailures: nat
    var circuitOpenUntil: int

    ghost function State(): Breaker
      reads this
    {
      Breaker(consecutiveFailures, circuitOpenUntil)
    }

    constructor (given: Given, sensitive: Evidence -> bool, describe: Evidence -> string)
      ensures this.options == OptionsOf(given) && this.options.Valid()
      ensures this.sensitive == sensitive && this.describe == describe && State() == CLOSED
    {
      this.options, this.sensitive, this.describe := OptionsOf(given), sensitive, describe;
      consecutiveFailures, circuitOpenUntil := 0, 0;
    }

    /** One rerank from the clock reading `start` to the clock reading `end`. Anything but an applied answer leaves the
        evidence as it is; an applied one replaces items of the packed candidates by their boosted selves. */
    method Rerank(header: string, evidence: seq<Evidence>, start: int, end: int, response: Response)
      returns (result: seq<Evidence>, status: Status, outcome: Outcome, active: seq<Evidence>)
      requires options.Valid()
      modifies this
      ensures State() == After(old(State()), options.breaker, Call(start, end, outcome))
      ensures status.CircuitOpen? <==> !outcome.TooFew? && start < old(circuitOpenUntil)
      ensures status.Fallback? <==> FailsNow(old(State()), Call(start, end, outcome))
      ensures status.Reranked? <==> LetThrough(old(State()), Call(start, end, outcome)) && outcome.Applied?
      ensures outcome.TooFew? <==> |Candidates(options, sensitive, evidence)| < 2
      ensures LetThrough(old(State()), Call(start, end, outcome)) ==> outcome == OutcomeOf(options, active, response)
      ensures LetThrough(old(State()), Call(start, end, outcome)) && !response.Broken? ==>
                IsPacked(header, describe, Candidates(options, sensitive, evidence), options.maxStateChars, active)
      ensures active <= Candidates(options, sensitive, evidence)
      ensures !status.Reranked? ==> result == evidence
      ensures status.Reranked? ==>
                && response.Answers?
                && (forall i | 0 <= i < |active| :: !IsMalformed(response.answers, i))
                && (exists i | 0 <= i < |active| :: IsAccepted(options, response.answers, i))
                && |result| == |evidence|
                && forall i | 0 <= i < |evidence| ::
                     result[i] == Replaced(Replacements(options, response.answers, active, |active|), evidence[i])
    {
      var candidates := Candidates(options, sensitive, evidence);
      active := candidates[..0];
      if |candidates| < 2 {
        return evidence, Skipped, TooFew, active;
      }
      if start < circuitOpenUntil {
        return evidence, CircuitOpen, OverBudget, active;
      }
      if response.Broken? {
        RecordFailure(end);
        return evidence, Fallback, Failed(false), active;
      }
      hide IsPacking, Joined, IsMalformed, IsAccepted, Candidates;
      var _, _, selected, blocks := BuildPayload(header, describe, candidates, options.maxStateChars);
      active := selected;
      if |active| < 2 {
        return evidence, Skipped, OverBudget, active;
      }
      if !response.Answers? {
        RecordFailure(end);
        return evidence, Fallback, Failed(true), active;
      }
      var accepted, replacements, wellFormed := Judge(response.answers, active);
      if !wellFormed || accepted == 0 {
        RecordFailure(end);
        return evidence, Fallback, Failed(true), active;
      }
      consecutiveFailures, circuitOpenUntil := 0, 0;
      result := seq(|evidence|, i requires 0 <= i < |evidence| => Replaced(replacements, evidence[i]));
      return result, Reranked, Applied, active;
    }

    method RecordFailure(now: int)
      modifies this
      ensures consecutiveFailures == old(consecutiveFailures) + 1
      ensures circuitOpenUntil == if consecutiveFailures >= options.breaker.failureLimit then now + options.breaker.openMs
                                  else old(circuitOpenUntil)
    {
      consecutiveFailures := consecutiveFailures + 1;
      if consecutiveFailures >= options.breaker.failureLimit {
        circuitOpenUntil := now + options.breaker.openMs;
      }
    }

    /** Goes through the answers; the first malformed one ends it. */
    method Judge(answers: map<string, Answer>, active: seq<Evidence>)
      returns (accepted: nat, replacements: map<string, Evidence>, wellFormed: bool)
      ensures wellFormed <==> forall i | 0 <= i < |active| :: !IsMalformed(answers, i)
      ensures wellFormed ==> replacements == Replacements(options, answers, active, |active|)
      ensures wellFormed ==> (accepted > 0 <==> exists i | 0 <= i < |active| :: IsAccepted(options, answers, i))
    {
      accepted, replacements := 0, map[];
      for index := 0 to |active|
        invariant forall i | 0 <= i < index :: !IsMalformed(answers, i)
        invariant replacements == Replacements(options, answers, active, index)
        invariant accepted > 0 <==> exists i | 0 <= i < index :: IsAccepted(options, answers, i)
      {
        if IsMalformed(answers, index) {
          return accepted, replacements, false;
        }
        if answers[QuestionName(index)].confidence.value < options.minConfidence {
          continue;
        }
        replacements := replacements[SelectionKey(active[index]) := BoostedBy(options, answers, active, index)];
        accepted := accepted + 1;
      }
      return accepted, replacements, true;
    }
  }

  // ---------------------------------------------------------------- what an applied answer may change

  ghost predicate DistinctSelectionKeys(evidence: seq<Evidence>) {
    forall a, b | a in evidence && b in evidence && SelectionKey(a) == SelectionKey(b) :: a == b
  }

  lemma {:induction false} ReplacementsMeaning(options: Options, answers: map<string, Answer>, active: seq<Evidence>, n: nat)
    requires n <= |active|
    ensures forall key | key in Replacements(options, answers, active, n) ::
              exists i | 0 <= i < n :: IsReplacement(options, answers, active, i, key, Replacements(options, answers, active, n)[key])
    ensures forall i | 0 <= i < n && IsAccepted(options, answers, i) ::
              SelectionKey(active[i]) in Replacements(options, answers, active, n)
  {
    hide IsAccepted, IsMalformed, Boosted, SelectionKey, QuestionName;
    if n > 0 {
      ReplacementsMeaning(options, answers, active, n - 1);
      var r := Replacements(options, answers, active, n);
      forall key | key in r ensures exists i | 0 <= i < n :: IsReplacement(options, answers, active, i, key, r[key]) {
        if IsAccepted(options, answers, n - 1) && key == SelectionKey(active[n - 1]) {
          assert IsReplacement(options, answers, active, n - 1, key, r[key]);
        } else {
          var before := Replacements(options, answers, active, n - 1);
          assert key in before && r[key] == before[key];
          var i :| 0 <= i < n - 1 && IsReplacement(options, answers, active, i, key, before[key]);
        }
      }
    }
  }

  predicate IsReplacement(options: Options, answers: map<string, Answer>, active: seq<Evidence>, i: nat, key: string,
                          e: Evidence)
    requires i < |active|
  {
    IsAccepted(options, answers, i) && SelectionKey(active[i]) == key && e == BoostedBy(options, answers, active, i)
  }

  lemma CandidatesAreHarmless(options: Options, sensitive: Evidence -> bool, evidence: seq<Evidence>)
    ensures forall e | e in Candidates(options, sensitive, evidence) :: e in evidence && !sensitive(e)
  {
    var kept := Filter(e => !sensitive(e), evidence);
    SortIsPermutation(ScoresHigher, kept);
    FilterMembers(e => !sensitive(e), evidence);
  }

  lemma BoostIsBounded(weight: real, score: real, confidence: real)
    requires 0.0 <= weight && 0.0 <= score <= 2.0 && 0.0 <= confidence <= 1.0
    ensures 0.0 <= Boost(weight, score, confidence) <= weight
  {
    var relevance := score / 2.0;
    var share := relevance * confidence;
    ProductOfShares(relevance, confidence);
    ShareOf(share, weight);
    assert Boost(weight, score, confidence) == share * weight;
  }

  lemma ProductOfShares(a: real, b: real)
    requires 0.0 <= a <= 1.0 && 0.0 <= b <= 1.0
    ensures 0.0 <= a * b <= 1.0
  {
    ShareOf(a, b);
  }

  lemma ShareOf(a: real, b: real)
    requires 0.0 <= a <= 1.0 && 0.0 <= b
    ensures 0.0 <= a * b <= b
  {
    assert (1.0 - a) * b == b - a * b;
  }

  /** `r` is `e` with another rerank note and a score raised by at most the weight. */
  predicate IsRaised(options: Options, e: Evidence, r: Evidence) {
    && r == e.(score := r.score, metadata := e.metadata.(jevRerank := r.metadata.jevRerank))
    && e.score.GetOr(0.0) <= r.score.GetOr(0.0) <= e.score.GetOr(0.0) + options.scoreWeight
  }

  /** `r` is `e` as the answer to one of its own questions makes it. */
  ghost predicate IsAnswered(options: Options, answers: map<string, Answer>, active: seq<Evidence>, e: Evidence, r: Evidence) {
    exists i | 0 <= i < |active| :: active[i] == e && IsReplacement(options, answers, active, i, SelectionKey(e), r)
  }

  lemma BoostedIsRaised(options: Options, answers: map<string, Answer>, active: seq<Evidence>, i: nat)
    requires options.Valid() && i < |active| && IsAccepted(options, answers, i)
    ensures IsRaised(options, active[i], BoostedBy(options, answers, active, i))
  {
    hide QuestionName;
    var a := answers[QuestionName(i)];
    BoostIsBounded(options.scoreWeight, a.score.value, a.confidence.value);
    hide Boost;
  }

  /** With distinct keys, an applied answer changes nothing but the score and the rerank note of candidates that are not
      sensitive, and raises a score by at most the weight. */
  lemma RerankOnlyRaisesCandidates(options: Options, sensitive: Evidence -> bool, evidence: seq<Evidence>,
                                   answers: map<string, Answer>, active: seq<Evidence>, e: Evidence)
    requires options.Valid() && DistinctSelectionKeys(evidence) && e in evidence
    requires active <= Candidates(options, sensitive, evidence)
    ensures var r := Replaced(Replacements(options, answers, active, |active|), e);
            && IsRaised(options, e, r)
            && (sensitive(e) ==> r == e)
            && (r == e || IsAnswered(options, answers, active, e, r))
  {
    var key, all := SelectionKey(e), Replacements(options, answers, active, |active|);
    ReplacementsMeaning(options, answers, active, |active|);
    CandidatesAreHarmless(options, sensitive, evidence);
    hide SelectionKey, QuestionName, Replacements, Candidates, IsAccepted, BoostedBy;
    if key in all {
      var i :| 0 <= i < |active| && IsReplacement(options, answers, active, i, key, all[key]);
      AtSelectionKey(options, sensitive, evidence, active, i, e);
      BoostedIsRaised(options, answers, active, i);
      assert active[i] == Candidates(options, sensitive, evidence)[i];
      assert active[i] in Candidates(options, sensitive, evidence);
    } else {
      assert Replaced(all, e) == e;
      assert e == e.(score := e.score, metadata := e.metadata.(jevRerank := e.metadata.jevRerank));
    }
  }

  // ---------------------------------------------------------------- pruning

  /** The remote ranker is sure the item is useless. */
  predicate IsConfidentNoise(e: Evidence) {
    && e.metadata.jevRerank.Some?
    && e.metadata.jevRerank.value.score == 0.0
    && 0.0 <= e.metadata.jevRerank.value.confidence <= 1.0
  }

  function TotalItems(results: seq<ProviderResult>): nat {
    if results == [] then 0 else TotalItems(results[..|results| - 1]) + |results[|results| - 1].evidence|
  }

  /** Every result without its noise. */
  lemma TotalItemsAppend(results: seq<ProviderResult>, r: ProviderResult)
    ensures TotalItems(results + [r]) == TotalItems(results) + |r.evidence|
  {
    assert (results + [r])[..|results|] == results;
  }

  /** What pruning keeps. */
  function NotNoise(): Evidence -> bool {
    (e: Evidence) => !IsConfidentNoise(e)
  }

  /** Each result has lost its noise, and the count is right. */
  ghost predicate IsPruned(results: seq<ProviderResult>, filtered: seq<ProviderResult>, pruned: nat) {
    && |filtered| == |results|
    && (forall i | 0 <= i < |results| :: filtered[i] == results[i].(evidence := Filter(NotNoise(), results[i].evidence)))
    && TotalItems(filtered) + pruned == TotalItems(results)
  }

  lemma PrunedAppend(results: seq<ProviderResult>, filtered: seq<ProviderResult>, pruned: nat, r: ProviderResult,
                     kept: seq<Evidence>, dropped: nat)
    requires IsPruned(results, filtered, pruned)
    requires kept == Filter(NotNoise(), r.evidence) && |kept| + dropped == |r.evidence|
    ensures IsPruned(results + [r], filtered + [r.(evidence := kept)], pruned + dropped)
  {
    hide Filter, NotNoise;
    TotalItemsAppend(results, r);
    TotalItemsAppend(filtered, r.(evidence := kept));
    hide TotalItems;
  }

  lemma PrunedMeans(results: seq<ProviderResult>, filtered: seq<ProviderResult>, pruned: nat)
    requires IsPruned(results, filtered, pruned)
    ensures |filtered| == |results| && TotalItems(filtered) + pruned == TotalItems(results)
    ensures forall i | 0 <= i < |results| :: filtered[i] == results[i].(evidence := Filter(NotNoise(), results[i].evidence))
  {
  }

  method PruneConfidentNoise(results: seq<ProviderResult>, reranked: bool) returns (filtered: seq<ProviderResult>, pruned: nat)
    ensures !reranked ==> filtered == results && pruned == 0
    ensures reranked ==>
              && |filtered| == |results|
              && (forall i | 0 <= i < |results| ::
                    filtered[i] == results[i].(evidence := Filter(NotNoise(), results[i].evidence)))
              && TotalItems(filtered) + pruned == TotalItems(results)
  {
    if !reranked {
      return results, 0;
    }
    filtered, pruned := [], 0;
    var keep := NotNoise();
    hide Filter, NotNoise;
    assert results[..0] == [] && IsPruned(results[..0], filtered, pruned);
    hide IsPruned;
    for i := 0 to |results|
      invariant IsPruned(results[..i], filtered, pruned)
    {
      var kept, dropped := FilterAndCount(keep, results[i].evidence);
      var result := results[i].(evidence := kept);
      PrunedAppend(results[..i], filtered, pruned, results[i], kept, dropped);
      assert results[..i] + [results[i]] == results[..i + 1];
      filtered := filtered + [result];
      pruned := pruned + dropped;
    }
    assert results[..|results|] == results;
    PrunedMeans(results, filtered, pruned);
  }

  method FilterAndCount(keep: Evidence -> bool, items: seq<Evidence>) returns (kept: seq<Evidence>, dropped: nat)
    ensures kept == Filter(keep, items) && |kept| + dropped == |items|
  {
    kept, dropped := [], 0;
    for i := 0 to |items|
      invariant kept == Filter(keep, items[..i]) && |kept| + dropped == i
    {
      assert items[..i + 1] == items[..i] + [items[i]];
      FilterAppend(keep, items[..i], items[i]);
      if keep(items[i]) {
        kept := kept + [items[i]];
      } else {
        dropped := dropped + 1;
      }
    }
    assert items[..|items|] == items;
  }

  /** Of evidence that carried no rerank note before, pruning drops exactly the candidates whose accepted answer was
      zero; an answer below the confidence limit never costs an item its place. */
  lemma PrunedAreTheZeroAnswers(options: Options, sensitive: Evidence -> bool, evidence: seq<Evidence>,
                                answers: map<string, Answer>, active: seq<Evidence>, e: Evidence)
    requires options.Valid() && DistinctSelectionKeys(evidence) && e in evidence && e.metadata.jevRerank.None?
    requires active <= Candidates(options, sensitive, evidence) && NoDuplicates(active)
    ensures IsConfidentNoise(Replaced(Replacements(options, answers, active, |active|), e)) <==>
            exists i | 0 <= i < |active| :: active[i] == e && IsAccepted(options, answers, i)
                                            && answers[QuestionName(i)].score.value == 0.0
  {
    var r := Replaced(Replacements(options, answers, active, |active|), e);
    RerankOnlyRaisesCandidates(options, sensitive, evidence, answers, active, e);
    ReplacementsMeaning(options, answers, active, |active|);
    hide SelectionKey, QuestionName, Replacements, Candidates;
    if i :| 0 <= i < |active| && active[i] == e && IsAccepted(options, answers, i) && answers[QuestionName(i)].score.value == 0.0 {
      var j :| 0 <= j < |active| && IsReplacement(options, answers, active, j, SelectionKey(e), r);
      AtSelectionKey(options, sensitive, evidence, active, j, e);
      assert i == j;
    }
  }

  lemma AtSelectionKey(options: Options, sensitive: Evidence -> bool, evidence: seq<Evidence>, active: seq<Evidence>, j: nat,
                       e: Evidence)
    requires DistinctSelectionKeys(evidence) && e in evidence && active <= Candidates(options, sensitive, evidence)
    requires j < |active| && SelectionKey(active[j]) == SelectionKey(e)
    ensures active[j] == e
  {
    hide SelectionKey;
    CandidatesAreHarmless(options, sensitive, evidence);
    assert active[j] == Candidates(options, sensitive, evidence)[j];
  }
}
