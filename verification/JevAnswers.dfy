/** The rerank spelled out: which items are asked about, which answers count, what they do to the evidence, and when the
    breaker holds a call back. */
module JevAnswers {
  import Numerals
  import opened JevBreaker
  import opened JevPayload
  import opened JevReranker
  import opened Sequences
  import opened Sorting
  import opened TaskContext
  import opened Wrappers

  // ---------------------------------------------------------------- the options

  /** Options within the bounds are kept. */
  lemma OptionsAreExact(o: Options)
    ensures (exists given :: OptionsOf(given) == o) <==>
            && 2 <= o.maxCandidates <= 64 && 2_000 <= o.maxStateChars <= 100_000
            && 0.0 <= o.scoreWeight <= 100.0 && 0.0 <= o.minConfidence <= 1.0
            && 1 <= o.breaker.failureLimit <= 20 && 1_000 <= o.breaker.openMs <= 300_000
  {
    var kept := Given(Some(o.maxCandidates as real), Some(o.maxStateChars as real), Some(o.scoreWeight), Some(o.minConfidence),
                      Some(o.breaker.failureLimit as real), Some(o.breaker.openMs as real));
    if o.Valid() {
      assert OptionsOf(kept) == o;
    }
  }

  // ---------------------------------------------------------------- the candidates

  function Score(e: Evidence): real {
    e.score.GetOr(0.0)
  }

  /** The candidates are items that are not sensitive, the best scores first and equal ones as they came; one is left out
      only when there are as many as allowed, and then it comes after all of them. */
  ghost predicate AreCandidates(sensitive: Evidence -> bool, evidence: seq<Evidence>, max: nat, r: seq<Evidence>, places: seq<nat>) {
    && |r| == |places| <= max
    && (forall i | 0 <= i < |places| :: places[i] < |evidence| && r[i] == evidence[places[i]] && !sensitive(r[i]))
    && (forall i, j | 0 <= i < j < |places| :: Precedes(evidence, places[i], places[j]))
    && (forall k | 0 <= k < |evidence| && !sensitive(evidence[k]) && k !in places ::
          |places| == max && forall i | 0 <= i < |places| :: Precedes(evidence, places[i], k))
  }

  predicate Precedes(evidence: seq<Evidence>, a: int, b: int) {
    && 0 <= a < |evidence| && 0 <= b < |evidence|
    && (Score(evidence[a]) > Score(evidence[b]) || (Score(evidence[a]) == Score(evidence[b]) && a < b))
  }

  /** The places of the sorted items among the kept ones, as places in the whole. */
  function Through(kept: seq<nat>, places: seq<nat>): seq<nat>
    requires forall i | 0 <= i < |places| :: places[i] < |kept|
  {
    seq(|places|, i requires 0 <= i < |places| => kept[places[i]])
  }

  lemma ScoresAreOrdered()
    ensures StrictWeakOrder(ScoresHigher)
  {
  }

  lemma CandidatesAreExact(options: Options, sensitive: Evidence -> bool, evidence: seq<Evidence>) returns (places: seq<nat>)
    ensures AreCandidates(sensitive, evidence, options.maxCandidates, Candidates(options, sensitive, evidence), places)
  {
    var keep := (e: Evidence) => !sensitive(e);
    var kept := FilterIsExact(keep, evidence);
    var harmless := Filter(keep, evidence);
    ScoresAreOrdered();
    var order := SortedPlaces(ScoresHigher, harmless);
    var ranked := Sort(ScoresHigher, harmless);
    AllPrecede(evidence, keep, kept, order);
    var all := Through(kept, order);
    assert forall i | 0 <= i < |all| :: all[i] < |evidence| && ranked[i] == evidence[all[i]] && keep(evidence[all[i]]);
    places := if |ranked| <= options.maxCandidates then all else all[..options.maxCandidates];
    hide Filter, Sort, StrictWeakOrder, AreSortedPlaces, ArePlaces, At, Through;
    FirstAreCandidates(sensitive, evidence, ranked, all, options.maxCandidates);
  }

  lemma FirstAreCandidates(sensitive: Evidence -> bool, evidence: seq<Evidence>, ranked: seq<Evidence>, all: seq<nat>, max: nat)
    requires |ranked| == |all|
    requires forall i | 0 <= i < |all| :: all[i] < |evidence| && ranked[i] == evidence[all[i]] && !sensitive(evidence[all[i]])
    requires forall i, j | 0 <= i < j < |all| :: Precedes(evidence, all[i], all[j])
    requires forall k | 0 <= k < |evidence| && !sensitive(evidence[k]) :: k in all
    ensures AreCandidates(sensitive, evidence, max, if |ranked| <= max then ranked else ranked[..max],
                          if |ranked| <= max then all else all[..max])
  {
    hide Precedes;
    var places := if |ranked| <= max then all else all[..max];
    forall k | 0 <= k < |evidence| && !sensitive(evidence[k]) && k !in places
      ensures |places| == max && forall i | 0 <= i < |places| :: Precedes(evidence, places[i], k)
    {
      var j :| 0 <= j < |all| && all[j] == k;
      assert forall i | 0 <= i < |places| :: places[i] == all[i] && places[i] in places;
    }
  }

  lemma AllPrecede(evidence: seq<Evidence>, keep: Evidence -> bool, kept: seq<nat>, order: seq<nat>)
    requires ArePlaces(keep, evidence, kept) && AreSortedPlaces(ScoresHigher, At(evidence, kept), order)
    ensures var all := Through(kept, order);
            && (forall i, j | 0 <= i < j < |all| :: Precedes(evidence, all[i], all[j]))
            && (forall k | 0 <= k < |evidence| && keep(evidence[k]) :: k in all)
  {
    var all := Through(kept, order);
    forall i, j | 0 <= i < j < |all| ensures Precedes(evidence, all[i], all[j]) {
      assert PlaceBefore(ScoresHigher, At(evidence, kept), order[i], order[j]);
    }
    forall k | 0 <= k < |evidence| && keep(evidence[k]) ensures k in all {
      var a :| 0 <= a < |kept| && kept[a] == k;
      assert a in order;
      var i :| 0 <= i < |order| && order[i] == a;
      assert all[i] == k;
    }
  }

  // ---------------------------------------------------------------- the answers

  /** The answer about candidate `i`: a score from zero to two and a confidence from zero to one. */
  predicate IsAnswer(answers: map<string, Answer>, i: nat, score: real, confidence: real) {
    && "candidate_" + Numerals.Print(i, 10) in answers
    && answers["candidate_" + Numerals.Print(i, 10)] == Answer(Some(score), Some(confidence))
    && 0.0 <= score <= 2.0 && 0.0 <= confidence <= 1.0
  }

  /** An answer is malformed when there is none like that, and counts when it is at least as confident as is asked. */
  lemma AnswersAreExact(options: Options, answers: map<string, Answer>, i: nat)
    ensures IsMalformed(answers, i) <==> forall score, confidence :: !IsAnswer(answers, i, score, confidence)
    ensures IsAccepted(options, answers, i) <==>
            exists score, confidence :: IsAnswer(answers, i, score, confidence) && options.minConfidence <= confidence
    ensures forall score, confidence :: IsAnswer(answers, i, score, confidence) ==>
              answers[QuestionName(i)].score == Some(score) && answers[QuestionName(i)].confidence == Some(confidence)
  {
    if !IsMalformed(answers, i) {
      assert IsAnswer(answers, i, answers[QuestionName(i)].score.value, answers[QuestionName(i)].confidence.value);
    }
  }

  /** An item that was asked about, with an answer that counts. */
  ghost predicate IsHeard(options: Options, answers: map<string, Answer>, active: seq<Evidence>, e: Evidence, score: real,
                          confidence: real)
  {
    options.minConfidence <= confidence && exists i | 0 <= i < |active| :: active[i] == e && IsAnswer(answers, i, score, confidence)
  }

  /** The item with half the score times the confidence times the weight added, and noted. */
  function BoostedWith(options: Options, e: Evidence, score: real, confidence: real): Evidence {
    e.(score := Some(e.score.GetOr(0.0) + score / 2.0 * confidence * options.scoreWeight),
       metadata := e.metadata.(jevRerank := Some(JevDecision(score, confidence))))
  }

  /** What an applied answer does to an item: half its score times its confidence times the weight is added, and noted;
      an item without an answer that counts stays as it is. */
  lemma RerankIsExact(options: Options, sensitive: Evidence -> bool, evidence: seq<Evidence>, answers: map<string, Answer>,
                      active: seq<Evidence>, e: Evidence)
    requires DistinctSelectionKeys(evidence) && e in evidence
    requires active <= Candidates(options, sensitive, evidence) && NoDuplicates(active)
    ensures var r := Replaced(Replacements(options, answers, active, |active|), e);
            && (forall score, confidence | IsHeard(options, answers, active, e, score, confidence) ::
                  r == BoostedWith(options, e, score, confidence))
            && ((forall score, confidence :: !IsHeard(options, answers, active, e, score, confidence)) ==> r == e)
  {
    hide Candidates, SelectionKey, QuestionName, Replacements, IsAccepted, BoostedWith, IsAnswer, BoostedBy;
    forall score, confidence | IsHeard(options, answers, active, e, score, confidence)
      ensures Replaced(Replacements(options, answers, active, |active|), e) == BoostedWith(options, e, score, confidence)
    {
      HeardIsBoosted(options, sensitive, evidence, answers, active, e, score, confidence);
    }
    if SelectionKey(e) in Replacements(options, answers, active, |active|) {
      ReplacedIsHeard(options, sensitive, evidence, answers, active, e);
    }
  }

  lemma HeardIsBoosted(options: Options, sensitive: Evidence -> bool, evidence: seq<Evidence>, answers: map<string, Answer>,
                       active: seq<Evidence>, e: Evidence, score: real, confidence: real)
    requires DistinctSelectionKeys(evidence) && e in evidence
    requires active <= Candidates(options, sensitive, evidence) && NoDuplicates(active)
    requires IsHeard(options, answers, active, e, score, confidence)
    ensures Replaced(Replacements(options, answers, active, |active|), e) == BoostedWith(options, e, score, confidence)
  {
    var all := Replacements(options, answers, active, |active|);
    ReplacementsMeaning(options, answers, active, |active|);
    hide Candidates, SelectionKey, QuestionName, Replacements, IsAccepted, BoostedWith, IsAnswer, BoostedBy;
    var i :| 0 <= i < |active| && active[i] == e && IsAnswer(answers, i, score, confidence);
    AnswersAreExact(options, answers, i);
    assert IsAccepted(options, answers, i);
    assert SelectionKey(active[i]) in all;
    var j :| 0 <= j < |active| && IsReplacement(options, answers, active, j, SelectionKey(e), all[SelectionKey(e)]);
    AtSelectionKey(options, sensitive, evidence, active, j, e);
    assert i == j;
    Boosting(options, answers, active, i, score, confidence);
  }

  lemma ReplacedIsHeard(options: Options, sensitive: Evidence -> bool, evidence: seq<Evidence>, answers: map<string, Answer>,
                        active: seq<Evidence>, e: Evidence)
    requires DistinctSelectionKeys(evidence) && e in evidence && active <= Candidates(options, sensitive, evidence)
    requires SelectionKey(e) in Replacements(options, answers, active, |active|)
    ensures exists score, confidence :: IsHeard(options, answers, active, e, score, confidence)
  {
    var all := Replacements(options, answers, active, |active|);
    ReplacementsMeaning(options, answers, active, |active|);
    hide Candidates, SelectionKey, QuestionName, Replacements, IsAccepted, IsAnswer, BoostedBy;
    var j :| 0 <= j < |active| && IsReplacement(options, answers, active, j, SelectionKey(e), all[SelectionKey(e)]);
    AtSelectionKey(options, sensitive, evidence, active, j, e);
    AnswersAreExact(options, answers, j);
    var score, confidence :| IsAnswer(answers, j, score, confidence) && options.minConfidence <= confidence;
    assert IsHeard(options, answers, active, e, score, confidence);
  }

  lemma Boosting(options: Options, answers: map<string, Answer>, active: seq<Evidence>, i: nat, score: real, confidence: real)
    requires i < |active| && IsAnswer(answers, i, score, confidence)
    ensures !IsMalformed(answers, i) && BoostedBy(options, answers, active, i) == BoostedWith(options, active[i], score, confidence)
  {
    var a := answers[QuestionName(i)];
    assert a == Answer(Some(score), Some(confidence));
    assert BoostedBy(options, answers, active, i) == Boosted(options, active[i], score, confidence);
    assert Boost(options.scoreWeight, score, confidence) == score / 2.0 * confidence * options.scoreWeight;
    var x, y := Boosted(options, active[i], score, confidence), BoostedWith(options, active[i], score, confidence);
    assert x.score.value == y.score.value;
  }

  ghost predicate HasAnswer(answers: map<string, Answer>, i: nat) {
    exists score, confidence :: IsAnswer(answers, i, score, confidence)
  }

  ghost predicate Counts(options: Options, answers: map<string, Answer>, i: nat) {
    exists score, confidence :: IsAnswer(answers, i, score, confidence) && options.minConfidence <= confidence
  }

  /** A rerank that is let through is applied exactly when at least two candidates fit, every one of them is answered, and
      some answer counts. It fails otherwise, but for too few candidates; before sending only when the request could not be
      made. */
  lemma OutcomeIsExact(options: Options, active: seq<Evidence>, response: Response)
    ensures var outcome := OutcomeOf(options, active, response);
            && (outcome == Applied <==>
                  && |active| >= 2 && response.Answers?
                  && (forall i: nat | i < |active| :: HasAnswer(response.answers, i))
                  && (exists i: nat | i < |active| :: Counts(options, response.answers, i)))
            && (outcome == OverBudget <==> response != Broken && |active| < 2)
            && (outcome == Failed(false) <==> response == Broken)
            && (outcome.Applied? || outcome.OverBudget? || outcome.Failed?)
  {
    if response.Answers? {
      forall i: nat | i < |active|
        ensures IsMalformed(response.answers, i) <==> !HasAnswer(response.answers, i)
        ensures IsAccepted(options, response.answers, i) <==> Counts(options, response.answers, i)
      {
        AnswersAreExact(options, response.answers, i);
      }
    }
    hide IsMalformed, IsAccepted, HasAnswer, Counts;
  }

  /** What is pruned as noise: an item with a note of score zero and a confidence from zero to one. */
  lemma NoiseIsExact(e: Evidence)
    ensures IsConfidentNoise(e) <==> exists confidence :: IsZeroNote(e, confidence) && 0.0 <= confidence <= 1.0
  {
    if IsConfidentNoise(e) {
      assert IsZeroNote(e, e.metadata.jevRerank.value.confidence);
    }
  }

  predicate IsZeroNote(e: Evidence, confidence: real) {
    e.metadata.jevRerank == Some(JevDecision(0.0, confidence))
  }

  // ---------------------------------------------------------------- when the breaker holds a call back

  /** The failures since the last success, and when the last of them was noticed. */
  datatype History = History(failures: nat, last: int)

  /** A call is held back while the last of too many failures is less than the open period ago. */
  predicate HeldBack(settings: Settings, h: History, start: int) {
    h.failures >= settings.failureLimit && start < h.last + settings.openMs
  }

  function HistoryOf(settings: Settings, calls: seq<Call>): History {
    if calls == [] then History(0, 0)
    else
      var h, last := HistoryOf(settings, calls[..|calls| - 1]), calls[|calls| - 1];
      if last.outcome.TooFew? || last.outcome.OverBudget? || HeldBack(settings, h, last.start) then h
      else if last.outcome.Applied? then History(0, 0)
      else History(h.failures + 1, last.end)
  }

  /** In every run, a call with candidates is let through exactly when it is not held back. */
  lemma {:induction false} BreakerIsExact(settings: Settings, calls: seq<Call>, c: Call)
    requires settings.failureLimit > 0 && 0 <= c.start && forall i | 0 <= i < |calls| :: 0 <= calls[i].start
    ensures LetThrough(Run(CLOSED, settings, calls), c) <==> !c.outcome.TooFew? && !HeldBack(settings, HistoryOf(settings, calls), c.start)
    ensures var b, h := Run(CLOSED, settings, calls), HistoryOf(settings, calls);
            b.failures == h.failures && b.openUntil == if h.failures >= settings.failureLimit then h.last + settings.openMs else 0
  {
    if calls != [] {
      var n := |calls| - 1;
      assert forall i | 0 <= i < n :: calls[..n][i] == calls[i];
      BreakerIsExact(settings, calls[..n], calls[n]);
    }
  }

  /** A call that is let through sends a request exactly when it ends with an answer in use or fails after sending. */
  lemma SendsIsExact(settings: Settings, calls: seq<Call>, c: Call)
    requires settings.failureLimit > 0 && 0 <= c.start && forall i | 0 <= i < |calls| :: 0 <= calls[i].start
    ensures Sends(Run(CLOSED, settings, calls), c) <==>
            !HeldBack(settings, HistoryOf(settings, calls), c.start) && (c.outcome == Applied || c.outcome == Failed(true))
  {
    BreakerIsExact(settings, calls, c);
  }
}
