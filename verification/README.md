# Verification of the local coding agent's core logic

This project models, in Dafny 4.11, the parts of the repository whose correctness is a matter of algorithm or protocol,
and proves what they promise. The servers, transports and user interfaces around them are not modelled. Where the source
changes state step by step there is a class with the same fields, or a method with the same loops, and each method is
proved equal to a function on values; the theorems are about those functions and about all runs of them. Asynchronous code
is cut at its `await` points: every step between two of them is one operation, what is in flight is part of the state, and
a run is any sequence of operations.

## What is modelled

| module files | what they model |
|---|---|
| `TaskContext`, `EvidenceSelection`, `EvidenceFairness`, `MergedContext` | merging the evidence of four providers into a task context: deduplication, one reserved item per provider, caps, refill, character budget |
| `JevBreaker`, `JevPayload`, `JevReranker`, `JevAnswers` | the remote reranker: circuit breaker, payload packing, what answers may change, pruning |
| `Tokenizer`, `RichText`, `NotionTree`, `NotionModel`, `NotionForest`, `NotionShown`, `NotionPage`, `SyntheticIds` | lowering a page's blocks into flat maps keyed by id, and inline markup into text parts |
| `Selectors`, `StableSelector`, `SelectorShape`, `Scrape` | CSS paths for scraped elements, and the positions of scrape results |
| `DomNormalizer` | filtering a DOM snapshot under a node budget |
| `Json`, `JsonText`, `CanonicalJson`, `CanonicalOrder`, `Backup` | canonical JSON and the checksummed memory backup |
| `LspFraming`, `LspHeaders`, `LspRequests`, `LspClient` | the stdio language-server client: message framing and the pending-request table |
| `Readiness`, `ReadinessReached` | when a language-server session counts as ready, and that it becomes so |
| `Lines`, `LineStream`, `Utf8`, `TwoPassSelection` | collecting a search tool's output under limits, and cutting its matches |
| `CacheKeys`, `RevisionCache`, `CacheAgreement`, `CacheRetention` | the revision-aware context cache |
| `EventStore`, `EventLines`, `CallTree`, `RecoveredTree` | the append-only event log, the pipeline that writes it, and both together across a restart |
| `Pairing`, `PairingAccess`, `PairingBounds`, `PairingCleanup` | pairing a browser extension: codes, sessions, who gets in, failure windows, lazy cleanup |
| `SingleFlight`, `SingleFlightOutcome`, `SessionRecord` | memory sessions: creation once per root, and what a session remembers |
| `Sorting`, `Sequences`, `BestPerKey`, `StringOrder`, `Numerals`, `Text`, `Letters`, `Wrappers` | what the others share |

Some promises turned out to hold only under a condition, and the condition is proved exact:

* A stable selector that is unique denotes the element it was built for if and only if the tags it names are in lower case
  already and the values it quotes hold no line break (`StableSelector.UniqueSelectorIsSound`, with an example in
  `StableSelector.LineBreakSelectsAnother`): the escaping turns line breaks into spaces. For an element with an id or root
  that occurs once within ten steps, the returned selector denotes it under the same condition
  (`StableSelector.SelectorIsComplete`).
* Asking for the position of a scrape result finds that result again if and only if the position is at most 100,000
  (`Scrape.PositionFindsItsMatch`): pages reach to 101,000 (`Scrape.PagesReach`), but the lookup clamps. Turning pages shows
  each hit once if and only if no page begins beyond offset 100,000 or no hit lies there
  (`Scrape.TurningPagesShowsEachHitOnce`).
* A rendered page reads back, and is one forest, if and only if the page's own id is none of those handed out to its blocks
  (`NotionPage.LoweringReadsBack`, `NotionPage.LoweredPageIsAForest`, `SyntheticIds.RenderedPageReadsBack`).
* An extra cleanup of pairing sessions goes unseen by all later calls if and only if none of them revokes a session that is
  still on file although it had expired at the cleanup (`PairingCleanup.CleanupIsUnobservable`): `revoke` answers from the
  file without looking at the expiry.
* Pairing failures of an origin within D ms number at most 5 + 4 floor(D / 60000) in every run from now on if and only if the
  origin cannot pair or its failure window is over or all but full (`PairingBounds.FailureRateBoundIsExact`); seen from the
  middle of a window eight failures need no more than a millisecond (`PairingBounds.MidWindowBurst`).
* Two requests without NUL in a path share a cache key if and only if they differ in nothing but changed files that read the
  same once sorted and joined (`CacheKeys.KeyIsExact`): a path that holds U+001F can read like two.
* Closing the revision tracker is harmless for whatever follows if and only if nothing is cached and no search is in flight
  (`CacheAgreement.ClosingIsHarmlessOnlyWhenIdle`): generations begin again at zero.
* A settled execution has one terminal event, and two if and only if an observer threw at once after its action had returned
  (`CallTree.TerminalEvents`, with an example in `CallTree.ThrowingObserverEndsTwice`).
* Chunk boundaries are visible to the message decoder in exactly the cases `LspFraming.ChunkingShowsOnlyAfterRejection`
  names, after a header without a length.

Others hold with a visible edge, each shown by a lemma: a DOM snapshot cut by a negative budget is not reported as truncated
(`DomNormalizer.DroppedIsReported`); an item without content at the end of a selection that costs exactly the budget is dropped
(`MergedContext.NothingIsCutWithinBudget`); and a separator inside a path can make two requests share a cache key
(`CacheKeys.NulInFileCollides`, `CacheKeys.UnitInFileCollides`, `CacheKeys.NulInRootCollides`).

## Model

| member | source | states |
|---|---|---|
| `EvidenceSelection.DeduplicateResults` | server/src/application/context/build-task-context.ts:248-259 | the loop over all providers leaves, per evidence key, the best rescored item, in first-seen key order |
| `EvidenceSelection.DeduplicateResult` | server/src/application/context/build-task-context.ts:251-258 | the loop over one provider's evidence continues the map of best items |
| `EvidenceSelection.ReserveOnePerProvider` | server/src/application/context/build-task-context.ts:262-279 | reserves the first ranked item of each provider and counts it |
| `EvidenceSelection.FillUnderCaps` | server/src/application/context/build-task-context.ts:281-290 | the loop over key sets and counters is the capped pass of the specification |
| `EvidenceSelection.RefillToLimit` | server/src/application/context/build-task-context.ts:292-297 | the second loop is the uncapped pass of the specification |
| `EvidenceSelection.MergeEvidence` | server/src/application/context/build-task-context.ts:242-300 | the whole merge returns the selection in rank order under the character budget |
| `MergedContext.MergedIsInOrder` | server/src/application/context/build-task-context.ts:299-326 | of two items of a merged context the earlier has the higher score, or at equal scores the earlier provider in the written-out order filesystem, semantic, codegraph, agentmemory, or at equal providers the earlier id |
| `MergedContext.EachProviderShowsItsBest` | server/src/application/context/build-task-context.ts:262-272 | before the budget, each provider with evidence has an item in the merged context that scores at least what any of its items scores, with the same ties |
| `MergedContext.MergedComesFromTheResults` | server/src/application/context/build-task-context.ts:248-259 | every item of a merged context is an item of some result with its rescored score, and only the last can be cut |
| `MergedContext.OneOfEachCopyIsRanked` | server/src/application/context/build-task-context.ts:248-259 | of the copies of an item, alike in provider and in path, symbol and content joined by NUL, exactly one is ranked, and none is better |
| `MergedContext.CopiesAgree` | server/src/application/context/build-task-context.ts:306-308 | where no path or symbol holds NUL, items are copies exactly when provider, path, symbol and content agree |
| `MergedContext.HintsAreOfTheFirstGraph` | server/src/application/context/build-task-context.ts:351-361 | the path hints come from the first codegraph result and no other |
| `MergedContext.NothingIsCutWithinBudget` | server/src/application/context/build-task-context.ts:388-401 | a selection that costs at most the budget is returned whole if and only if it costs less, is at most one item, or ends with an item that has content: at exactly the budget an empty last item is dropped |
| `MergedContext.CostOfOne` | server/src/application/context/build-task-context.ts:391-398 | an item costs its texts and 40 characters |
| `EvidenceSelection.MergeIgnoresArrivalOrder` | server/src/application/context/build-task-context.ts:242-300 | with unique (provider, id) pairs and a total order on ids, any order of the providers and of the items within one gives the identical list |
| `EvidenceSelection.RankedIgnoresOrder` | server/src/application/context/build-task-context.ts:248-261 | deduplication and ranking depend only on which items there are |
| `EvidenceSelection.BudgetedIsUnique` | server/src/application/context/build-task-context.ts:388-401 | the budget clauses determine the output: nothing else satisfies them |
| `EvidenceFairness.EveryProviderKeepsItsBest` | server/src/application/context/build-task-context.ts:262-272 | before the budget, each provider with evidence keeps an item no worse than any of its items |
| `EvidenceFairness.SelectionIsBoundedAndMaximal` | server/src/application/context/build-task-context.ts:274-297 | at most max(1, maxItems, providers present) items; fewer only when every ranked item is redundant |
| `EvidenceFairness.CapIsTheShare` | server/src/application/context/build-task-context.ts:379-386 | a provider's cap is its percentage of the limit, rounded up, and at least one: 50 for the file system, 35 for semantic search and code graph, 20 for the memory |
| `EvidenceFairness.SelectionKeyIsExact` | server/src/application/context/build-task-context.ts:302-304 | two items are one and the same exactly when provider and id agree, whatever the id holds |
| `EvidenceFairness.OnlyReservedItemsShareATopic` | server/src/application/context/build-task-context.ts:268-297 | an item that is not reserved shares neither semantic key nor identity with any other chosen item |
| `EvidenceFairness.CapsYieldOnlyToExhaustion` | server/src/application/context/build-task-context.ts:275-297 | a provider is over its cap only when every provider under its cap has nothing new left |
| `EvidenceFairness.BestFirstWithinAProvider` | server/src/application/context/build-task-context.ts:281-297 | a better-ranked item of the same provider is passed over only when redundant |
| `EvidenceFairness.ChosenIsTheSelectionInRankOrder` | server/src/application/context/build-task-context.ts:299 | the output before the budget is the selection, sorted |
| `EvidenceFairness.BudgetIsRespected` | server/src/application/context/build-task-context.ts:388-401 | the kept items cost at most the budget, but for a single item with empty content |
| `TaskContext.EnforceCharBudget` | server/src/application/context/build-task-context.ts:388-401 | keeps a prefix in which only the last item is cut, and stops only where the budget is spent |
| `TaskContext.RankingIsStrictWeakOrder` | server/src/application/context/build-task-context.ts:318-326 | the comparator is a strict weak order when the order of ids is one |
| `JevReranker.PruneConfidentNoise` | server/src/application/context/build-task-context.ts:211-231 | each result loses exactly its confident noise, and the counter is exact |
| `JevReranker.PrunedAreTheZeroAnswers` | server/src/application/context/build-task-context.ts:225-240 | among evidence without an earlier note, pruning drops exactly the candidates whose accepted answer was zero |
| `JevReranker.JevContextReranker.Rerank` | server/src/adapters/jev/jev-context-reranker.ts:118-287 | any fallback or skip returns the evidence unchanged; an applied answer replaces items of the packed candidates by key; when each outcome occurs and how it moves the breaker |
| `JevReranker.JevContextReranker.RecordFailure` | server/src/adapters/jev/jev-context-reranker.ts:269-272 | a failure counts, and from the limit on opens the breaker for a whole period |
| `JevReranker.JevContextReranker.Judge` | server/src/adapters/jev/jev-context-reranker.ts:215-246 | one malformed answer fails the whole rerank; otherwise the replacements are those of the accepted answers |
| `JevReranker.RerankOnlyRaisesCandidates` | server/src/adapters/jev/jev-context-reranker.ts:215-253 | with distinct keys only score and rerank note of non-sensitive candidates change, and a score rises by at most the weight |
| `JevReranker.BoostIsBounded` | server/src/adapters/jev/jev-context-reranker.ts:228-229 | a boost is neither negative nor more than the weight |
| `JevReranker.CandidatesAreHarmless` | server/src/adapters/jev/jev-context-reranker.ts:122-126 | candidates are items of the evidence that are not sensitive |
| `JevAnswers.CandidatesAreExact` | server/src/adapters/jev/jev-context-reranker.ts:122-126 | the candidates are the best scored items that are not sensitive, equal scores in the order they came; one is left out only when there are as many as allowed, and then it comes after all of them |
| `JevAnswers.AnswersAreExact` | server/src/adapters/jev/jev-context-reranker.ts:218-226 | an answer is malformed unless its score lies between 0 and 2 and its confidence between 0 and 1, and it counts exactly when it is as confident as is asked |
| `JevAnswers.RerankIsExact` | server/src/adapters/jev/jev-context-reranker.ts:215-253 | an item with an answer that counts has half the score times the confidence times the weight added, and noted; any other item stays as it is |
| `JevAnswers.OutcomeIsExact` | server/src/adapters/jev/jev-context-reranker.ts:154-274 | a rerank that is let through is applied exactly when two candidates fit, each is answered, and some answer counts; it is skipped with fewer, and fails otherwise |
| `JevAnswers.NoiseIsExact` | server/src/application/context/build-task-context.ts:231-240 | what is pruned is noted with score zero and a confidence between 0 and 1 |
| `JevAnswers.BreakerIsExact` | server/src/adapters/jev/jev-context-reranker.ts:141-152 | in every run a call is held back exactly while the last of at least failureLimit failures since the last success is less than openMs ago |
| `JevAnswers.SendsIsExact` | server/src/adapters/jev/jev-context-reranker.ts:141-190 | a request is sent exactly by a call that is not held back and whose answer is used or fails after sending |
| `JevAnswers.OptionsAreExact` | server/src/adapters/jev/jev-context-reranker.ts:107-113 | the options that can come out of the constructor are exactly those within the bounds |
| `JevPayload.BuildPayload` | server/src/adapters/jev/jev-context-reranker.ts:290-368 | the state is header and blocks, at most max(header, limit) long; only the last block may be cut, to fill the limit exactly; each question's label occurs in the state; more candidates are left out only when under 160 characters remain |
| `JevBreaker.FailuresSpreadOut` | server/src/adapters/jev/jev-context-reranker.ts:141-152 | once the breaker has opened, failures are a whole open period apart |
| `JevBreaker.CallsAreBounded` | server/src/adapters/jev/jev-context-reranker.ts:248-286 | a run without success makes at most failureLimit + floor(D / openMs) remote calls, D from the failure that opens the breaker |
| `Tokenizer.Split` | server/notion-react-renderer.tsx:43-59 | the cursor loop gives the parts of the specification, for any faithful grammar |
| `Tokenizer.SplitPreservesText` | server/notion-react-renderer.tsx:43-59 | for any faithful grammar the parts, written out again, are the text |
| `Tokenizer.SplitIsLeftmost` | server/notion-react-renderer.tsx:43-59 | a split takes, from left to right, the first marked part there is at each place and what is unmarked between |
| `Tokenizer.SplitIsUnique` | server/notion-react-renderer.tsx:43-59 | nothing else is such a split |
| `RichText.MatchIsExact` | server/notion-react-renderer.tsx:39-60 | what counts as a marked part: the four markers and links, written out |
| `RichText.PartsAreTheParts` | server/notion-react-renderer.tsx:39-60 | each part shows the text between its markers with the marks the markers stand for |
| `RichText.PartsPreserveText` | server/notion-react-renderer.tsx:39-60 | putting the markers back gives the source text, for every text |
| `NotionTree.LowerAllIsRectangular` | server/notion-react-renderer.tsx:212-224 | every table has rows of its own width, however ragged the input |
| `NotionTree.NotionRenderingIsValid` | server/notion-react-renderer.tsx:137-225 | the concrete choice of block contents satisfies what the results about lowering ask of it |
| `NotionShown.ContentIsShown` | server/notion-react-renderer.tsx:137-225 | for each kind of block: its type, its text, the checked flag, and the text a callout takes from its first child |
| `NotionShown.CellsShowTheRow` | server/notion-react-renderer.tsx:212-224 | cell j of a row shows the text of cell j of that row where the row has one, and nothing otherwise |
| `NotionPage.PageShowsItsBlocks` | server/notion-react-renderer.tsx:127-234 | after the construction every block of the page is in the maps under its own id with what it is to show, rows and columns included |
| `NotionModel.Lowering.AddBlock` | server/notion-react-renderer.tsx:119-125 | the four map updates of one block |
| `NotionModel.Lowering.EnsureChildren` | server/notion-react-renderer.tsx:118 | the children list of an id, made when there is none |
| `NotionModel.Lowering.NextId` | server/notion-react-renderer.tsx:20-23 | the next id of the factory |
| `NotionModel.Lowering.SetHasChildren` | server/notion-react-renderer.tsx:230 | the flag tells whether children were added |
| `NotionModel.Lowering.AddAst` | server/notion-react-renderer.tsx:127-232 | the recursive mutation of maps and counter adds the lowered tree of the block |
| `NotionModel.Lowering.AddChildren` | server/notion-react-renderer.tsx:229 | the loop over children adds their lowered trees in order |
| `NotionModel.Lowering.AddAll` | server/notion-react-renderer.tsx:234 | the loop over the page's blocks adds their lowered trees |
| `NotionModel.Lowering.AddColumn` | server/notion-react-renderer.tsx:199-208 | one column with its blocks |
| `NotionModel.Lowering.AddRow` | server/notion-react-renderer.tsx:217-221 | one row of padded cells |
| `NotionModel.Lowering.AddColumns` | server/notion-react-renderer.tsx:194-211 | the nested loop over column groups adds their lowered trees |
| `NotionModel.Lowering.AddRows` | server/notion-react-renderer.tsx:212-224 | the loop over rows adds padded rows |
| `NotionForest.AddTreeFrame` | server/notion-react-renderer.tsx:119-125 | adding a subtree touches nothing but its own ids and its parent's children |
| `NotionForest.LaidFrame` | server/notion-react-renderer.tsx:119-125 | a finished subtree is not disturbed by later additions |
| `NotionForest.AddTreeKeepsForest` | server/notion-react-renderer.tsx:127-232 | parents and children stay exact inverses and all ids stay rooted at the page |
| `NotionForest.AddTreesGrow` | server/notion-react-renderer.tsx:119-125 | whatever the ids, a children list grows by what the trees list below it and, for the parent, by the new siblings |
| `NotionPage.LoweringReadsBack` | server/notion-react-renderer.tsx:118-234 | reading the maps back gives exactly the trees of the pure lowering if and only if the page's own id is none of those handed out to its blocks |
| `NotionPage.UsedPageIdBreaksReading` | server/notion-react-renderer.tsx:94-125 | a page that carries the id of one of its blocks never reads back, whatever its blocks |
| `NotionPage.LoweredPageIsAForest` | server/notion-react-renderer.tsx:118-241 | one ordered forest rooted at the page if and only if the page's own id was not handed out, and then `has_children` is true exactly when there are children |
| `NotionPage.CreateModel` | server/notion-react-renderer.tsx:94-241 | the whole construction, with the top-level ids, reads back to the lowered page exactly when the page's own id was not handed out; with the renderer's block contents, every block then shows what it was given: type, text, checked flag, columns, and each cell of each row |
| `SyntheticIds.FactoryIsInjective` | server/notion-react-renderer.tsx:20-23 | the factory never makes an id twice: the counter can be read off the id |
| `SyntheticIds.RenderedPageReadsBack` | server/notion-react-renderer.tsx:20-23 | with the renderer's own factory and block contents, a page reads back if and only if its id is none of the factory's first, as many as it has blocks |
| `SelectorShape.BuildStableSelector` | local-browser-agent/apps/server/src/scrape/cheerio-scrape.ts:118-172 | the loops over attributes and ancestors return the selector of the specification, which is the one spelled out: by the id that singles the element out, else by the first of the seven attributes that does, else the shortest unique path of at most ten steps |
| `SelectorShape.SelectorIsSpelledOut` | local-browser-agent/apps/server/src/scrape/cheerio-scrape.ts:118-172 | an element whose id does not single it out but one of data-testid, data-test, data-qa, data-cy, aria-label, name, title does gets exactly the compound of its tag and the first such attribute; without one it gets the path of its ancestors, each step written out |
| `SelectorShape.SingledOutIsUnique` | local-browser-agent/apps/server/src/scrape/cheerio-scrape.ts:123-132 | an element that its id or one of the seven attributes singles out gets a unique selector |
| `SelectorShape.StableClassIsExact` | local-browser-agent/apps/server/src/scrape/cheerio-scrape.ts:218-223 | which class names count as stable: neither generated prefixes nor hashes nor digits |
| `SelectorShape.QuotedIsSpelledOut` | local-browser-agent/apps/server/src/scrape/cheerio-scrape.ts:208-210 | a quoted value has spaces for its line breaks and is otherwise itself |
| `Letters.LowerIsExact` | local-browser-agent/apps/server/src/scrape/cheerio-scrape.ts:120 | lower case changes the capital letters into the letters of the same place, and nothing else |
| `SelectorShape.NthSelectorIsExact` | local-browser-agent/apps/server/src/scrape/cheerio-scrape.ts:156-163 | a step carries a position exactly when its tag has namesakes among the siblings, and the position counts them |
| `StableSelector.PositionIsNthOfType` | local-browser-agent/apps/server/src/scrape/cheerio-scrape.ts:156-163 | the index among the parent's children found by tag is the position `:nth-of-type` counts |
| `Selectors.SingletonIsUnique` | local-browser-agent/apps/server/src/scrape/cheerio-scrape.ts:174-180 | a unique selector that matches the element selects it alone |
| `Selectors.CompoundIsExact` | local-browser-agent/apps/server/src/scrape/cheerio-scrape.ts:174-180 | what each part of a compound asks for: the tag, the attribute with its value, every class, and the place among the siblings of the same tag |
| `StableSelector.PathStops` | local-browser-agent/apps/server/src/scrape/cheerio-scrape.ts:134-171 | the climb ends with the segments of the nearest ancestors, at an id, at uniqueness, at the root or at ten |
| `StableSelector.DescribedMatches` | local-browser-agent/apps/server/src/scrape/cheerio-scrape.ts:118-172 | a path made from an element matches it exactly when nothing was changed by quoting or lower-casing |
| `StableSelector.UniqueSelectorIsSound` | local-browser-agent/apps/server/src/scrape/cheerio-scrape.ts:118-180 | a returned selector that is unique selects exactly the element if and only if what it names is written unchanged: the id, else the first stable attribute that singles the element out, else the tags and ids of the climb |
| `StableSelector.LineBreakSelectsAnother` | local-browser-agent/apps/server/src/scrape/cheerio-scrape.ts:208-210 | two elements for which the unique selector of the first selects the second |
| `StableSelector.SegmentPinsSibling` | local-browser-agent/apps/server/src/scrape/cheerio-scrape.ts:150-163 | a segment without id matches no other child of the same parent |
| `StableSelector.SelectorIsExact` | local-browser-agent/apps/server/src/scrape/cheerio-scrape.ts:118-180 | for every element, the returned selector selects exactly it if and only if the selector is unique and what it names is written unchanged |
| `StableSelector.SelectorIsComplete` | local-browser-agent/apps/server/src/scrape/cheerio-scrape.ts:118-172 | for an element that has, among itself and its nine nearest ancestors, a first id that occurs once under its tag or else a root whose tag occurs once, the returned selector selects exactly the element if and only if what it names is written unchanged |
| `Scrape.HitsAreTheWantedElements` | local-browser-agent/apps/server/src/scrape/cheerio-scrape.ts:65-72 | the hits are exactly the wanted elements with their own source index, in source order |
| `Scrape.BoundedInteger` | local-browser-agent/apps/server/src/scrape/cheerio-scrape.ts:225-228 | the value itself within the bounds, the nearer bound outside, and the fallback without a value |
| `Scrape.WantedIsExact` | local-browser-agent/apps/server/src/scrape/cheerio-scrape.ts:68-72 | an element is wanted when its text is the exact one asked for, if any, and has the text it is to contain, if any |
| `Scrape.PageIsExact` | local-browser-agent/apps/server/src/scrape/cheerio-scrape.ts:74-94 | a page holds exactly the hits behind its offset, as many as its limit, each under its position |
| `Scrape.DefaultsAreExact` | local-browser-agent/apps/server/src/scrape/cheerio-scrape.ts:49-50 | without wishes a page is the first hundred hits, and the position asked for is the first |
| `Scrape.SelectionIsExact` | local-browser-agent/apps/server/src/scrape/cheerio-scrape.ts:108-116 | a position, clamped to 1 and 100,000, is answered with the hit there or with how many there are |
| `Scrape.TurningPagesShowsEachHitOnce` | local-browser-agent/apps/server/src/scrape/cheerio-scrape.ts:74-80 | turning pages of any allowed size shows the hits once each, in order and numbered from one, if and only if no page begins beyond offset 100,000 or no hit lies there |
| `Scrape.PositionFindsItsMatch` | local-browser-agent/apps/server/src/scrape/cheerio-scrape.ts:108-116 | selecting a match's position gives the match again if and only if the position is at most 100,000 |
| `Scrape.PagesReach` | local-browser-agent/apps/server/src/scrape/cheerio-scrape.ts:49-80 | a hit is on some page if and only if it is among the first 101,000 |
| `DomNormalizer.DecodeAttributes` | local-browser-agent/apps/extension/src/dom-normalizer.ts:122-131 | the last pair that names an attribute decides; empty and unknown names are skipped |
| `DomNormalizer.LastPairDecides` | local-browser-agent/apps/extension/src/dom-normalizer.ts:122-131 | an attribute has the value of the last pair that names it, and none when no pair does |
| `DomNormalizer.NamesMeans` | local-browser-agent/apps/extension/src/dom-normalizer.ts:126-128 | a pair names an attribute when its index stands for a string that is not empty |
| `DomNormalizer.NearestIncludedParent` | local-browser-agent/apps/extension/src/dom-normalizer.ts:137-145 | the walk finds the nearest included ancestor |
| `DomNormalizer.IncludableMeaning` | local-browser-agent/apps/extension/src/dom-normalizer.ts:61-69 | the includable nodes are exactly those the mode keeps, in document order |
| `DomNormalizer.ModesAreExact` | local-browser-agent/apps/extension/src/dom-normalizer.ts:7-8 | what each mode keeps: everything, the page's regions and headings, or those and its controls, by tag or by a role that mentions one of nine words |
| `DomNormalizer.AllIncludableMeaning` | local-browser-agent/apps/extension/src/dom-normalizer.ts:58-69 | the includable nodes of a snapshot are those to keep, document by document and each in its order |
| `DomNormalizer.NormalizeDocument` | local-browser-agent/apps/extension/src/dom-normalizer.ts:58-103 | keeps the first includable nodes the budget allows, each below its nearest kept ancestor |
| `DomNormalizer.NormalizeDocuments` | local-browser-agent/apps/extension/src/dom-normalizer.ts:18-110 | the loop over the documents, under one budget: together they keep what it allows, and links are right in each |
| `DomNormalizer.NormalizeSnapshot` | local-browser-agent/apps/extension/src/dom-normalizer.ts:10-120 | across documents the output is the first `maxNodes` includable nodes in order, with exact totals and flag |
| `DomNormalizer.DroppedIsReported` | local-browser-agent/apps/extension/src/dom-normalizer.ts:117 | when an includable node was dropped, `truncated` is set exactly when the budget is not negative |
| `DomNormalizer.AncestryIsPreserved` | local-browser-agent/apps/extension/src/dom-normalizer.ts:137-145 | one output node is an ancestor of another exactly when their source nodes are |
| `Json.TextDeterminesValue` | scripts/agentmemory-portability.mjs:54-56 | different JSON values have different texts |
| `JsonText.TextIsExact` | scripts/agentmemory-portability.mjs:54-56 | the text of a value is that of its parts, with the escapes and separators written out |
| `JsonText.NumbersAreAllowed` | scripts/agentmemory-portability.mjs:54-56 | every number that JSON can write is among the numbers of the model |
| `CanonicalJson.SameStringIffEquivalent` | scripts/agentmemory-portability.mjs:54-60 | two values have the same stable string exactly when they are equal up to field order at every depth |
| `CanonicalJson.CanonicalIsIdempotent` | scripts/agentmemory-portability.mjs:424-428 | canonicalising twice is canonicalising once |
| `CanonicalJson.CanonicalIsEquivalent` | scripts/agentmemory-portability.mjs:424-428 | the canonical form differs from the value in field order only |
| `CanonicalJson.ArrangeForgetsOrder` | scripts/agentmemory-portability.mjs:427 | the rebuilt object depends only on which fields there are, although index keys are enumerated first |
| `CanonicalOrder.ArrangedInOrder` | scripts/agentmemory-portability.mjs:427 | a canonical object has its index keys first, by number, then the others, by their characters |
| `Backup.ValidateExport` | scripts/agentmemory-portability.mjs:102-134 | exactly the problems of the export are reported, each with its count, and none exactly when it is valid; the total is exact |
| `Backup.ValidateBuckets` | scripts/agentmemory-portability.mjs:119-127 | the bucket loop skips what is no array and sums the rest |
| `Backup.CreateEnvelope` | scripts/agentmemory-portability.mjs:136-154 | an envelope is made exactly from a valid export |
| `Backup.ValidateEnvelope` | scripts/agentmemory-portability.mjs:156-173 | no error exactly when the envelope names its schema and kind and its checksum is that of the valid export it holds |
| `Backup.ValidExportIsExact` | scripts/agentmemory-portability.mjs:102-134 | a valid export is one with which nothing is wrong, of all that can be: a version, three arrays and an object of arrays, each within its limit |
| `Backup.EnvelopeIsExact` | scripts/agentmemory-portability.mjs:156-173 | an envelope is valid exactly when its fields, looked up by name, are those the format asks for |
| `Backup.CreatedEnvelopeValidates` | scripts/agentmemory-portability.mjs:136-173 | every envelope created from a valid export validates |
| `Backup.FieldOrderIsInvisible` | scripts/agentmemory-portability.mjs:156-173 | reordering fields anywhere in an envelope never changes whether it validates |
| `Backup.ChecksumProtectsTheExport` | scripts/agentmemory-portability.mjs:156-165 | another export under the same envelope validates exactly when it is the same data up to field order, unless the digest collides |
| `LspFraming.SplittingIsInvisible` | server/src/infrastructure/lsp/stdio-lsp-client.ts:136-161 | decoding a stream in two pieces is decoding it whole, unless the first piece was given up |
| `LspFraming.NextTurn` | server/src/infrastructure/lsp/stdio-lsp-client.ts:138-152 | one turn of the loop takes a body off the front and makes the buffer shorter, waits, or gives the buffer up |
| `LspFraming.Terminator` | server/src/infrastructure/lsp/stdio-lsp-client.ts:139 | the first header terminator |
| `LspFraming.ChunkingIsInvisible` | server/src/infrastructure/lsp/stdio-lsp-client.ts:136-161 | a stream that is never given up decodes the same for every chunking |
| `LspFraming.ChunkingShowsOnlyAfterRejection` | server/src/infrastructure/lsp/stdio-lsp-client.ts:142-147 | exactly when the loss of the buffer makes a chunk boundary visible |
| `LspFraming.DrainOfWrittenPrefix` | server/src/infrastructure/lsp/stdio-lsp-client.ts:136-161 | any prefix of a written stream gives the bodies of its whole frames and keeps the rest |
| `LspFraming.FramingRoundTrips` | server/src/infrastructure/lsp/stdio-lsp-client.ts:136-161 | for any bodies and any chunking exactly the complete bodies are delivered, in order, and only the incomplete suffix is kept |
| `LspFraming.EverythingIsDelivered` | server/src/infrastructure/lsp/stdio-lsp-client.ts:195-199 | the whole stream delivers every body |
| `LspHeaders.LengthIsExact` | server/src/infrastructure/lsp/stdio-lsp-client.ts:142-148 | a header gives the number of the first of its lines that is a Content-Length field, in any case and wherever it stands, and none when there is no such line |
| `LspHeaders.TerminatorIsABlankLine` | server/src/infrastructure/lsp/stdio-lsp-client.ts:139 | a header ends at a blank line |
| `LspHeaders.AnyFrameIsTaken` | server/src/infrastructure/lsp/stdio-lsp-client.ts:139-152 | whatever other fields its header has, a frame is taken as soon as its whole body is there and not before |
| `LspRequests.EveryRunIsExact` | server/src/infrastructure/lsp/stdio-lsp-client.ts:55-74 | over every run ids stay fresh, the table holds exactly the unsettled requests with armed timers, and each request settles at most once |
| `LspRequests.EverySettlementIsExplained` | server/src/infrastructure/lsp/stdio-lsp-client.ts:55-74 | each settlement is made by the request's own response, its timeout, its write failure or a bulk rejection |
| `LspRequests.LateAnswersChangeNothing` | server/src/infrastructure/lsp/stdio-lsp-client.ts:183-193 | late, duplicate and foreign answers leave the state alone |
| `LspRequests.AnsweringTwiceIsAnsweringOnce` | server/src/infrastructure/lsp/stdio-lsp-client.ts:183-193 | the same message twice is the message once |
| `LspRequests.AnswerSettlesItsRequest` | server/src/infrastructure/lsp/stdio-lsp-client.ts:184-191 | in every run an answer to a request that is not settled adds exactly its settlement, resolved with the result or rejected with the error, and leaves neither entry nor timer |
| `LspRequests.TimerSettlesItsRequest` | server/src/infrastructure/lsp/stdio-lsp-client.ts:60-63 | a timer that fires while its request is open adds exactly that rejection |
| `LspRequests.RequestIsOpenWhenWritten` | server/src/infrastructure/lsp/stdio-lsp-client.ts:55-73 | a request is open with a timer once it is written, and rejected at once when the write throws |
| `LspRequests.ServerMessagesSettleNothing` | server/src/infrastructure/lsp/stdio-lsp-client.ts:163-183 | requests and notifications of the server settle nothing |
| `LspRequests.RejectAllCancelsTheOpen` | server/src/infrastructure/lsp/stdio-lsp-client.ts:206-212 | a bulk rejection settles every open request with its reason |
| `LspRequests.ClosingSettlesEverything` | server/src/infrastructure/lsp/stdio-lsp-client.ts:206-212 | after a bulk rejection each id ever handed out has exactly one settlement |
| `LspClient.StdioLspClient.SendRequest` | server/src/infrastructure/lsp/stdio-lsp-client.ts:55-74 | a new id, a pending entry and a timer, undone when the write throws |
| `LspClient.StdioLspClient.OnTimeout` | server/src/infrastructure/lsp/stdio-lsp-client.ts:60-63 | a timer that fires removes and rejects its own request |
| `LspClient.StdioLspClient.RejectPending` | server/src/infrastructure/lsp/stdio-lsp-client.ts:206-212 | the loop rejects all pending requests and clears their timers |
| `LspClient.StdioLspClient.ReadFrame` | server/src/infrastructure/lsp/stdio-lsp-client.ts:138-152 | one turn of the decode loop on the buffer |
| `LspClient.StdioLspClient.HandleMessage` | server/src/infrastructure/lsp/stdio-lsp-client.ts:163-193 | the table moves by the specification's step |
| `LspClient.StdioLspClient.OnData` | server/src/infrastructure/lsp/stdio-lsp-client.ts:136-161 | the decode loop keeps the rest and applies every complete body in order |
| `Readiness.LspSymbolSession.OnNotification` | server/src/adapters/semantic/lsp-symbol-session.ts:128-140 | a notification starts a new generation or schedules readiness |
| `Readiness.LspSymbolSession.StartWarming` | server/src/adapters/semantic/lsp-symbol-session.ts:98-105 | only a cold session begins to warm and to listen |
| `Readiness.LspSymbolSession.Schedule` | server/src/adapters/semantic/lsp-symbol-session.ts:338-348 | replaces the quiet-period timer, or finishes at once without a quiet period |
| `Readiness.LspSymbolSession.Finish` | server/src/adapters/semantic/lsp-symbol-session.ts:350-360 | the warm-up up to its first await: nothing, a probe, or ready |
| `Readiness.LspSymbolSession.BecomeReady` | server/src/adapters/semantic/lsp-symbol-session.ts:328-336 | ready, with both timers cleared, unless closed |
| `Readiness.LspSymbolSession.OnTimer` | server/src/adapters/semantic/lsp-symbol-session.ts:346 | a timer finishes the generation it was set for |
| `Readiness.LspSymbolSession.OnSymbols` | server/src/adapters/semantic/lsp-symbol-session.ts:361-374 | the warm-up after its symbols: caches and goes on only in its own generation |
| `Readiness.LspSymbolSession.OnEvidence` | server/src/adapters/semantic/lsp-symbol-session.ts:366-384 | the warm-up after its evidence, in its own generation only |
| `Readiness.LspSymbolSession.OnProbeError` | server/src/adapters/semantic/lsp-symbol-session.ts:375-382 | a failed probe is retried only while its generation is warming |
| `Readiness.LspSymbolSession.OnWarmupTimer` | server/src/adapters/semantic/lsp-symbol-session.ts:157-161 | a session still warming when the time is up fails |
| `Readiness.LspSymbolSession.GiveUp` | server/src/adapters/semantic/lsp-symbol-session.ts:387-393 | a failure is recorded unless closed |
| `Readiness.LspSymbolSession.BeginClose` | server/src/adapters/semantic/lsp-symbol-session.ts:107-112 | closing clears timers and stops listening |
| `Readiness.ReadyIsNeverStale` | server/src/adapters/semantic/lsp-symbol-session.ts:328-385 | in every reachable state, with any outstanding probes and timers, ready implies that the last readiness notification said ready |
| `Readiness.ReadinessIsNotForgotten` | server/src/adapters/semantic/lsp-symbol-session.ts:338-385 | a session still warming after "ready" has a probe or timer of the current generation under way |
| `ReadinessReached.ReadinessIsReached` | server/src/adapters/semantic/lsp-symbol-session.ts:338-385 | whatever happened before, a session that is warming after "ready" becomes ready by waiting and by answers alone, in at most three steps, whatever the answers are |
| `ReadinessReached.StepsAreExact` | server/src/adapters/semantic/lsp-symbol-session.ts:98-163 | every step, told field by field: what changes the mode, the generation, the timers, the requests under way and the caches, and what does not |
| `Readiness.ClosedIsAbsorbing` | server/src/adapters/semantic/lsp-symbol-session.ts:107-116 | a closed session stays closed whatever still comes in |
| `LineStream.LimitsOf` | server/src/adapters/filesystem/ripgrep-filesystem-context-adapter.ts:175-176 | given limits are kept, down to one match and 32 KiB; the defaults are 20 matches and 4 MiB |
| `LineStream.StreamingCommand.Append` | server/src/adapters/filesystem/ripgrep-filesystem-context-adapter.ts:211-227 | one line under both limits |
| `LineStream.StreamingCommand.StopEarly` | server/src/adapters/filesystem/ripgrep-filesystem-context-adapter.ts:204-209 | stopping happens once and drops what is pending |
| `LineStream.StreamingCommand.OnClose` | server/src/adapters/filesystem/ripgrep-filesystem-context-adapter.ts:248-249 | the unterminated last line is taken at the end |
| `LineStream.StreamingCommand.OnData` | server/src/adapters/filesystem/ripgrep-filesystem-context-adapter.ts:231-242 | the loop over line feeds is the fold over the complete lines, with the cut-off for an oversized rest |
| `LineStream.OversizedNeverFits` | server/src/adapters/filesystem/ripgrep-filesystem-context-adapter.ts:241 | a rest over the limit belongs to a line that cannot fit, so stopping early loses nothing |
| `LineStream.ChunkingIsInvisible` | server/src/adapters/filesystem/ripgrep-filesystem-context-adapter.ts:204-258 | for any chunking the collected output is that of the whole text, with its unterminated last line |
| `LineStream.OutputIsLongestPrefix` | server/src/adapters/filesystem/ripgrep-filesystem-context-adapter.ts:211-227 | the output is the longest prefix of normalised lines within the byte limit that ends at the last allowed match |
| `Utf8.ByteLengthIsExact` | server/src/adapters/filesystem/ripgrep-filesystem-context-adapter.ts:209-224 | the bytes that are counted are those of the text in UTF-8 |
| `TwoPassSelection.SelectTwoPass` | server/src/adapters/filesystem/ripgrep-filesystem-context-adapter.ts:349-371 | both passes together cut the first item per file, then the others, to the limit |
| `TwoPassSelection.FirstPass` | server/src/adapters/filesystem/ripgrep-filesystem-context-adapter.ts:356-363 | the first item of each file, or as many as fit |
| `TwoPassSelection.SecondPass` | server/src/adapters/filesystem/ripgrep-filesystem-context-adapter.ts:365-370 | the remaining items, as many as fit |
| `TwoPassSelection.EveryFileComesFirst` | server/src/adapters/filesystem/ripgrep-filesystem-context-adapter.ts:356-370 | no file is shown twice before every file is shown |
| `TwoPassSelection.SelectionIsAPermutation` | server/src/adapters/filesystem/ripgrep-filesystem-context-adapter.ts:356-370 | with distinct ids nothing is lost or repeated |
| `TwoPassSelection.SelectionIsExact` | server/src/adapters/filesystem/ripgrep-filesystem-context-adapter.ts:356-370 | the selection is, cut to the limit, the items before which no item is of the same file, in rank order, then the items that share no id with one of those, in rank order |
| `CacheKeys.KeyIsExact` | server/src/application/context/context-hot-runtime.ts:158-170 | without NUL in a path, two requests share a key if and only if they are alike, at the same revision, but for changed files that read the same once sorted and joined |
| `CacheKeys.KeyIsInjective` | server/src/application/context/context-hot-runtime.ts:158-170 | when no path holds a separator, equal keys mean equal requests, up to the order of the changed files, at equal revisions |
| `CacheKeys.KeyForgetsFileOrder` | server/src/application/context/context-hot-runtime.ts:160 | the order of changed files does not matter |
| `CacheKeys.NulInFileCollides` | server/src/application/context/context-hot-runtime.ts:160-169 | a changed file that ends in NUL, whatever its path, is mistaken for a longer task |
| `CacheKeys.UnitInFileCollides` | server/src/application/context/context-hot-runtime.ts:161-166 | a changed file that holds U+001F is mistaken for two files |
| `CacheKeys.NulInRootCollides` | server/src/application/context/context-hot-runtime.ts:158-169 | a root that holds NUL is mistaken for another root at another revision |
| `CacheKeys.EvictionIsExact` | server/src/application/context/context-hot-runtime.ts:179-182 | the prefix of a root selects exactly the keys of that root |
| `RevisionCache.WorkspaceRevisionTracker.EnsureState` | server/src/application/context/context-hot-runtime.ts:50-70 | the first look at a root begins at generation zero, cacheable when it can be watched |
| `RevisionCache.WorkspaceRevisionTracker.Bump` | server/src/application/context/context-hot-runtime.ts:40-43 | the generation of the root grows by one |
| `RevisionCache.WorkspaceRevisionTracker.OnChange` | server/src/application/context/context-hot-runtime.ts:56-58 | a change of the files grows the generation |
| `RevisionCache.WorkspaceRevisionTracker.OnError` | server/src/application/context/context-hot-runtime.ts:59-62 | a broken watcher ends caching for the root |
| `RevisionCache.WorkspaceRevisionTracker.Close` | server/src/application/context/context-hot-runtime.ts:45-48 | all roots are forgotten |
| `RevisionCache.RevisionAwarePort.Begin` | server/src/application/context/context-hot-runtime.ts:82-89 | a search up to its await: uncacheable, hit or miss |
| `RevisionCache.RevisionAwarePort.End` | server/src/application/context/context-hot-runtime.ts:90-92 | the result is stored only when the revision is still the one read before |
| `RevisionCache.RevisionAwarePort.StoreEntry` | server/src/application/context/context-hot-runtime.ts:99-103 | the entry becomes the newest, and the limit is kept |
| `RevisionCache.RevisionAwarePort.TrimCache` | server/src/application/context/context-hot-runtime.ts:184-190 | the loop drops the oldest entries until the limit holds |
| `RevisionCache.RevisionAwarePort.Invalidate` | server/src/application/context/context-hot-runtime.ts:179-182 | the loop over keys evicts the root |
| `CacheAgreement.NextIsConsistent` | server/src/application/context/context-hot-runtime.ts:82-103 | every step, in any order, keeps entries and searches in flight consistent with the content they were read from |
| `CacheAgreement.EveryHitAgrees` | server/src/application/context/context-hot-runtime.ts:82-103 | in every interleaving of searches, changes, evictions and trims with the tracker open, a hit is what the provider answers now |
| `CacheAgreement.EvictionRemovesExactlyTheRoot` | server/src/application/context/context-hot-runtime.ts:179-182 | in every run, evicting a root removes exactly the entries stored for it |
| `CacheRetention.AnswersAreHit` | server/src/application/context/context-hot-runtime.ts:82-104 | in every run an answer that came while its root stayed at one revision is given to each later search for the request, as long as the root stays there, is not evicted, and fewer than the limit of other answers are stored |
| `CacheRetention.SecondSearchIsHit` | server/src/application/context/context-hot-runtime.ts:82-93 | for a root that can be watched, the first search asks the provider and the second gets its answer |
| `CacheRetention.FlightsAreExact` | server/src/application/context/context-hot-runtime.ts:82-93 | a search is under way from a start that finds nothing to its end, and is answered once |
| `CacheRetention.StoreIsExact` | server/src/application/context/context-hot-runtime.ts:99-103 | a store makes its entry the newest and drops the oldest over the limit, and no more |
| `CacheRetention.TrackingIsExact` | server/src/application/context/context-hot-runtime.ts:34-70 | when a root moves to a new generation, when it stops being cacheable, and when it is forgotten |
| `CacheRetention.EvictionsAreExact` | server/src/application/context/context-hot-runtime.ts:179-182 | an eviction removes exactly the keys that begin with the root and NUL |
| `CacheAgreement.ClosingIsHarmlessOnlyWhenIdle` | server/src/application/context/context-hot-runtime.ts:45-48 | from any consistent state, every hit in every run after `close` agrees with the provider if and only if nothing was cached and no search was in flight |
| `CacheAgreement.FlightIsHitAfterwards` | server/src/application/context/context-hot-runtime.ts:84-94 | an answer that was on its way at `close` can be stored and hit over changed content |
| `EventStore.RuntimeEventStore.Init` | server/src/runtime/runtime-event-store.ts:39-58 | memory and next number are those of the sorted, parsable, valid lines |
| `EventStore.RuntimeEventStore.Append` | server/src/runtime/runtime-event-store.ts:60-78 | a written event goes to file and memory, a failed write only uses up its number |
| `EventLines.SnapshotIsExact` | server/src/runtime/runtime-event-store.ts:103-118 | an event carries what its input says; empty names are left out, and without a correlation of its own, trimmed, it begins one |
| `EventLines.LoadedIsExact` | server/src/runtime/runtime-event-store.ts:44-55 | loading gives exactly what the lines that are not blank are read as, sorted by number, equal numbers in the order of their lines |
| `EventLines.NumberingIsExact` | server/src/runtime/runtime-event-store.ts:57 | the next number is one more than the greatest that was read, and one when nothing was |
| `EventLines.LinesAreExact` | server/src/runtime/runtime-event-store.ts:46 | lines end at a line feed, with or without a carriage return |
| `EventStore.RuntimeEventStore.Find` | server/src/runtime/runtime-event-store.ts:80-90 | the answer is the last events in memory, within the limit and in order, that are of the correlation, session, conversation and kind asked for and later than the number given; a wanted event is left out only when the limit is reached, and then it is older than all that are shown |
| `EventStore.Limit` | server/src/runtime/runtime-event-store.ts:81 | the limit of a query is what was asked for between 1 and 10,000, the nearer end outside, and 500 when nothing was asked |
| `EventStore.FilterTwice` | server/src/runtime/runtime-event-store.ts:82-87 | two filters in a row are one |
| `EventStore.CleanFileRecovers` | server/src/runtime/runtime-event-store.ts:39-58 | a cleanly ended file recovers exactly its log |
| `EventStore.TornTailRecovers` | server/src/runtime/runtime-event-store.ts:46-57 | a torn last line loses that event only, and the store continues above the log |
| `EventStore.CrashLosesOnlyTheTail` | server/src/runtime/runtime-event-store.ts:39-58 | whatever part of the file is left, a restart recovers exactly the events whose lines are wholly in it |
| `EventStore.EveryRunShowsItsLog` | server/src/runtime/runtime-event-store.ts:39-78 | over any run of appends, failed or not, and restarts: numbers strictly increase, the file is the log, memory is its last `maxInMemory` events |
| `EventStore.AppendsKeepTheirOrder` | server/src/runtime/runtime-event-store.ts:60-78 | whichever writes fail, a run of appends adds exactly the written events to the log, and each append uses up one number |
| `EventStore.SuccessesAreTheWritten` | server/src/runtime/runtime-event-store.ts:60-78 | those are the snapshots of exactly the written inputs, in the order of their appends, each under the number of its append |
| `CallTree.ActionExecutionPipeline.Begin` | server/src/runtime/action-execution-pipeline.ts:50-67 | a fresh span under the current one, in its correlation, with a started event |
| `CallTree.ActionExecutionPipeline.Complete` | server/src/runtime/action-execution-pipeline.ts:82-87 | the terminal event of a returned or failed action |
| `CallTree.ActionExecutionPipeline.Notify` | server/src/runtime/action-execution-pipeline.ts:122-126 | observers are told in order up to the first that throws at once |
| `CallTree.ActionExecutionPipeline.Conclude` | server/src/runtime/action-execution-pipeline.ts:88-113 | observers are told up to the first that throws; a throw after a returned action appends a failure |
| `CallTree.LogDeterminesCallTree` | server/src/runtime/action-execution-pipeline.ts:50-116 | for any interleaving the tree rebuilt from span and parent ids is the tree of calls |
| `CallTree.OneStart` | server/src/runtime/action-execution-pipeline.ts:60-67 | each execution has one started event, before everything else of it and of its calls |
| `CallTree.TerminalEvents` | server/src/runtime/action-execution-pipeline.ts:82-112 | a settled execution has two terminal events if and only if in the run an observer threw at once after its action had returned, and one otherwise; no event of its calls follows the first |
| `CallTree.MarkTellsTheRun` | server/src/runtime/action-execution-pipeline.ts:88-113 | an execution is marked exactly when the run has a step at which its observer threw after the terminal event of its returned action |
| `CallTree.CorrelationCoversTheTree` | server/src/runtime/action-execution-pipeline.ts:50-55 | two events share a correlation exactly when their executions belong to one tree |
| `CallTree.ThrowingObserverEndsTwice` | server/src/runtime/action-execution-pipeline.ts:88-112 | a run that leaves a failure behind a completed call |
| `RecoveredTree.RestartRebuildsTheTree` | server/src/runtime/action-execution-pipeline.ts:60-112 | with the file cut off anywhere, and whichever writes of other inputs failed, what a restart recovers is what the pipeline had logged at an earlier moment of the run, and rebuilds the tree of calls of that moment; from the whole file, that of the whole run |
| `RecoveredTree.SubmittedReadsBack` | server/src/runtime/runtime-event-store.ts:103-118 | the pipeline's events, submitted among inputs of other kinds, are read back from the stored snapshots in order |
| `Pairing.PairingManager.Pair` | local-browser-agent/apps/server/src/security/pairing.ts:45-69 | the whole new state and result of a pairing attempt |
| `Pairing.PairingManager.CurrentCode` | local-browser-agent/apps/server/src/security/pairing.ts:31-37 | an expired code is renewed, a live one returned |
| `Pairing.PairingManager.RotateCode` | local-browser-agent/apps/server/src/security/pairing.ts:39-43 | the code is replaced |
| `Pairing.PairingManager.RecordPairingFailure` | local-browser-agent/apps/server/src/security/pairing.ts:112-122 | window, count and block after a failure |
| `Pairing.PairingManager.Revoke` | local-browser-agent/apps/server/src/security/pairing.ts:85-87 | the session is gone, and the result tells whether it was there |
| `Pairing.PairingManager.Authenticate` | local-browser-agent/apps/server/src/security/pairing.ts:71-83 | cleanup, then the first live session with the token's digest; answers with a session on file exactly when there is one of that extension and origin, that digest and a later expiry |
| `Pairing.PairingManager.CleanUp` | local-browser-agent/apps/server/src/security/pairing.ts:124-132 | drops exactly expired sessions and stale attempts |
| `Pairing.AuthenticationIsExact` | local-browser-agent/apps/server/src/security/pairing.ts:71-83 | a call with a token is answered with a session on file that the token opens, and with nothing exactly when there is none |
| `PairingAccess.TokensAreExact` | local-browser-agent/apps/server/src/security/pairing.ts:45-87 | in every run a token lets an extension in exactly when an earlier pairing of it gave out a token of the same digest, whose session was not revoked since and is not over |
| `PairingAccess.SessionsComeFromPairing` | local-browser-agent/apps/server/src/security/pairing.ts:45-87 | in every run a session that is still good is on file exactly when an earlier pairing opened it and no later call revoked it |
| `PairingAccess.PairingIsExact` | local-browser-agent/apps/server/src/security/pairing.ts:45-69 | an unblocked origin pairs with the code that counts and with no other |
| `PairingAccess.SuccessOpensASession` | local-browser-agent/apps/server/src/security/pairing.ts:53-68 | a success adds its session, drops those that had expired, changes the code and forgives the origin |
| `PairingAccess.FailureIsCounted` | local-browser-agent/apps/server/src/security/pairing.ts:112-122 | a failure counts within a minute of the first, and from the fifth on blocks for five minutes |
| `PairingAccess.ShownCodesAreExact` | local-browser-agent/apps/server/src/security/pairing.ts:31-43 | the code shown is the one on file while it lasts, and a new one afterwards or when it is changed |
| `PairingAccess.OriginCheckIsExact` | local-browser-agent/apps/server/src/security/pairing.ts:135-138 | only an extension id of 32 letters from a to p, under its own origin, is let on |
| `PairingAccess.OnlyOldAttemptsAreForgotten` | local-browser-agent/apps/server/src/security/pairing.ts:124-132 | failed attempts are forgotten exactly when their block and their minute are over |
| `PairingAccess.RevokingIsExact` | local-browser-agent/apps/server/src/security/pairing.ts:85-87 | revoking removes the sessions of that id and no other, and tells whether there was one |
| `PairingBounds.FailureRateBound` | local-browser-agent/apps/server/src/security/pairing.ts:105-122 | from a fresh origin, a window that is over or one with four failures, failures without success within D ms number at most 5 + 4 floor(D / 60000) |
| `PairingBounds.FailureRateBoundIsExact` | local-browser-agent/apps/server/src/security/pairing.ts:105-122 | from any state a run can reach, that bound holds for every run if and only if the origin cannot pair at all or it has no failure on file, or its window is over or has seen at least four |
| `PairingBounds.FailureRateBoundAfterAnyRun` | local-browser-agent/apps/server/src/security/pairing.ts:105-122 | after any run of a new manager, failures without success within D ms number at most 8 + 4 floor(D / 60000) |
| `PairingBounds.RunStaysSane` | local-browser-agent/apps/server/src/security/pairing.ts:105-122 | after any run, successes included, an attempt on file has a window and a block that agree with its count and the clock |
| `PairingBounds.MidWindowBurst` | local-browser-agent/apps/server/src/security/pairing.ts:112-122 | from a fresh origin, eight failures within a millisecond: the second bound is attained |
| `PairingCleanup.CleanupIsUnobservable` | local-browser-agent/apps/server/src/security/pairing.ts:124-132 | an extra cleanup changes no later output if and only if no later call revokes a session still on file that had expired at the cleanup |
| `PairingCleanup.OnlyRevokeSeesCleanup` | local-browser-agent/apps/server/src/security/pairing.ts:124-132 | a run without `revoke` never shows whether there was a cleanup |
| `PairingCleanup.RevokeSeesExpiry` | local-browser-agent/apps/server/src/security/pairing.ts:85-87 | one `revoke` sees a cleanup exactly when every session it names has expired |
| `SingleFlight.AgentMemorySessionManager.OnReady` | server/src/orchestration/agentmemory-session-manager.ts:116-133 | takes the session, joins the pending creation or begins one |
| `SingleFlight.AgentMemorySessionManager.EnsureSession` | server/src/orchestration/agentmemory-session-manager.ts:113-116 | a new call for a normalised root |
| `SingleFlight.AgentMemorySessionManager.OnReconciled` | server/src/orchestration/agentmemory-session-manager.ts:173-176 | the start request goes out under a fresh id |
| `SingleFlight.AgentMemorySessionManager.OnStarted` | server/src/orchestration/agentmemory-session-manager.ts:176-197 | a started session is recorded under its root |
| `SingleFlight.AgentMemorySessionManager.OnRejected` | server/src/orchestration/agentmemory-session-manager.ts:171-182 | a creation that failed records no session |
| `SingleFlight.AgentMemorySessionManager.OnSettled` | server/src/orchestration/agentmemory-session-manager.ts:129-131 | a settled creation leaves the table of pending ones |
| `SingleFlight.AgentMemorySessionManager.OnResume` | server/src/orchestration/agentmemory-session-manager.ts:123-127 | a waiting call gets the session of its creation, or its failure |
| `SingleFlight.SessionsAreSingleFlight` | server/src/orchestration/agentmemory-session-manager.ts:113-134 | in every interleaving at most one session is started per normalised root, and each call that returns gets a started one |
| `SingleFlight.CallersShareTheSession` | server/src/orchestration/agentmemory-session-manager.ts:113-134 | two calls for one root return the same session |
| `SingleFlightOutcome.CallersGetTheOutcome` | server/src/orchestration/agentmemory-session-manager.ts:123-134 | in every run a waiting call returns the started session of its root when the creation it waited for succeeded, and throws when that failed; there is no third way |
| `SingleFlightOutcome.CallsSucceed` | server/src/orchestration/agentmemory-session-manager.ts:113-134 | whatever happened before, a new call that meets no failure returns a session of its normalised root |
| `SingleFlightOutcome.SessionsAreReused` | server/src/orchestration/agentmemory-session-manager.ts:117-121 | a session on file is returned at once, and nothing is created |
| `SingleFlightOutcome.IdsStayApart` | server/src/orchestration/agentmemory-session-manager.ts:173-182 | in every run the requests to start go out under different ids |
| `SessionRecord.SessionState.PersistToolCall` | server/src/orchestration/agentmemory-session-manager.ts:220-229 | counters, task and files of one observed tool call |
| `SessionRecord.SessionState.PersistDecision` | server/src/orchestration/agentmemory-session-manager.ts:250-260 | without a decision or its reason it throws and changes nothing; otherwise counter, task and files of the decision |
| `SessionRecord.SessionState.PersistImprovement` | server/src/orchestration/agentmemory-session-manager.ts:276-286 | without a candidate or component it throws and changes nothing; otherwise task and files of the improvement |
| `SessionRecord.SessionState.AddTask` | server/src/orchestration/agentmemory-session-manager.ts:361-365 | a new trimmed title is added while there is room |
| `SessionRecord.SessionState.AddFiles` | server/src/orchestration/agentmemory-session-manager.ts:226-229 | the loop with its limit adds the first new trimmed names |
| `SessionRecord.CountsAddUp` | server/src/orchestration/agentmemory-session-manager.ts:220-225 | tool counts sum to the observations, and each counts the calls of its tool |
| `SessionRecord.CountersAreExact` | server/src/orchestration/agentmemory-session-manager.ts:220-256 | the counters are the numbers of observations, of failures among them, and of decisions given with a reason |
| `SessionRecord.RememberedIsTold` | server/src/orchestration/agentmemory-session-manager.ts:220-286 | whatever is remembered was told, trimmed and labelled; while there is room, all that was told is remembered |
| `SessionRecord.ListsKeepTheFirst` | server/src/orchestration/agentmemory-session-manager.ts:361-365 | tasks and files are exactly the first different ones given, within their limits |

## Left out

- EventStore.EveryRunShowsItsLog: assumes event numbers below 2^53, from where on JavaScript numbers are not exact, and that no beginning of an event's line parses.
- EventStore.TornTailRecovers: says nothing about appending after a torn line, where the next line joins it.
- CallTree.LogDeterminesCallTree: assumes that writes succeed and that no request names a parent or correlation of its own; a failed write leaves its event out of the log.
- CacheKeys.KeyIsInjective: paths hold neither NUL nor U+001F. `CacheKeys.KeyIsExact` says which requests share a key when a path holds U+001F; for a path that holds NUL there are the two collisions, and no exact condition.
- RecoveredTree.RestartRebuildsTheTree: assumes that every event of the pipeline itself was written, in the order of the appends, by a store that began with an empty file.
- LspFraming.FramingRoundTrips: header white space is the ASCII part of what the source's pattern accepts.
- StableSelector.SelectorIsComplete: selectors are syntax trees, so the text of escapes and its parsing are not modelled; quoting is modelled by what it does to the value.
- SingleFlight.SessionsAreSingleFlight: covers runs before `close`; closing, reconciliation of stale sessions and the operation queue's order are not modelled.
- String lengths are counted in code points, where JavaScript counts UTF-16 units; texts outside the basic plane are measured differently by the limits.
- Provider caps are computed in exact arithmetic; scores are reals, so rounding of floating point is not modelled.
- Text heuristics are arbitrary functions: scoring, path hints, normalisation of content, redaction, sensitivity, symbol ranking and match recognition.
- Lower case is that of the ASCII letters.
- `localeCompare` is an arbitrary total order on ids.
- Sockets, processes, timers, the file system, digests and random sources are abstract steps, parameters or fresh ids.
- The record map conversion, column ratios and the ready-made record maps of a Notion page.
- Bounds, styles, text and visibility of DOM nodes; of the layout nothing but the tree is kept.
- The marks a cache hit carries, and the recall and code-graph caches. The cache class is generic in its result and stands for both revision-aware ports.
- Extracted attributes, URLs and truncated texts of a scrape.
- The contents of memory observations, summaries and decisions, and the sufficiency score of a rerank.
- Symbol queries of a language-server session beyond what they store in its cache, and its diagnostics.
