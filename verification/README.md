# Lexme, verified

A Dafny model of the reasoning core of Lexme, a legal assistant over Spanish tenancy law, and proofs
of what it promises. The language model, the retrievers, `difflib`, Unicode NFC and the date parser are
parameters about which only their contracts are used, so every result holds for whatever they answer.

## What is modelled

**Citations that are literal twice.** A citation is verified at runtime (`Verifier`): its text is
normalized, split at its ellipses and searched greedily in the block it names; failing that it is snapped
onto the block or re-anchored to another one. The evaluation guardrail (`Guardrail`) knows nothing of that
verdict: it reads the reference back from its token, splits the *printed* text again and searches again.
That the second always agrees with the first needs the printer and the splitter to undo each other through
normalization (`Reparse`, `Segments`), the greedy search to be complete (`Placement`), snapped spans to be
ordered and disjoint (`Snap`) and the memo to be invisible. Two exceptions are real: a repaired quote made
only of ellipsis marks re-splits to nothing, and what is re-anchored to a block whose id does not read back
from its token is looked up elsewhere or nowhere. Both are exact conditions, shown by example.

**The Mode 1 graph.** `Mode1Graph` is a transition system over the nodes route, plan, clarify, pause,
retrieve, critique, synthesize, gate and notify. `Mode1Loop` has the invariant every run keeps, `Mode1Safety`
what follows for whole runs, `Mode1Branches` and `Mode1Outcomes` how its branches and the run itself end,
`Mode1Literality` that the citations any run displays pass the guardrail, and `Mode1Run` the run as a class
with its checkpoint, proved to take exactly those steps.

**The noise of a metric.** `Repetition` summarizes repetitions into bands and classifies a move between two
runs; `Drift` measures over an archive the allowance that `Compare` then uses; `Envelope` pools the runs of
a configuration. The allowance is proved to be exactly the one that makes comparison sound on that archive.

**The Mode 2 risk map.** `RiskMaps`, `Classification` and `CrossCheck` build the map from any mapping reply
and any verdicts: no clause is silenced, every right is addressed or white, and with a validated checklist
(`ChecklistValidation`) everything shown passes `Mode2Guardrail` but for those exceptions. `Assembler` lays
synthetic contracts, `Anchoring` and `Segmentation` place clauses against them, `Mode2Metrics` and
`Mode2Suite` count. `Joining` and `Flattening` say what normalization makes of such a contract,
`BoundaryShift` what that costs.

**The rest.** `Sse` is the event stream between the API and the page, `Fusion` reciprocal rank fusion,
`Notices` and `Corpus` point-in-time redactions, `RefsetStore` the review filter before the reference set.

Loops, dictionaries and mutable objects of the source are methods and classes proved against functions; the
laws are lemmas about those functions. A dictionary whose order matters is a sequence of keys beside a map.

## Where the code and its documentation disagree

- `api/src/lexme/mode1/graph/planner.py:91-97` promises at least one critical sub-query. A reply with
  peripheral ones only leaves none: `Mode1Safety.CriticalIffReported` is the exact condition.
- `api/src/lexme/eval/mode2/runner.py:53-60` says anchoring lands on the reference's own coordinates, where a
  perfect segmentation would be credited in full (`Assembler.OwnSpansAreDelimited`). Clauses are anchored in
  the normalized document and references index the assembled one, which is never normal: clause `i`, counted
  from zero, anchors `i` characters early, or `i + 1` under a header, so its own anchor delimits it exactly
  when its text has nine characters for each one lost (`BoundaryShift.PerfectProposalIsShifted`). A shorter
  one is missed or, once the loss outruns the next heading line, may be credited with a later clause's
  finding (`BoundaryShift.CreditedIff`); both happen (`BoundaryShift.LateClauseIsMissed`,
  `BoundaryShift.LateClauseIsMisread`).
- Drift reads a run's published value where comparison reads the median of a one-repetition band
  (`api/src/lexme/eval/cli.py:439-464`, `api/src/lexme/eval/compare.py:150-157`). On every artifact the
  harness writes the two agree; on one where they do not, soundness fails (`Compare.IncoherentArchiveFails`).
- `api/src/lexme/refset/store.py:41-53` persists whatever status it is given, not only a pending one; writing
  an accepted candidate is exactly what puts the set out of step (`RefsetStore.ApplyKeepsConsistent`).

## Assumptions

- `Typography.IsNormalForm`: NFC is idempotent, substrings of NFC text are NFC, and on either side of a
  space, a line break or one of a few punctuation marks, which never compose, NFC works apart
  (section 1.4 of UAX #15).
- `Snap.IsMatcher`: matching blocks are equal runs, strictly increasing and disjoint in both texts; the ratio is
  twice the matched characters over all characters.
- The results on perfect proposals take clauses whose headings and texts are normal already, and whose texts
  are long enough to anchor and do not occur before their own place.
- The analysis and the guardrail of Mode 2 read the corpus at the same date.

## Model

| member | source | states |
|---|---|---|
| `Typography.NormalizeFixes` | api/src/lexme/verification/normalization.py:44-54 | normalization changes nothing exactly when the text is NFC, single-spaced, trimmed and in the unified quotes and dashes |
| `Typography.NormalizeIsTidy` | api/src/lexme/verification/normalization.py:44-54 | whatever the text, its normalization is NFC, single-spaced, trimmed and unified |
| `Typography.CharactersUnify` | api/src/lexme/verification/normalization.py:20-54 | which characters normalization reads as a double quote, a single one or a dash; any other is itself |
| `Typography.NormalizeKeepsInk` | api/src/lexme/verification/normalization.py:44-54 | normalization loses and adds nothing but whitespace, once characters are unified |
| `Ellipsis.SplitIsSegmentsOf` | api/src/lexme/verification/normalization.py:57-67 | marking the ellipses and splitting on the marks gives the pieces between ellipses, read directly |
| `Ellipsis.MarkIsRead` | api/src/lexme/verification/normalization.py:57-79 | a text starts with an ellipsis mark exactly when, past an opening bracket and whitespace, it has three dots |
| `Ellipsis.HasEllipsisIs` | api/src/lexme/verification/normalization.py:57-67 | a quote counts as split by an ellipsis exactly when a mark starts somewhere in it |
| `Segments.SegmentsAreClean` | api/src/lexme/verification/normalization.py:57-67 | every segment of a quote is normal, trimmed, and holds no ellipsis |
| `Segments.NoSegmentsIffOnlyMarks` | api/src/lexme/verification/normalization.py:57-67 | a text has no segment exactly when it holds nothing but whitespace and ellipsis marks |
| `Segments.RenderRoundTrip` | api/src/lexme/verification/verifier.py:154-156 | splitting the printed segments of a quote gives back exactly those segments |
| `Reparse.RenderSplits` | api/src/lexme/verification/verifier.py:154-156 | splitting any printed tidy spans gives the segments of each span, in order, none lost and none merged across a printed mark |
| `Placement.ContainsSegmentsInOrder` | api/src/lexme/verification/normalization.py:82-95 | the greedy search answers true exactly when some ordered, non-overlapping placement of all segments exists |
| `Placement.LeftmostIsEnough` | api/src/lexme/verification/normalization.py:82-95 | taking the leftmost occurrence of a segment never loses a placement of the rest |
| `Placement.ScatteredIffPlaced` | api/src/lexme/verification/normalization.py:82-95 | segments are found exactly when each has a position of its own, the positions increasing and no two segments overlapping |
| `Snap.AcceptedLength` | api/src/lexme/verification/snap.py:72-89 | a span accepted by the two thresholds has between 9/11 and 6/5 of its segment's length |
| `Snap.SnapsAreSpans` | api/src/lexme/verification/snap.py:44-82 | snapped spans are literal slices of the block, left to right and disjoint, one per segment, similar enough and of an accepted length |
| `Snap.SnapCitation` | api/src/lexme/verification/snap.py:44-61 | the cursor loop computes the recursive snap, stopping at the first segment that will not align |
| `Snap.SnapSegmentIs` | api/src/lexme/verification/snap.py:64-89 | a segment takes the stretch from its first aligned run to its last, exactly if that is nine tenths similar and within a fifth of its length |
| `Snap.NoRunNoSnap` | api/src/lexme/verification/snap.py:64-89 | a segment that shares no run with the rest of the block snaps nowhere |
| `Snap.SnapsAreChained` | api/src/lexme/verification/snap.py:44-61 | a citation snaps exactly when its segments do one after the other, each past the end of the one before |
| `BlockRefs.PrintThenParse` | api/src/lexme/blocks.py:23-38 | a reference reads back from its token exactly when its norm id holds no separator, neither id is blank and the token is not blank-edged |
| `BlockRefs.ParsedIsPrintable` | api/src/lexme/blocks.py:28-38 | whatever a token reads as prints and reads back |
| `Verifier.BlockResolver.Resolve` | api/src/lexme/verification/verifier.py:164-178 | a memoized lookup answers what a fresh reading of the corpus would, and reads no block twice |
| `Verifier.Reanchor` | api/src/lexme/verification/verifier.py:105-130 | the citation moves to another evidence block exactly when it snaps into one and only one |
| `Verifier.VerifyCitation` | api/src/lexme/verification/verifier.py:70-102 | with the memo, the branches and the loops, the verdict is the one of a memo-free reading |
| `Verifier.VerifyCitations` | api/src/lexme/verification/verifier.py:44-61 | one result per citation, in order, each as if the corpus were read afresh |
| `Verifier.ReanchoredIffOnly` | api/src/lexme/verification/verifier.py:105-130 | a citation moves exactly when one place of the evidence other than the cited block takes it and no other does, and then carries that block's token, anchor and snap |
| `Verifier.VerdictIs` | api/src/lexme/verification/verifier.py:70-130 | the verdict of every citation: which are too poor to verify, which lie in their block, which snap there, which one other block alone takes; all the rest are discarded |
| `Verifier.SurvivorIsBacked` | api/src/lexme/verification/verifier.py:70-146 | every surviving result shows ordered, disjoint literal pieces of an evidence block in force and carries that block's anchor; it changes block exactly when re-anchored |
| `Guardrail.CheckCitations` | api/src/lexme/eval/guardrail.py:86-132 | the guardrail's loop reports one violation per failing citation, in order |
| `Guardrail.ReverifyQuote` | api/src/lexme/eval/guardrail.py:135-150 | re-resolving, re-splitting and searching again gives the reason a quote fails, if it does |
| `Guardrail.PassesIffLiteral` | api/src/lexme/eval/guardrail.py:114-150 | a citation passes exactly when its token names evidence in force and the segments of its text have increasing, disjoint positions in that block |
| `Guardrail.ReasonsAre` | api/src/lexme/eval/guardrail.py:114-150 | each reason to fail, with the exact condition it is given on |
| `Guardrail.ViolationsAre` | api/src/lexme/eval/guardrail.py:86-111 | the violations are those of the failing citations, each with its reason, its token, its text and the date |
| `Guardrail.MisquoteIsRefused` | api/src/lexme/eval/guardrail.py:135-150 | a concrete citation of evidence in force, shown as verified, whose text is not there and which is refused as not literal |
| `Guardrail.SurvivorReverifies` | api/src/lexme/eval/guardrail.py:114-150 | every citation the verifier lets through that reads back from its token passes the guardrail over the same corpus, date and evidence, except exactly when the shown text is nothing but ellipses; every one but a re-anchored one reads back; a text of ellipses always fails, and a direct hit never is one |
| `Guardrail.PrintableSurvivorReverifies` | api/src/lexme/blocks.py:23-38 | over evidence whose references read back from their tokens every survivor does, and ellipses are the one exception |
| `Guardrail.VerbatimQuoteVerifies` | api/src/lexme/verification/verifier.py:70-102 | conversely, a quote printed from ordered literal pieces of an evidence block, long enough to quote, is verified directly and anchored there |
| `Guardrail.EllipsisRepairFails` | api/src/lexme/eval/guardrail.py:135-150 | a concrete citation whose repair shows only an ellipsis mark and fails as empty: the exception is real |
| `Guardrail.MisreadRepairFails` | api/src/lexme/eval/guardrail.py:114-132 | a concrete citation re-anchored to a block whose id ends in a space, which the guardrail finds in no evidence: that exception is real too |
| `Corpus.InForceIsLatest` | api/src/lexme/ingestion/repository.py:122-141 | the query finds a version not after the date and none later qualifies, and finds none only when all are later |
| `Corpus.InForceIsUnique` | api/src/lexme/ingestion/repository.py:122-141 | with one version per date the query has a single answer |
| `Corpus.ResolvedIs` | api/src/lexme/ingestion/repository.py:122-141 | a block resolves exactly when it has a version by the date, and shows the latest such version under its own labels |
| `Corpus.OneVersionPerDate` | api/src/lexme/ingestion/xml_parsing.py:78-96 | every date listed is kept once, with the last redaction listed for it, and nothing else is kept |
| `Mode1Loop.RunKeepsInvariant` | api/src/lexme/mode1/graph/builder.py:31-66 | the shape of the state at each node holds after any sequence of replies of the model, the retrievers and the user |
| `Mode1Loop.RunEnds` | api/src/lexme/mode1/graph/builder.py:31-66 | every run has ended after thirteen steps, the pause included |
| `Mode1Loop.RecordPartitions` | api/src/lexme/mode1/graph/critique.py:89-100 | a pass record splits the sub-query ids into sufficient and insufficient ones |
| `Mode1Loop.PassRulesEachOnce` | api/src/lexme/mode1/graph/critique.py:89-100 | every recorded pass rules each planned sub-query exactly once, sufficient or insufficient, and no other |
| `Mode1Loop.HistoryAppend` | api/src/lexme/mode1/graph/critique.py:49-100 | one more pass keeps the record: same ids, sufficient ones only growing, every pass but the last leaving a gap |
| `Mode1Safety.LoopRunsExactly` | api/src/lexme/mode1/graph/builder.py:62-66 | the loop runs exactly k passes, k the first that leaves no gap or else the third; the agentic delta is never negative |
| `Mode1Safety.SettledForGood` | api/src/lexme/mode1/graph/retrieval.py:15-47 | from the first retrieval on, in every continuation, the date, facts and assumptions never change, and a sufficient sub-query keeps its verdict and its evidence |
| `Mode1Safety.EvidenceIsTheLast` | api/src/lexme/mode1/graph/retrieval.py:29-47 | at every critique of every run, a sub-query not yet sufficient holds exactly what this pass retrieved for its current text, nothing accumulated |
| `Mode1Safety.RewrittenOnlyWhenInsufficient` | api/src/lexme/mode1/graph/critique.py:76-86 | a sub-query's text changes only to a non-blank reformulation given while ruling it insufficient |
| `Mode1Safety.OnePayload` | api/src/lexme/mode1/graph/presenter.py:59-132 | every ended or paused run sets exactly one payload; an answer has a verified citation and every sub-query sufficient, a partial one every critical sub-query and a declared gap; a rejection has no plan, evidence or pass |
| `Mode1Outcomes.OutcomeIs` | api/src/lexme/mode1/graph/gate.py:14-45 | in every ended run the outcome and the reason of an abstention are exactly those its evidence, its surviving citations and its gaps call for |
| `Mode1Outcomes.RejectedIffOutOfScope` | api/src/lexme/mode1/graph/router.py:52-67 | a run is rejected exactly when its question is ruled out of scope, with the router's message or the default one |
| `Mode1Outcomes.SurvivorsAreThoseKept` | api/src/lexme/mode1/graph/synthesis_node.py:76-104 | synthesis shows each proposed citation that is not discarded, once, in the order proposed |
| `Mode1Outcomes.GapsAre` | api/src/lexme/mode1/graph/presenter.py:124-132 | a partial answer declares the purpose of each peripheral sub-query left open and of no other |
| `Mode1Outcomes.CritiqueRules` | api/src/lexme/mode1/graph/critique.py:49-86 | a sub-query not yet sufficient takes the verdict and the reformulation of the last ruling that names it; any other stays as it is |
| `Mode1Outcomes.PlanIsKept` | api/src/lexme/mode1/graph/planner.py:91-160 | from the plan on, every run works on the first four sub-queries proposed, or on the question itself |
| `Mode1Outcomes.FirstPassAsksThePlan` | api/src/lexme/mode1/graph/planner.py:139-160 | the first pass of every run searches for each sub-query in the plan's own words |
| `Mode1Outcomes.AnswerCarries` | api/src/lexme/mode1/graph/presenter.py:110-132 | an answer carries the surviving citations, the date, the notices and the assumptions of its state, and the explanation and steps of its synthesis |
| `Mode1Outcomes.SynthesisIsRead` | api/src/lexme/mode1/graph/synthesis_node.py:28-59 | the synthesis of a run is the reply its one synthesis step read |
| `Mode1Outcomes.VerdictsAreCounted` | api/src/lexme/mode1/graph/synthesis_node.py:28-59 | the verdict counts count the proposed citations, discarded ones included |
| `Mode1Outcomes.TraceIs` | api/src/lexme/mode1/graph/presenter.py:44-57 | the trace reports every sub-query as it stands, and how many more the last pass grounded than the first |
| `Mode1Outcomes.UnionKeepsFirst` | api/src/lexme/mode1/graph/synthesis_node.py:62-68 | of the evidence retrieved, the union keeps the first block under each key, once each, and misses none |
| `Mode1Safety.CriticalIffReported` | api/src/lexme/mode1/graph/planner.py:91-108 | the plan has a critical sub-query exactly when the model reports one among its first four or reports none at all, which is less than the docstring promises |
| `Mode1Safety.PeripheralPlan` | api/src/lexme/mode1/graph/planner.py:91-108 | a concrete plan with no critical sub-query |
| `Mode1Safety.BranchesAreSettled` | api/src/lexme/mode1/graph/clarify.py:53-104 | what a run asks, what the reply settles and what it assumes are computed from the intent, the plan and the answer alone |
| `Mode1Branches.EveryBranchEndsOnce` | api/src/lexme/mode1/graph/clarify.py:39-104 | in every run past the question, each branch the plan reports ends as the one fact of the reply, if it is the first reported and was answered, or as its stated assumption; and the run answers at the date the reply sets, or else at the one it read, or today |
| `Mode1Branches.PausesToAsk` | api/src/lexme/mode1/graph/clarify.py:39-74 | a run pauses exactly when its intent is not informational and the plan reports a branch, and asks the first such branch's question |
| `Mode1Safety.OpenBranchesAreTheRest` | api/src/lexme/mode1/graph/clarify.py:77-104 | assumptions are stated for exactly the open branches but the resolved one |
| `Mode1Safety.AsksAtMostOnce` | api/src/lexme/mode1/graph/clarify.py:39-74 | no run is paused at two different moments |
| `Mode1Safety.NeverPastToday` | api/src/lexme/mode1/dates.py:69-80 | the target date exceeds today in no reachable state |
| `Mode1Literality.TracedIsVerifiedAgainst` | api/src/lexme/mode1/graph/synthesis_node.py:28-104 | the evidence a response traces is exactly the evidence its citations were verified against |
| `Mode1Literality.DisplayedCitationsPass` | api/src/lexme/eval/guardrail.py:73-132 | whatever the collaborators reply and retrieve, an ended run has no guardrail violation, except exactly when a displayed quote is nothing but ellipses, or is re-anchored to a block that does not read back from its token and is refused where it reads |
| `Mode1Literality.NoticesTellTheSuperseded` | api/src/lexme/mode1/notices.py:163-185 | in every run that answers, a displayed token is named by one superseded notice for each cited block it prints whose redaction in force changed since the answer's date: one or none where no other displayed block prints it |
| `Mode1Run.CollectUnion` | api/src/lexme/mode1/graph/synthesis_node.py:62-68 | the nested loops collect the evidence once per block, in first-seen order |
| `Mode1Run.NumberPlanned` | api/src/lexme/mode1/graph/planner.py:139-150 | the first four planned sub-queries, each under its number |
| `Mode1Run.RulingsById` | api/src/lexme/mode1/graph/critique.py:49-63 | the dictionary of rulings holds for each sub-query the last one given |
| `Mode1Run.AccumulatedBlockRefs` | api/src/lexme/mode1/graph/critique.py:103-109 | the nested loops collect the distinct tokens of all evidence in first-seen order |
| `Mode1Run.RunCritique` | api/src/lexme/mode1/graph/critique.py:49-100 | the loops over rulings, sub-queries and evidence make the transition of the model: the last ruling applied, the pass tallied |
| `Mode1Run.RunSynthesis` | api/src/lexme/mode1/graph/synthesis_node.py:28-59 | synthesis shows exactly the proposed citations that survive verification |
| `Mode1Run.Advance` | api/src/lexme/mode1/graph/builder.py:31-54 | running a node with its loops is one step of the transition system |
| `Mode1Run.Drive` | api/src/lexme/mode1/pipeline.py:55-108 | the driver stops at the first pause or end, and always gets there |
| `Mode1Run.Mode1Run.Ask` | api/src/lexme/mode1/pipeline.py:55-63 | asking leaves the checkpoint where the graph first stops, within thirteen steps, and answers from it |
| `Mode1Run.Mode1Run.Resume` | api/src/lexme/mode1/pipeline.py:65-113 | resuming takes a paused run to its end; on any other thread it fails and changes nothing |
| `Notices.AmendedIffSuperseded` | api/src/lexme/mode1/notices.py:163-215 | with the target not after today, a block was amended since exactly when the version in force today is another |
| `Notices.SupersededOncePerBlock` | api/src/lexme/mode1/notices.py:83-185 | a token is named by one superseded notice for each cited block it prints whose version in force differs today, however often the block is cited |
| `Notices.NoticesAre` | api/src/lexme/mode1/notices.py:83-215 | the notices of a run are exactly the past date it answers at and, for the first citation of each block, the first amendment inside a bare year, the first since its redaction, and that redaction if recent |
| `Notices.NoticesAreOrdered` | api/src/lexme/mode1/notices.py:83-106 | they come in descending importance |
| `Notices.SeparatorFreeCountsOnce` | api/src/lexme/blocks.py:23-38 | where norm ids hold no separator that is one notice or none for each cited block |
| `Notices.Deduplicate` | api/src/lexme/mode1/notices.py:109-114 | the first citation of each block, in order |
| `Notices.DeriveNotices` | api/src/lexme/mode1/notices.py:83-106 | the code's loops give the notices of the rules, rule by rule |
| `Fusion.Tally` | api/src/lexme/retrieval/rrf.py:29-36 | the accumulating loops leave each key its sum of reciprocal ranks and the order it was first seen in |
| `Fusion.ReciprocalRankFusion` | api/src/lexme/retrieval/rrf.py:18-37 | the result holds every key of the lists once, with its sum of reciprocal ranks, by score and then by first-seen order |
| `Fusion.FusedScoreIs` | api/src/lexme/retrieval/rrf.py:18-37 | over duplicate-free lists a key scores the sum of one over k and its rank, counted from one, in each list that ranks it |
| `Fusion.DominatorComesFirst` | api/src/lexme/retrieval/rrf.py:18-37 | over duplicate-free lists, a key ranked ahead of another in every list that ranks the latter comes strictly first |
| `Fusion.HybridEvidence` | api/src/lexme/retrieval/hybrid.py:49-63 | the evidence is the head of the fusion of the two rankings at k = 60, each key with the first block retrieved under it; no key is missed and none is repeated |
| `Repetition.MedianSplits` | api/src/lexme/eval/repetition.py:177-189 | at least half of the measurements are not above the published median and at least half not below it |
| `Repetition.MedianIsMiddle` | api/src/lexme/eval/repetition.py:177-189 | the median is the middle measurement, or half-way between the two middle ones |
| `Repetition.MedianIsInRange` | api/src/lexme/eval/repetition.py:177-189 | every median lies in its band |
| `Repetition.CollectMetricNames` | api/src/lexme/eval/repetition.py:168-174 | the nested loops collect the metric names in first-seen order |
| `Repetition.UnfoldThenSummarize` | api/src/lexme/eval/repetition.py:101-127 | unfolding a summary and summarizing it again gives the same summary |
| `Repetition.PooledBandIsHull` | api/src/lexme/eval/repetition.py:101-113 | the range of pooled runs is the hull of their ranges |
| `Repetition.MovementIs` | api/src/lexme/eval/repetition.py:135-165 | from the two ranges alone: variance where they meet, drift where the allowance covers the gap, past it an improvement exactly when the run lies wholly on the better side, a regression on the other, a shift where there is none |
| `Repetition.SwapMirrors` | api/src/lexme/eval/repetition.py:135-165 | swapping the sides of a comparison exchanges regression and improvement and fixes every other verdict |
| `Repetition.AllowanceOnlyAddsDrift` | api/src/lexme/eval/repetition.py:135-165 | a wider allowance can only turn a result into drift |
| `Envelope.PooledRepetitions` | api/src/lexme/eval/cli.py:376-391 | pooling unfolds each run's repetitions, or takes its one draw, and summarizes them all |
| `Envelope.UnfoldedBand` | api/src/lexme/eval/repetition.py:116-127 | what a summary unfolds into is banded, metric by metric, as the summary says |
| `Envelope.EnvelopeIsHull` | api/src/lexme/eval/cli.py:376-391 | a metric is in the envelope exactly when some run banded it, and its range is the hull of what the runs banded |
| `Drift.CollectGroups` | api/src/lexme/eval/drift.py:161-168 | the dictionary of lists gives the runs of each fingerprint in order, keeping the groups that span sessions |
| `Drift.AllowanceIsWidest` | api/src/lexme/eval/drift.py:180-221 | the allowance of a metric some run measured is the widest drift any group measured, or zero |
| `Drift.AllowanceCoversEveryPair` | api/src/lexme/eval/drift.py:109-226 | no two archived runs of one fingerprint lie farther apart on a metric than its allowance |
| `Drift.AllowanceIsTight` | api/src/lexme/eval/drift.py:109-226 | a positive allowance is the gap of two archived runs of one fingerprint |
| `Drift.BandReports` | api/src/lexme/eval/drift.py:180-206 | a band names the runs of one fingerprint that read the metric, all of them, and the widest spread any run saw in its own session |
| `Compare.ReadingsAgreeIffCoherent` | api/src/lexme/eval/compare.py:150-157 | comparison reads the range drift measured exactly when a one-repetition band repeats the published value |
| `Compare.ArchiveComparisonsAreNoise` | api/src/lexme/eval/compare.py:118-180 | after measuring drift over any archive, comparing two coherent runs of equal fingerprint reports no changed fingerprint and each metric of either run once, with both readings; every metric both measured moved by variance or drift, never by a result |
| `Compare.SmallerAllowanceIsUnsound` | api/src/lexme/eval/drift.py:208-226 | under any smaller allowance two archived runs of one fingerprint differ by a result |
| `Compare.DeltaMoves` | api/src/lexme/eval/compare.py:118-180 | the movement of every delta of a comparison, from the two ranges and the allowance it reports, and its difference |
| `Compare.ComparisonFrames` | api/src/lexme/eval/compare.py:118-185 | a comparison tells whether the fingerprints differ, whether both runs ran twice, whether drift was given, and reads each side as its range |
| `Compare.HarnessIsCoherent` | api/src/lexme/eval/runner.py:168-181 | every artifact a harness writes, its first repetition published and all of them summarized, is coherent on every metric |
| `Compare.IncoherentArchiveFails` | api/src/lexme/eval/compare.py:150-157 | a concrete archive of incoherent one-repetition runs on which drift sees no gap and comparison reports a shift |
| `Sse.Reader.Feed` | frontend/src/api/client.ts:77-109 | one chunk leaves the unframed rest of the text in the buffer and hands on every frame it completes |
| `Sse.Consume` | frontend/src/api/client.ts:77-92 | whatever the chunks, what is handed on and what is left are those of the whole text |
| `Sse.HeadFirst` | frontend/src/api/client.ts:81-91 | reading the head of a text first changes neither its frames nor its rest |
| `Sse.FrameReads` | frontend/src/api/client.ts:94-109 | a frame is named by its last event line, or message without one, and carries all its data lines joined |
| `Sse.FrameDelivers` | frontend/src/api/client.ts:94-118 | a frame with data is handed on as a step or as the result by its name, and any other is dropped |
| `Sse.ReaderInvertsPrinter` | api/src/lexme/api/ask.py:134-136 | any printed sequence of one-line, trimmed, non-empty events reads back exactly and in order, with nothing left |
| `Sse.Stream` | api/src/lexme/api/ask.py:120-136 | the generator prints one step for each state and then the one result |
| `Sse.PageReceivesTheRun` | api/src/lexme/api/ask.py:120-136 | however the stream of a run is cut, the page receives each step's data in order and then the result's, once each, and nothing else |
| `Segmentation.IouIsOverSets` | api/src/lexme/eval/mode2/segmentation.py:44-56 | the overlap is intersection over union of the two sets of characters, for any spans, inverted ones included |
| `Segmentation.IouRange` | api/src/lexme/eval/mode2/segmentation.py:44-56 | the overlap is symmetric, lies between 0 and 1, and is 1 exactly for equal non-empty spans |
| `Segmentation.BestOverlap` | api/src/lexme/eval/mode2/segmentation.py:85-93 | the loop keeps the first of the predictions with the greatest overlap, if any overlaps |
| `Segmentation.MatchSpans` | api/src/lexme/eval/mode2/segmentation.py:59-82 | one match per reference, in reference order |
| `Segmentation.SeparatesIffAboveHalf` | api/src/lexme/eval/mode2/segmentation.py:59-82 | a threshold keeps two disjoint references from sharing a prediction exactly when it is above one half |
| `Segmentation.DelimitedIsInjective` | api/src/lexme/eval/mode2/segmentation.py:59-82 | above one half, two delimited references are matched to different predictions |
| `Segmentation.ExactSegmentation` | api/src/lexme/eval/mode2/segmentation.py:59-93 | predicting the references' own spans delimits exactly the non-empty ones, each by its own prediction |
| `Assembler.LayClause` | api/src/lexme/refset/assembler.py:86-110 | one turn of the loop adds heading, body and separator and records the body's span |
| `Assembler.LayOut` | api/src/lexme/refset/assembler.py:70-111 | the document is the header and the rendered clauses, and the truths are recorded clause by clause |
| `Assembler.TruthsAreLaid` | api/src/lexme/refset/assembler.py:70-111 | every recorded span quotes its clause exactly, behind its heading line; the spans increase and never touch |
| `Assembler.AssembleContract` | api/src/lexme/refset/assembler.py:34-67 | no clause is an error; otherwise the case carries the document, the truths and the omissible rights no clause covers |
| `Assembler.AssembledClausesMatchInjectively` | api/src/lexme/refset/assembler.py:70-111 | above one half, the delimited clauses of an assembled contract map injectively to predictions |
| `Assembler.OwnSpansAreDelimited` | api/src/lexme/eval/mode2/segmentation.py:59-82 | predicting the recorded spans themselves would credit every clause that has text, each by its own prediction |
| `Anchoring.AnchorClauses` | api/src/lexme/mode2/anchor.py:36-51 | all snippets anchor, each as it would alone, or the first that will not fails the whole |
| `Anchoring.AnchoredIsLiteral` | api/src/lexme/mode2/anchor.py:54-83 | an anchored clause quotes the normalized document literally, near the length of what was proposed |
| `Anchoring.AnchorIs` | api/src/lexme/mode2/anchor.py:54-83 | a snippet anchors nowhere if too short, else at its leftmost literal occurrence, else where it snaps, if it does |
| `Flattening.AssembledIsNeverNormal` | api/src/lexme/mode2/anchor.py:36-51 | an assembled document is never the normalized document its clauses are anchored in |
| `Joining.NormalizeJoined` | api/src/lexme/verification/normalization.py:44-54 | across a line break or a space the two sides of any text are normalized apart and joined by one space, or by none where one is blank |
| `Flattening.AssembledNormalizesFlat` | api/src/lexme/mode2/anchor.py:36-51 | normalizing any assembled contract gives the header, headings and texts normalized apart, one space between those that are not blank |
| `Flattening.ClauseIsShifted` | api/src/lexme/refset/assembler.py:86-110 | the recorded span of a clause starts one character later than its place in the normalized document for each separator before it |
| `BoundaryShift.AnchorOwnTexts` | api/src/lexme/mode2/anchor.py:36-62 | the exact texts of the clauses, none found before its place, are all anchored, each where it stands |
| `BoundaryShift.ShiftedOverlap` | api/src/lexme/eval/mode2/segmentation.py:44-56 | a span of n characters and its copy shifted by d overlap by (n - d) / (n + d), or not at all when d reaches n |
| `BoundaryShift.PerfectProposalIsShifted` | api/src/lexme/eval/mode2/segmentation.py:59-93 | over all the anchors of a perfect proposal, a clause is delimited by its own one exactly when its text has nine characters for each one normalization dropped before it |
| `BoundaryShift.CreditedIff` | api/src/lexme/eval/mode2/segmentation.py:59-93 | it is delimited at all exactly when that holds or some later clause's anchor covers its recorded span by four fifths |
| `BoundaryShift.ShortClauseIsMissedOrMisread` | api/src/lexme/eval/mode2/segmentation.py:59-93 | a shorter one is missed, or credited with a later clause's finding once the loss outruns the next heading |
| `BoundaryShift.NoNeighbourReaches` | api/src/lexme/eval/mode2/segmentation.py:59-93 | for the last clause, and until the loss outruns the next heading line, the nine-to-one bound alone decides the credit |
| `BoundaryShift.NeighbourTakesOver` | api/src/lexme/eval/mode2/segmentation.py:59-93 | once the loss is a text, a separator and the next heading line, the next clause of equal length is credited in full instead |
| `BoundaryShift.LettersAnchor` | api/src/lexme/mode2/anchor.py:54-62 | contracts of twenty-letter clauses are such as a perfect proposal anchors whole |
| `BoundaryShift.LateClauseIsMissed` | api/src/lexme/eval/mode2/segmentation.py:59-93 | in these, proposed perfectly, the last of four or more clauses is counted as a segmentation miss |
| `BoundaryShift.LateClauseIsMisread` | api/src/lexme/eval/mode2/segmentation.py:59-93 | and of twenty-five, one clause is credited with the finding of the next at overlap one |
| `Classification.ResolveAnchorBlocks` | api/src/lexme/mode2/classify.py:137-160 | the nested loops resolve each anchor that is in force once, in first-seen order |
| `Classification.AnchorKeysAre` | api/src/lexme/mode2/classify.py:137-160 | the evidence of checklist items is exactly their anchors in force, without repeats |
| `Classification.EvidenceIs` | api/src/lexme/mode2/classify.py:110-160 | a clause is judged on the anchors in force of the items it reflects, in their redaction of the date, or on what was retrieved if it reflects none |
| `Classification.ClassifyClause` | api/src/lexme/mode2/classify.py:91-114 | the finding of one clause, for any verdict the model proposes |
| `Classification.PlacedWell` | api/src/lexme/mode2/classify.py:205-249 | a level exactly when judged, and a verified citation behind each of illegal, worse than the default and correct |
| `Classification.LevelsAreAsProposed` | api/src/lexme/mode2/classify.py:44-249 | each of the four levels is shown exactly when it is proposed and, but for negotiable, a citation survives; without one it degrades to inconclusive |
| `RiskMaps.FirstEntryIsFirst` | api/src/lexme/mode2/riskmap.py:124-153 | the entry a clause keeps is the first one proposed for it |
| `RiskMaps.Reconcile` | api/src/lexme/mode2/riskmap.py:124-153 | for any reply, every clause has a mapping and nothing else does: its first entry with valid ids only, or to be evaluated |
| `RiskMaps.StrayEntryChangesNothing` | api/src/lexme/mode2/riskmap.py:124-153 | a stray or repeated entry anywhere in the reply leaves every clause's mapping as it was |
| `RiskMaps.LevelCounts` | api/src/lexme/mode2/riskmap.py:156-165 | the loop counts each level, and the whites under absent |
| `RiskMaps.CoverageCounts` | api/src/lexme/mode2/riskmap.py:168-173 | the loop counts each coverage status |
| `RiskMaps.BuildRiskMap` | api/src/lexme/mode2/riskmap.py:32-76 | the map's findings, whites and counts, for any mapping and any verdicts |
| `RiskMaps.EveryClauseHasItsFinding` | api/src/lexme/mode2/riskmap.py:79-121 | one well-placed finding per clause in document order, informative exactly when its first entry says so, with valid ids only |
| `RiskMaps.ClausesArePlacedAsJudged` | api/src/lexme/mode2/classify.py:205-269 | on any map, each clause judged evaluable is placed as proposed, with the citation that survived verification against its evidence |
| `RiskMaps.IdsAreKept` | api/src/lexme/mode2/riskmap.py:124-153 | a finding reflects exactly the real items and the other real clauses of its clause's first entry |
| `RiskMaps.HeaderAddsUp` | api/src/lexme/mode2/riskmap.py:156-173 | the coverages add up to the clauses, the levels to the judged clauses and the whites |
| `RiskMaps.HeaderCounts` | api/src/lexme/mode2/riskmap.py:156-173 | the header counts the findings at each level and each coverage |
| `RiskMaps.EveryRightIsOnTheMap` | api/src/lexme/mode2/crosscheck.py:29-57 | each omissible right is addressed by a judged clause or is one white, however the model maps and judges |
| `CrossCheck.CheckChecklist` | api/src/lexme/mode2/crosscheck.py:29-57 | the loop produces the whites of the rights nothing addresses, in checklist order |
| `CrossCheck.EveryRightIsAccountedFor` | api/src/lexme/mode2/crosscheck.py:44-57 | an item is white once exactly when it is omissible and no judged clause reflects it |
| `CrossCheck.NoStrayWhite` | api/src/lexme/mode2/crosscheck.py:44-73 | a white names an omissible item of the checklist that nothing addresses, with that item's own text |
| `CrossCheck.WhitesAreTheExpectedAbsences` | api/src/lexme/refset/assembler.py:114-122 | the whites are the assembler's expected absences, in order, exactly when judged and assembled items coincide |
| `Checklists.AbsentItemsAre` | api/src/lexme/refset/clause_bank.py:36-47 | the absent items are exactly the omissible ones no clause covers |
| `ChecklistValidation.ValidateChecklist` | api/src/lexme/checklist/validator.py:51-123 | the loops report every unresolved anchor and every citation not verified directly, in item order |
| `ChecklistValidation.ValidIffAllStand` | api/src/lexme/checklist/validator.py:51-123 | the report is empty exactly when every item's anchors are in force and its quote verifies directly |
| `ChecklistValidation.ReportIs` | api/src/lexme/checklist/validator.py:51-123 | the report holds exactly the anchors not in force and the quotes not verified directly, under their items |
| `ChecklistValidation.StandingItem` | api/src/lexme/checklist/validator.py:104-123 | a standing item's token reads back and its quote passes the guardrail, its block in force |
| `Mode2Guardrail.Collect` | api/src/lexme/eval/mode2/guardrail.py:58-92 | one shown citation adds the violation it amounts to, if any |
| `Mode2Guardrail.ShownPassesIffLiteral` | api/src/lexme/eval/mode2/guardrail.py:73-92 | a shown citation passes exactly when its token names a block in force that holds its segments at increasing, disjoint positions; when it is refused as not literal |
| `Mode2Guardrail.ShownViolationsAre` | api/src/lexme/eval/mode2/guardrail.py:35-71 | the violations are those of the failing shown citations, each with its reason |
| `Mode2Guardrail.CheckMode2Citations` | api/src/lexme/eval/mode2/guardrail.py:35-55 | the violations of everything the map shows, clauses first; none without a map |
| `Mode2Guardrail.SameButForEvidence` | api/src/lexme/eval/mode2/guardrail.py:73-92 | Mode 1's check is this one plus the evidence test and nothing else |
| `RiskMaps.WhitesPass` | api/src/lexme/mode2/crosscheck.py:76-97 | if the checklist validates at the date, every white carries its citation and passes the guardrail |
| `RiskMaps.ClauseCitationPasses` | api/src/lexme/mode2/classify.py:231-269 | a shown clause citation that reads back passes the guardrail, except exactly when it is a repair that is nothing but ellipses; only a clause judged on retrieved blocks and re-anchored among them may not read back |
| `RiskMaps.RiskMapIsLiteral` | api/src/lexme/eval/mode2/guardrail.py:35-92 | for every mapping, retrieval and verdict the whole map has no violation, except exactly when a clause quote is nothing but ellipses, or does not read back and is refused where it reads |
| `Mode2Metrics.ClausePredictions` | api/src/lexme/eval/mode2/metrics.py:408-430 | each reference clause is paired with the class of the finding matched to it |
| `Mode2Metrics.DelimitedClausesAreClassified` | api/src/lexme/eval/mode2/metrics.py:408-430 | a clause has a class exactly when it is delimited and overlaps some prediction, and it is that of the first best-overlapping finding |
| `Mode2Metrics.Confusion` | api/src/lexme/eval/mode2/metrics.py:447-454 | the loop counts every cell, and raises exactly when a delimited clause has no place in the matrix |
| `Mode2Metrics.MatrixExistsIff` | api/src/lexme/eval/mode2/metrics.py:447-454 | over a risk map the matrix raises exactly when the threshold is not positive and some clause overlaps no prediction |
| `Mode2Metrics.MatrixTotal` | api/src/lexme/eval/mode2/metrics.py:447-454 | the entries of the matrix add up to the delimited clauses |
| `Mode2Metrics.CountsReadOffMatrix` | api/src/lexme/eval/mode2/metrics.py:433-531 | the conditioned counts are sums of cells: red and orange rows, their flagged, green and silent cells, the flagged and abstaining columns |
| `Mode2Metrics.EndToEndConserves` | api/src/lexme/eval/mode2/metrics.py:457-531 | end to end there are the conditioned problematic clauses and those never reported, with the same detections and the same false tranquility |
| `Mode2Metrics.EventsAreApart` | api/src/lexme/eval/mode2/metrics.py:457-493 | detections and false tranquility never overlap, and flagged true positives are the detections |
| `Mode2Metrics.EndToEndIsNoHigher` | api/src/lexme/eval/mode2/metrics.py:315-324 | an end-to-end rate is at most its conditioned one; the recalls agree exactly when nothing was detected or nothing missed |
| `Mode2Suite.BuildCaseResult` | api/src/lexme/eval/mode2/metrics.py:275-327 | the whole result of one case, or the error, exactly when a finding or a delimited clause has no class |
| `Mode2Suite.RiskMapsAreMeasurable` | api/src/lexme/eval/mode2/metrics.py:261-272 | a risk map is always measurable at a positive threshold, and at others exactly when every clause overlaps a prediction |
| `Mode2Suite.RiskMapSuitesAreMeasurable` | api/src/lexme/eval/mode2/metrics.py:447-454 | no measurement of a suite of risk maps raises, if no case grades a clause absent |
| `Mode2Suite.RiskMapFindingsAreProper` | api/src/lexme/mode2/pipeline.py:164-175 | the findings of any map over clauses numbered by the pipeline have distinct ids and a class each |
| `Mode2Suite.CaseCountsConserve` | api/src/lexme/eval/mode2/metrics.py:275-327 | every measured case's counts fit together and its matrix adds up to its delimited clauses |
| `Mode2Suite.PredictedAbsencesAreTheWhites` | api/src/lexme/eval/mode2/metrics.py:534-549 | detected and spurious absences are the whites; recall and precision are full exactly on inclusion |
| `Mode2Suite.AbsencesAre` | api/src/lexme/eval/mode2/metrics.py:534-549 | which items are listed as expected, detected, missed and spurious, and the two rates over them |
| `Mode2Suite.MapFlags` | api/src/lexme/eval/mode2/metrics.py:261-272 | a clause of a map is flagged exactly for a cited proposal of illegal or worse than the default, and reassuring exactly for a cited one of correct or where it is not judged |
| `Mode2Suite.FlaggedExactlyWhenCited` | api/src/lexme/eval/mode2/metrics.py:261-272 | the class of a judged clause: flagged, reassuring, negotiable, out of scope or inconclusive, by the proposal and the citation that survived |
| `Mode2Suite.CoincidingItemsScorePerfectly` | api/src/lexme/eval/mode2/metrics.py:534-549 | when judged items coincide with the assembled ones, expected and produced absences are the same |
| `Mode2Suite.ViolationsAreOfShown` | api/src/lexme/eval/mode2/metrics.py:384-389 | there are never more violations than displayed citations |
| `Mode2Suite.AggregateMode2` | api/src/lexme/eval/mode2/metrics.py:330-381 | the counts, outcomes and matrix are pooled, and every published rate is taken over the pooled counts |
| `Mode2Suite.CountOutcomes` | api/src/lexme/eval/mode2/metrics.py:562-567 | the dictionary counts each outcome that occurs and no other |
| `Mode2Suite.PoolConfusion` | api/src/lexme/eval/mode2/metrics.py:552-559 | the pooled matrix adds the cases' matrices cell by cell |
| `Mode2Suite.SuitesAdd` | api/src/lexme/eval/mode2/metrics.py:330-381 | the counts of two suites run together are the sums of theirs |
| `Mode2Suite.MatricesAdd` | api/src/lexme/eval/mode2/metrics.py:552-567 | so are their matrices, cell by cell, and their outcomes |
| `Mode2Suite.PooledMatrixTotal` | api/src/lexme/eval/mode2/metrics.py:552-559 | the pooled matrix adds up to the pooled delimited clauses when each case's does |
| `Mode2Suite.SuitesConserve` | api/src/lexme/eval/mode2/metrics.py:330-381 | pooling keeps what every case's counts keep |
| `Mode2Suite.PooledRateIsBetween` | api/src/lexme/eval/mode2/metrics.py:585-589 | a pooled rate lies between the rates of the two suites |
| `Mode2Suite.RunPass` | api/src/lexme/eval/mode2/runner.py:139-153 | the loop measures every case with the guardrail's violations and collects them all, or raises exactly when some case cannot be measured |
| `Mode2Suite.SuiteIsSound` | api/src/lexme/eval/mode2/metrics.py:275-381 | whatever the analyses, the aggregate of a pass conserves: counts that fit together and read off its matrix, a matrix that adds up to the delimited clauses, each rate its ratio of two counts, between zero and one, end-to-end rates no higher than the conditioned ones, no more failures than shown citations; it tells each outcome reached as often, and the share that were expected |
| `Mode2Suite.MeasureSuite` | api/src/lexme/eval/mode2/runner.py:100-136 | so does what one repetition of a suite publishes |
| `RefsetStore.CandidateStore.WriteCandidate` | api/src/lexme/refset/store.py:41-53 | a write replaces the candidate, or is refused and changes nothing when the stored one is accepted |
| `RefsetStore.CandidateStore.AcceptCandidate` | api/src/lexme/refset/store.py:71-85 | accepting stamps the review and materializes the case in the suite of its kind, or fails and changes nothing |
| `RefsetStore.CandidateStore.RejectCandidate` | api/src/lexme/refset/store.py:87-96 | rejecting stamps the review and materializes nothing, or fails and changes nothing |
| `RefsetStore.ApplyKeepsConsistent` | api/src/lexme/refset/store.py:41-122 | an operation keeps the set equal to the accepted candidates, exactly unless it writes a candidate as already accepted |
| `RefsetStore.SetIsTheAccepted` | api/src/lexme/refset/store.py:41-122 | after any sequence of pending writes, accepts and rejects the set is the accepted candidates with payload and provenance |
| `RefsetStore.AcceptanceAbsorbs` | api/src/lexme/refset/store.py:41-111 | no later operation whatever, accepted-status writes included, alters an accepted candidate or its materialized case |
| `RefsetStore.AcceptedForGood` | api/src/lexme/refset/store.py:41-111 | so in every run from an empty store a case once accepted stays as it was accepted |
| `RefsetStore.WriteIs` | api/src/lexme/refset/store.py:41-53 | a write is taken exactly unless its id stands accepted, and moves no suite |
| `RefsetStore.ReviewedIffPending` | api/src/lexme/refset/store.py:71-111 | a review is taken exactly for a pending candidate; the error says why not |
| `RefsetStore.WrittenThenAccepted` | api/src/lexme/refset/store.py:41-122 | in any run, a pending candidate written over nothing accepted and then accepted is in the suite of its kind, with its payload and that review |
| `RefsetStore.SetCarriesItsReview` | api/src/lexme/refset/store.py:71-122 | every case in the set is one some earlier write stored and some later accept reviewed, with that payload and that review, in one suite only |

## Left out

- HTTP, SQL execution, file formats, JSON, prompts and settings: inputs and outputs of the modelled functions.
- The internals of `difflib`, NFC, `TextDecoder`, date parsing and hashing: contracts or parameters only.
- The ellipsis pattern is a deterministic reading of the regular expression, from the left, as its engine reads it.
- LangGraph: only the step relation, the pause point and the second run of the clarify node on resume.
- Rounding of floats: measurements, scores and overlaps are exact reals.
- An anchor's ELI and URL, a notice's wording, thread ids, step names, rankings in the trace, log lines.
- The streaming variants of asking and resuming: the same steps, narrated.
- Errors raised by the model client or the corpus, and Pydantic's field validation.
- The scope and date gates, the triage, the summary and the sheet of Mode 2: field-by-field branching.
- Case, manifest, checklist and clause-bank loaders; what the checklist loader guarantees is `ChecklistValidation.Loaded`.
- Fingerprints, calibration sheets, the judge, the feedback store, the React pages.
- Python's and JavaScript's trimming differ on a few code points; each side is modelled with its own set.
- Mode 1 metrics, the coverage check of the clause bank, listing pending candidates, a level's severity: easy members beside the ones here.
- Mode2Suite.BuildCaseResult: the absence lists are sets of item ids; the order they are sorted in is not modelled.
- A file that fails half-way through a store operation: an operation on the files is atomic here.
