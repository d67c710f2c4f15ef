# Verified model of the Scaffold Arena analysis and adapter core

This project models, in Dafny 4.11, the parts of the repository whose correctness cannot be
read off one function body: the trace alignment, the statistics behind an effect report, the
transport and lifecycle of an adapter, the publication of an offline archive, the Pareto and
claim decisions, and the human-calibration audit. Loops of the Python code are methods with
loop invariants, objects whose methods update their fields are classes, concurrent code is a
transition system whose steps are the code's critical sections, and each of them is proved
equal to, or bounded by, a specification that does not mention the loop.

Floats are `real`, so rounding is not part of the model; the constants `1e-15` and `0.999999`
are the exact rationals. JSON decoding, model validation, digests, Unicode folding and the
rendering of a bucket key are parameters that stand for any function. Random draws are
arbitrary functions, so what is proved of a resample holds of every seed. Every lemma switches
Dafny's automatic induction off, so each induction is the one written in its body.

## Modules

| file | what it holds |
|---|---|
| Prelude.dfy, Sorting.dfy | counts, maps and filters over sequences; a sort and when it forgets the input order |
| TraceAlignment.dfy | the two-row alignment, its byte traceback and the walk back |
| TraceOptimum.dfy | what an alignment maximizes, in its published counters, and how ties are settled |
| TraceNormalization.dfy | ordering and clock origins of a trace |
| TraceDiagonal.dfy | what an alignment loses, and when it is the main diagonal |
| TraceDivergence.dfy | evidence references and the first meaningful divergence |
| TraceSilence.dfy | what silence means, and exactly how much missing observation it tolerates |
| TraceScaffolding.dfy | the same around scaffolding that only one trace has |
| MultipleTesting.dfy, MultipleTestingLaws.dfy | Holm and Benjamini-Hochberg, and what they guarantee |
| SignFlip.dfy, SignFlipExtremes.dfy, Resampling.dfy | the sign-flip test, alone and in terms of cluster totals, clusters, the percentile bootstrap |
| EffectPairing.dfy, EffectReports.dfy, EffectFamily.dfy | factorial pairing, contrasts, the main-effect report and its corrected family |
| InteractionFamily.dfy | interactions, held or estimated, and their corrected family |
| EffectOutcomes.dfy, InteractionOutcomes.dfy | both kinds of effect in terms of the attempts they list and the outcomes these recorded |
| EventChannels.dfy | the bounded single-consumer event channel |
| JsonlStream.dfy, JsonlAcceptance.dfy, JsonlAgreement.dfy | the streaming and the batch reader of one JSONL response, what they accept, and when they agree |
| AttemptLifecycle.dfy, AttemptSteps.dfy, AttemptOverlap.dfy | prepare, execute, cancel and cleanup of attempts, what single steps do to one attempt, and exactly which preparations break their promises |
| ArchiveScan.dfy, ArchiveOrder.dfy, ArchivePublication.dfy | scanning an archive, when its member order matters, and publishing it into the cache |
| ParetoSelection.dfy | dominance, the frontier and the minimum-sufficient profile |
| ClaimGate.dfy, ClaimLadder.dfy | analysis adequacy, the claim ledger and the decision brief, and both kind by kind |
| CalibrationAudit.dfy, CalibrationMeaning.dfy | annotation intake, agreement counts, adjudication and status, and what the numbers and the status mean |

## What the proofs found

Where the code does something other than what its comments or names suggest, the model follows
the code and the difference is a lemma.

- The traceback's first `RuntimeError` is reachable, but only for two non-empty traces of at
  least 500,000,000 events together (`DisjointTracesFail`); below that, and whenever one trace
  is empty, neither error is (`SafeSizesExactly` makes the bound exact). Whatever is returned
  is optimal at every size.
- Silence means that two traces agree once their START and REQUEST events are dropped
  (`NoDivergenceMeansCompatible`). The converse has exact limits, which count the positions where
  only one side has a digest. Traces that agree position by position are silent with up to five
  such positions, at any length, and with six they can be reported, because shifting one trace
  buys enough exact digest matches to pay for two gaps (`CompatibleSilenceExactly`,
  `CompatibleTracesMayDiverge`). Traces that agree around START events, REQUEST events or both
  that only one side has are silent with up to three (`ScaffoldedSilenceExactly`): a fourth lets a
  tie be broken against the diagonal. No bound helps when both sides have the same scaffolding at
  different places (`MovedScaffoldingIsReported`).
- The streaming and the batch reader cut a response into the same lines exactly when every
  carriage return is followed by a line feed or ends the response (`FramingsAgreeExactly`);
  `BareReturnSeparatesTheReaders` gives a response that one accepts and the other does not.
  Whatever the records mean, the readers agree on a response exactly when both framings show the
  same different records, up to the first repeated or overlong one, and end alike
  (`ReadersAgreeExactly`).
- An attempt that is cleaned up can be prepared again while an older call on it still waits for
  its lock or exchanges. Exactly then some continuation has two exchanges of the attempt in
  progress, and one replaces the result that the other has stored (`PreparationBreaksExactly`). On
  every run in which no preparation is accepted in that state, overlapping cleanup included, a result
  stays until its attempt is cleaned up or prepared anew, exchanges are exclusive and queues are
  closed; until then a cancelled attempt neither dispatches nor completes, on any run. Cleaning up only attempts without calls in flight is one discipline
  that suffices (`QuietRunsAreGuarded`). `OverlappingCleanupReplacesAResult` gives the full run: in
  the command adapter the first bundle can be any, since cleanup only ends the process; in the HTTP
  adapter it is the cancelled one, since cleanup cancels the running coroutine too.
- The temporary directory of a publication is created after the lock and before the guarded
  block; if that creation fails, or the final unlink does, the lock file stays and nobody who has
  not published yet can ever publish the digest (`KeptLockBlocksForever`). Otherwise the lock is
  free once everybody has stopped (`LockIsFreeExactly`). The cleanup ignores its own errors: a
  failed publisher leaves exactly what it could not remove (`FailureLeavesExactly`), and a
  reservation that it leaves refuses everybody for good (`LeftTargetRefusesEveryone`).
- A ZIP's compression ratio is checked after every file, so acceptance depends on the order of
  the members (`ZipOrderMatters`); a TAR's does not. A ZIP of at most 256 acceptable members is
  accepted in every order exactly when the files that take no bytes fit together and every other
  file has room for all of them (`ZipEveryOrderExactly`), and in some order exactly when the whole
  archive keeps the ratio (`ZipSomeOrderExactly`); a larger one in no order. The two scans also count
  differently: directories count, and have their names checked, in a ZIP only.
- The minimum-sufficient profile can be off the Pareto frontier, because its key does not see
  the severe-failure rate (`ChoiceCanBeDominated`); `ChoiceOnFrontierExactly` says when.
- `assess_analysis_adequacy` is descriptive for every input, so on a report built by the engine
  the next lawful action is never to publish, even when the verdict is PASS
  (`DescriptiveReportsStayDescriptive`, `PassWithoutPublication`). The brief also means to hide
  the blocker about excluded attempts from its per-claim list, but the text it compares with is
  a different one, so only the severe-failure blocker is hidden (`BriefRepeatsBlockers`).

## Model

| member | source | states |
|---|---|---|
| TraceAlignment.AlignTraces | backend/analysis_v1/trace.py:187-294 | the array program returns the rows and counts of the specification, its result is a valid alignment of best score among all valid alignments, the second error never happens, and below 500,000,000 events no error does |
| TraceAlignment.FillTraceback | backend/analysis_v1/trace.py:199-234 | the byte table written row by row holds, for every pair of prefixes, the direction of a best alignment under the tie order |
| TraceAlignment.FillRow | backend/analysis_v1/trace.py:206-234 | from one score row the loop computes the next one and its slice of the table, leaving the rest of the table alone |
| TraceAlignment.ScorePair | backend/analysis_v1/trace.py:212-233 | the three-way maximum and its tie order give the best score and direction of the cell |
| TraceAlignment.WalkBack | backend/analysis_v1/trace.py:236-270 | the loop over the table produces the rows of the recursive walk, or its error |
| TraceAlignment.CoversIff | backend/analysis_v1/trace.py:81-86 | the recursive notion of an alignment used by the proofs is the direct one: each row is well formed and each side's ordinals are 0, 1, 2, ... in order |
| TraceAlignment.CellBoundsEveryAlignment | backend/analysis_v1/trace.py:206-234 | no alignment of two prefixes scores more than their cell |
| TraceAlignment.WalkAttainsCell | backend/analysis_v1/trace.py:236-270 | a walk that returns yields rows that cover the prefixes and score exactly the cell |
| TraceAlignment.AlignIsOptimal | backend/analysis_v1/trace.py:187-294 | every returned alignment is valid and of maximal score, at any size |
| TraceOptimum.CountersAreBest | backend/analysis_v1/trace.py:155-294 | eight times the published exact matches, plus the content differences, plus four times the other pairs, minus two for each one-sided event, is at least the same sum, counted from digests and anchors, for any alignment |
| TraceOptimum.ReturnedComesFirst | backend/analysis_v1/trace.py:218-233 | among all alignments of that greatest sum the returned one comes first when rows are compared from the last, a pair before a left-only row before a right-only one |
| TraceAlignment.CellLowerBound | backend/analysis_v1/trace.py:155-162 | every cell is at least the cost of leaving every event unmatched |
| TraceAlignment.DirectionAlwaysValid | backend/analysis_v1/trace.py:267-268 | the second error of the walk is unreachable at every size |
| TraceAlignment.WalkReturnsWhenSmall | backend/analysis_v1/trace.py:236-268 | the walk ends without an error below the safe size or when a side is empty |
| TraceAlignment.DisjointTracesFail | backend/analysis_v1/trace.py:159-160 | two non-empty traces without a common anchor raise the cross-anchor error from the safe size on |
| TraceAlignment.SafeSizesExactly | backend/analysis_v1/trace.py:236-268 | sizes for which no traces raise are exactly those with an empty side or fewer than 500,000,000 events |
| TraceAlignment.CountsAccountForEveryEvent | backend/analysis_v1/trace.py:271-294 | matched plus one-sided counts add up to each trace's length, and differing and exact pairs are disjoint parts of the matched ones |
| TraceDiagonal.LossBound | backend/analysis_v1/trace.py:155-172 | a cell stays below half of what its two prefixes are worth against themselves, by at least 4 one step off the diagonal and by at least 8 further away |
| TraceDiagonal.DiagonalLoss | backend/analysis_v1/trace.py:206-234 | for traces that agree position by position, up to five half-observed positions, the diagonal loses two points for each of them, is optimal and is chosen |
| TraceDiagonal.BesideLoss | backend/analysis_v1/trace.py:206-234 | next to the diagonal a small loss fixes, by the parity of the half-observed positions, whether the extra event has a digest |
| TraceDiagonal.FewHalvesAlignDiagonally | backend/analysis_v1/trace.py:187-294 | such traces of any length are aligned position by position with matches only |
| TraceDiagonal.SelfAlignmentIsIdentity | backend/analysis_v1/trace.py:187-294 | a trace aligned with itself gives only diagonal matches, no one-sided row, and one exact match for each event with a digest |
| TraceNormalization.NormalizeTrace | backend/analysis_v1/trace.py:111-152 | it fails exactly on a repeated event id, and otherwise on a repeated sequence; then it numbers the sorted events from 0 |
| TraceNormalization.NormalizeForgetsInputOrder | backend/analysis_v1/trace.py:111-152 | listing the events in another order gives the same normalized trace or the same error |
| TraceNormalization.NormalizedFollowsSequence | backend/analysis_v1/trace.py:111-152 | the result is a permutation of the events in strictly increasing sequence, each with its id, anchor, digest and evidence reference, its place as ordinal and its relative time |
| TraceNormalization.NormalizedCarries | backend/analysis_v1/trace.py:126-150 | the relative time is the distance in milliseconds from the first monotonic reading of the trace, without one the distance from its first timestamp times 1000, and absent without either |
| TraceNormalization.ClocksNeverChangeTheAlignment | backend/analysis_v1/trace.py:187-294 | replacing every timestamp and monotonic reading on both sides changes neither success nor the alignment |
| TraceNormalization.ClockOffsetIsInvisible | backend/analysis_v1/trace.py:111-152 | shifting all wall clocks by one constant and all monotonic clocks by another gives the identical normalized trace |
| TraceDivergence.NearestEvidenceRef | backend/analysis_v1/trace.py:311-331 | the reference of the nearest other row that has one, the following row first at equal distance, none exactly when no other row has one |
| TraceDivergence.SideRef | backend/analysis_v1/trace.py:334-360 | a side's own reference if it has one, otherwise the nearest; none exactly when no row has one |
| TraceDivergence.ContextualEvidenceRefs | backend/analysis_v1/trace.py:334-360 | one reference per side without repetition, present exactly for the sides that have any |
| TraceDivergence.FirstMeaningfulDivergence | backend/analysis_v1/trace.py:363-445 | it reports something exactly when some row pairs two different observations or has an event other than START and REQUEST on one side only; then the first such row, with its ordinals, the reason text that names side and anchor, and confidence 0.95 or 0.85; it is always labelled diagnostic, and silent on traces that agree wherever both were observed with at most five half-observed positions |
| TraceSilence.NoDivergenceMeansCompatible | backend/analysis_v1/trace.py:297-297 | when nothing is reported, dropping START and REQUEST events leaves traces of equal length with equal anchors and compatible digests |
| TraceSilence.CompatibleSilenceExactly | backend/analysis_v1/trace.py:373-445 | all traces that agree position by position with at most m half-observed positions are silent exactly when m is at most five |
| TraceSilence.SelfComparisonIsSilent | backend/analysis_v1/trace.py:373-445 | a trace never diverges from itself |
| TraceSilence.AlternatingIsReported | backend/analysis_v1/trace.py:395-401 | for a whole family of compatible traces of six or more events a divergence is reported |
| TraceSilence.CompatibleTracesMayDiverge | backend/analysis_v1/trace.py:36-60 | two lists of six admissible events, with unique ids and SHA-256 digests, that normalize to compatible traces and are reported |
| TraceScaffolding.ScaffoldingCostsItsGaps | backend/analysis_v1/trace.py:206-234 | events that only one side can pair cost their gaps and change no other score |
| TraceScaffolding.ScaffoldedSilenceExactly | backend/analysis_v1/trace.py:297-297 | for each non-empty choice among START and REQUEST, all traces that agree around events of these anchors that only one side has, with at most m half-observed positions, are silent exactly when m is at most three |
| TraceScaffolding.MovedScaffoldingIsReported | backend/analysis_v1/trace.py:399-401 | two traces that differ only in the place of a START event and are reported |
| MultipleTesting.Holm | backend/analysis_v1/statistics.py:274-283 | errors exactly on no p-values, an alpha outside (0, 1) or a p-value outside [0, 1], in this order; each adjusted value is the rank-free Holm value of its p-value, in the caller's order, and is rejected exactly when at most alpha |
| MultipleTesting.BenjaminiHochberg | backend/analysis_v1/statistics.py:261-271 | the same for the rank-free Benjamini-Hochberg value |
| MultipleTesting.RunDown | backend/analysis_v1/statistics.py:274-283 | the running maximum is stored at each p-value's own index |
| MultipleTesting.RunUp | backend/analysis_v1/statistics.py:261-271 | the running minimum from the largest p-value is stored at each p-value's own index |
| MultipleTesting.RunningMaxIsHolm | backend/analysis_v1/statistics.py:274-283 | on any ascending arrangement, ties in any order, the running maximum at a position is the rank-free value |
| MultipleTesting.RunningMinIsBh | backend/analysis_v1/statistics.py:261-271 | likewise for the running minimum |
| MultipleTestingLaws.AdjustmentsForgetOrder | backend/analysis_v1/statistics.py:261-283 | permuting the p-values permutes both adjustments |
| MultipleTestingLaws.AdjustmentsMonotone | backend/analysis_v1/statistics.py:261-283 | a larger p-value never has a smaller adjusted value, and ties have equal ones |
| MultipleTestingLaws.LoweringNeverRaisesHolm | backend/analysis_v1/statistics.py:274-283 | lowering any of the p-values raises no Holm value |
| MultipleTestingLaws.LoweringNeverRaisesBh | backend/analysis_v1/statistics.py:261-271 | lowering any of the p-values raises no Benjamini-Hochberg value |
| MultipleTestingLaws.CorrectionsAreOrdered | backend/analysis_v1/statistics.py:261-283 | p is at most its Benjamini-Hochberg value, that at most its Holm value, that at most min(1, m p) |
| MultipleTestingLaws.HolmRejectionsAreBhRejections | backend/analysis_v1/statistics.py:261-283 | what Holm rejects, Benjamini-Hochberg rejects at the same level |
| MultipleTestingLaws.HolmIsStepDown | backend/analysis_v1/statistics.py:274-283 | the rejected hypotheses are those before the classical step-down procedure stops |
| MultipleTestingLaws.BhIsStepUp | backend/analysis_v1/statistics.py:261-271 | the rejected hypotheses are exactly those up to the last k whose k-th smallest p-value times m is at most alpha times k |
| MultipleTestingLaws.HolmIsClosedBonferroni | backend/analysis_v1/statistics.py:274-283 | Holm rejects a hypothesis exactly when Bonferroni rejects every set of hypotheses that contains it |
| MultipleTestingLaws.HolmRejectsNoTrueHypothesis | backend/analysis_v1/statistics.py:274-283 | whenever Bonferroni over the true hypotheses alone rejects none of them, Holm rejects none of them |
| SignFlip.ExactSignFlip | backend/analysis_v1/statistics.py:223-239 | it tries 2^c sign vectors, counts an even number of extreme ones and at least two, and its p-value is that share, between 2^(1-c) and 1 |
| SignFlip.MonteCarloSignFlip | backend/analysis_v1/statistics.py:240-249 | for any draws the p-value is the add-one share of extreme draws, between 1/(draws + 1) and 1 |
| SignFlip.EverySignVectorListed | backend/analysis_v1/statistics.py:231-233 | the enumeration contains every sign vector |
| SignFlip.TwistKeepsCount | backend/analysis_v1/statistics.py:227-239 | multiplying the whole enumeration by a fixed sign vector changes no count |
| SignFlip.ExtremeIsEven | backend/analysis_v1/statistics.py:227-239 | a sign vector and its negation are extreme together, so the count is even |
| SignFlip.IdentityIsExtreme | backend/analysis_v1/statistics.py:227-239 | the observed data are extreme themselves, so the count is at least two |
| SignFlip.NegationInvariance | backend/analysis_v1/statistics.py:223-239 | negating all data leaves the exact count unchanged |
| SignFlip.MonteCarloNegationInvariance | backend/analysis_v1/statistics.py:240-249 | negating all data leaves the count over any fixed draws unchanged |
| SignFlip.ExactTestIsValid | backend/analysis_v1/statistics.py:223-239 | over all sign patterns the data could have had, at most k of the 2^n have k or fewer extreme vectors, so small p-values are as rare as they claim |
| SignFlipExtremes.ExtremeExactly | backend/analysis_v1/statistics.py:227-239 | a sign vector is extreme exactly when the absolute value of the signed sum of the cluster totals, plus N / 10^15 for N values, reaches the absolute total |
| SignFlipExtremes.OnlyConstantsAreExtreme | backend/analysis_v1/statistics.py:227-239 | when every cluster total exceeds N / 10^15, the only extreme vectors are the data and their negation |
| SignFlipExtremes.UnanimousClusters | backend/analysis_v1/statistics.py:230-239 | such data have exactly two extreme vectors, so the exact p-value is 2 / 2^c |
| SignFlipExtremes.ListedOnce | backend/analysis_v1/statistics.py:231-233 | the enumeration lists every sign vector exactly once |
| SignFlipExtremes.ExactPValueCounts | backend/analysis_v1/statistics.py:230-239 | up to sixteen clusters the p-value is the share of the 2^c vectors whose signed total reaches the plain one |
| SignFlipExtremes.SampledPValueCounts | backend/analysis_v1/statistics.py:240-249 | beyond sixteen it is the share among the vectors that the coins draw, with one added to both sides |
| Resampling.GroupByCluster | backend/analysis_v1/statistics.py:149-183 | it fails exactly on a blank cluster name; otherwise clusters come in name order, each with its values in input order |
| Resampling.GroupingKeepsValues | backend/analysis_v1/statistics.py:203-222 | grouping neither loses nor repeats a value |
| Resampling.GroupedMean | backend/analysis_v1/statistics.py:203-222 | the mean over the groups is the mean over the input |
| Resampling.ClusterSignFlip | backend/analysis_v1/statistics.py:203-249 | errors exactly on no values, no permutations or a blank cluster; otherwise the p-value is the share of all sign vectors up to the enumeration limit, and above it the add-one share of the drawn ones, with the draws and bounds of either test; `ExactPValueCounts` and `SampledPValueCounts` say what the shares count |
| Resampling.PercentileIndices | backend/analysis_v1/statistics.py:176-183 | 0 <= lower index <= upper index <= resamples - 1 for every confidence in (0,1), and the indices enclose the promised share |
| Resampling.PercentileInterval | backend/analysis_v1/statistics.py:163-183 | the ends are the draws at positions a n and (1 - a) n - 0.000001 for a = (1 - confidence) / 2, said by counting the draws below and up to each end; they are in order and enclose at least the promised number of draws |
| Resampling.SortedInterval | backend/analysis_v1/statistics.py:176-180 | the sorted draws at the two index formulas are exactly that interval |
| Resampling.IntervalIsUnique | backend/analysis_v1/statistics.py:176-180 | no other two numbers are that interval |
| Resampling.DrawIsPickedMean | backend/analysis_v1/statistics.py:170-175 | a draw is the sum over as many picked clusters as there are, with all their values each time, divided by the number of these values |
| Resampling.EnclosedCount | backend/analysis_v1/statistics.py:176-183 | two positions of the sorted draws enclose at least as many draws as lie between them |
| Resampling.TaskClusterBootstrapCI | backend/analysis_v1/statistics.py:149-183 | errors exactly on the five invalid inputs; the estimate is the mean, the interval exists exactly with enough clusters, is the one that leaves (1 - confidence) / 2 of the draws outside on each side, and lies between the least and the greatest value for every choice of resamples |
| EffectPairing.ComputePairs | backend/analysis_v1/engine.py:630-672 | the dictionary loops give the pairs of the specification or its error |
| EffectPairing.FillBuckets | backend/analysis_v1/engine.py:635-658 | the dictionary holds exactly the eligible records under their keys, in input order |
| EffectPairing.PairsPartitionEligible | backend/analysis_v1/engine.py:630-672 | when it does not raise, the groups are disjoint, each has exactly one record per needed cell, every eligible record is in one, and the counts multiply |
| EffectPairing.PairingRaisesExactly | backend/analysis_v1/engine.py:659-672 | it raises exactly when nothing is eligible or some eligible record's bucket is not a full set of cells |
| EffectOutcomes.GroupedExactlyWhenAlike | backend/analysis_v1/engine.py:640-658 | two eligible attempts share a group exactly when they have the same pair id, task, task cluster, scaffold, variant and other factors in the same order |
| EffectPairing.SwappingArmsNegates | backend/analysis_v1/engine.py:675-693 | exchanging control and treatment negates every value of the contrast and keeps every error |
| EffectPairing.SwappingArmsKeepsTheTest | backend/analysis_v1/engine.py:694-708 | negated values have the negated mean, the same clusters and, exact or sampled with the same draws, the same p-value |
| EffectPairing.ExchangeKeepsPairs | backend/analysis_v1/engine.py:819-860 | naming the two factors the other way round gives the same pairs in the same order, or the same error |
| EffectPairing.ExchangingFactorsChangesNothing | backend/analysis_v1/engine.py:819-914 | the differences of differences, and the errors, are the same for either order of the factors |
| EffectPairing.IncludedForgetsOrder | backend/analysis_v1/engine.py:383-390 | the included attempts are the same list for every input order |
| EffectPairing.ExclusionsForgetOrder | backend/analysis_v1/engine.py:393-399 | so are the exclusions |
| EffectPairing.IncludedExactly | backend/analysis_v1/engine.py:384-390 | the included attempts are exactly those without an exclusion reason, by ascending id |
| EffectPairing.ExclusionsExactly | backend/analysis_v1/engine.py:393-399 | the exclusions are exactly the excluded attempts with their reasons |
| EffectPairing.ReportForgetsInputOrder | backend/analysis_v1/engine.py:383-444 | the report, or the refusal for an empty denominator, does not depend on the order of the attempts, whatever is computed from the two ordered lists |
| EffectReports.MainEffectReport | backend/analysis_v1/engine.py:675-755 | it reports exactly when pairing, outcomes, options and clusters allow; estimate, bootstrap estimate and series value are one number, the interval encloses nothing outside the data, the p-value is the exact or sampled share, and the listed attempts are each pair's control and treatment |
| EffectReports.Estimate | backend/analysis_v1/engine.py:680-755 | the same for given pairs, with the missing-outcome error exactly when an outcome is missing |
| EffectReports.CollectRows | backend/analysis_v1/engine.py:680-693 | the loop collects one control, treatment and difference per pair, and stops exactly when an outcome is missing |
| EffectReports.ControlIdsDistinct | backend/analysis_v1/engine.py:709-732 | control attempts of different pairs differ, so the paired estimators cannot raise on duplicate ids |
| EffectReports.PairedEffectDecomposes | backend/analysis_v1/statistics.py:87-133 | the mean difference is the difference of the means, and for binary outcomes the net share of discordant pairs |
| EffectOutcomes.EstimateFromOutcomes | backend/analysis_v1/engine.py:680-732 | the estimate times the number of pairs is what the listed treatment attempts scored minus what the listed control attempts scored, 1 for a success and 0 for a failure or the value of the named metric; each listed pair has the two levels and is otherwise alike, and its difference is the clustered value that interval and test use |
| EffectOutcomes.CertainEffect | backend/analysis_v1/engine.py:680-732 | when every listed treatment attempt succeeds and every listed control attempt fails, estimate and both ends of the interval are 1 |
| EffectFamily.MainEffectReports | backend/analysis_v1/engine.py:758-785 | it returns exactly when every registered effect can be estimated; then one row per effect by ascending id, each with its own report, the rank-free Holm value of its own p-value among all of them, and its rejection at 0.05 |
| EffectFamily.FamilyForgetsInputOrder | backend/analysis_v1/engine.py:383-412 | listing the attempts or the effects in another order gives the same corrected family, row by row: estimates, intervals, p-values, adjusted values, decisions and listed attempts |
| InteractionFamily.ReportInteraction | backend/analysis_v1/engine.py:819-914 | it returns exactly when pairing, outcomes and options allow, and the interaction is held exactly when pairs or clusters are too few; otherwise mean, interval and p-value are those of the differences of differences |
| InteractionFamily.InteractionReports | backend/analysis_v1/engine.py:787-816 | one row per interaction by ascending id; a held one has no adjusted value, an estimated one the rank-free Benjamini-Hochberg value of its own p-value among the estimated ones and its rejection at 0.05 |
| InteractionOutcomes.InteractionFromOutcomes | backend/analysis_v1/engine.py:828-850 | each clustered value is (both - only second) - (only first - neither) over the scores of four attempts that have these levels and are otherwise alike |
| InteractionOutcomes.InteractionRunsExactly | backend/analysis_v1/engine.py:819-863 | an interaction is reported, held or not, exactly when pairing and outcomes give values of named clusters, confidence and resamples are usable and one of the two cluster minima is at least two |
| InteractionOutcomes.InteractionHeldExactly | backend/analysis_v1/engine.py:851-885 | an interaction is held exactly when its pairs or its clusters are fewer than its own minimum or its clusters fewer than the analysis minimum; otherwise mean, interval and p-value are those of its values |
| InteractionFamily.HeldInteractionsDoNotCount | backend/analysis_v1/engine.py:795-808 | registering one more interaction that is held adds its row and changes no other |
| InteractionFamily.InteractionsForgetInputOrder | backend/analysis_v1/engine.py:787-816 | listing the attempts or the interactions in another order gives the same family |
| InteractionFamily.ExchangeKeepsFamily | backend/analysis_v1/engine.py:787-914 | naming the two factors of every interaction the other way round gives the same family |
| EventChannels.EventChannel.Emit | backend/adapters_v1/transport.py:95-106 | one pass of the critical section: it waits only when claimed, open and full, fails when closed, and otherwise appends |
| EventChannels.EventChannel.Close | backend/adapters_v1/transport.py:108-113 | only the closed flag changes |
| EventChannels.EventChannel.Claim | backend/adapters_v1/transport.py:115-121 | the first claim succeeds and every later one fails |
| EventChannels.EventChannel.Next | backend/adapters_v1/transport.py:121-134 | it waits at the end of an open log, ends at the end of a closed one, and otherwise delivers the next event and counts it consumed |
| EventChannels.EmitExactly | backend/adapters_v1/transport.py:95-106 | an emit fails on a closed channel, waits exactly when a claimed one has max_pending undelivered events or more, and otherwise appends and wakes everyone |
| EventChannels.LookExactly | backend/adapters_v1/transport.py:122-134 | an awake consumer takes the next event of the log if there is one, ends on a closed channel, and otherwise sleeps |
| EventChannels.ClaimExactly | backend/adapters_v1/transport.py:115-120 | the first claim gives a consumer at the start of the log and wakes everyone, every later one is refused |
| EventChannels.CloseExactly | backend/adapters_v1/transport.py:108-113 | closing closes the log and wakes everyone |
| EventChannels.ChannelIsSafe | backend/adapters_v1/transport.py:63-134 | over every interleaving: at most one consumer claims, what it has received is a prefix of the log, it finishes only with the whole closed log, and the undelivered count stays within max(limit, count at the claim) |
| EventChannels.LogIsAppendOnly | backend/adapters_v1/transport.py:95-113 | along every run the log only grows, and not at all after close; no later claim succeeds |
| EventChannels.NeverBothBlocked | backend/adapters_v1/transport.py:95-133 | in no reachable state are the producer's and the consumer's guards both waiting |
| EventChannels.SleepingProducerIsServed | backend/adapters_v1/transport.py:95-133 | whenever a producer sleeps, the consumer is awake and its next step delivers an event and wakes every producer |
| EventChannels.ClosedChannelDrains | backend/adapters_v1/transport.py:121-134 | after close the consumer receives the rest of the log in exactly that many steps, and then ends |
| EventChannels.UnclaimedNeverBlocks | backend/adapters_v1/transport.py:95-106 | before a claim an emit on an open channel always appends |
| JsonlStream.JsonlResultParser.ConsumeLine | backend/adapters_v1/transport.py:157-199 | one line changes the parser as the line specification says, or fails with its error and delivers nothing |
| JsonlStream.JsonlResultParser.FinishParse | backend/adapters_v1/transport.py:201-205 | the stored result, or the error for a missing or oversized one |
| JsonlStream.ValidateResultTransportLimits | backend/adapters_v1/transport.py:291-312 | it passes exactly when every inline artifact and their total fit |
| JsonlStream.DrainBuffer | backend/adapters_v1/http_rpc.py:352-386 | every complete line of the buffer is parsed in order; what is left has no line feed and fits the line limit; a failure is final whatever arrives later |
| JsonlStream.ConsumeNdjson | backend/adapters_v1/http_rpc.py:352-386 | for every chunking it succeeds exactly when the reassembled bytes mean something, with exactly those events and that result, so chunk boundaries do not matter |
| JsonlStream.ParseJsonlResponse | backend/adapters_v1/transport.py:208-264 | the batch loop gives the meaning of the whole response under universal line endings |
| JsonlAcceptance.StripExactly | backend/adapters_v1/transport.py:166-170 | a stripped line is what remains before the trailing carriage returns and line feeds |
| JsonlAcceptance.SplitLFExactly | backend/adapters_v1/http_rpc.py:352-386 | the streaming reader's lines are together the response, have a line feed only at their ends, and every one but the last has it |
| JsonlAcceptance.SplitUniversalExactly | backend/adapters_v1/transport.py:217-225 | the batch reader's lines are together the response and end at a line feed, a carriage return or the two together, which are never torn apart |
| JsonlAcceptance.StreamAcceptsExactly | backend/adapters_v1/transport.py:157-206 | the streaming reader returns given events and a given result exactly when response and lines are within their limits, the non-blank lines decode to these events and then this result, the events are owned, strictly increasing and not too many, and the inline artifacts fit |
| JsonlAcceptance.BatchAcceptsExactly | backend/adapters_v1/transport.py:208-264 | the same for the batch reader over its own lines |
| JsonlStream.FramingsAgreeExactly | backend/adapters_v1/transport.py:217-225 | the two ways of cutting lines agree exactly when no carriage return stands alone before other bytes |
| JsonlStream.StreamingEqualsBatch | backend/adapters_v1/transport.py:157-264 | without such a carriage return both readers accept the same responses with the same events and result, or fail with the same error |
| JsonlStream.AcceptedEventsAreOrdered | backend/adapters_v1/transport.py:170-192 | accepted events belong to the attempt, have strictly increasing sequence, are never withdrawn, and nothing follows the result |
| JsonlStream.BareReturnSeparatesTheReaders | backend/adapters_v1/transport.py:217-225 | a response with a bare carriage return that the batch reader accepts and the streaming reader refuses |
| JsonlAgreement.MeaningOfView | backend/adapters_v1/transport.py:157-264 | what a reader reports depends only on the different records it sees before the first repeated or overlong one, and on which of these, or the end, comes then |
| JsonlAgreement.ReadersAgreeExactly | backend/adapters_v1/transport.py:157-264 | for each line limit and response, the two readers report the same whatever the records mean exactly when both framings show the same such records and end alike |
| AttemptLifecycle.Adapter.Prepare | backend/adapters_v1/http_rpc.py:186-226 | it refuses an attempt that is prepared and not cleaned, and otherwise installs new state and forgets the old result and flags |
| AttemptLifecycle.Adapter.Enter | backend/adapters_v1/http_rpc.py:228-250 | under the lock: the stored result first, then a cancelled bundle for a flagged attempt, and only otherwise a dispatch |
| AttemptLifecycle.Adapter.FinishExchange | backend/adapters_v1/http_rpc.py:251-340 | which bundle, if any, each way of ending an exchange stores |
| AttemptLifecycle.Adapter.Clean | backend/adapters_v1/http_rpc.py:450-464 | cleanup removes every map entry of the attempt and marks it cleaned |
| AttemptSteps.PreparedIsFresh | backend/adapters_v1/http_rpc.py:186-226 | a preparation is refused exactly while the attempt is prepared, and otherwise gives it its digest, a new lock and queue, no result and no flag, and leaves every other attempt alone |
| AttemptSteps.ForeignHandlesAreRefused | backend/adapters_v1/http_rpc.py:228-236 | a handle of another adapter or for another input starts, flags and cleans up nothing; it can only get a bundle that is stored already |
| AttemptSteps.OwnedHandleWaits | backend/adapters_v1/http_rpc.py:228-240 | any other handle waits for the lock of its preparation unless a result is stored |
| AttemptSteps.CancellationFlags | backend/adapters_v1/http_rpc.py:434-464 | a cancellation, and the beginning of a cleanup, flag the attempt of an owned handle and change nothing else of it |
| AttemptSteps.CancellationCloses | backend/adapters_v1/http_rpc.py:434-449 | a cancellation closes the queue of the flagged attempt |
| AttemptSteps.ReleasingExactly | backend/adapters_v1/http_rpc.py:228-340 | the end of a call closes its queue, frees its lock and returns what it stored |
| AttemptSteps.EnteringExactly | backend/adapters_v1/http_rpc.py:236-250 | under the lock a stored result is returned at once, a flagged attempt stores and returns a cancelled bundle, and only an unflagged attempt without a result is dispatched |
| AttemptSteps.ExchangeEndings | backend/adapters_v1/http_rpc.py:251-340 | an accepted response is stored unless the attempt was flagged, which stores a cancelled bundle; a timeout stores a timed-out one, a provider failure a failed one, a cancelled task a cancelled one, and a rejected response or an error stores nothing |
| AttemptSteps.FinishedCallReleases | backend/adapters_v1/http_rpc.py:251-340 | what a finished exchange will return is what it stored, and it returns nothing exactly on an error or an unflagged rejected response |
| AttemptSteps.CleanupForgets | backend/adapters_v1/http_rpc.py:450-464 | the end of a cleanup forgets everything of its attempt, marks it cleaned and leaves every other attempt alone |
| AttemptLifecycle.KeysAlwaysAgree | backend/adapters_v1/command_jsonl.py:129-177 | on every run the attempt, queue and lock maps have the same keys and none of them is cleaned |
| AttemptLifecycle.CompletedOnlyWhenNotCancelled | backend/adapters_v1/command_jsonl.py:218-344 | on every run a completed bundle is stored only by an acceptable response while the attempt is not flagged |
| AttemptLifecycle.GuardedRunsKeepInv | backend/adapters_v1/http_rpc.py:186-464 | every run in which no attempt is prepared while a call on it waits or exchanges keeps the lock discipline, the ownership of results and the closing of queues, overlapping cleanup included |
| AttemptLifecycle.StoredResultStays | backend/adapters_v1/http_rpc.py:228-250 | on such a run a stored bundle never changes, and the attempt is never dispatched again, until it is cleaned up or prepared anew |
| AttemptLifecycle.ExecuteReturnsTheStoredResult | backend/adapters_v1/http_rpc.py:228-250 | until then every later execute returns that bundle and changes nothing |
| AttemptLifecycle.CancelledNeverDispatches | backend/adapters_v1/command_jsonl.py:218-344 | on every run whatever, from the cancel flag on nothing is dispatched for the attempt until it is cleaned up or prepared anew |
| AttemptLifecycle.CancelledNeverCompletes | backend/adapters_v1/command_jsonl.py:407-417 | nor does a completed bundle appear, on any run |
| AttemptLifecycle.ExchangesAreExclusive | backend/adapters_v1/http_rpc.py:228-250 | on a run without such preparations at most one exchange per attempt is in flight |
| AttemptLifecycle.FinishedAttemptHasClosedQueue | backend/adapters_v1/http_rpc.py:228-340 | on such a run the queue of a prepared attempt with a result is closed, unless a call is about to close it |
| AttemptOverlap.PreparationBreaksExactly | backend/adapters_v1/http_rpc.py:199-226 | from every state of such a run, an accepted preparation has a continuation with two exchanges of the attempt in progress, and one in which a stored result is replaced, exactly when a call on the attempt waits or exchanges at that moment |
| AttemptOverlap.QuietRunsAreGuarded | backend/adapters_v1/http_rpc.py:450-464 | when cleanup overlaps no call on its attempt, every preparation is of the harmless kind and every result belongs to a prepared attempt |
| AttemptOverlap.OverlappingCleanupReplacesAResult | backend/adapters_v1/command_jsonl.py:256-300 | for any two ways of ending an exchange that store something, a run with overlapping cleanup dispatches one attempt twice and returns both bundles |
| ArchiveScan.Reader.Read | backend/adapters_v1/offline_installer.py:106-108 | what any stream may do: short reads, and an empty one only for zero bytes or at the end |
| ArchiveScan.Consume | backend/adapters_v1/offline_installer.py:102-111 | for any pacing of the stream it returns the length when that fits and otherwise stops exactly one byte past the maximum |
| ArchiveScan.CheckContent | backend/adapters_v1/offline_installer.py:132-137 | a member passes exactly when its content has its declared size |
| ArchiveScan.ScanZip | backend/adapters_v1/offline_installer.py:114-140 | the loop returns the name count and byte total of the specification, or the first hold in the order of the checks |
| ArchiveScan.ScanTar | backend/adapters_v1/offline_installer.py:143-166 | the same for TAR |
| ArchiveScan.ZipScanExactly | backend/adapters_v1/offline_installer.py:114-140 | acceptance is exactly: at most 256 members, safe and distinct folded names, plain unencrypted files of declared size, limits kept after each file; the total is the bytes really read and within the limit |
| ArchiveScan.ZipCountsMembers | backend/adapters_v1/offline_installer.py:67-80 | the count is the number of members |
| ArchiveScan.TarScanExactly | backend/adapters_v1/offline_installer.py:143-166 | acceptance is a condition on the whole archive, at most 256 members included, and the count is the number of files |
| ArchiveScan.ZipHoldIsHonest | backend/adapters_v1/offline_installer.py:114-140 | a held ZIP has too many members, or its first member that does not fit has the very fault that the hold names |
| ArchiveScan.TarHoldIsHonest | backend/adapters_v1/offline_installer.py:143-166 | the same for TAR, where a directory is never at fault |
| ArchiveOrder.TarForgetsMemberOrder | backend/adapters_v1/offline_installer.py:143-166 | acceptance and account are the same in every member order |
| ArchiveOrder.ZipOrderMatters | backend/adapters_v1/offline_installer.py:130-131 | two files that are held in one order and accepted in the other |
| ArchiveOrder.ZipAcceptedByPrefix | backend/adapters_v1/offline_installer.py:95-140 | one order is accepted exactly when members are at most 256, names, files and total fit, and every prefix keeps the ratio |
| ArchiveOrder.ZipEveryOrderExactly | backend/adapters_v1/offline_installer.py:114-140 | a ZIP is accepted in every order exactly when its members fit, those without compressed bytes keep the ratio together, and every other file keeps it with all of them in front |
| ArchiveOrder.ZipSomeOrderExactly | backend/adapters_v1/offline_installer.py:114-140 | a ZIP is accepted in some order exactly when its members fit, which includes that they are at most 256, and the whole archive keeps the ratio |
| ArchiveOrder.ZipOrderIrrelevantExactly | backend/adapters_v1/offline_installer.py:114-140 | the order is irrelevant exactly when the second condition implies the first |
| ArchiveOrder.ZipAccountForgetsOrder | backend/adapters_v1/offline_installer.py:114-140 | every accepted order gives the same account |
| ArchiveScan.DirectoriesCountInZipOnly | backend/adapters_v1/offline_installer.py:121-166 | the two scans report the same count exactly when there is no directory, and the same bytes always |
| ArchivePublication.PublishCache.Install | backend/adapters_v1/offline_installer.py:206-280 | the methods of the class, in the order of the code, reach the state of the transition system run by one publisher alone, whichever operations fail |
| ArchivePublication.SoloOutcome | backend/adapters_v1/offline_installer.py:206-280 | alone on a free digest it publishes exactly when nothing up to the inventory fails; when its cleanup works, any failure but one between lock and guarded block leaves the cache as it was |
| ArchivePublication.StepKeepsInv | backend/adapters_v1/offline_installer.py:206-280 | every file-system step of any publisher, failing or not, keeps lock, reservation and temporary directories attributed to their owners |
| ArchivePublication.AtMostOneSuccess | backend/adapters_v1/offline_installer.py:206-280 | over every interleaving, failing cleanups included, at most one publisher publishes a digest, with payload and inventory in place |
| ArchivePublication.FailureLeavesExactly | backend/adapters_v1/offline_installer.py:274-280 | over every interleaving, a publisher that stopped without publishing has a temporary directory, a reservation or the lock exactly when the removal of that one failed in the run, or, for the lock, its temporary directory could not be created |
| ArchivePublication.OthersAreUntouched | backend/adapters_v1/offline_installer.py:260-280 | no step of one publisher removes what another owns |
| ArchivePublication.SuccessIsStable | backend/adapters_v1/offline_installer.py:206-280 | a published target stays as it is on every continuation |
| ArchivePublication.LeftTargetRefusesEveryone | backend/adapters_v1/offline_installer.py:209-211 | a reservation that a failed removal left stays on every continuation, nobody publishes, and every later call is refused at its first check |
| ArchivePublication.ExistingTargetIsKept | backend/adapters_v1/offline_installer.py:206-211 | a target that was there before is never accepted, replaced or removed |
| ArchivePublication.LockIsFreeExactly | backend/adapters_v1/offline_installer.py:212-280 | when all have stopped the lock is free exactly when no temporary directory failed to be created and no unlink failed |
| ArchivePublication.KeptLockBlocksForever | backend/adapters_v1/offline_installer.py:212-280 | after such a failure the lock stays with that publisher and nobody else who has not published yet ever does |
| ArchivePublication.UndisturbedPublisherSucceeds | backend/adapters_v1/offline_installer.py:206-280 | a publisher that runs alone without faults does succeed |
| ParetoSelection.DominanceIsStrictOrder | backend/analysis_v1/decision.py:126-138 | dominance is irreflexive, asymmetric and transitive |
| ParetoSelection.FrontierCovers | backend/analysis_v1/decision.py:141-149 | every reconciled profile is on the frontier or dominated by one that is |
| ParetoSelection.FrontierIsPareto | backend/analysis_v1/decision.py:141-149 | the frontier is an antichain of reconciled profiles that covers the rest and is empty only when nothing is reconciled |
| ParetoSelection.FrontierExactly | backend/analysis_v1/decision.py:126-149 | a profile is on the frontier exactly when it is reconciled and no reconciled profile is at least as good in all five measures and different in one |
| ParetoSelection.FrontierIsFixedPoint | backend/analysis_v1/decision.py:141-149 | the frontier of the frontier is the frontier |
| ParetoSelection.ChoiceIsCheapestSufficient | backend/analysis_v1/decision.py:181-192 | HOLD exactly when nothing suffices; otherwise the choice suffices and is least by the key among all that do |
| ParetoSelection.ChoiceExactly | backend/analysis_v1/decision.py:181-192 | nothing meets the five constraints, or the choice does, and none that does is cheaper, or as cheap and faster, or then more successful, or then more auditable; ids settle full ties |
| ParetoSelection.DominatorOfTheChoice | backend/analysis_v1/decision.py:181-192 | a profile dominates the choice exactly when it ties it on everything in the key and has a lower severe-failure rate |
| ParetoSelection.ChoiceOnFrontierExactly | backend/analysis_v1/decision.py:181-192 | the choice is on the frontier exactly when there is no such tie |
| ParetoSelection.ChoiceCanBeDominated | backend/analysis_v1/decision.py:181-192 | profiles for which the choice is off the frontier |
| ParetoSelection.ChoiceForgetsOrder | backend/analysis_v1/decision.py:181-192 | the choice does not depend on the order of the profiles |
| ClaimGate.AssessAdequacy | backend/analysis_v1/adequacy.py:82-115 | for all inputs the level is descriptive, and each reason is listed exactly when its condition holds |
| ClaimGate.Balance | backend/analysis_v1/adequacy.py:90-90 | a number in [0, 1] that times the larger arm is the smaller one, and is 1 exactly for equal non-empty arms |
| ClaimGate.EvaluateClaim | backend/analysis_v1/claims.py:313-365 | the appended blockers and the disposition are those of the ledger specification |
| ClaimGate.BlockersExactly | backend/analysis_v1/claims.py:320-346 | a blocker is listed exactly when its reason holds of the claim |
| ClaimGate.SupportedExactly | backend/analysis_v1/claims.py:347-354 | a claim is supported exactly when its receipt is linked, nothing severe or excluded is present, its kind's extra conditions hold and its ceiling is allowed |
| ClaimLadder.SupportedByKind | backend/analysis_v1/claims.py:252-284 | kind by kind: which maturity one linked receipt must have, when the report must be confirmatory with an estimate or have every cost known, and which maxima allow it |
| ClaimLadder.DispositionExactly | backend/analysis_v1/claims.py:347-354 | severe failures reject or hold every claim by the policy; otherwise a claim is supported exactly when warranted on a clean report, and on hold if not |
| ClaimLadder.MissingReceiptExactly | backend/analysis_v1/claims.py:320-326 | the missing-receipt blocker names the claim's kind and the one maturity it asks for, exactly when no linked receipt has it |
| ClaimLadder.BlockersInOrder | backend/analysis_v1/claims.py:320-346 | a claim's blockers come in the order of the checks and none twice |
| ClaimGate.CollectBriefBlockers | backend/analysis_v1/claims.py:450-473 | the appended and de-duplicated list is that of the brief specification |
| ClaimGate.BuildDecision | backend/analysis_v1/claims.py:288-310 | ledger and brief are the specified ones |
| ClaimGate.CeilingIsHighestEarned | backend/analysis_v1/claims.py:476-482 | the supported ceiling is the highest ceiling among the earned claims and never above the allowed maximum |
| ClaimLadder.CeilingByKind | backend/analysis_v1/claims.py:264-286 | the published ceiling is that of the strongest supported kind in the ledger, independent validation first and fixture observation last |
| ClaimLadder.LedgerInOrder | backend/analysis_v1/claims.py:292-295 | the ledger has one entry per claim by ascending id |
| ClaimLadder.ActionExactly | backend/analysis_v1/claims.py:512-523 | the next action resolves severe failures, then exclusions, then adequacy, then unknown costs, then missing receipts, and is to publish exactly when nothing is missing, for claim ids that do not begin like one of the brief's notes |
| ClaimLadder.BriefNotesExactly | backend/analysis_v1/claims.py:450-463 | each of the brief's own notes is there exactly when the report has that defect, and no note is there twice |
| ClaimGate.VerdictExactly | backend/analysis_v1/claims.py:405-414 | PASS exactly when every claim is earned, REJECT exactly when the policy rejects present severe failures |
| ClaimGate.SevereFailuresSupportNothing | backend/analysis_v1/claims.py:347-352 | with severe failures every entry has the policy's disposition and the ceiling is empty |
| ClaimGate.DecisionForgetsClaimOrder | backend/analysis_v1/claims.py:292-295 | ledger and brief do not depend on the order of the proposed claims |
| ClaimGate.BriefRepeatsBlockers | backend/analysis_v1/claims.py:464-472 | the brief names a claim's blocker exactly when it holds and is not the severe-failure one |
| ClaimGate.DescriptiveReportsStayDescriptive | backend/analysis_v1/claims.py:330-339 | on a descriptive report no causal or generalized claim is supported, the ceiling is never theirs, and the next action is determined and never to publish |
| ClaimGate.DecideOnBuiltReport | backend/analysis_v1/engine.py:1012-1064 | the same from adequacy inputs to the decision, for every input |
| ClaimGate.PublishExactly | backend/analysis_v1/claims.py:512-523 | the brief says to publish exactly when the verdict passes on a confirmatory report with every cost known |
| ClaimGate.PassWithoutPublication | backend/analysis_v1/claims.py:411-412 | a passing verdict that may not be published |
| ClaimGate.WeakerEvidenceNeverPromotes | backend/analysis_v1/claims.py:313-365 | fewer receipts, a worse report or a lower maximum never support a further claim, raise the ceiling or turn the verdict into PASS |
| CalibrationAudit.CollectAnnotations | scripts/check-human-calibration.py:252-292 | the loop files exactly the annotations that the ordered checks accept and one error for each other file |
| CalibrationAudit.CollectExactly | scripts/check-human-calibration.py:256-292 | accepted and rejected files add up to all files, and there is no error exactly when every file is a record that passes against those before it |
| CalibrationAudit.CountAnnotations | scripts/check-human-calibration.py:378-378 | summing over the dictionary counts every accepted annotation once |
| CalibrationAudit.TallyPair | scripts/check-human-calibration.py:311-320 | one pair of rows updates each dimension's four counters |
| CalibrationAudit.ScoreTargets | scripts/check-human-calibration.py:294-327 | completed and incomplete targets, conflicts and counters are those of the accepted annotations |
| CalibrationAudit.CombinationsMembers | scripts/check-human-calibration.py:311-311 | n rows give n(n - 1)/2 pairs and every two rows are one of them |
| CalibrationAudit.SpreadIsPairwise | scripts/check-human-calibration.py:313-325 | the spread of a target exceeds the threshold exactly when some pair of its rows does |
| CalibrationAudit.WithinExactlyWhenUndisputed | scripts/check-human-calibration.py:311-327 | a dimension's within-threshold count equals its pair count exactly when no completed target disputes it |
| CalibrationMeaning.TallyExactly | scripts/check-human-calibration.py:311-320 | a dimension's counters are the number of pairs, of equal scores, of scores at most 0.20 apart, and the sum of all distances |
| CalibrationMeaning.DisputedExactly | scripts/check-human-calibration.py:322-327 | a target's conflicts are those of the five dimensions on which two of its annotators are more than 0.20 apart |
| CalibrationMeaning.ListsExactly | scripts/check-human-calibration.py:302-310 | a target is listed as completed exactly when all of its annotators have answered, and as incomplete exactly when some but not all have |
| CalibrationMeaning.ConflictsExactly | scripts/check-human-calibration.py:322-368 | the report lists exactly the conflicts of completed targets, and as unresolved those that no accepted adjudication names |
| CalibrationAudit.CollectAdjudications | scripts/check-human-calibration.py:329-364 | the loop accepts exactly the adjudications that the ordered checks accept and records one error for each other file |
| CalibrationAudit.AgreementReport | scripts/check-human-calibration.py:242-388 | the report is the specified one, and its counters agree with its own list of conflicts |
| CalibrationAudit.ProtocolCompleteExactly | scripts/check-human-calibration.py:410-427 | the status is protocol-complete exactly when the protocol is met in its own terms: different targets, one independent bound annotation for every assigned pseudonym of each target and none besides, one exact adjudication for every conflict and none besides, and a consistent ledger |
| CalibrationMeaning.StatusExactly | scripts/check-human-calibration.py:410-427 | each status and exactly when it is given: invalid, blocked without annotations, a conflict without adjudication, unfinished targets, complete |
| CalibrationAudit.AnnotatedOnce | scripts/check-human-calibration.py:278-292 | when the protocol is met, exactly one annotation answers the pseudonym of each assignment, with the id the dictionary holds for it, which is the assignment's own when the target repeats no pseudonym |
| CalibrationAudit.AnnotationsPerAssignment | scripts/check-human-calibration.py:247-292 | when the protocol is met there is one annotation for each pseudonym of each target, and one for each assignment exactly when no target repeats a pseudonym |
| CalibrationAudit.AdjudicatedOnce | scripts/check-human-calibration.py:345-364 | when the protocol is met, a conflicted target has exactly one adjudication and any other target none |

## Left out

- Network, subprocess, clocks and the file system themselves: only the steps and byte sequences they deliver.
- JSON, pydantic validation, SHA-256 and canonical JSON: parameters or absent; no property depends on them.
- Floating-point rounding, including the four-decimal rates of the audit; its counts and sums are modelled.
- The quality of random draws: draws are arbitrary functions.
- JsonlStream.ConsumeNdjson: states which responses succeed and with what, not which error a failing stream reports first, because that depends on where the chunks end; a consumer that abandons the stream is not modelled.
- AttemptLifecycle.GuardedRunsKeepInv: assumes that no attempt is prepared while a call on it waits or exchanges; PreparationBreaksExactly shows that exactly such preparations break it. A call that is cancelled while it waits for the lock is a step; one that is cancelled while it closes its queue is not.
- AttemptLifecycle.Adapter.FinishExchange: the command adapter can surface a killed process as a raised error instead of a stored cancelled bundle; an exchange may end in such an error, but which one it is is not modelled.
- ArchivePublication.AtMostOneSuccess: quantifies over failures of every operation, not over a crash of the process between two steps, nor over an interrupt that skips the cleanup and still unlinks the lock; a removal that fails halfway counts as leaving an incomplete target.
- ArchiveScan.ZipScanExactly: the path, Windows-name and Unicode rules are one uninterpreted record of functions, and zip and tar decoding is the list of members it yields.
- EffectPairing.ReportForgetsInputOrder: what the report computes from its ordered inputs is an arbitrary function of them; its corrected families of main effects and interactions are modelled, by EffectFamily.FamilyForgetsInputOrder and InteractionFamily.InteractionsForgetInputOrder.
- TraceScaffolding.ScaffoldedSilenceExactly: is about anchors that only one side has, below 500,000,000 events; an anchor that both sides have must stand at the same places, and for moved ones there is a witness, not a condition.
- ClaimGate.BuildDecision: the decision that is modelled is the ledger and the brief's verdict, blockers, ceiling and next action, without its limitations, falsifiers, uncertainty statement, outcome vector and hashes.
- CalibrationAudit.AgreementReport: the rounded rates and the count of source files that the report prints beside the modelled counters, lists and issues.
- The chart series of a report, the stress tax and the per-profile rates (`_series`, `_clean_vs_stressed_tax`, `_profile_report`): the same estimators over other selections of records.
- `build_packet`, `_validate_packet` and the audit's own schema validation: flat lists of independent conditions.
- `planning.py`, `research.py`, the FastAPI routes, the command line, the frontend, the durable queue and the release scripts.
