# RiskLoom, modelled and proved in Dafny

A model of the decision-making core of RiskLoom, with proofs of what that core
promises. Each module follows one source component.

| file | component |
|---|---|
| `rolling_index.dfy`, `feature_state.dfy` | the fourteen incremental sliding-window indexes and their transactional state |
| `feature_scan.dfy` | what the indexes stand for: a plain scan of the event history over a left-exclusive window |
| `feature_schema.dfy`, `feature_engine.dfy`, `feature_fields.dfy`, `engine_host.dfy` | the vector validator, the compute-before-update engine, what each field of its vector is, its live host |
| `portable_tree.dfy` | array-encoded decision trees: the stack-based validator and the unguarded inference walk |
| `policy_bands.dfy`, `band_meaning.dfy`, `review_tier.dfy`, `model_metrics.dfy` | two-threshold cost bands: routing, the prefix-sum sweep, what its counts and choice are row by row, when a review tier can exist, single-threshold selection |
| `explanations.dfy`, `preflight.dfy` | two claim protocols over the ledger, as interleaved steps with stale reads, crashes and lost replies |
| `explanation_outcomes.dfy`, `preflight_outcomes.dfy` | what each of their steps reads, stores and answers in every run |
| `zip_directory.dfy`, `zip_bytes.dfy` | the ZIP directory parser; archives written out byte by byte |
| `bundle_install.dfy`, `install_order.dfy` | the multi-file installer with rollback; its order of publication |
| `cluster_order.dfy`, `cluster_breadth.dfy` | ordering of hubs into contiguous components, each breadth first |
| `campaign_placement.dfy`, `campaign_meaning.dfy`, `apportionment.dfy` | campaign windows against their independent checker, and what both share; largest remainders, even groups, retry chains |
| `numerals.dfy`, `grounding.dfy`, `grounding_meaning.dfy` | canonical numerals; the grounding check on generated text, from payload and text to verdict; what its pattern and its words match |
| `nearest_rank.dfy` | streaming percentiles over frequency counters |
| `common.dfy`, `sorting.dfy` | option and result types; the stable sort the components share |

`dafny verify dfyconfig.toml` checks everything.

## How the model is built

Objects that the source updates in place are classes whose methods are proved
against a specification function of their contents; pure code is functions.
Time is integer milliseconds, tokens are strings compared for equality,
probabilities and tree values are reals. Random draws, clocks, injected faults
and text decoders are parameters that the theorems quantify over. The database
is an atomic map with unique keys, and one protocol step is what runs between
two awaits; any step order is allowed and any request may stop before any of
its steps.

Main results:

* **Feature engine.** After any accepted history, every index retains exactly
  what a scan of the whole history retains, each snapshot is a count over
  that history, and each computed vector passes the whole validator. Every
  field of the vector is given in terms of the events' own fields. A
  failure during computation, between two index updates or during the
  diagnostics leaves every index, counter and peak as it was. This rests on a
  uniqueness lemma: the counters are a function of the retained entries.
* **Trees.** The validator accepts exactly the arrays that encode one proper
  binary tree rooted at node 0 using every node once, and refuses any others
  for the first node in preorder that cannot be entered; on accepted arrays
  the inference loop ends, stays in bounds and returns what recursive
  evaluation returns.
* **Bands.** The sort, prefix-sum and binary-search sweep finds a legal band
  that no admissible pair of candidates beats, and no band in [0, 1] when
  nothing was subsampled. The inconsistency check never fires. For any grid
  and required thresholds, some rows give the best band a review tier if and
  only if a missed attack times a false positive costs more than a review
  times their sum (or reviews and false positives are free and missed attacks
  are not); at the locked ratio of 1:25, if and only if 26 reviews cost less
  than 25 false positives.
* **Protocols.** In every run of either protocol: unique keys, budgets and
  attempt numbers hold, terminal rows never change, and the action of a final
  row follows the probability as it was scored. What the row's rounded columns
  say about it is settled exactly.
* **Archives and installation.** The parser returns names exactly for the
  encodings of supported archives, and otherwise the error that the readable
  records in front call for. Without faults an installation succeeds exactly
  when all members are supplied, none conflicts and the way to each is clear.
  A successful one adds exactly the pending members. A failed one loses
  nothing that was there and leaves only what could not be removed, so
  nothing when every removal succeeds; after a failed write a file is left
  only if its removal was refused twice. A new manifest is left without its
  data exactly when it could not be removed and a data file could, and until a
  manifest's removal is refused no recorded tree holds one without its data.
* **Grounding.** A generated text passes if and only if every numeral in it
  denotes a number the payload supplies, exactly and in any spelling, and every
  listed number word standing alone in it names one. For a payload built from a
  ledger row those numbers are the amount, the columns, their percentages, the
  counts and the parts of durations, and no digit outside ASCII passes.
* **Ordering, placement, apportionment, numerals, percentiles**: see the
  table.

Properties that are false of the code, each with its exact condition:

* A preflight order can exist upstream while its row is final and says review:
  the order was created but the reply was an error
  (`LostReply`). An existing order whose row is final has an allow
  row if and only if its creation was acknowledged (`OrdersAreBacked`). The
  comment at `src/riskloom/services/preflight.py:213-218` names the failing
  ledger write as the one storage failure that strands an order; a lost reply
  strands one without any storage failure.
* The two ledger columns do not always tell the decision: they are rounded to
  18 decimals, the decision is not. At the locked threshold of
  `docs/BUILD_LOG.md:1481`, an event scored one float64 step below it is
  allowed although its stored probability equals the stored threshold
  (`ColumnsMisread`). The columns read as the risk decision if and only if the
  score is not a lower one that rounds to the threshold's column
  (`ColumnsTellTheRisk`). A denied row, the only kind explained, always reads
  as reaching the threshold.
* Normalising a string twice can differ from normalising it once, because
  removing zeros can uncover white space (`TwoPassesDiffer`). With commas and
  outer white space gone, it is idempotent if and only if no white-space
  character has only zeros before it, or stands after the first dot with only
  zeros after it, or stands right before the first dot with only zeros after
  the dot (`IdempotentUnlessUncovered`).
* The grounding check does not catch every number in words: a word that is not
  in its table passes whatever the payload supplies, such as ninety
  (`UnlistedWordPasses`, `NinetySlips`).
* The comment at `src/riskloom/policy/config.py:62-63` says that no integer
  review cost reaches the review tier on the original scale, where a false
  positive costs 1. `LockedRatio` shows that a cost of 0, which the
  configuration accepts, does, and that every other cost does not.
* Cutting a retry quota into chains can fail for accepted configurations. A
  quota is always a multiple of eight. With bounds of three to three it fails
  for every seed unless the events are a multiple of 300, with three to four
  for some draws and not for others, and with any other accepted bounds never
  (`ConfiguredQuotasForm`, `ConfiguredQuotasFail`). The smallest input is 100
  events, so eight retries (`HundredEvents`). `FormsForAllDraws` is the exact
  condition on any total and bounds.

## Model

| member | source | states |
|---|---|---|
| RollingIndexes.AgreesUnique | src/riskloom/features/state.py:25-42 | two counter states that agree with the same retained entries are equal: the counters carry no information of their own, so undoing the deque undoes everything |
| RollingIndexes.SnapshotAgrees | src/riskloom/features/state.py:79-87 | an agreeing aggregate reports the attempts, failures, last time and number of different tokens that scanning the entries reports |
| RollingIndexes.CountsInserted | src/riskloom/features/state.py:69-71 | a relation counter with one reference more agrees with the entries with one entry more, if and only if it agreed before, wherever the entry is inserted |
| RollingIndexes.RollingIndex.AddAggregateReference | src/riskloom/features/state.py:109-122 | counting one entry, at the end or restored in front, keeps the counters in agreement with the entries |
| RollingIndexes.RollingIndex.RemoveAggregateReference | src/riskloom/features/state.py:136-161 | uncounting an entry at either end keeps agreement, and none of the four consistency errors is ever returned |
| RollingIndexes.RollingIndex.Evict | src/riskloom/features/state.py:44-51 | the evicted observations are exactly the front of the deque at or before the cutoff, everything kept is after it, and the counters still agree |
| RollingIndexes.RollingIndex.RestoreEvicted | src/riskloom/features/state.py:53-71 | puts the evicted observations back in front with agreeing counters, so by uniqueness it undoes an eviction |
| RollingIndexes.RollingIndex.GetSnapshot | src/riskloom/features/state.py:73-87 | the constant-time snapshot equals the scan of all retained entries, for every token, present or missing |
| RollingIndexes.RollingIndex.Observe | src/riskloom/features/state.py:89-122 | appends exactly one observation with the event's fields, or changes nothing when the primary token is missing |
| RollingIndexes.RollingIndex.RollbackToObservationCount | src/riskloom/features/state.py:124-130 | undoes at most one observation, with agreeing counters; refuses, changing nothing, exactly when the count is off by more |
| RollingIndexes.RollingIndex.CommitDiagnostics | src/riskloom/features/state.py:132-134 | peaks become the maximum of their old value and the current sizes |
| FeatureStates.RelationsCarryFields | src/riskloom/features/state.py:184-266 | in every index, each relation carries the event field it is named after, and an event is observed exactly when it has the primary token, which the next rows give |
| FeatureFields.MerchantFields | src/riskloom/features/engine.py:108-117 | for every history and event and each window, attempts and failures are the numbers of past events with the event's merchant in the window, and the distinct counts the numbers of different instruments, devices and networks among them |
| FeatureFields.DeviceFields | src/riskloom/features/engine.py:119-126 | the same of the event's device, with instruments and sessions; a missing device matches nothing |
| FeatureFields.NetworkFields | src/riskloom/features/engine.py:129-138 | the same of the event's network, with instruments, devices and sessions; a missing network matches nothing |
| FeatureFields.InstrumentFields | src/riskloom/features/engine.py:140-151 | the same of the event's payment instrument, with devices, networks and merchants |
| FeatureFields.SessionFields | src/riskloom/features/engine.py:153-160 | the same of the event's session, with instruments |
| FeatureFields.CheckoutFields | src/riskloom/features/engine.py:72-79 | attempts, presence and age of the checkout: the past events with its checkout within the hour and the latest of them |
| FeatureFields.EventFields | src/riskloom/features/engine.py:60-70 | the amount, the channel flags and the missing flags are those of the event |
| FeatureFields.RateFields | src/riskloom/features/engine.py:90-105 | the rate of each family is the floor of its failures per attempt over five minutes in basis points |
| FeatureFields.CardAcrossSessions | src/riskloom/features/state.py:250-257 | an instrument's earlier attempt counts whatever its session |
| FeatureStates.FeatureState.Evict | src/riskloom/features/state.py:210-211 | evicts every index at its own cutoff, peaks untouched |
| FeatureStates.FeatureState.RestoreEviction | src/riskloom/features/state.py:213-215 | every index gets its checkpoint back in front of what it retains |
| FeatureStates.FeatureState.ObserveAll | src/riskloom/features/state.py:275-278 | after any number of whole index updates, exactly the attempted indexes have observed the event |
| FeatureStates.FeatureState.RollBackAll | src/riskloom/features/state.py:289-291 | rolling the attempted indexes back, latest first, returns every index to its recorded count |
| FeatureStates.FeatureState.Observe | src/riskloom/features/state.py:217-297 | without a fault every index observes the event and peaks advance; with a fault between any two updates or commits, every observation list, peak and total is as before |
| FeatureScan.TallyIsEventCount | src/riskloom/features/state.py:117-122 | a counter over the retained entries is the number of matching in-window events of the whole history |
| FeatureScan.DistinctIsTokensSeen | src/riskloom/features/state.py:82-85 | the tokens counted in a relation are exactly those seen beside the primary token within the window |
| FeatureScan.LastIsLatestMatch | src/riskloom/features/state.py:86-119 | the last-seen time is that of the latest matching event in the window |
| FeatureScan.SnapshotIsEventScan | src/riskloom/features/state.py:73-87 | a snapshot taken before an event is, field by field, a scan of the whole history over the window that ends at it |
| FeatureScan.EvictionIsScan | src/riskloom/features/state.py:44-51 | what eviction leaves is what the scan at the later time retains |
| FeatureScan.WiderCountsMore | src/riskloom/features/engine.py:108-160 | for all histories, a wider window of the same family counts no less and sees no fewer entries |
| FeatureScan.DistinctAtMostAttempts | src/riskloom/features/schema.py:129-132 | there are never more different tokens than attempts |
| FeatureSchema.ValidateFamily | src/riskloom/features/schema.py:121-142 | comparing each window only with the one before accepts exactly the families where every wider window counts at least as much as every narrower one, counts are bounded by attempts and the rate is the floor quotient |
| FeatureSchema.AnyHistory | src/riskloom/features/schema.py:144-153 | true exactly when some count, distinct count or rate of the family is not zero |
| FeatureSchema.ValidateCoherentIndicators | src/riskloom/features/schema.py:97-154 | accepts exactly the coherent vectors |
| FeatureEngines.VectorIsCoherent | src/riskloom/features/schema.py:97-154 | for every history and every well-formed event, the vector computed from the scan is in range and passes the whole validator |
| FeatureEngines.CheckoutAge | src/riskloom/features/engine.py:72-79 | the checkout age exists exactly with history and lies in [0, 3,600,000) ms |
| FeatureEngines.CalendarFields | src/riskloom/features/engine.py:59-63 | the weekday and hour fields of a time any number of weeks, days and hours after a Monday's midnight are that day and that hour |
| FeatureEngines.SnapGrows | src/riskloom/features/schema.py:134-135 | snapshots of wider windows are never smaller in any field |
| FeatureEngines.ObservedIsScan | src/riskloom/features/engine.py:42-51 | observing an event at its own time extends each index's scan by exactly that event |
| FeatureEngines.FeatureEngine.EvictForEvent | src/riskloom/features/engine.py:39-39 | after eviction every index retains the scan at the event's time |
| FeatureEngines.FeatureEngine.ComputeRecord | src/riskloom/features/engine.py:58-160 | every field read from the indexes equals the field of the scanned vector, and the validator never refuses it |
| FeatureEngines.FeatureEngine.Process | src/riskloom/features/engine.py:32-56 | returns the vector of the events before this one, whose fields the rows of FeatureFields give, or refuses exactly the events not strictly later in time or, at the same time, in id; a failure anywhere leaves all state untouched |
| EngineHost.OnlineFeatureEngine.NextTimestamp | src/riskloom/serving/engine_host.py:76-89 | the clock's whole milliseconds if they are later than the last answer, else one more than it, so strictly increasing whatever the clock does |
| EngineHost.OnlineFeatureEngine.Process | src/riskloom/serving/engine_host.py:91-102 | the hosted engine's ordering check can never refuse a request; the event taken in carries each of the request's fields; a failing request advances nothing but the timestamp |
| EngineHost.OutcomeNeverRead | src/riskloom/serving/engine_host.py:27-53 | the outcome of an event never reaches its own vector, so posting it as authorized is sound for scoring |
| PortableTrees.EncodesUnique | src/riskloom/modeling/model.py:54-60 | the arrays encode at most one tree at a node |
| PortableTrees.WalkFromRoot | src/riskloom/modeling/model.py:75-100 | entering nodes in stack order, refusing repeats, succeeds exactly when the arrays encode a tree of distinct nodes rooted at 0, and enters it in preorder |
| PortableTrees.Traverse | src/riskloom/modeling/model.py:75-100 | the explicit-stack traversal terminates on arbitrary arrays; it visits exactly the nodes of a tree when that walk succeeds, and otherwise stops at the first node in preorder that cannot be entered |
| PortableTrees.RefusedOnce | src/riskloom/modeling/model.py:80-99 | the arrays settle which node that is and which of the four errors it gets: out of range or its own ancestor, entered before, a bad leaf or a bad split |
| PortableTrees.TreeIsNotRefused | src/riskloom/modeling/model.py:80-99 | arrays that encode a tree of distinct nodes from the root have no such node |
| PortableTrees.ValidateTree | src/riskloom/modeling/model.py:62-103 | accepts exactly the arrays of one proper tree that uses every node once, says unreachable nodes exactly when a proper tree leaves some out, and gives each traversal error exactly when the first node in preorder that cannot be entered calls for it |
| PortableTrees.WalkToLeaf | src/riskloom/modeling/model.py:334-342 | on a validated tree the unguarded loop stays in bounds, terminates and returns the value at the end of the row's path from the root: left where the feature is at most the threshold, right where it is above, down to a node without a left child |
| PortableTrees.EvaluatesAlongPath | src/riskloom/modeling/model.py:334-342 | recursive evaluation is the value at the end of that path, from any node |
| PortableTrees.OnePath | src/riskloom/modeling/model.py:334-342 | a row has one such path |
| PortableTrees.StumpScores | src/riskloom/modeling/model.py:336-341 | a concrete tree of one split: every row up to and at the threshold gets the left value, every other the right |
| PortableTrees.EvaluatesToALeaf | src/riskloom/modeling/model.py:334-342 | recursive evaluation always yields the value of some leaf of the tree |
| PortableTrees.PortableRawScores | src/riskloom/modeling/model.py:330-344 | each row's score is the initial score plus the learning rate times the recursive evaluation of every tree |
| PortableTrees.ScoreAlongPaths | src/riskloom/modeling/model.py:330-344 | that score starts at zero and takes from each tree in turn the learning rate times the value at the end of the row's path |
| PolicyBands.BandDecisions | src/riskloom/policy/bands.py:159-172 | the array overwritten tier by tier holds each probability's own decision |
| PolicyBands.EvaluateIsSweep | src/riskloom/policy/bands.py:184-224 | scoring a band row by row gives the counts and the cost that the boundary counts below each threshold give |
| PolicyBands.SearchSorted | src/riskloom/policy/bands.py:311-311 | the binary search finds the number of rows below the threshold, and the prefix sum there is the number of attacks below it |
| PolicyBands.CumulativeAttacks | src/riskloom/policy/bands.py:307-307 | entry i is the number of attacks among the first i sorted rows |
| PolicyBands.SweepCandidates | src/riskloom/policy/bands.py:236-259 | strictly ascending, holds every required value, nothing but observed or required values, and every observed value when no subsampling is due |
| PolicyBands.PicksEvenly | src/riskloom/policy/bands.py:257-258 | the subsampled positions are floors of evenly spaced ones, from the first to the last |
| PolicyBands.EndsAreCandidates | src/riskloom/policy/bands.py:236-259 | for probabilities in [0, 1], the thresholds 0 and 1 are always candidates, however coarse the grid |
| PolicyBands.ObservedBandCostsTheSame | src/riskloom/policy/bands.py:254-254 | every band in [0, 1] costs what some band of observed values costs |
| PolicyBands.BestIsLegal | src/riskloom/policy/bands.py:265-278 | although pairs are admitted by boundary index and ties may have lower above upper, the least pair in the tie-break order has lower at most upper |
| PolicyBands.BestIsCheapest | src/riskloom/policy/bands.py:327-347 | no ordered pair of candidates, in particular no required incumbent, costs less than the selected one |
| PolicyBands.BestIsOptimal | src/riskloom/policy/bands.py:248-259 | with every observed value a candidate, no band in [0, 1] at all costs less |
| PolicyBands.ReviewNeverPays | src/riskloom/policy/config.py:57-71 | if a review costs at least one unit and at least a false positive, any band that reviews a row is strictly beaten by collapsing it to one of its thresholds |
| PolicyBands.ReviewTierUnreachable | src/riskloom/policy/config.py:57-71 | then the selected band has equal thresholds and every minimum-cost band reviews no row |
| PolicyBands.PermutationSameCounts | src/riskloom/policy/bands.py:304-306 | sorting the rows changes no count below any threshold |
| PolicyBands.CheapestEntries | src/riskloom/policy/bands.py:311-345 | the entries kept are exactly the admitted pairs of minimum cost |
| PolicyBands.SelectBand | src/riskloom/policy/bands.py:281-351 | the input errors come exactly for their inputs and the inconsistency error never; otherwise the band is legal and its row-by-row outcome has the minimum cost over all candidate bands, and over all bands in [0, 1] when nothing is subsampled |
| BandMeaning.OutcomeCounts | src/riskloom/policy/bands.py:184-224 | a band's outcome counts rows: missed and passed ones below the lower threshold, caught and harmed ones from the upper on, the rest reviewed; its cost is the missed attacks, the harmed rows and the reviews, each times its own cost |
| BandMeaning.CandidatesAre | src/riskloom/policy/bands.py:254-259 | a value is a candidate if and only if it is required, or observed, or at one of the evenly spaced positions when there are too many |
| BandMeaning.BestIsFirst | src/riskloom/policy/bands.py:265-278 | by outcomes row by row the selected band comes first of all ordered candidate pairs: least cost, then fewest false positives, most attacks caught, fewest reviews, highest upper and highest lower threshold |
| ReviewTier.ReviewTierReachable | src/riskloom/policy/config.py:57-71 | for any grid and required thresholds, some rows make the selected band review a row if and only if the product of the two error costs exceeds the review cost times their sum, or reviews and false positives are free and missed attacks are not |
| ReviewTier.LockedRatio | src/riskloom/policy/config.py:67-70 | at the ratio the configuration locks, the review tier is reachable if and only if 26 reviews cost less than 25 false positives |
| ModelMetrics.ConfusedIsBelow | src/riskloom/modeling/metrics.py:19-36 | the confusion counts at a threshold are the counts below it |
| ModelMetrics.DegenerateBand | src/riskloom/policy/bands.py:227-233 | a band with equal thresholds scores exactly as the single-threshold policy, whatever a review costs |
| ModelMetrics.SelectThreshold | src/riskloom/modeling/metrics.py:74-99 | the selected observed threshold is least in the tie-break order and costs no more than any threshold in [0, 1]; the precision rung never decides |
| ModelMetrics.BasisPointsCeiling | src/riskloom/policy/bands.py:125-130 | a half-up rounded rate is within a ceiling exactly when the true rate is below the ceiling plus a half |
| Explanations.StepKeeps | src/riskloom/services/explanations.py:178-277 | every step of every request, crash or stale read included, keeps the invariant |
| Explanations.AttemptsInEveryRun | src/riskloom/services/explanations.py:192-219 | in every run a decision's attempts are numbered 1..n with n at most three, all but the last failed or rejected, and only for eligible decisions |
| Explanations.TerminalForever | src/riskloom/services/explanations.py:259-277 | a terminal attempt is never changed or removed by any continuation of a run |
| Explanations.CallsWithinLimit | src/riskloom/services/explanations.py:41-58 | a process never makes more outbound calls than its limit |
| Explanations.CallsPerDecision | src/riskloom/services/explanations.py:212-241 | over all processes together, a decision costs at most one call per stored attempt and so at most three |
| Explanations.ReadyCloses | src/riskloom/services/explanations.py:195-199 | once a decision has a ready explanation, no later step calls upstream or stores anything for it |
| ExplanationOutcomes.AnswerIsStored | src/riskloom/services/explanations.py:239-277 | in every run, whatever terminal answer a call gets is stored under its attempt, and nothing else stored changes |
| ExplanationOutcomes.ExhaustionIsStored | src/riskloom/services/explanations.py:233-237 | a claim without a budget unit ends failed as budget_exhausted, calls nobody, and its request is refused for that |
| ExplanationOutcomes.AttemptsAreAnswers | src/riskloom/services/explanations.py:239-277 | in every run each terminal attempt is the answer given to the request that claimed it, or that budget failure |
| ExplanationOutcomes.DecisionRead | src/riskloom/services/explanations.py:191-193 | a request is refused as not found exactly for an unknown decision, and as not eligible exactly for one that is not a final deny |
| ExplanationOutcomes.AttemptsRead | src/riskloom/services/explanations.py:195-212 | in progress, answered, exhausted, not configured or planned exactly by the attempts read; planned gets the first free number |
| ExplanationOutcomes.ReadyIsReached | src/riskloom/services/explanations.py:178-256 | a concrete run ends with any summary stored as ready |
| Explanations.Latest | src/riskloom/services/explanations.py:160-168 | for any list the view is its last ready attempt, else its last attempt |
| Explanations.StoredLatest | src/riskloom/services/explanations.py:192-219 | on the lists the protocol stores a ready attempt can only be the last |
| Preflight.StepKeeps | src/riskloom/services/preflight.py:175-272 | every step of every request, of the outside world and every crash keeps the invariant |
| Preflight.AtMostOnce | src/riskloom/services/preflight.py:101-138 | in every run each event id advances the engine at most once, causes at most one order call and at most one review item |
| Preflight.CallsWithinLimit | src/riskloom/services/preflight.py:54-63 | a process never makes more order calls than its budget |
| Preflight.StoredComparison | src/riskloom/services/preflight.py:66-71 | comparing the rounded columns tells the decision on the unrounded values, except exactly when a lower probability rounds to the threshold's column |
| Preflight.FinalRows | src/riskloom/serving/decisions.py:24-53 | in every run a final row is allow exactly with an order id, review exactly with a fail-safe reason and exactly one review item, deny exactly when the probability as scored reaches the threshold; it stores the two values rounded to 18 decimals |
| Preflight.ColumnsTellTheRisk | src/riskloom/services/explanations.py:96-99 | in every run the columns of a final row read as its risk decision, except exactly when a score below the threshold was rounded to it; a denied row always reads as reaching the threshold |
| Preflight.ColumnsMisread | src/riskloom/services/preflight.py:66-71 | a concrete run at the locked threshold: the event is allowed, its columns read as a deny |
| Preflight.FinalForever | src/riskloom/services/preflight.py:240-272 | a final row is never re-decided or removed by any continuation of a run |
| Preflight.AnswersAreFinalRows | src/riskloom/services/preflight.py:184-189 | every answer, duplicates included, is the one final row of its event |
| PreflightOutcomes.DuplicateIsAnswered | src/riskloom/services/preflight.py:184-189 | in every run, repeating a request whose event has a final row is answered with that row, marked as a duplicate, and changes nothing else |
| PreflightOutcomes.DuplicateReads | src/riskloom/services/preflight.py:186-189 | a duplicate is refused as pending if and only if it finds no final row |
| PreflightOutcomes.FeatureFailureIsReviewed | src/riskloom/services/preflight.py:192-197 | failing features end in a review for feature_computation_failed, without score, risk or order |
| PreflightOutcomes.ScoringFailureIsReviewed | src/riskloom/services/preflight.py:200-204 | failing scoring ends in a review for scoring_failed, without score, risk or order |
| PreflightOutcomes.HighScoreIsDenied | src/riskloom/serving/decisions.py:24-46 | a score at or above the threshold ends in a deny without an order call |
| PreflightOutcomes.LowScoreOrders | src/riskloom/services/preflight.py:156-168 | a score below it gets its order call whenever the budget has a unit left, and takes that unit |
| PreflightOutcomes.ExhaustedBudgetIsReviewed | src/riskloom/services/preflight.py:159-160 | without a unit it ends in a review for order_budget_exhausted, calling nobody |
| PreflightOutcomes.FailedOrderIsReviewed | src/riskloom/services/preflight.py:165-171 | an order failure ends in a review for order_creation_failed |
| PreflightOutcomes.LearntOrderIsAllowed | src/riskloom/services/preflight.py:161-172 | an order the caller learns of ends in an allow with that order |
| Preflight.OrdersAreBacked | src/riskloom/services/preflight.py:165-172 | an order that exists upstream has a pending row, or a final row that is allow with that very order if and only if the creation was acknowledged, and order_creation_failed if and only if it was not |
| Preflight.LostReply | src/riskloom/services/preflight.py:165-171 | a concrete run: the order is created, its reply is lost, the final row says review |
| ZipDirectory.ParsedIsEncoded | src/riskloom/runtime_bundle.py:545-576 | accepted directory bytes are tiled exactly, without gap or overlap, by as many well-formed records as declared |
| ZipDirectory.EncodedIsParsed | src/riskloom/runtime_bundle.py:545-576 | every encoded directory parses back to its own records |
| ZipDirectory.AcceptedIsArchive | src/riskloom/runtime_bundle.py:487-543 | a payload that passes every check is the encoding of a supported archive |
| ZipDirectory.ArchiveIsAccepted | src/riskloom/runtime_bundle.py:487-543 | every supported archive passes every check |
| ZipDirectory.SpellsOnce | src/riskloom/runtime_bundle.py:463-476 | the bytes settle the member names |
| ZipDirectory.FindLast | src/riskloom/runtime_bundle.py:490-490 | the last occurrence of a signature at or after a position, or none |
| ZipDirectory.ReadRecord | src/riskloom/runtime_bundle.py:549-572 | reads one record in bounds and moves the cursor past it, or says why no readable record starts there |
| ZipDirectory.FaultIffRefused | src/riskloom/runtime_bundle.py:545-576 | the reason found record by record is the one after the readable records in front, and there is only one |
| ZipDirectory.ReadDirectory | src/riskloom/runtime_bundle.py:545-576 | the cursor loop returns names exactly when the directory lists them, and an error exactly when that is what follows the readable records in front |
| ZipDirectory.RawMemberNames | src/riskloom/runtime_bundle.py:463-576 | returns these names if and only if the payload is the encoding of a supported archive with these names in this order; otherwise the error of the end record if that is at fault, else of the directory |
| ZipBytes.WrittenIsRead | src/riskloom/runtime_bundle.py:455-576 | an archive written out byte by byte, numbers low byte first at their positions, is the encoding of a supported archive with its members' names, so the parser returns them |
| ZipBytes.OneMember | src/riskloom/runtime_bundle.py:463-576 | a concrete archive of 100 literal bytes with one name |
| ZipBytes.Limits | src/riskloom/runtime_bundle.py:497-541 | an accepted payload has these bytes in its last 22: the signature, no disks, one count of at most 64 twice, no sentinels, no comment |
| ZipBytes.CommentIsRefused | src/riskloom/runtime_bundle.py:487-502 | an archive with a comment of any length is refused as one |
| BundleInstall.PublicationOrder | src/riskloom/runtime_bundle.py:1024-1029 | a reordering of the members, sorted by directory, manifest last, then name |
| InstallOrder.OrderMeans | src/riskloom/runtime_bundle.py:1024-1029 | directories ascend character by character, within one data files come before manifests, and names ascend |
| InstallOrder.ManifestMeans | src/riskloom/runtime_bundle.py:1028-1028 | a manifest is a file whose name ends in manifest.json |
| InstallOrder.BundleOrder | src/riskloom/runtime_bundle.py:99-115 | the order of the five members of the bundle |
| BundleInstall.DataBeforeManifest | src/riskloom/runtime_bundle.py:1024-1029 | in that order every data file comes before the manifest of its directory |
| BundleInstall.PrefixIsComplete | src/riskloom/runtime_bundle.py:1024-1029 | after any initial part of the publication, a newly published manifest has all its directory's members present |
| BundleInstall.Disk.Classify | src/riskloom/runtime_bundle.py:1000-1021 | splits the members into those already there with the given bytes and those missing, or refuses without writing, for a member that conflicts or a read that faults |
| BundleInstall.Disk.RollBack | src/riskloom/runtime_bundle.py:1032-1055 | goes on after removals that raise: keeps everything that was there before, leaves of what was added exactly the files and directories whose removal raised and the directories that are not empty, so nothing when no removal raises; completeness holds at every recorded tree unless a manifest's removal was refused |
| BundleInstall.LeftIsComplete | src/riskloom/runtime_bundle.py:1043-1050 | what is left holds a new manifest without its data files if and only if some manifest was stuck while a data file of its directory was removed |
| BundleInstall.Disk.PublishOne | src/riskloom/runtime_bundle.py:1089-1107 | one member's publication adds its missing directories and its file, or stops with only the directories recorded as added; it succeeds when nothing faults and its way is clear |
| BundleInstall.Disk.Publish | src/riskloom/runtime_bundle.py:1089-1110 | publishes all pending members, as it does when nothing faults and the way to each is clear, or takes back what it added, twice after a failed write: then the tree differs from the initial one only by what could not be removed |
| BundleInstall.Disk.Install | src/riskloom/runtime_bundle.py:1058-1126 | a failure before verification leaves nothing but what could not be removed, and after a failed write a file only if its removal was refused twice; a success adds exactly the pending members and the directories above them, and a second installation changes nothing; every recorded tree is complete until a manifest's removal is refused; without faults it succeeds exactly when all members are supplied, no unknown model file exists, present members hold their bytes, every way is clear and verification passes |
| ClusterOrder.BuildLinks | src/riskloom/serving/coordination.py:130-142 | two hubs are linked exactly when they differ and share an event, whatever the order of the edges |
| ClusterOrder.SearchIs | src/riskloom/serving/coordination.py:149-157 | a search terminates, visits each queued or newly seen hub once and ends with a set nothing links out of |
| ClusterOrder.OrderIsPermutation | src/riskloom/serving/coordination.py:144-157 | the order lists every hub exactly once |
| ClusterOrder.ComponentsAreContiguous | src/riskloom/serving/coordination.py:121-124 | hubs connected by chains of shared events have no hub of another component between them |
| ClusterOrder.ComponentsByLeast | src/riskloom/serving/coordination.py:126-127 | components come in the order of their least ids |
| ClusterBreadth.OrderIsBreadthFirst | src/riskloom/serving/coordination.py:144-157 | the order is the components by least id, each breadth first: hubs in the order of the first hub that links to them, those of one hub by id |
| ClusterBreadth.BreadthFirstOnce | src/riskloom/serving/coordination.py:149-157 | no other order of the same hubs from the same start is breadth first |
| ClusterOrder.OrderIgnoresInputOrder | src/riskloom/serving/coordination.py:126-127 | inputs with the same hubs and edges in any order give the same order |
| ClusterOrder.Order | src/riskloom/serving/coordination.py:118-160 | returns the hub nodes themselves in that order, one for each id |
| CampaignPlacement.RoomIsNeverNegative | src/riskloom/simulation/config.py:317-344 | the feasibility arithmetic of the configuration leaves room for every duration the generator can draw |
| CampaignPlacement.SampleWindow | src/riskloom/simulation/generation.py:228-258 | the first candidate that keeps the gap to all accepted windows, inside its side of the boundary; gives up exactly when no attempt fits |
| CampaignMeaning.BoundaryIsShare | src/riskloom/simulation/config.py:761-777 | the boundary is the configured share of the split's length, down to the millisecond |
| CampaignMeaning.CandidateMeans | src/riskloom/simulation/generation.py:228-247 | a candidate lasts the drawn minutes and starts at the drawn offset within its side |
| CampaignMeaning.EveryStartIsDrawn | src/riskloom/simulation/generation.py:235-247 | every start that keeps the window within its side is drawn by some offset |
| CampaignMeaning.RegularMeans | src/riskloom/simulation/generation.py:257-263 | windows are too regular exactly when there are at least three and all gaps between them in time order are equal |
| CampaignPlacement.CampaignWindows | src/riskloom/simulation/generation.py:186-264 | whatever is returned is one window per campaign, each the first fitting draw, on its side, all pairs a gap apart, gaps not all equal; it gives up exactly when the draws place fewer campaigns and then no attempt fits, and calls them regular exactly when they place all with equal gaps |
| CampaignPlacement.OneOutcome | src/riskloom/simulation/generation.py:186-264 | any draws either get stuck or place all campaigns in exactly one way |
| CampaignPlacement.SortKeepsApart | src/riskloom/simulation/validation.py:167-167 | sorting envelopes neither loses nor adds separation |
| CampaignPlacement.NeighboursSuffice | src/riskloom/simulation/validation.py:168-174 | checking the gaps of consecutive sorted envelopes is checking all pairs |
| CampaignPlacement.BeforeIndexesSize | src/riskloom/simulation/generation.py:214-220 | the shuffle puts exactly the configured number of campaigns before the boundary |
| CampaignPlacement.ValidateCampaignPlacement | src/riskloom/simulation/validation.py:130-177 | accepts exactly the acceptable placements whose gaps are not all equal, and gives each refusal exactly for its cause: the first bad group, else too few campaigns on a side, else a gap, else regularity |
| CampaignMeaning.GroupOkMeans | src/riskloom/simulation/validation.py:150-162 | a group is fine exactly when it has its quota and lies all before the boundary or all from it on |
| CampaignMeaning.CountBeforeMeans | src/riskloom/simulation/validation.py:156-164 | the campaigns counted before the boundary are those all of whose events are |
| CampaignPlacement.GeneratedIsAcceptable | src/riskloom/simulation/generation.py:747-764 | for every validated configuration and all draws, events drawn inside the returned windows pass the quota, side and gap checks, with exactly the configured number on each side |
| Apportionment.Allocate | src/riskloom/simulation/generation.py:44-58 | the shares total exactly the count, each is its floor or ceiling, and larger remainders are served first |
| Apportionment.ApportionmentIsUnique | src/riskloom/simulation/generation.py:44-58 | those three demands determine the shares |
| Apportionment.SharesAreFair | src/riskloom/simulation/generation.py:50-57 | every share is less than one unit off its exact value, and a share rounded up left a larger rest than one rounded down, or as large with the earlier key |
| Apportionment.AllocateWeighted | src/riskloom/simulation/generation.py:44-60 | for every shuffle each key occurs exactly as often as its share; fails exactly when all weights of a non-empty table are zero |
| Apportionment.SplitIsEven | src/riskloom/simulation/generation.py:63-65 | the groups hold the total, differ by at most one with the larger first, and are equal when the count divides |
| Apportionment.ChainsSum | src/riskloom/simulation/generation.py:75-86 | for all draws the chains add up to the total, so only the bounds check can fail |
| Apportionment.RetryGroupSizes | src/riskloom/simulation/generation.py:72-89 | terminates for all draws, extends a missing chain exactly for a total below the minimum, and otherwise fails exactly when a chain is out of bounds; the branch that extends the last chain is dead |
| Apportionment.FormsForAllDraws | src/riskloom/simulation/generation.py:72-89 | no sequence of draws fails if and only if the arithmetic condition on total and bounds holds |
| Apportionment.WideBoundsOrNone | src/riskloom/simulation/generation.py:72-89 | of the cutting alone, for totals no configuration need produce: bounds are safe for every total exactly when the maximum is at least twice the minimum less one; otherwise one over the maximum fails for every draw |
| Apportionment.ConfiguredQuotasForm | src/riskloom/simulation/config.py:147-161 | for every accepted event count and accepted bounds, no draws fail if and only if the minimum is not three, or both bounds are three and the events a multiple of 300 |
| Apportionment.ConfiguredQuotasFail | src/riskloom/simulation/config.py:80-95 | of the other accepted configurations, those with both bounds three fail for every draw, and those with bounds three and four succeed when only fours are drawn |
| Apportionment.HundredEvents | src/riskloom/simulation/config.py:262-266 | a concrete input: the eight retries of 100 events never form chains of three, and form chains of three or four exactly when four is drawn first |
| Numerals.NormalForm | src/riskloom/explanations/sanitizer.py:127-142 | the two-pass computation is the trimmed whole part, zero if empty, and the trimmed fraction |
| Numerals.IdempotentUnlessUncovered | src/riskloom/explanations/sanitizer.py:127-142 | for every string a second pass changes nothing if and only if no white space in the stripped text has only zeros before it, only zeros after it past the dot, or only a dot and zeros after it |
| Numerals.TwoPassesDiffer | src/riskloom/explanations/sanitizer.py:127-142 | a concrete string on which two passes differ |
| Numerals.NormaliseKeepsValue | src/riskloom/explanations/sanitizer.py:128-133 | a numeral normalises to a canonical numeral for the same number |
| Numerals.NormaliseDecidesEquality | src/riskloom/explanations/sanitizer.py:128-133 | two numerals normalise to the same string if and only if they denote the same number |
| Grounding.MatchesAreNumerals | src/riskloom/explanations/sanitizer.py:94-94 | every match of the pattern holds a digit outside ASCII or is a numeral, and never both |
| Grounding.MatchesHoldEveryDigit | src/riskloom/explanations/sanitizer.py:190-191 | the matches of a text hold all its digits in order, ASCII or not: none escapes the check |
| Grounding.MajorIsExact | src/riskloom/explanations/sanitizer.py:168-170 | the major-unit rendering denotes exactly a hundredth of the subunits |
| Grounding.DurationIsExact | src/riskloom/explanations/sanitizer.py:145-153 | the components reassemble to the duration, as minutes and seconds and as hours, minutes and seconds |
| Grounding.PercentIsExact | src/riskloom/explanations/sanitizer.py:172-175 | the percentage written for a plain decimal is a numeral for exactly a hundred times its value |
| Grounding.PlainRatioSupplies | src/riskloom/explanations/sanitizer.py:172-177 | a ratio that is a plain decimal supplies exactly its value and a hundred times it |
| Grounding.LedgerTextIsExact | src/riskloom/services/explanations.py:86-97 | a ratio written from a ledger column is a numeral for the column's value |
| Grounding.LedgerTextIsPlain | src/riskloom/db/models/risk_decision.py:60-61 | whatever such a column can hold is written as a plain decimal |
| Grounding.LedgerSupplies | src/riskloom/services/explanations.py:90-113 | an input built from a ledger row supplies exactly the amount in either unit, the two columns, their percentages, the counts and the parts of durations |
| Grounding.LedgerGrounds | src/riskloom/explanations/sanitizer.py:190-193 | in a text about a ledger row a match passes if and only if it is an ASCII numeral for one of those numbers |
| Grounding.PermittedNumerals | src/riskloom/explanations/sanitizer.py:156-187 | the set holds exactly the canonical forms of the payload's renderings, percentages included |
| Grounding.PermittedIffSupplied | src/riskloom/explanations/sanitizer.py:156-187 | for any payload, a numeral is permitted if and only if the number it denotes is supplied: no rounding, no truncation, any spelling |
| Grounding.PermittedIffGrounded | src/riskloom/explanations/sanitizer.py:190-193 | any match is permitted if and only if it denotes a supplied number or, holding a digit outside ASCII, has the canonical form of a ratio as supplied |
| Grounding.ForeignIsRefused | src/riskloom/explanations/sanitizer.py:190-193 | when both ratios are plain decimals, no match with a digit outside ASCII is permitted |
| Grounding.CheckNumerals | src/riskloom/explanations/sanitizer.py:190-197 | passes exactly when every match of the text is allowed, and the value of every listed number word that stands alone in the folded text |
| Grounding.CheckGrounded | src/riskloom/explanations/sanitizer.py:156-197 | end to end, a text passes if and only if every numeral in it is grounded in the payload and every listed number word standing alone in it names a supplied number; other number words are not looked at |
| GroundingMeaning.NextMatch | src/riskloom/explanations/sanitizer.py:190-191 | matches are found left to right, each from the next digit on |
| GroundingMeaning.MatchMeans | src/riskloom/explanations/sanitizer.py:94-94 | a match takes all digits and commas, then a dot with all digits after it if there is one at least |
| GroundingMeaning.WordStandsAlone | src/riskloom/explanations/sanitizer.py:194-197 | a number word is found exactly where nothing before or after would continue it |
| GroundingMeaning.ListedWords | src/riskloom/explanations/sanitizer.py:96-121 | the table lists each word with its own number, and no others |
| Grounding.UnlistedWordPasses | src/riskloom/explanations/sanitizer.py:96-121 | a text of one lower-case word outside the table passes, whatever is allowed |
| Grounding.NinetySlips | src/riskloom/explanations/sanitizer.py:96-121 | ninety is such a text |
| NearestRank.RankIs | src/riskloom/features/reporting.py:22-27 | the value whose run of equals covers a rank is the sorted list's element there |
| NearestRank.RankCounts | src/riskloom/features/reporting.py:22-27 | conversely, fewer values than the rank lie below that element and at least as many at or below it |
| NearestRank.PercentileMeans | src/riskloom/features/reporting.py:20-28 | at least that percentage of the values is at or below a percentile, and less is below it unless it is the least value |
| NearestRank.RankIsLeast | src/riskloom/features/reporting.py:22-22 | the rank is the least one that covers the percentile |
| NearestRank.NearestRank | src/riskloom/features/reporting.py:20-28 | walking the counter's keys returns the nearest-rank element of the sorted list of all values, and the unreachable error comes exactly for ranks beyond the list |
| NearestRank.NearestRankOfList | src/riskloom/simulation/reporting.py:20-25 | the direct form returns the same element, zero for an empty list, and is out of range only for percentiles above 100 |
| NearestRank.FeatureStatistics.Add | src/riskloom/features/reporting.py:15-18 | every column's counter tallies exactly the rows added so far |
| NearestRank.FeatureStatistics.Distributions | src/riskloom/features/reporting.py:30-45 | every column's figures are those of the plain list of its values; refuses exactly when no row was added, and the unreachable error never comes |

## Left out

- Model fitting, Platt scaling, reliability and drift arithmetic, and the trigonometric layout with its relaxation: floating-point or library numerics.
- Floating-point rounding, NaN and infinity: probabilities, thresholds, tree values and scores are reals, so the finiteness checks have nothing to refuse. A probability stands for the shortest decimal that spells its float, whose order is that of the floats; the rounding of ledger columns to 18 decimals is modelled.
- The 64-bit sentinel that masks inadmissible pairs in the sweep, and overflow of 64-bit costs: costs are unbounded and inadmissible pairs are skipped.
- HTTP, the database driver, the order and language-model clients, logging and settings: nondeterministic steps that succeed or fail.
- SHA-256, JSON canonicalisation and schema libraries, archive decompression and download: not part of this model.
- UTF-8 and CP437 decoding of member names: given functions, the first of which may fail.
- Aliasing inside one index: the source mutates aggregate objects in place, the model replaces map entries. Faults inside a single index update are not modelled, only between whole updates.
- Event ids are numbers; in the source they are fixed-width hexadecimal strings with the same order.
- The 75 vector fields are grouped by family and window; the names and the serialiser are not modelled.
- `campaign_metrics`, reliability and hard-negative reports, dashboards and command lines: simpler versions of what is covered.
- Evasion shapes: the configuration profiles never combine them with campaign placement, so placed events are always drawn inside their window.
- Symbolic links are one fault of publication; the staging directory is kept apart from the tree, and removing it succeeds.
- Prompt, markup and personal-data patterns of the sanitiser.
- Unicode: which characters outside ASCII are digits or word characters, and case folding, are given; so is the percentage of a ratio string that is not a plain decimal, such as one with an exponent. Decimal arithmetic beyond 28 digits is not modelled.
- BundleInstall.Disk.Install: the model directory's listing never fails, because reading a directory is not one of the modelled faults.
- CampaignPlacement.GeneratedIsAcceptable: does not claim the validator's irregularity check, because event times inside the windows may have equal gaps even when the windows do not.
