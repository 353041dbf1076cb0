# Verified model of metrics-governor's stateful core

This project models the parts of metrics-governor that carry state from one call to the next, and
proves what they keep over whole runs:

* **Limits enforcer** (`Rules`, `RuleCache`, `RuleLookup`, `Trackers`, `MetricModel`, `LimitsSpec`,
  `Enforcer`, then the theorems in `LimitsRuns`, `LimitsTotals`, `LimitsWindows`, `LimitsAccounting`, `LimitsEmission`,
  `AdaptiveMarks`, `Escalation`, `LabelLimits`, `GroupKeys`): rule lookup through the LRU, one-minute windows of
  rate and cardinality, label limits, tiers and actions, adaptive dropping, reload, dry run.
* **Always-queue export** (`ExportErrors`, `ExportProtocol`, `ExportConsequences`, `ProbeRelease`, `ExportOutcomes`): any number of
  workers, preparers, senders and shutdown drains interleaving over the queue and the bounded
  channel, with split-on-413 (section 15.5.14 of RFC 9110), drops, evictions and failed pushes.
* **Circuit breaker** (`CircuitBreaker` with calls as steps, `BreakerAtomic` with single atomic
  operations as steps).
* **OTLP buffer** (`Splitter`, `MemoryQueue`, `BufferSpec`, `MetricsBuffer`, `BufferTheorems`): the
  byte-bounded buffer, its failover queue, count and byte splitting, recursive export, drain.
* **Controllers** (`TokenBucket`, `BatchTuner`): the spillover rate limiter and the batch size tuner.
* **Remote-write limits** (`PrwLimits`, `PrwBounds`, `PrwExact`, `PrwApart`).

Each component has the same shape. A class holds the source's fields and loops, and its methods are
proved equal to specification functions on values. Runs are sequences of events over those
functions, and the theorems quantify over every run. The clock, map iteration order, the unstable
sort's tie order, export outcomes and queue evictions are inputs of the events, so a theorem over
all runs covers every choice. Hashes, series keys, regular expressions and wire sizes are arbitrary
functions. Numbers are unbounded and floating point is real arithmetic with floor.

## What the code does, where its comments suggest otherwise

* *Adaptive dropping* is described as dropping the top offenders. Totals only grow while within the
  limits (`internal/limits/enforcer.go:512-524`) and the excess is computed from those totals
  (`internal/limits/enforcer.go:910-920`), so without a reload the excess is never positive: no group
  is ever marked and every offending metric is emitted, uncounted
  (`LimitsTotals.NeverOverNeverMarked`, `LimitsAccounting.AdaptiveEmitsUncounted`). After a reload
  that lowers a limit the excess can be positive (`AdaptiveMarks.LoweredLimitOverdraws`), and then it
  works as described (`AdaptiveMarks.AdaptiveStepCovers`).
* *Limits bind per group slot*: a metric whose group finds no slot (100000 per rule and window) passes
  whatever the totals are (`LimitsEmission.NoSlotPasses`); the bounds on what a drop rule lets through
  (`LimitsEmission.DropBoundsDatapoints`, `LimitsEmission.DropBoundsSeries`) are for the others.
* *The rule cache* can return a later label-free rule in place of an earlier label-matching one. The
  exact condition is in `RuleLookup.FaithfulIff`.
* *Group keys* join label=value parts with commas. They identify groups for all label values if and
  only if the rule groups by at most one label (`GroupKeys.KeysIdentifyIff`); with comma-free values
  they always do (`GroupKeys.SameKeyIff`). *Priorities* are parsed back out of the key, which is right
  for all label values if and only if no value ranks other than by default
  (`GroupKeys.PrioritiesExactIff`), and right for comma-free values (`GroupKeys.PriorityOfKey`).
* *Label limits* count one value per datapoint, the last one written. A datapoint that carries two
  different values of a limited label is emitted with both (`LabelLimits.RepeatedLabelExceeds`,
  `LabelLimits.OneDatapointIff`). The enforcer's own two labels are added after the check and escape
  their limits (`LabelLimits.InjectedLabelEscapes`).
* *Sampling* is described as independent per datapoint; the whole metric is kept or dropped by its
  first datapoint. Both agree if and only if all series get the verdict of the first
  (`Escalation.SamplesEachIff`, `Escalation.SampleDiffers`).
* *A drained failover request answered ErrExportQueued* is put back although the exporter has it, so
  it exists twice (`BufferTheorems.DrainDuplicates`, `BufferTheorems.ConservedIff`).
* *The half-open probe* is released only by a recorded outcome. A half-open breaker can recover if and
  only if an admitted entry is held for an export that is recorded, or is prepared or in the channel
  while a sender listens or can still be started (`ProbeRelease.ReachableReleasableIff`). It cannot
  after the probe went to an undecodable entry or a failed compression
  (`ProbeRelease.LostProbeWedges`), nor once the stop signal has taken the preparer that holds it
  (`ProbeRelease.StoppedPreparerWedges`) or the last sender that could receive it
  (`ProbeRelease.StoppedSenderWedges`, `ProbeRelease.StopWedges`). Runs do get there
  (`ProbeRelease.WedgeIsReachable`).
* *The comment "only one probe"* holds for whole calls; between the two stores of the winning
  goroutine a second request can pass, and never a third (`BreakerAtomic.AtMostTwoProbes`); it passes
  if and only if its swap precedes the store of the flag (`BreakerAtomic.ProbesExactly`).
* *The discovered batch ceiling* is overshot at once by shrink factors above 0.8
  (`BatchTuner.CeilingRespectedIff`), and growth stalls below `1 / (grow - 1)` bytes
  (`BatchTuner.ReachesCapIff`).
* *Remote-write limits* bind a rule's rate in every run, for all patterns and hashes, if and only if the
  mode is enforcing and every rule up to it that has a limit drops (`PrwExact.RateBindsIff`). For its
  cardinality no rule of the same name may have a larger one besides
  (`PrwExact.CardinalityBindsIff`); without hash collisions only earlier rules of that name matter
  (`PrwApart.CardinalityBindsApartIff`). `PrwBounds.LogRuleInFrontLeaks` and
  `PrwBounds.SharedNameLeaks` are small failing inputs.
* *A remote-write rule without patterns* is commented as matching everything
  (`internal/prw/limits.go:223`); it matches nothing and is as good as absent
  (`PrwBounds.PatternlessIsAbsent`).

## Model

| member | source | states |
|---|---|---|
| `MetricModel.ExtractAttributes` | internal/limits/enforcer.go:1567-1577 | the loop yields the last non-empty string value of every key |
| `MetricModel.ReadIsText` | internal/limits/enforcer.go:1567-1577 | what is read for a key is one of the values written under it, and nothing is read iff nothing is written |
| `MetricModel.CompactAttributes` | internal/limits/enforcer.go:1118-1160 | in-place compaction leaves in the first cells, in order, exactly the attributes whose key is not stripped |
| `MetricModel.StripKeepsOthers` | internal/limits/enforcer.go:1118-1160 | stripping yields a subsequence, containing an attribute iff it was there and its key is not stripped |
| `MetricModel.ExtractOfStrip` | internal/limits/enforcer.go:1118-1160 | what is read after stripping is what was read before, minus the labels |
| `MetricModel.ExtractOfMarks` | internal/limits/enforcer.go:1526-1565 | what is read after injection is what was read before, with the two injected keys overridden and no other |
| `Trackers.ExactTracker.Add` | internal/cardinality/exact.go:23-33 | adds the key and reports whether it was new |
| `Trackers.ExactTracker.Reset` | internal/cardinality/exact.go:52-56 | forgets everything |
| `Trackers.BloomTracker.Add` | internal/cardinality/tracker.go:50-63 | sets the key's bits and counts it iff some bit was clear |
| `Trackers.BloomTracker.Reset` | internal/cardinality/tracker.go:82-87 | clears bits and count, keeps the hash functions |
| `Trackers.Tracker.GrowthWithinUnseen` | internal/cardinality/tracker.go:50-79 | adding a batch grows the count by at most the number of keys that tested as new beforehand, despite duplicates and false positives |
| `Trackers.BloomUndercounts` | internal/cardinality/tracker.go:50-79 | on the same additions the Bloom count never exceeds the exact count |
| `Rules.FirstMatchIsMatch` | internal/limits/enforcer.go:365-372 | the scan returns a matching member, and nothing iff nothing matches |
| `Rules.ScanMeetsLabelFree` | internal/limits/config.go:257-296 | a scan ending in a label-free rule ends in the first one accepting the name |
| `Rules.CheckLabels` | internal/limits/config.go:270-286 | the pattern loop accepts exactly the labels that contain the rule's literal pairs and have its wildcard keys |
| `Rules.LabelsMatchIff` | internal/limits/config.go:270-286 | a rule's label patterns match exactly those label sets |
| `Rules.LiteralRuleMatchesIff` | internal/limits/config.go:270-286 | without wildcards a rule matches iff its labels are among the metric's |
| `Rules.OneLabelChanged` | internal/limits/config.go:270-286 | a literal pattern pins the value, a wildcard takes any but needs the key, an unnamed label does not matter |
| `Rules.NameMatches` | internal/limits/config.go:257-267 | an empty name matches all, a plain name only itself, a pattern by its regex |
| `LimitsRuns.HandledIsMeant` | internal/limits/enforcer.go:355-379 | in every run, reloads included, a metric handled by a rule carries the rule's literal labels and, for a plain name, its name |
| `RuleCache.Cache.Get` | internal/limits/rulecache.go:41-58 | answers from the map and moves the name to the front, or counts a miss |
| `RuleCache.Cache.Put` | internal/limits/rulecache.go:61-91 | replaces in place, or evicts from the back and inserts in front, within capacity |
| `RuleCache.Cache.EvictBack` | internal/limits/rulecache.go:75-85 | leaves the most recent names that fit, with their answers |
| `RuleCache.Cache.ClearCache` | internal/limits/rulecache.go:137-145 | empties the cache |
| `RuleCache.RecencyIsLastUse` | internal/limits/rulecache.go:41-91 | the recency list holds every looked-up name once, ordered by last use |
| `RuleCache.TouchTake` | internal/limits/rulecache.go:61-91 | truncating before or after a use gives the same first n names |
| `RuleLookup.RunKeepsConsistent` | internal/limits/enforcer.go:355-379 | over every run of lookups, reloads and clears, a positive entry is the first label-free rule for its name, and a negative one exists only if no rule can match |
| `RuleLookup.AnswerIsMatch` | internal/limits/enforcer.go:355-379 | the cached lookup returns a matching rule, and nil iff no rule matches |
| `RuleLookup.AnswerDiffersExactly` | internal/limits/enforcer.go:355-379 | one lookup differs from the scan iff the name is cached and the scan stops at a label-matching rule |
| `RuleLookup.LookupSoundOverRuns` | internal/limits/enforcer.go:355-379 | the same two facts after every run from an empty cache |
| `RuleLookup.FaithfulIff` | internal/limits/enforcer.go:355-379 | cached lookup equals the plain scan of the rules in force, after all runs of lookups, clears and reloads and for all labels, iff the cache is off or no label-matching rule for the name precedes its first label-free rule |
| `RuleLookup.CacheIsRecentWindow` | internal/limits/rulecache.go:41-91 | without label matchers a cache of size m holds exactly the last m distinct names, most recent first, each with the scan's answer |
| `RuleLookup.LargerCacheMissesNoMore` | internal/limits/rulecache.go:41-91 | a larger cache never misses more on the same lookups |
| `Enforcer.BuildGroupKey` | internal/limits/enforcer.go:387-409 | the key joins label=value of the grouping labels present, in order, or is the metric name |
| `Enforcer.StripDatapoints` | internal/limits/enforcer.go:1118-1160 | every datapoint loses exactly the named labels |
| `Enforcer.CleanupExpired` | internal/limits/enforcer.go:427-438 | keeps exactly the unexpired marks and no empty rule |
| `Enforcer.ScanRules` | internal/limits/enforcer.go:364-372 | the full scan returns the first matching rule |
| `Enforcer.ScanDatapoint` | internal/limits/enforcer.go:998-1028 | one datapoint's walk over the label limits, with its early refusal |
| `Enforcer.ScanMetric` | internal/limits/enforcer.go:996-1029 | all datapoints up to the first refusal |
| `Enforcer.MarkOffenders` | internal/limits/enforcer.go:922-955 | stamps groups in drop order until their contributions reach the excess |
| `Enforcer.LimitsEnforcer.FindMatchingRule` | internal/limits/enforcer.go:355-379 | returns the lookup's answer and leaves the cache in the state of the specification |
| `Enforcer.LimitsEnforcer.OpenWindow` | internal/limits/enforcer.go:444-468 | opens the first window, or a new one with fresh statistics, marks and label trackers |
| `Enforcer.LimitsEnforcer.CheckInWindow` | internal/limits/enforcer.go:470-531 | tests both limits against the prospective totals and admits only if both hold |
| `Enforcer.LimitsEnforcer.UpdateAndCheckLimits` | internal/limits/enforcer.go:440-531 | both steps together |
| `Enforcer.LimitsEnforcer.CheckLabelLimits` | internal/limits/enforcer.go:981-1071 | tracks new values within the limit, strips or refuses the rest |
| `Enforcer.LimitsEnforcer.HandleAdaptive` | internal/limits/enforcer.go:848-977 | the adaptive action, for an order the sort can produce |
| `Enforcer.LimitsEnforcer.ResolveTier` | internal/limits/enforcer.go:540-554 | the last tier whose threshold the utilization reaches, over the rule's own action |
| `Enforcer.LimitsEnforcer.HandleSample` | internal/limits/enforcer.go:1091-1115 | keeps or drops by the first series, counting either way |
| `Enforcer.LimitsEnforcer.HandleViolation` | internal/limits/enforcer.go:533-627 | counts the violation and carries out the effective action |
| `Enforcer.LimitsEnforcer.ProcessMetric` | internal/limits/enforcer.go:300-353 | one metric is one step of the run model |
| `Enforcer.LimitsEnforcer.ReloadConfig` | internal/limits/enforcer.go:141-198 | keeps the state of rules that still exist, forgets the others, empties the cache |
| `LimitsRuns.ProcessedShadow` | internal/limits/enforcer.go:300-353 | the dry-run flag never reaches the state and only withholds an output |
| `LimitsRuns.DryRunShadow` | internal/limits/enforcer.go:300-353 | a dry-running and an enforcing enforcer on the same events pass through identical states, and the enforcing output is a subsequence of the other |
| `LimitsRuns.DryRunLosesNothing` | internal/limits/enforcer.go:300-353 | a dry run emits one metric per arrival |
| `LimitsTotals.UpdateKeeps` | internal/limits/enforcer.go:440-531 | a check keeps totals equal to sums over groups, marks tied to windows, and a rule within its limits there |
| `LimitsTotals.ActKeeps` | internal/limits/enforcer.go:533-627 | no action touches the totals; only a positive adaptive excess creates marks |
| `LimitsTotals.TotalsOverRuns` | internal/limits/enforcer.go:440-531 | in every reachable state, reloads included, totals equal the sums over groups and every mark expires with its rule's window |
| `LimitsTotals.NeverOverNeverMarked` | internal/limits/enforcer.go:512-524 | without reloads and with distinct names, totals never exceed the limits, the adaptive excess is never positive and no group is ever marked |
| `LimitsWindows.HistoryTells` | internal/limits/enforcer.go:447-468 | over every run, reloads included: a rule's window ends a minute after the reading that opened it, the latest past the end before, and its datapoint total is what was admitted since |
| `LimitsWindows.CheckLiesInWindow` | internal/limits/enforcer.go:457-468 | after every check the reading lies in a window that ends within a minute of it; a check past the old end leaves no mark and no tracked value of the rule and counts nothing from before |
| `LimitsWindows.RateAdmitsIff` | internal/limits/enforcer.go:505-524 | with a rate limit only, a metric is admitted iff what was admitted since the window opened leaves room for it |
| `LimitsWindows.ReportIsTrue` | internal/limits/enforcer.go:505-531 | a reported limit is set and really exceeded by what the window holds and the metric brings; cardinality is reported first |
| `LimitsEmission.EmittedIsAdmitted` | internal/limits/enforcer.go:588-598 | under a rule whose actions all drop, what is emitted in a window is what was admitted |
| `LimitsEmission.DropBoundsDatapoints` | internal/limits/enforcer.go:588-598 | over every enforcing run without reloads, the datapoints such a rule emits in one window, from arrivals with a slot, are at most its rate |
| `LimitsEmission.DropBoundsSeries` | internal/limits/enforcer.go:588-598 | and their distinct series, with exact trackers, at most its cardinality |
| `LimitsEmission.NoSlotPasses` | internal/limits/enforcer.go:470-476 | an arrival without a group slot is emitted whatever the totals |
| `LimitsEmission.LogEmitsEverything` | internal/limits/enforcer.go:583-586 | a rule whose actions only log or strip emits every metric that is not marked or label-refused, with all datapoints |
| `LimitsEmission.CountersAreEmissions` | internal/limits/enforcer.go:1181-1199 | over every enforcing run the passed counter is the datapoints emitted, but for the uncounted exits, and the dropped counter those withheld |
| `LimitsEmission.ViolationsAreReports` | internal/limits/enforcer.go:1162-1179 | over every run each violation counter is the number of checks that reported its reason |
| `LimitsAccounting.ProcessedCounts` | internal/limits/enforcer.go:1181-1199 | a metric is counted once under its rule's name unless it leaves by an uncounted exit |
| `LimitsAccounting.ProcessedSplits` | internal/limits/enforcer.go:1181-1199 | enforcing, a metric counts as passed iff it is emitted and as dropped iff it is not, unless it leaves by an uncounted exit |
| `LimitsAccounting.EveryDatapointAccounted` | internal/limits/enforcer.go:300-353 | over every run, received equals passed plus dropped plus exactly what left by the two uncounted exits |
| `LimitsAccounting.PassedPlusDropped` | internal/limits/enforcer.go:533-627 | with log, drop, sample and strip only, received equals passed plus dropped |
| `LimitsAccounting.AdaptiveEmitsUncounted` | internal/limits/enforcer.go:918-920 | without reloads, a metric reaching the adaptive action is emitted in both modes and counted nowhere |
| `AdaptiveMarks.NeededIsLeast` | internal/limits/enforcer.go:922-955 | the number of leading contributions taken is the least that reaches the excess |
| `AdaptiveMarks.MarksShortestPrefix` | internal/limits/enforcer.go:892-955 | a positive excess marks the shortest prefix of the drop order that covers it, and what stays unmarked fits the limit |
| `AdaptiveMarks.MarkedBeforeUnmarked` | internal/limits/enforcer.go:892-908 | no unmarked group has lower priority than a marked one, nor a larger contribution at equal priority |
| `AdaptiveMarks.AdaptiveStepCovers` | internal/limits/enforcer.go:910-977 | in every run, reloads included, each adaptive step with positive excess marks the shortest covering prefix, leaves groups that fit the limit, keeps earlier marks, and drops and counts the current metric iff its group is now marked |
| `AdaptiveMarks.LoweredLimitOverdraws` | internal/limits/enforcer.go:141-198 | after a reload that puts a limit below the total, the next metric of the open window violates, with positive excess if that limit is the one reported |
| `AdaptiveMarks.MarkedUntilWindowEnd` | internal/limits/enforcer.go:411-423 | a mark drops its group exactly until the rule's window ends, touching no window state |
| `AdaptiveMarks.InsertOffender` | internal/limits/enforcer.go:892-908 | inserting a group keeps a drop order and loses no group |
| `AdaptiveMarks.RankOffenders` | internal/limits/enforcer.go:877-908 | the ranking lists every group once, priority ascending, then contribution descending |
| `Escalation.TierIsHighest` | internal/limits/enforcer.go:540-554 | for ascending thresholds the tier picked is the highest one reached, and none iff none is reached |
| `Escalation.TierEscalates` | internal/limits/config.go:183-190 | a higher utilization never picks a lower tier |
| `Escalation.ActsByHighestTier` | internal/limits/enforcer.go:540-554 | a violation takes the action and parameters of the highest tier reached, with the rule's parameters where the tier sets none |
| `Escalation.ActsByRuleBelowTiers` | internal/limits/enforcer.go:540-554 | below the first tier the rule itself acts |
| `Escalation.UtilizationIs` | internal/limits/enforcer.go:631-652 | the utilization is the whole percentage of the limit that the total has reached |
| `Escalation.SampleShare` | internal/limits/enforcer.go:1075-1087 | of any 10000 consecutive hashes exactly floor(10000 * rate) are kept; all at rate 1, none at 0 |
| `Escalation.UtilizationAtMostFull` | internal/limits/enforcer.go:631-652 | over every run without reloads, the utilization a violation reads from the window just checked is between 0 and 100 |
| `Escalation.SampleNested` | internal/limits/enforcer.go:1075-1087 | a series kept at one rate is kept at every higher rate |
| `Escalation.SamplesEachIff` | internal/limits/enforcer.go:1091-1115 | the sample action emits exactly the datapoints whose own series is kept iff all series of the metric get the verdict of the first |
| `Escalation.SampleDiffers` | internal/limits/enforcer.go:1089-1115 | a metric with one kept and one rejected series is emitted whole |
| `LabelLimits.CheckedValuesAreTracked` | internal/limits/enforcer.go:981-1071 | after the check every value still under a limited label is tracked: as read for all inputs, as written for unambiguous ones |
| `LabelLimits.CheckIsJustified` | internal/limits/enforcer.go:996-1029 | only labels whose limit is used up are stripped, and only such a label refuses a metric, under a rule that says so |
| `LabelLimits.StripRemoves` | internal/limits/enforcer.go:1118-1160 | the strip action leaves no value under a stripped label, other than injected ones, and touches no other label |
| `LabelLimits.StepStaysTracked` | internal/limits/enforcer.go:328-341 | one enforcing step keeps every tracker within its limit, forgets nothing before a reset, and touches no other rule |
| `LabelLimits.StepLeavesTracked` | internal/limits/enforcer.go:328-353 | what one step emits under a limited label is tracked, or injected under the enforcer's own labels |
| `LabelLimits.ValuesStayTracked` | internal/limits/enforcer.go:456-468 | over every enforcing run, all values emitted since a rule's trackers were reset are tracked, within the limit, or injected |
| `LabelLimits.EmittedValuesWithinLimit` | internal/limits/enforcer.go:981-1071 | between resets, including the metric that triggers one, at most `limit` distinct values of a label leave, plus the enforcer's own under its two labels; values as read for all inputs, and all values written if no datapoint that the rule handles carries two different ones |
| `LabelLimits.SensesAgree` | internal/limits/enforcer.go:1567-1577 | if no datapoint carries two different values of the label, the values read are all the values written |
| `LabelLimits.OneDatapointIff` | internal/limits/enforcer.go:981-1071 | for every attribute list: under a limit of one the first such datapoint leaves with at most one value iff it does not carry two different ones |
| `LabelLimits.RepeatedLabelExceeds` | internal/limits/enforcer.go:1567-1577 | a run with limit 1 that emits two values of the label in one datapoint |
| `LabelLimits.InjectedLabelEscapes` | internal/limits/enforcer.go:1526-1565 | a limit of 0 on the rule label does not keep it from being emitted |
| `LabelLimits.InjectedCount` | internal/limits/enforcer.go:1526-1565 | the enforcer adds no values of its own, except one under the rule label and at most five under the action label |
| `GroupKeys.SplitOfJoin` | internal/limits/enforcer.go:656-668 | splitting at commas undoes joining comma-free parts |
| `GroupKeys.PriorityOfKey` | internal/limits/enforcer.go:656-668 | for comma-free values, the priority read from a group key is the rank of the group's own label value, or the default |
| `GroupKeys.PrioritiesExactIff` | internal/limits/enforcer.go:656-668 | that holds for all values iff no value that a key can hold ranks other than by default |
| `GroupKeys.CommaValueMisread` | internal/limits/enforcer.go:656-668 | a ranked value with a comma is never read back with its own rank |
| `GroupKeys.RankOfPosition` | internal/limits/enforcer.go:865-876 | in a list of distinct values the i-th ranks length minus i |
| `GroupKeys.KeysIdentifyIff` | internal/limits/enforcer.go:387-409 | for distinct grouping labels and all non-empty values, equal keys imply equal groups iff there is at most one grouping label |
| `GroupKeys.SameKeyIff` | internal/limits/enforcer.go:387-409 | for comma-free values and any labels, two attribute sets share a key iff they agree on every grouping label |
| `GroupKeys.CommaCollides` | internal/limits/enforcer.go:399-404 | for any two labels and values, a comma makes a group without the second label share the key of the group with it |
| `CircuitBreaker.Cell.AllowRequest` | internal/exporter/queued.go:74-110 | admits and moves as specified for each circuit state |
| `CircuitBreaker.Cell.RecordSuccess` | internal/exporter/queued.go:113-127 | resets failures and closes a half-open circuit |
| `CircuitBreaker.Cell.RecordFailure` | internal/exporter/queued.go:130-161 | counts, stamps, and opens a half-open or exhausted circuit |
| `CircuitBreaker.BreakerInvariant` | internal/exporter/queued.go:73-161 | after every history: half-open iff the probe flag is 1, one admission per half-open episode, closed only with fewer than threshold failures since the last success |
| `CircuitBreaker.AdmissionRule` | internal/exporter/queued.go:74-110 | open admits iff the reset timeout has passed since the latest recorded failure; half-open admits none |
| `CircuitBreaker.SuccessCloses` | internal/exporter/queued.go:113-127 | after every history a success closes a circuit that is not open, and then every request passes |
| `CircuitBreaker.FailureOpensIff` | internal/exporter/queued.go:130-161 | a failure opens a closed circuit iff it is at least the threshold-th since the last success, and a half-open one always |
| `CircuitBreaker.OpenHasFailedSince` | internal/exporter/queued.go:113-161 | an open circuit has a failure after its latest successful probe |
| `CircuitBreaker.HalfOpenStuckWithoutRecord` | internal/exporter/queued.go:98-106 | without a recorded outcome a half-open circuit refuses forever |
| `BreakerAtomic.UnclosedAdmissionsBounded` | internal/exporter/queued.go:73-161 | in every interleaving of atomic operations, Record calls included, admissions not through a closed circuit are at most opening swaps plus probe clears plus one |
| `BreakerAtomic.HalfOpenStretch` | internal/exporter/queued.go:74-110 | interleaved atomic operations without records keep the circuit half-open and admit at most one more request |
| `BreakerAtomic.AtMostTwoProbes` | internal/exporter/queued.go:83-106 | from the opening swap on, any interleaving without records admits at most two |
| `BreakerAtomic.TwoProbesHappen` | internal/exporter/queued.go:83-106 | two are reached between the winner's swap and its store |
| `BreakerAtomic.ProbesExactly` | internal/exporter/queued.go:83-106 | from the opening swap with the flag down, a second request passes iff a goroutine that saw half-open swaps the flag before any store puts it up; with the flag up only one passes |
| `ExportErrors.SplittableStatusNotRetryable` | internal/exporter/errors.go:37-59 | a splittable error built from an HTTP status is never retryable |
| `ExportErrors.RetryableStatusIff` | internal/exporter/exporter.go:829-842 | of HTTP errors exactly 429 and 5xx are retried |
| `ExportErrors.SplittableStatusIff` | internal/exporter/errors.go:49-59 | and exactly 413, or another client error with a size message, is split |
| `ExportProtocol.NextSurplus` | internal/exporter/queued.go:864-1025 | every step balances every measure over entries, up to what a split sheds |
| `ExportProtocol.EveryInterleavingConserves` | internal/exporter/queued.go:1148-1375 | in every interleaving, each resource metric occurs in the seven places together exactly as often as it was pushed |
| `ExportProtocol.ExactlyOnePlace` | internal/exporter/queued.go:1148-1375 | one pushed once is in exactly one place: queue, channel, held, delivered, refused, corrupt or lost |
| `ExportOutcomes.DeliveredIsAccepted` | internal/exporter/queued.go:944-960 | what is delivered is exactly the held entry of a recorded success, or of a successful drain export |
| `ExportOutcomes.PassingFailureRequeues` | internal/exporter/queued.go:1005-1011 | after a failure without a structured error, or with 429 or 5xx, and a storing push, the whole entry is at the queue's end |
| `ExportOutcomes.CondemningFailureRefuses` | internal/exporter/queued.go:994-1003 | another status drops a single resource metric, and any request unless it is too large |
| `ExportOutcomes.RefusedNeedsCause` | internal/exporter/queued.go:994-1003 | in every interleaving without such a status nothing is ever dropped as non-retryable |
| `ExportOutcomes.NothingGivenUp` | internal/exporter/queued.go:864-1025 | if moreover requests decode and pushes store, every resource metric is delivered or under way |
| `ExportOutcomes.DeliversInOrder` | internal/exporter/queued.go:1148-1258 | a single worker, or one preparer and one sender, deliver in order of acceptance while exports succeed |
| `ExportConsequences.TooLargeCostsTwiceLessOne` | internal/exporter/queued.go:975-1003 | if every export is refused as too large, attempts made plus attempts owed are the sum of 2n - 1, and only single items are dropped |
| `ExportConsequences.TooLargeEndsInSingles` | internal/exporter/queued.go:975-1003 | and with nothing in flight every item has been dropped, n items in n single-item drops |
| `ProbeRelease.ReleasableIff` | internal/exporter/queued.go:902-965 | with a channel of positive capacity, a half-open breaker can still leave that state iff an admitted entry is held for a recorded export, or is prepared or in the channel while a sender listens or can still be started |
| `ProbeRelease.ReachableReleasableIff` | internal/exporter/queued.go:902-965 | the same for every half-open state of every run |
| `ProbeRelease.HalfOpenIsProbing` | internal/exporter/queued.go:73-161 | in every run of the protocol the half-open state and the probe flag go together |
| `ProbeRelease.ProbeIsCarried` | internal/exporter/queued.go:896-965 | in a run without a losing step, a half-open breaker has such an entry |
| `ProbeRelease.WedgedForever` | internal/exporter/queued.go:902-907 | half-open without such an entry: no event ever leaves that state, no attempt is made, and only the shutdown drain delivers |
| `ProbeRelease.RecordedOutcomeDecides` | internal/exporter/queued.go:944-968 | in a half-open system a recorded success closes the breaker, so that all requests pass, and a recorded failure opens it |
| `ProbeRelease.LostProbeWedges` | internal/exporter/queued.go:919-935 | the probe taken by an undecodable entry at a worker, or at a preparer by one that fails to compress or that no sender will receive, produces that state |
| `ProbeRelease.StoppedPreparerWedges` | internal/exporter/queued.go:1213-1221 | so does a preparer that meets the stop signal with the only admitted entry |
| `ProbeRelease.StoppedSenderWedges` | internal/exporter/queued.go:1237-1258 | so does the last listening sender that leaves on the stop signal, whatever is in the channel |
| `ProbeRelease.StopWedges` | internal/exporter/queued.go:705-714 | so does the stop signal while nothing is being exported and no sender listens |
| `ProbeRelease.WedgeIsReachable` | internal/exporter/queued.go:919-935 | for every threshold and timeout a run from the start reaches it |
| `Splitter.SplitWithCachedSizes` | internal/buffer/splitter.go:75-102 | slicing cached sizes gives the same pieces as measuring each sub-batch |
| `Splitter.SplitByBytes` | internal/buffer/splitter.go:52-72 | the entry point yields the specified pieces |
| `Splitter.SplitByBytesWithDepth` | internal/buffer/splitter.go:106-115 | at depth 0 it agrees with SplitByBytes |
| `Splitter.SplitBytesSound` | internal/buffer/splitter.go:52-102 | pieces concatenate back in order, at most 16, any piece over the limit has at most ceil(n/16) items |
| `Splitter.FittingIsWhole` | internal/buffer/splitter.go:52-72 | a batch is cut iff it has more than one item and exceeds a positive limit |
| `Splitter.FlushKeepsOrder` | internal/buffer/buffer.go:617-628 | the batches of a flush concatenate to the taken buffer in order |
| `Splitter.FlushNonEmpty` | internal/buffer/buffer.go:617-628 | no batch of a flush is empty |
| `Splitter.CutBatches` | internal/buffer/buffer.go:617-628 | the cutting loop yields those batches |
| `MemoryQueue.EvictionsLeast` | internal/buffer/memqueue.go:77-85 | a push evicts the shortest oldest prefix that makes room |
| `MemoryQueue.PushKeepsWithin` | internal/buffer/memqueue.go:67-94 | a push keeps both bounds |
| `MemoryQueue.RepushFits` | internal/buffer/memqueue.go:67-121 | pushing back what was just popped never evicts and never fails |
| `MemoryQueue.Queue.constructor` | internal/buffer/memqueue.go:50-62 | empty, with defaults for non-positive bounds |
| `MemoryQueue.Queue.EvictOldest` | internal/buffer/memqueue.go:138-151 | drops the head; the byte counter stays exact, so its clamp never applies |
| `MemoryQueue.Queue.Push` | internal/buffer/memqueue.go:67-94 | fails iff the request alone is too large, else stores it behind the surviving entries; counter exact, bounds kept |
| `MemoryQueue.Queue.Pop` | internal/buffer/memqueue.go:98-121 | takes the oldest entry; counter exact |
| `MetricsBuffer.Buffer.EvictOldest` | internal/buffer/buffer.go:496-515 | removes the prefix the specification names; sizes and counter stay exact |
| `MetricsBuffer.Buffer.EnforceCapacity` | internal/buffer/buffer.go:463-493 | accepts, rejects, evicts or waits by policy |
| `MetricsBuffer.Buffer.AddBatch` | internal/buffer/buffer.go:413-459 | the whole new state after an add, under every policy |
| `MetricsBuffer.Buffer.ExportBatch` | internal/buffer/buffer.go:659-735 | success, queued, split, failover or loss, recursively |
| `MetricsBuffer.Buffer.FlushBuffer` | internal/buffer/buffer.go:573-639 | empties the buffer and exports its batches in order |
| `MetricsBuffer.Buffer.DrainFailoverQueue` | internal/buffer/buffer.go:544-570 | up to ten requests, stopping at the first error; the buffer is untouched |
| `BufferTheorems.ExportHolds` | internal/buffer/buffer.go:659-735 | however an export splits, every resource metric of the batch ends in one place |
| `BufferTheorems.RunBalanced` | internal/buffer/buffer.go:374-735 | over every run, places equal acceptances plus one per drained request answered ErrExportQueued |
| `BufferTheorems.ConservedIff` | internal/buffer/buffer.go:544-570 | every accepted resource metric is in exactly one place iff no drain of the run was answered ErrExportQueued |
| `BufferTheorems.DrainDuplicates` | internal/buffer/buffer.go:556-566 | such an answer leaves the metric with the exporter and in the failover queue |
| `BufferTheorems.DrainRotates` | internal/buffer/buffer.go:544-570 | a drain delivers the oldest requests in order, moves the failed one to the back, evicts and loses nothing |
| `BufferTheorems.OverflowLeast` | internal/buffer/buffer.go:496-515 | drop-oldest removes the shortest oldest prefix that makes room, or everything |
| `BufferTheorems.AddAcceptsIff` | internal/buffer/buffer.go:463-493 | a batch is appended whole iff there is room or the policy drops the oldest; otherwise nothing changes, and only the blocking policy waits |
| `BufferTheorems.RunBounded` | internal/buffer/buffer.go:463-515 | in every reachable state the failover queue is within both bounds, and the buffer is over its cap only while it holds just the last accepted batch under drop-oldest |
| `BufferTheorems.AttemptsBounded` | internal/buffer/buffer.go:659-694 | a batch of n costs 1 to 2n - 1 attempts under any outcomes |
| `BufferTheorems.AttemptsExact` | internal/buffer/buffer.go:659-694 | exactly 2n - 1 if always too large, and only single items reach the failover queue |
| `BufferTheorems.RefusedGoesWhole` | internal/buffer/buffer.go:696-718 | a refused batch costs one attempt and reaches the failover queue whole, or is lost whole if it cannot be stored |
| `BufferTheorems.TakenGoesWhole` | internal/buffer/buffer.go:672-684 | a batch that is exported or queued costs one attempt and goes there whole |
| `BufferTheorems.InOrderDelivery` | internal/buffer/buffer.go:573-639 | while exports succeed and nothing is evicted, exported followed by buffered is what was accepted |
| `TokenBucket.RateLimiter.RefillLocked` | internal/exporter/spill_rate_limiter.go:45-60 | adds the whole tokens earned, capped, and moves the refill time only then |
| `TokenBucket.RateLimiter.Allow` | internal/exporter/spill_rate_limiter.go:30-43 | takes a token after the refill, if there is one |
| `TokenBucket.RateBound` | internal/exporter/spill_rate_limiter.go:30-60 | fewer than maxPerSec * (D + 1) + 1 of the calls within D seconds are allowed, from any reachable state |
| `TokenBucket.RateBoundInEveryWindow` | internal/exporter/spill_rate_limiter.go:30-60 | the same for every window of every run with a monotone clock |
| `TokenBucket.NeverWithoutRate` | internal/exporter/spill_rate_limiter.go:45-60 | without a positive rate nothing is ever allowed |
| `TokenBucket.BoundIsReached` | internal/exporter/spill_rate_limiter.go:30-60 | maxPerSec * (D + 1) pushes in D whole seconds do happen |
| `TokenBucket.RateAtLeastHalf` | internal/exporter/spill_rate_limiter.go:45-60 | of calls at most a token's time apart, more than (maxPerSec * D - 1) / 2 are allowed: rounding loses at most half |
| `BatchTuner.Normalised` | internal/exporter/batchtuner.go:83-98 | settings out of range become the defaults, others are kept |
| `BatchTuner.AutoTuner.RecordSuccess` | internal/exporter/batchtuner.go:128-163 | grows after a full streak, to at most ceiling and maximum |
| `BatchTuner.AutoTuner.RecordFailure` | internal/exporter/batchtuner.go:168-208 | shrinks to at least the minimum; a 413 sets the ceiling |
| `BatchTuner.RunValid` | internal/exporter/batchtuner.go:128-208 | in every run min <= current <= max, and a discovered ceiling never rises and is never forgotten |
| `BatchTuner.StartValidIff` | internal/exporter/batchtuner.go:83-119 | a fresh tuner is in range iff min <= max, and otherwise starts below its minimum |
| `BatchTuner.FailureShrinks` | internal/exporter/batchtuner.go:190-199 | every failure, whatever its error, shrinks the size by the factor down to the minimum and ends the streak |
| `BatchTuner.OnlyTooLargeSetsCeiling` | internal/exporter/batchtuner.go:174-187 | only status 413 moves the ceiling, to 80% of the size or the minimum |
| `BatchTuner.CeilingRespectedIff` | internal/exporter/batchtuner.go:168-208 | after a 413 at s every later size is at most max(floor(0.8 s), min) iff the shrunk size is |
| `BatchTuner.SmallShrinkRespects` | internal/exporter/batchtuner.go:168-208 | which every shrink factor up to 0.8 guarantees |
| `BatchTuner.LargeShrinkExceeds` | internal/exporter/batchtuner.go:168-208 | and 0.9 does not |
| `BatchTuner.ReachesCapIff` | internal/exporter/batchtuner.go:128-163 | successes bring the size to its cap iff it is not below the cap or current * (grow - 1) >= 1 |
| `BatchTuner.MinimumGrows` | internal/exporter/batchtuner.go:128-163 | min * (grow - 1) >= 1 suffices in every state in range |
| `PrwLimits.Enforcer.MatchesRule` | internal/prw/limits.go:204-225 | every present pattern accepts, and there is one |
| `PrwLimits.Enforcer.CheckSeries` | internal/prw/limits.go:136-177 | the rule loop with its early exits, charging before the cardinality test |
| `PrwLimits.Enforcer.Process` | internal/prw/limits.go:115-201 | the filtered request and the whole new state, with the one-second roll-over |
| `PrwLimits.Enforcer.ResetCardinality` | internal/prw/limits.go:244-248 | forgets all series |
| `PrwBounds.ScanCharges` | internal/prw/limits.go:136-177 | a matching series past rule r was charged to r within its rate and is in its set, whatever later rules decide |
| `PrwBounds.WatchSeesOutput` | internal/prw/limits.go:179-191 | the watched totals are those of the emitted series |
| `PrwBounds.KeptWithinLimits` | internal/prw/limits.go:115-201 | for any actions and either mode, kept datapoints exceed the rate, and kept hashes the cardinality, by at most what was kept despite a violation of that rule or an earlier one |
| `PrwBounds.StrictLimitsHold` | internal/prw/limits.go:115-201 | enforcing with every limit up to r dropping: kept datapoints between counter resets stay within r's rate, kept hashes between cardinality resets within its cardinality |
| `PrwExact.RateBindsIff` | internal/prw/limits.go:115-201 | for all patterns, hashes and runs, kept datapoints stay within r's rate iff the mode is enforcing and every rule up to r that has a limit drops |
| `PrwExact.CardinalityBindsIff` | internal/prw/limits.go:157-176 | kept hashes stay within r's cardinality iff that holds and no rule of r's name has a larger cardinality |
| `PrwApart.CardinalityBindsApartIff` | internal/prw/limits.go:157-176 | over runs without hash collisions, iff that holds and no earlier rule of r's name has a larger cardinality |
| `PrwBounds.PatternlessIsAbsent` | internal/prw/limits.go:204-225 | with and without a rule that has no patterns, the same series are emitted and the same state results |
| `PrwBounds.SecondStartsAfresh` | internal/prw/limits.go:123-128 | a second after the last reset a batch within every rate is kept whole, whatever was counted before |
| `PrwBounds.RejectionCharges` | internal/prw/limits.go:144-176 | a rejection for the rate charges nothing, one for the cardinality has charged the datapoints and enters no hash |
| `PrwBounds.PointsCountEach` | internal/prw/types.go:193-195 | each sample, exemplar and histogram counts one |
| `PrwBounds.LogRuleInFrontLeaks` | internal/prw/limits.go:179-187 | a violated log rule in front hides a series from the drop rule behind |
| `PrwBounds.SharedNameLeaks` | internal/prw/limits.go:157-176 | two rules with one name share a set, and the tighter one leaks |
| `PrwBounds.ViolationIsReal` | internal/prw/limits.go:143-176 | a violation names a matching rule that is over its rate, or full without this series |
| `PrwBounds.FilterAccounts` | internal/prw/limits.go:127-191 | every series is emitted in order or counted as dropped; dry run drops none |

## Left out

- The batch traversal of the limits enforcer (`Process`, `processResourceMetrics`) and a nil configuration: it applies ProcessMetric to each metric and omits empty containers.
- HyperLogLog and hybrid trackers, their sampling actions and tracker-mode bookkeeping: a foreign estimator, and its mode-switch callback takes a lock the caller already holds.
- Concurrency inside one metric's processing: a metric is one step, although the source releases its lock between the drop check, the label check, the window check and the action.
- Trackers are stored as values inside the enforcer's group statistics; the tracker objects are proved against the same values separately.
- In-place effects on a metric shared by other holders: metrics are values, and only the attribute slice is compacted in place.
- AdaptiveMarks.RankOffenders: an insertion sort stands for the library's unstable sort; theorems use only that the result is some drop order.
- Enforcer.LimitsEnforcer.HandleAdaptive: the order used is a ghost result, because ties and map order are the runtime's choice.
- GroupKeys.KeysIdentifyIff: grouping labels are listed once each; a list that repeats labels is covered only by SameKeyIff.
- GroupKeys.PrioritiesExactIff: label names contain neither comma nor equals sign; values are arbitrary.
- Rule activity, dead-rule detection, log aggregation, HTTP status pages and display counters: no effect on decisions.
- Configuration loading and validation: rules are given; only their matching predicates are modelled.
- ProbeRelease.ReleasableIff: the breaker can recover; that it does would need a fair scheduler. Senders may start until the stop signal.
- A disabled (nil) circuit breaker, the memory-batch loop, spillover mode selection, the legacy retry loop, backoff durations, worker scaling and sharding: easier variants of the modelled loops, or parts whose types live elsewhere. `internal/exporter/prw_queued.go` mirrors the modelled protocol.
- The export queue's own storage: a push evicts some of the oldest entries and stores or loses the new one; which of these happens is an input.
- A sender whose entry does not decode: its attempt has an arbitrary outcome, as for any failed export.
- BufferTheorems.RunBalanced: add, flush and drain are single steps and the relabeler is absent; the source updates the byte counter outside the lock and may export batches in parallel, so the byte invariant is not claimed at a finer grain. A batch lost without a failover queue is listed as lost although the source only logs it.
- Blocking adds: a waiting call is a step that changes nothing; wake-up order is not modelled.
- Statistics, sampling, tenant and limits processing in front of the buffer.
- Integer width: counters, sizes and times do not wrap.
- PrwLimits.Enforcer.Process: sorting the labels before hashing is part of the fingerprint function; the changed label order of an emitted series, and lookups on a series that repeats a label name, are not modelled.
- Clocks that run backwards in the token bucket: the rate bound assumes a monotone clock, as the source's clock readings are.
