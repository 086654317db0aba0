# QuantStack in Dafny

This project models the algorithmic cores of QuantStack's backend and proves what they promise, over exact
reals and unbounded integers. The source's loops over mutable data are methods and classes proved against
functions; what those functions mean is then proved as lemmas.

| area | files |
|---|---|
| numerical cores | `LinearSolve`, `Ridge`, `RecursiveElimination`, `RedundancyScan`, `TimeWarping`, `KolmogorovSmirnov`, `StabilityIndex`, `TailRisk` |
| sliding-window kernels | `RollingWindows`, `Moments`, `RollingZScore`, `RollingMinMax`, `RollingCorrelation` |
| graph algorithms | `Graphs`, `KahnOrder`, `FeatureRegistry`, `CollectorRegistry` |
| state machines | `EventBus`, `CircuitBreaker`, `SessionBuckets`, `LiveCandles`, `TickAggregator`, `StructureSignals`, `MarketStructure`, `ValueAreas` |
| caches and indexes | `FeatureStore`, `Replay` |
| shared | `Vectors`, `Sorting`, `Wrappers` |

Conventions. The square root, the logarithm and the hyperbolic tangent are parameters: a root is any function that
satisfies `IsSqrt`, a logarithm any that satisfies `IsLog`, and `math.isclose` is an arbitrary relation. Times are
integers (microseconds in the candle layer) or reals (seconds in the breaker). A run of an asynchronous
component is a sequence of atomic steps, one per stretch of code between two awaits. `hide` statements keep
definitions out of proofs that do not need them.

Where the code does less than its own text says, the code is modelled and the difference is proved:

- A pivot below 1e-12 is skipped, so a solvable system may be answered with 0 (`LinearSolve.TinyPivotIsNotSolved`). A
  solution is returned exactly if it is zero in every column with such a pivot (`LinearSolve.AnsweredIff`), and one
  without zeros exactly if there is no such pivot (`LinearSolve.SolvedIffRegular`). A penalty above a tiny, explicit bound
  rules them out, collinear columns included (`Ridge.PenaltyMakesRegular`).
- Two versions of a feature at one instant may leave the snapshot undetermined (`Replay.TiedRowsHaveTwoAnswers`); it is
  determined exactly if the newest visible rows of each feature show the same entry (`Replay.OneAnswerIff`).
- After an online entry expires, a feature stays missing from it until new rows of it are written, although the offline
  store still has its newest row (`FeatureStores.ExpiredEntryStaysAway`). Online are exactly the features written since the
  last expiry (`FeatureStores.EntryCoversWrites`).
- A tick without a volume overwrites its bar's stored volume with zero (`LiveCandles.MissingVolumeStoresZero`); the last
  minute keeps what was traded in it exactly if its last tick reports a volume or nothing was traded
  (`LiveCandles.BarKeepsVolumeIff`). `LiveCandles.VolumesAddUp` accounts for all that is lost so, and
  `LiveCandles.VolumesTelescopeIff` says when nothing is. A first tick without a volume makes the bar store the whole day's
  volume once it is reported (`LiveCandles.StartIsFirstReportIff`).
- Two ticks of one symbol in one minute lose the whole batch of table writes, while the bars in memory have already moved
  on (`TickAggregators.RepeatedMinuteIsLost`); the rows of a symbol stay right exactly if its new ticks leave its minute
  candles as they were (`TickAggregators.RefusedStaysSettledIff`).
- The live rows keep their meaning exactly when backfill brings no new minute candle
  (`TickAggregators.BackfillKeepsSettled`).
- The net of unfilled gaps counts at most the newest 100 of them (`MarketStructure.RallyForgetsGaps`); nothing is missed
  exactly if every gap beyond the newest 100 is filled by the bar that pushes it out (`MarketStructure.GapsCompleteIff`).
- A failure threshold below 1 makes a fresh breaker closed without being below its threshold
  (`CircuitBreakers.ZeroThresholdNeverFits`).
- A recovery alert that raises makes a successful run count as a failure too. The recovery survives that exactly if the
  threshold is above 1 (`CircuitBreakers.RecoverySurvivesIff`); with 1, a successful probe leaves the breaker open
  (`CircuitBreakers.RecoveryUndone`).
- The dependency error names every feature on a cycle and every feature downstream of one (`FeatureRegistries.BystanderIsNamed`);
  it names only features of a cycle exactly if none outside depends on one (`FeatureRegistries.ErrorIsExactIff`).
- An order block at level zero ends the scan with a division by zero. `MarketStructure.ComputeStructureDaily` fails exactly
  then (`StructureSignals.JumpFromZeroRaises` is such a series), which nonnegative prices rule out
  (`StructureSignals.PricesNeverRaise`).
- The bias and the sweep score clamp values that are within the limits already (`MarketStructure.BiasIsBlend`,
  `StructureSignals.SweepNeedsNoClamp`).

## Model

| member | source | states |
|---|---|---|
| LinearSolve.FindPivot | backend/app/features/selection.py:125 | finds the first row at or below the diagonal with the entry of greatest magnitude |
| LinearSolve.EliminateRow | backend/app/features/selection.py:130-134 | rewrites one row of the augmented array in place and no other |
| LinearSolve.ProcessColumn | backend/app/features/selection.py:124-134 | swap and elimination of one column, in place, or nothing below the threshold |
| LinearSolve.Solve | backend/app/features/selection.py:120-139 | the in-place loop meets the recursive reduction on every square system, singular ones included |
| LinearSolve.ResidualsComeFromReduced | backend/app/features/selection.py:124-134 | a vector that satisfies the finished rows has in each original row the residual it has in some reduced row |
| LinearSolve.ReductionKeepsSolutions | backend/app/features/selection.py:124-134 | a solution of the original rows is a solution of every reduced row |
| LinearSolve.SolutionIsUniqueSolution | backend/app/features/selection.py:120-139 | with every pivot above the threshold, the returned vector solves the original system and nothing else does |
| LinearSolve.AnsweredIff | backend/app/features/selection.py:120-139 | a system's solution is returned exactly if it is zero in every column whose pivot is too small to be used |
| LinearSolve.SolvedIffRegular | backend/app/features/selection.py:120-139 | a solution without zeros is returned exactly if every pivot is above 1e-12 |
| LinearSolve.TinyPivotIsNotSolved | backend/app/features/selection.py:128-138 | one such failure: half the threshold times x = half the threshold is answered with 0 |
| LinearSolve.EdgePivotClears | backend/app/features/selection.py:128-138 | a pivot of exactly 1e-12 still clears its column, though its own unknown is answered with 0 |
| Ridge.RidgeFit | backend/app/features/selection.py:142-154 | the coefficients strictly beat every other vector on mean squared residual plus (lam/n) times squared norm, whenever every pivot is above the threshold or the penalty above the bound |
| Ridge.PivotsAreLarge | backend/app/features/selection.py:120-154 | under the penalty bound no pivot of the normal equations is ever skipped, whatever the columns |
| Ridge.QuadraticForm | backend/app/features/selection.py:147-152 | the penalised Gram matrix is positive definite: its form is the fit's square plus lam times the norm |
| Ridge.EnergyGrowth | backend/app/features/selection.py:142-154 | moving d away from the solution raises the objective by exactly the square of the fit of d plus lam times its norm |
| Ridge.RidgeMinimises | backend/app/features/selection.py:142-154 | with lam >= 0, zero included, and every pivot above the threshold, any other coefficient vector has a strictly larger objective |
| Ridge.PenaltyMakesRegular | backend/app/features/selection.py:120-154 | a penalty above the bound puts every pivot above the threshold |
| RecursiveElimination.RfeRanks | backend/app/features/selection.py:190-200 | ranks are 1 to k, each once, and each feature has the smallest coefficient of the ridge fit on all features ranked no worse |
| RecursiveElimination.SurvivorsPop | backend/app/features/selection.py:196-199 | ranking one feature takes exactly it out of the survivors and keeps their order |
| RedundancyScan.Scan | backend/app/features/selection.py:227-262 | for every limit the early exit yields exactly the candidates of the unbounded scan, and each dropped name has its pair |
| RedundancyScan.SelectCandidates | backend/app/features/selection.py:227-262 | candidates are pairwise below the threshold and each redundant name has a correlated candidate of at least its score |
| RedundancyScan.ReadOff | backend/app/features/selection.py:243-262 | names outside the partial redundant set start with the names the greedy rule keeps |
| RedundancyScan.KeptAreUncorrelated | backend/app/features/selection.py:252-258 | no two names kept by the greedy rule correlate at or above the threshold |
| RedundancyScan.DropsHaveBetterTwins | backend/app/features/selection.py:252-260 | a dropped name's keeper comes earlier in score order and is itself a candidate |
| TimeWarping.EuclideanIsDistance | backend/app/intelligence/analogs.py:124-125 | the local cost is the root of the sum of squared differences; symmetric, and zero exactly between equal points |
| TimeWarping.NextRow | backend/app/intelligence/analogs.py:149-153 | from one full row of the table the inner loop makes the next |
| TimeWarping.DtwDistance | backend/app/intelligence/analogs.py:128-154 | the two-row loop returns the last cell of the full table, and infinity for an empty path |
| TimeWarping.NoWarpingIsCheaper | backend/app/intelligence/analogs.py:128-154 | no monotone warping path to a cell costs less than its table entry |
| TimeWarping.BestWarping | backend/app/intelligence/analogs.py:128-154 | some monotone warping path costs exactly the table entry |
| TimeWarping.DistanceIsMinimum | backend/app/intelligence/analogs.py:128-154 | the distance is the minimum total cost over all warping paths |
| TimeWarping.DistanceIsSymmetric | backend/app/intelligence/analogs.py:128-154 | swapping the paths does not change the distance |
| TimeWarping.ZeroDistance | backend/app/intelligence/analogs.py:137-139 | the distance is zero exactly when some warping aligns only equal points |
| TimeWarping.SelfDistance | backend/app/intelligence/analogs.py:128-154 | a path is at distance zero from itself |
| KolmogorovSmirnov.SearchEcdf | backend/app/features/stats.py:23-31 | the binary search returns the exact fraction of values at or below x |
| KolmogorovSmirnov.KsStatistic | backend/app/features/stats.py:15-33 | the maximum over the pooled sample is the attained supremum of the gap over every real |
| KolmogorovSmirnov.MaximumIsSupremum | backend/app/features/stats.py:21-33 | no real has a larger gap than the pooled values have |
| KolmogorovSmirnov.SupremumIsSymmetric | backend/app/features/stats.py:15-33 | the statistic is unique, symmetric and in 0..1 |
| KolmogorovSmirnov.OneMeansSeparated | backend/app/features/stats.py:15-33 | it is 1 exactly when one sample lies entirely below the other |
| StabilityIndex.QuantileEdges | backend/app/features/stats.py:53-63 | the edges are the evenly spaced quantiles of the reference, in ascending order |
| StabilityIndex.Histogram | backend/app/features/stats.py:36-50 | each share is the fraction of values whose first edge not below them is that bin's |
| StabilityIndex.BinsCumulate | backend/app/features/stats.py:36-50 | with ascending edges the bins up to an edge hold exactly the values at or below it |
| StabilityIndex.BinsHoldAll | backend/app/features/stats.py:36-50 | every value lands in exactly one bin |
| StabilityIndex.IndexSeparates | backend/app/features/stats.py:78-83 | the sum is never negative and zero exactly when all floored shares agree |
| StabilityIndex.Psi | backend/app/features/stats.py:66-83 | missing exactly on too few reference or no recent values; otherwise nonnegative, and zero for identical samples |
| TailRisk.QuantileIsMonotone | backend/app/features/risk.py:135-144 | the interpolated quantile grows with q |
| TailRisk.QuantileIsBetween | backend/app/features/risk.py:135-144 | it stays between the least and the greatest value |
| TailRisk.InterpolateIsLinear | backend/app/features/risk.py:135-144 | from one rank to the next the quantile is the straight line |
| TailRisk.TailIsOrdered | backend/app/features/risk.py:179-192 | the tail is nonempty, VaR95 is at most VaR99 and at most CVaR95 |
| TailRisk.TailIsMeasured | backend/app/features/risk.py:179-192 | each measure is 100 times the loss, of the quantile or of the tail's mean, and zero for a gain |
| TailRisk.TailCounts | backend/app/features/risk.py:190 | the tail holds every return at or below the quantile as often as the window, and no other |
| TailRisk.Drawdowns | backend/app/features/risk.py:208-212 | the running-peak loop yields each bar's decline from the highest close so far |
| TailRisk.DrawdownIsWorstDecline | backend/app/features/risk.py:207-212 | for positive closes a bar's drawdown is the worst of 1 - close / earlier close, over every bar not after it |
| TailRisk.NoDrawdownBelowZero | backend/app/features/risk.py:207-212 | while no close has been above zero there is no drawdown |
| TailRisk.MeasureDrawdowns | backend/app/features/risk.py:207-216 | maximum is the worst decline over all earlier-later pairs; current and ulcer are at most the maximum |
| Moments.CovarianceShortcut | backend/app/features/normalize.py:326-331 | mean product minus product of means is the mean product of deviations |
| Moments.VarianceSeparates | backend/app/features/normalize.py:78-83 | the variance is never negative and zero exactly when all values are equal |
| Moments.CauchySchwarz | backend/app/features/normalize.py:326-333 | the squared product of two vectors is at most the product of their squares |
| RollingWindows.WindowSlides | backend/app/features/normalize.py:61-73 | adding the entering bar and removing the leaving one turns each trailing window into the next |
| RollingZScore.TotalsGiveNaive | backend/app/features/normalize.py:75-83 | from the running count, sum and sum of squares comes exactly the naive z-score |
| RollingZScore.RollingZScore | backend/app/features/normalize.py:36-84 | every output equals the naive scan of the trailing window, for every series with gaps |
| RollingZScore.NoLookAhead | backend/app/features/normalize.py:36-84 | appended bars change no earlier output |
| RollingZScore.SkippedIffConstant | backend/app/features/normalize.py:76-83 | an eligible bar is skipped exactly when its trailing values are all equal |
| RollingMinMax.Push | backend/app/features/normalize.py:110-117 | popping dominated tails and appending keeps a monotone deque that covers the window |
| RollingMinMax.Expire | backend/app/features/normalize.py:119-127 | dropping an out-of-window front keeps the deque's invariant |
| RollingMinMax.FrontIsExtreme | backend/app/features/normalize.py:87-127 | the front is the extreme of the window's present values |
| RollingMinMax.DequesGiveNaive | backend/app/features/normalize.py:129-134 | from the two fronts comes exactly the naive answer |
| RollingMinMax.RollingMinMax | backend/app/features/normalize.py:87-135 | outputs equal the naive scan; pops never exceed pushes, pushes never exceed the length |
| RollingMinMax.PositionInWindow | backend/app/features/normalize.py:87-135 | emitted exactly for a present bar whose window has enough values, not all equal: where it lies between the least and the greatest of them |
| RollingMinMax.PositionInUnitInterval | backend/app/features/normalize.py:87-135 | it lies in 0..1, is 0 exactly at the least value and 1 exactly at the greatest |
| RollingCorrelation.TotalsGiveNaive | backend/app/features/normalize.py:324-333 | from the five sums and the gap count comes exactly the naive correlation |
| RollingCorrelation.RollingCorrelation | backend/app/features/normalize.py:273-334 | every output equals the correlation of a fresh scan of the paired window |
| RollingCorrelation.EmitsExactlyWhen | backend/app/features/normalize.py:324-333 | a value appears exactly when the window is full, gap-free and neither side is constant |
| RollingCorrelation.CovarianceBound | backend/app/features/normalize.py:326-333 | the squared covariance is at most the product of the variances |
| RollingCorrelation.ClampIsInert | backend/app/features/normalize.py:332-333 | the quotient already lies in -1..1 |
| KahnOrders.KahnOrderIsUnique | backend/app/features/registry.py:51-63 | a graph has at most one order in which names are taken as they become ready, the alphabet breaking ties |
| KahnOrders.TextsDiffer | backend/app/features/registry.py:51-63 | the alphabet compares the first characters that differ, and what ends first comes first |
| KahnOrders.NextKeepsOrder | backend/app/features/registry.py:53-59 | taking the head and queueing what became ready, sorted, keeps the whole line in that order |
| FeatureRegistries.Kahn | backend/app/features/registry.py:41-63 | fails exactly on cyclic graphs, with the sorted names on or behind a cycle; else returns the one order with every known upstream earlier, readiness and then the alphabet deciding |
| FeatureRegistries.BuildEdges | backend/app/features/registry.py:43-49 | in-degrees count the known dependencies and the lists hold the dependents |
| FeatureRegistries.Release | backend/app/features/registry.py:56-59 | releasing a finished name keeps in-degrees equal to the open dependencies and queues exactly those at zero, alphabetically behind the rest |
| FeatureRegistries.RemainderIsBlocked | backend/app/features/registry.py:60-62 | once the queue is dry, a name is unordered exactly when it is on or downstream of a cycle |
| FeatureRegistries.Closure | backend/app/features/registry.py:67-80 | the breadth-first search reaches exactly the names reachable by one or more edges |
| FeatureRegistries.FeatureRegistry.Register | backend/app/features/registry.py:28-29 | overwrites by name, keeping first-registration order |
| FeatureRegistries.ErrorIsExactIff | backend/app/features/registry.py:60-62 | the error names only features of a cycle exactly if none outside depends on one |
| FeatureRegistries.BystanderIsNamed | backend/app/features/registry.py:60-62 | with a feature that depends on itself and one that depends on it, the error names both |
| FeatureRegistries.FeatureRegistry.DependencyOrder | backend/app/features/registry.py:41-63 | raises exactly on cycles, naming in alphabetical order exactly what is on or behind one; else the one Kahn order |
| FeatureRegistries.FeatureRegistry.DependentsOf | backend/app/features/registry.py:65-81 | exactly the transitive dependents, in the order DependencyOrder returns, and a cycle anywhere raises |
| Graphs.BlockedIsUnordered | backend/app/features/registry.py:41-63 | no name on or behind a cycle can be part of a partial order |
| Graphs.OrderedIsAcyclic | backend/app/features/registry.py:41-63 | a graph with a topological order has no cycle |
| Graphs.StuckIsBlocked | backend/app/features/registry.py:60-62 | every name of a set in which each has a dependency is on or behind a cycle |
| CollectorRegistries.Resolver.Visit | backend/app/collectors/registry.py:106-120 | terminates on every graph; finishes the name after what it needs, or reports a real cycle |
| CollectorRegistries.Resolver.VisitDependencies | backend/app/collectors/registry.py:114-118 | finishes every known dependency of the name, or reports a real cycle |
| CollectorRegistries.ReportShowsCycle | backend/app/collectors/registry.py:109-111 | the last name of the reported chain is on a cycle of real dependency edges |
| CollectorRegistries.OriginsGivePriority | backend/app/collectors/registry.py:122-124 | roots visited by priority give an order that only departs from priority for a dependency |
| CollectorRegistries.CollectorRegistry.Register | backend/app/collectors/registry.py:68-86 | the first collector of a name stays; a new name goes to the end of the registration order |
| CollectorRegistries.CollectorRegistry.ResolutionOrder | backend/app/collectors/registry.py:99-124 | raises exactly on cycles, with a chain showing one; else a dependency-first permutation that respects priority |
| EventBuses.AcceptedIffNotRecent | backend/app/events/bus.py:82-106 | an event is accepted exactly when its id is not among the last window of accepted ids |
| EventBuses.StepKeeps | backend/app/events/bus.py:82-150 | every atomic step keeps the window, the conservation of deliveries and the dead-letter facts |
| EventBuses.EveryInterleavingKeeps | backend/app/events/bus.py:82-205 | in every interleaving deliveries started equal delivered plus buried plus in flight; each burial has max_retries + 1 failures and the full backoff |
| EventBuses.FailuresAreCounted | backend/app/events/bus.py:108-150 | in every run the failures recorded of a buried delivery are exactly the steps that failed an attempt of it |
| EventBuses.RetryKeepsPending | backend/app/events/bus.py:111-132 | after each failed attempt the total sleep is base times 2^failures minus 1 |
| EventBuses.Deliver | backend/app/events/bus.py:108-150 | delivers at the first success within max_retries + 1 attempts, else buries after sleeping base times (2^max_retries - 1) |
| EventBuses.EventBus.IsDuplicate | backend/app/events/bus.py:82-88 | reports a seen id, else remembers it within the bounded window |
| EventBuses.PublishDelivers | backend/app/events/bus.py:90-106 | each subscription to the event's kind that wants every version or this one gets exactly one new delivery of it, in order, and no other does; a duplicate starts none |
| EventBuses.SubscribersAreStepsMade | backend/app/events/bus.py:75-80 | in every run a topic's subscribers are exactly those its Subscribe steps named, in order |
| EventBuses.EventBus.SubscribeTo | backend/app/events/bus.py:75-80 | the object takes the model's subscribe step |
| EventBuses.EventBus.PublishEvent | backend/app/events/bus.py:90-106 | the object takes the model's publish step, and delivers to exactly the subscriptions that want the event |
| EventBuses.EventBus.OnSuccess | backend/app/events/bus.py:112-115 | the object takes the model's success step |
| EventBuses.LettersAreConserved | backend/app/events/bus.py:108-205 | in every run each letter buried is in the queue, was replayed, or was pushed out of the full queue |
| EventBuses.CountersCount | backend/app/events/bus.py:90-115 | in every run published plus duplicates counts the publications, and delivered the successes |
| EventBuses.EventBus.OnFailure | backend/app/events/bus.py:116-140 | another attempt after a longer sleep, or the delivery ends and its letter joins the newest of the queue |
| EventBuses.EventBus.ReplayDeadLetter | backend/app/events/bus.py:177-205 | the first letter of the id leaves the queue and its event goes out again, under a new id, to the subscriptions that want it |
| CircuitBreakers.CircuitBreaker.AllowRequest | backend/app/core/circuit_breaker.py:43-60 | admits by state, recovery time and probe count |
| CircuitBreakers.CircuitBreaker.RecordSuccess | backend/app/core/circuit_breaker.py:62-70 | closes and clears; reports whether it was not closed |
| CircuitBreakers.CircuitBreaker.RecordFailure | backend/app/core/circuit_breaker.py:72-89 | reopens a half-open breaker, trips a closed one at the threshold; reports whether it opened |
| CircuitBreakers.StepKeeps | backend/app/collectors/base.py:157-189 | every step keeps the breaker facts and the lock facts |
| CircuitBreakers.EveryInterleavingKeeps | backend/app/collectors/base.py:157-278 | in every interleaving: closed implies failures below the threshold, not closed exactly when opened_at is set, each half-open episode within its probes |
| CircuitBreakers.OpensExactlyAtThreshold | backend/app/core/circuit_breaker.py:72-89 | in every interleaving a closed breaker opens exactly at the failure that completes the threshold of failures since the last success, counted from the steps |
| CircuitBreakers.OpenedWhenItFailed | backend/app/core/circuit_breaker.py:72-95 | a breaker that is not closed remembers the time of the failure that opened it |
| CircuitBreakers.AdmittedExactlyWhen | backend/app/core/circuit_breaker.py:43-60 | a call is admitted by a closed breaker, by an open one exactly from the timeout after that failure on, by a half-open one exactly while its episode has probes left |
| CircuitBreakers.CountersCount | backend/app/core/circuit_breaker.py:86-89 | in every run the opens counted are the failures that opened the breaker, and admissions plus rejections the calls |
| CircuitBreakers.OneRunInside | backend/app/collectors/base.py:182-189 | no two admitted runs are past the run lock together, and the queue length never goes negative |
| CircuitBreakers.HalfOpenResolves | backend/app/core/circuit_breaker.py:43-89 | a half-open breaker that rejects still has an unrecorded run, and any outcome leaves half-open |
| CircuitBreakers.ZeroThresholdNeverFits | backend/app/core/circuit_breaker.py:27-42 | the invariant holds of a fresh breaker exactly when the threshold is at least 1 |
| CircuitBreakers.RecoverySurvivesIff | backend/app/collectors/base.py:253-277 | a recorded recovery survives an alert that raises exactly if the threshold is above 1 |
| CircuitBreakers.RecoveryUndone | backend/app/collectors/base.py:253-277 | a run with threshold 1 in which a successful probe leaves the breaker open |
| CircuitBreakers.CallsStayWithinBudget | backend/app/core/circuit_breaker.py:43-89 | admissions beyond the threshold cost one recovery timeout each |
| CircuitBreakers.AdmissionsAreBounded | backend/app/core/circuit_breaker.py:43-89 | sequential always-failing calls are admitted at most threshold + T / recovery_timeout times |
| CircuitBreakers.FirstCallsAreAdmitted | backend/app/core/circuit_breaker.py:43-89 | up to the threshold every failing call is admitted, and the breaker is closed exactly below it |
| CircuitBreakers.Collector.Admit | backend/app/collectors/base.py:176-182 | an admitted call queues for the lock, a rejected one does not |
| CircuitBreakers.Collector.TakeLock | backend/app/collectors/base.py:183-185 | leaves the queue and is in flight |
| CircuitBreakers.Collector.CollectWithRetry | backend/app/collectors/base.py:191-218 | stops at the first success within attempts + 1 tries and counts the retries |
| CircuitBreakers.Collector.RecordOutcome | backend/app/collectors/base.py:253-277 | records the outcome in the breaker while the lock is held |
| CircuitBreakers.Collector.OnAlertError | backend/app/collectors/base.py:253-270 | a recovery alert that raises adds a failure to the recorded success |
| CircuitBreakers.Collector.ReleaseLock | backend/app/collectors/base.py:186-189 | the run is no longer in flight and the lock is free |
| SessionBuckets.FloorIsGrid | backend/app/collectors/tick_aggregator.py:64-77 | a width that divides the day gives one grid for all days |
| SessionBuckets.TilesIffWidthDividesDay | backend/app/collectors/tick_aggregator.py:64-77 | buckets tile the time line across midnight exactly when the width divides 1440 |
| SessionBuckets.BucketsNest | backend/app/collectors/tick_aggregator.py:153 | an instant and its minute fall in the same wide bucket |
| SessionBuckets.BucketIsInterval | backend/app/collectors/tick_aggregator.py:153-165 | a bucket holds exactly the instants from its start to its end |
| LiveCandles.LiveBarIsLastMinute | backend/app/collectors/tick_aggregator.py:128-149 | the bar in memory is the last minute candle, whatever the ticks |
| LiveCandles.RollupIsFold | backend/app/collectors/tick_aggregator.py:151-180 | folding the minute candles of a bucket gives open, high, low and close of all its ticks, whatever the ticks |
| LiveCandles.OhlcSummarises | backend/app/collectors/tick_aggregator.py:128-180 | the fold's open is the first price, its close the last, its high a price and no price above it, its low a price and no price below it |
| LiveCandles.BarKeepsVolumeIff | backend/app/collectors/tick_aggregator.py:132-148 | the last minute is stored with the volume traded in it exactly if its last tick reports one or nothing was traded |
| LiveCandles.VolumesAddUp | backend/app/collectors/tick_aggregator.py:132-148 | stored minute volumes plus what missing volumes lost make everything traded since the start |
| LiveCandles.StartIsFirstReportIff | backend/app/collectors/tick_aggregator.py:132-140 | the first report counts as already traded when it opens its bar; joining a bar begun without a volume, it is stored whole |
| LiveCandles.VolumesTelescopeIff | backend/app/collectors/tick_aggregator.py:132-148 | stored volumes sum to the last minus the first cumulative volume exactly if no minute with trades ends in a tick without a volume |
| LiveCandles.VolumesTelescope | backend/app/collectors/tick_aggregator.py:132-148 | so with every volume reported, stored minute volumes sum to the last minus the first cumulative volume |
| LiveCandles.MissingVolumeStoresZero | backend/app/collectors/tick_aggregator.py:148 | three ticks of one minute, the last without a volume: 150 were traded and 0 is stored |
| TickAggregators.SettledIsFold | backend/app/collectors/tick_aggregator.py:108-180 | in settled rows each minute and wider candle is the fold of the ticks of its bucket |
| TickAggregators.SettledRowsSummarise | backend/app/collectors/tick_aggregator.py:108-180 | so the row around any tick, minute or wider, has the first, greatest, least and last price of exactly the ticks within its span of time |
| TickAggregators.SettledVolumeIsSum | backend/app/collectors/tick_aggregator.py:171-178 | a wider row's volume is the sum of the minute rows of its span |
| TickAggregators.BackfillNeverAlters | backend/app/collectors/market_data.py:568-593 | insert-if-absent keeps every stored candle and adds only the given keys |
| TickAggregators.BackfillKeepsSettled | backend/app/collectors/market_data.py:568-593 | the live rows survive a backfill exactly when it brings no new minute candle of the symbol |
| TickAggregators.CandleTable.UpsertMany | backend/app/collectors/tick_aggregator.py:183-203 | all rows replace what was stored, or none when two share a key |
| TickAggregators.CandleTable.StoreCandles | backend/app/collectors/market_data.py:568-593 | only absent candles are stored, and it reports how many |
| TickAggregators.CandleTable.QueryMinutes | backend/app/collectors/tick_aggregator.py:155-170 | exactly the symbol's minute candles of the interval, in time order |
| TickAggregators.QueryReadsWithin | backend/app/collectors/tick_aggregator.py:153-170 | what the query returns is exactly the minute candles of the wide bucket |
| TickAggregators.MinuteUpsert | backend/app/collectors/tick_aggregator.py:110-114 | writing the minute of one more tick brings the minute rows up to it and leaves its roll-ups pending |
| TickAggregators.RollupUpsert | backend/app/collectors/tick_aggregator.py:152-180 | writing one width's roll-up of a minute, or finding none to write, settles that width there and leaves the others |
| TickAggregators.TickCandleAggregator.UpdateBar | backend/app/collectors/tick_aggregator.py:128-149 | extends the bar of the minute or starts one from the volume seen before it |
| TickAggregators.TickCandleAggregator.UpsertRollups | backend/app/collectors/tick_aggregator.py:151-180 | writes each width's roll-up of the stored minutes, touches nothing else, and settles a symbol waiting for it |
| TickAggregators.TickCandleAggregator.IngestBatch | backend/app/collectors/tick_aggregator.py:92-126 | every symbol has then seen its complete ticks of the batch, in order; rows are stored exactly if no symbol repeats a minute, and every settled symbol is then settled on its longer history, whatever the volumes; otherwise no row changes |
| TickAggregators.RefusedStaysSettledIff | backend/app/collectors/tick_aggregator.py:92-126 | after a refused batch a settled symbol stays settled exactly if its new ticks leave its minute candles as they were |
| TickAggregators.RepeatedMinuteIsLost | backend/app/collectors/tick_aggregator.py:92-126 | two ticks at one instant are refused, and an empty table no longer reflects the ticks seen |
| MarketStructure.ConfirmedSwings | backend/app/features/structure.py:160-178 | lists each fractal pivot at the bar k bars after it, in order |
| MarketStructure.TakeSwings | backend/app/features/structure.py:233-249 | moves past the events due at a bar, skipping near-equal levels and re-arming the break on a fresh one |
| MarketStructure.FollowGaps | backend/app/features/structure.py:287-299 | adds the bar's gap, keeps the newest 100, drops those the bar fills, and sums their directions |
| MarketStructure.ComputeStructureDaily | backend/app/features/structure.py:181-333 | fails exactly on a division by a zero order block; else each row equals what its bar's thirteen features mean, a break being the first close beyond a level since it was confirmed |
| MarketStructure.Score | backend/app/features/structure.py:279-333 | from the running state the liquidity and order-block distances, the bias and both scores, each exactly when the source sets it |
| MarketStructure.LastBreakIsLatest | backend/app/features/structure.py:263-275 | the break that decays in the bias is that of the latest bar with one |
| MarketStructure.BiasIsBlend | backend/app/features/structure.py:313-322 | with a hyperbolic tangent in -1..1 every bar's bias is 0.5 trend + 0.3 decayed break + 0.2 tanh of a third of the counts' difference |
| StructureSignals.BreakFades | backend/app/features/structure.py:315-317 | a break counts fully on its bar, loses a tenth with each bar after it, and nothing is left after ten |
| StructureSignals.AverageTrueRanges | backend/app/features/structure.py:191-201 | each bar from the fifteenth on has the mean of its last fourteen true ranges |
| StructureSignals.TrueRangeIsSpan | backend/app/features/structure.py:195-199 | a true range is the length of the least interval with the bar and the close before it |
| StructureSignals.AtrSlides | backend/app/features/structure.py:191-201 | from bar to bar the mean gains a fourteenth of the new true range and loses one of the range fourteen bars back |
| StructureSignals.AtrOfSteadyRanges | backend/app/features/structure.py:191-201 | fourteen equal true ranges have that mean, and before the fifteenth bar there is none |
| StructureSignals.ImpulseReverses | backend/app/features/structure.py:301-309 | an impulse is a move of more than the average true range against the body of the bar before |
| StructureSignals.BlockDistanceIsPercent | backend/app/features/structure.py:310-311 | the close is that many percent above the block |
| StructureSignals.OrderBlockIsLatest | backend/app/features/structure.py:301-309 | the block in force is the middle of the bar before the latest impulse |
| StructureSignals.NoImpulseNoBlock | backend/app/features/structure.py:301-309 | a block is in force exactly if some bar so far was an impulse |
| StructureSignals.NextBlock | backend/app/features/structure.py:301-309 | one bar's update of the block in force |
| StructureSignals.JumpFromZeroRaises | backend/app/features/structure.py:301-311 | fifteen bars on which the scan divides by zero |
| StructureSignals.PricesNeverRaise | backend/app/features/structure.py:301-311 | nonnegative prices never divide by zero |
| StructureSignals.LiquidityIsZeroIff | backend/app/features/structure.py:279-284 | the distance is nonnegative and zero exactly on one of the last five levels of either side |
| StructureSignals.LiquidityIsNearest | backend/app/features/structure.py:279-284 | it leads, in percent of the close, to one of the last five levels of either side, and none of them is nearer |
| StructureSignals.BreakoutIsMonotone | backend/app/features/structure.py:324-328 | stays in 0.2..0.95 and grows with the bias and with closeness to the last high |
| StructureSignals.BreakoutInPercent | backend/app/features/structure.py:324-328 | from two percent away the score is 0.5 + 0.3 bias; nearer it gains 0.1 a percent, up to 0.95 |
| StructureSignals.SweepNeedsNoClamp | backend/app/features/structure.py:329-333 | falls from 0.85 on a level to 0.15 two percent away, and its clamp never acts |
| MarketStructure.NoLookAhead | backend/app/features/structure.py:160-333 | bars after i never change the row of bar i, nor whether it ends the scan |
| MarketStructure.BreaksNeedFreshSwing | backend/app/features/structure.py:233-275 | between two breaks on one side a fresh swing, not close to the previous, was confirmed |
| MarketStructure.ChangeOpposesTrend | backend/app/features/structure.py:258-277 | a change of character is nonzero exactly on a break against the trend, and equals that break |
| MarketStructure.SwingsShown | backend/app/features/structure.py:160-178 | a row shows the pivot its bar confirms, the highest high or lowest low of its k neighbours on either side, unless that is close to the one shown before, and otherwise what was shown before |
| MarketStructure.LevelsArePivots | backend/app/features/structure.py:160-178 | every level is the price of such a pivot and differs from the one before it |
| MarketStructure.UpwardBreakInPrices | backend/app/features/structure.py:263-270 | a bar breaks upward exactly if it is the first to close above the swing high in force since that was confirmed |
| MarketStructure.DownwardBreakInPrices | backend/app/features/structure.py:271-277 | a bar breaks downward exactly if it is the first to close below the swing low in force without breaking upward |
| MarketStructure.TrendInPrices | backend/app/features/structure.py:256-259 | the trend is 1 exactly if the last two highs and the last two lows rose, -1 exactly if both fell |
| MarketStructure.HigherHighsInRows | backend/app/features/structure.py:233-247 | a fresh swing high above the one before adds one to the count, any other sets it to zero, and nothing else changes it |
| MarketStructure.LowerLowsInRows | backend/app/features/structure.py:242-252 | likewise for lower lows |
| MarketStructure.GapNetInPrices | backend/app/features/structure.py:287-299 | with no gap lost, the net is the number of gaps above whose middle no bar has traded through since, less that of gaps below |
| MarketStructure.SignalsInRow | backend/app/features/structure.py:279-333 | which signals a row has, and what each score is computed from |
| MarketStructure.RunIsLongestStreak | backend/app/features/structure.py:239-247 | the higher-high and lower-low counts are the longest closing streak of the levels |
| MarketStructure.OpenGapsAreNewest | backend/app/features/structure.py:287-299 | the gaps followed are the most recent of all unfilled gaps, at most 100 |
| MarketStructure.GapsCompleteIff | backend/app/features/structure.py:293-298 | no unfilled gap is missing at any bar exactly if every gap beyond the newest 100 is filled by the bar that pushes it out |
| MarketStructure.RallyForgetsGaps | backend/app/features/structure.py:293-299 | in a rally of 103 bars the scan no longer has every unfilled gap |
| ValueAreas.FillBins | backend/app/features/structure.py:396-400 | each bin holds its closes' weight and all bins together hold the whole weight; fails exactly if a close has no bin |
| ValueAreas.BinIsInterval | backend/app/features/structure.py:397-399 | bin b holds the closes from b to b + 1 widths above the low, the last one all above |
| ValueAreas.BinBelowLow | backend/app/features/structure.py:397-399 | a close below the low is binned from the end, within one width of it in the first bin, and beyond thirty widths nowhere |
| ValueAreas.ExpandedIsEnoughAndNoMore | backend/app/features/structure.py:403-414 | the area reaches its target and was short of it before its last bin |
| ValueAreas.GrowthPrefersLarger | backend/app/features/structure.py:407-414 | every bin the area grew by was no smaller than its rival on the other side when it was taken |
| ValueAreas.ValueArea | backend/app/features/structure.py:401-414 | grows from the first fullest bin to a contiguous range holding at least 70% of the weight |
| FeatureStores.UpsertInParts | backend/app/features/store.py:151-169 | writing a batch in chunks is writing it at once |
| FeatureStores.BuildValues | backend/app/features/base.py:95-126 | exactly the present points past each feature's watermark, no key twice |
| FeatureStores.RunKeepsAgreement | backend/app/features/store.py:118-220 | an incremental run keeps every online feature equal to its newest offline row |
| FeatureStores.RunAddsUnstored | backend/app/features/base.py:95-126 | a run stores every present point later than all rows its feature had in the slot, keeps the rows there were, and adds no other |
| FeatureStores.RunPublishesNewest | backend/app/features/store.py:188-220 | the newest such point of a feature becomes its online entry, and every other entry stays |
| FeatureStores.EveryRunAgrees | backend/app/features/store.py:118-241 | so does any sequence of runs, expiries and refreshes |
| FeatureStores.RerunWritesNothing | backend/app/features/base.py:190-216 | rerunning a batch builds no values |
| FeatureStores.EntryCoversWrites | backend/app/features/store.py:188-241 | an online entry lists exactly the features written since it last expired |
| FeatureStores.ExpiredEntryStaysAway | backend/app/features/store.py:188-241 | a run in which a stored point, its entry expired, is processed again and stays missing online |
| FeatureStores.FeatureStore.WriteOffline | backend/app/features/store.py:124-169 | stores every value under its key, later ones over earlier ones, or nothing exactly if a chunk repeats a key |
| FeatureStores.FeatureStore.Write | backend/app/features/store.py:118-122 | both stores take the batch and both counts are reported, or neither does |
| FeatureStores.FeatureStore.GroupNewest | backend/app/features/store.py:197-202 | keeps per slot and feature the value of greatest time stamp, the later of equals |
| FeatureStores.FeatureStore.WriteOnline | backend/app/features/store.py:188-220 | merges the newest values into each slot's entry, keeping the other features, and counts the entries written |
| FeatureStores.FeatureStore.LatestTsMap | backend/app/features/store.py:376-402 | maps exactly the stored features of the slot to their greatest time stamp |
| FeatureStores.FeatureStore.ProcessSeries | backend/app/features/base.py:190-224 | an incremental run on the object stores exactly the unstored points, publishes the newest of them, and keeps agreement |
| FeatureStores.FeatureStore.ExpireSlot | backend/app/features/store.py:222-241 | losing an entry keeps agreement |
| Replay.WalkForward | backend/app/features/replay.py:33-58 | each snapshot answers the point-in-time query at its timestamp; each row is consumed at most once |
| Replay.ReplayMatrix | backend/app/features/replay.py:101-138 | one ordered query serves all snapshots of an unordered table |
| Replay.OneAnswerIff | backend/app/features/replay.py:65-98 | the query has one answer exactly if no two newest visible rows of a feature show different entries |
| Replay.ReplayIsUnique | backend/app/features/replay.py:65-98 | so with unique keys the query has one answer |
| Replay.TiedRowsHaveTwoAnswers | backend/app/features/replay.py:65-98 | two versions of one instant both qualify |
| Replay.LaterRowsAreInvisible | backend/app/features/replay.py:33-58 | rows after the instant change nothing |
| Replay.VisibleRowsDecide | backend/app/features/replay.py:65-98 | only the rows up to the instant matter, in whatever order |

## Left out

- Floating-point rounding, NaN and infinite inputs, and `round(...)` of displayed values: the model is over exact reals.
- CollectorRegistries.CollectorRegistry.ResolutionOrder: names stand for collectors; the enabled set and intervals are not part of this model.
- RecursiveElimination.RfeRanks: an empty target, on which the source divides by zero, is excluded.
- TailRisk.TailIsOrdered: is stated for any nonempty window of returns; the guard that the window is full and the Sharpe, Sortino, Calmar, skew and kurtosis formulas are not modelled.
- TickAggregators.TickCandleAggregator.IngestBatch: the roll-ups of symbols that share a minute are written one symbol after the other, not in one statement; the rows are the same. Restarts and ticks that go back in time are outside what `Settled` promises.
- LiveCandles.VolumesAddUp: accounts for volumes that never fall; after the overnight reset of the cumulative volume the rows still follow the ticks, but their sum is not stated.
- TickAggregators.CandleTable.StoreCandles: fetching, the resume point and the filter of future candles in the backfill collector are not modelled, and stored volumes are never null.
- FeatureStores.FeatureStore.WriteOnline: the cache never refuses a write; failed cache sets, concurrent engines on one key and full rewrites are outside the agreement claim, and time to live is an explicit expiry step.
- FeatureStores.FeatureStore.WriteOffline: window, quality score and collector version of a row are not modelled, nor is the Parquet archive.
- EventBuses.EventBus.PublishEvent: handlers are names and their outcomes are steps; logging, error texts and failure times are left out.
- CircuitBreakers.Collector.TakeLock: any waiting run may get the lock; that it is handed out first come, first served is not modelled. Cancellation and the market-hours gates are left out.
- MarketStructure.ComputeStructureDaily: the normalised companions of its series are not attached; the normalisation itself is `RollingZScore`.
- VWAP bands, opening range and initial balance of the session pass.
- The mutual information, permutation importance and SHAP scores of the feature selection: the scan takes scores and correlations as given.
- Jensen-Shannon distance, population shift and autocorrelation in the drift statistics.
- Cosine similarity and the outcome summary of analogs, and every score blend of the intelligence layer.
- SQL, Redis, Parquet, HTTP, websocket, Telegram and scheduler code: only the write rules and ordered reads above.
