# A verified model of harns' evaluation, rollup, scheduling and inheritance logic

harns collects time series from things, evaluates PromQL over them, rolls them up per minute, hour and day,
shares that work between consumers, and keeps denormalised indexes along type inheritance. This project models
the four parts of it whose correctness is not visible from any single function, and proves what they are for.

`dafny verify dfyconfig.toml` checks everything.

**PromQL evaluation** (`pkg/promql`). `PromExpr` has the syntax tree and its two rewrites, `PromEval` two readings of a
tree: what it means at one timestamp, and the range evaluator that works on whole ranges. `StepInvariance`, `Rewriting`
and `RewritingSuccess` relate the two: evaluating the rewritten tree gives at every step the value of the written
expression, never trips the evaluator's panic, and succeeds exactly when every step and every subquery evaluation does
and no metric names are merged across steps; `NegationExample` is a query that fails for the last reason.
`InstantSelector`, `SampleRing` and `MatrixWindow` are the imperative inner loops for instant and range selectors,
`RangeEval` the per-step driver, and `LoopAgreement` shows that these loops compute what the evaluator's definition
says. `SubquerySteps`, `AtModifier` and `RangeFunctions` say at which times subqueries, selectors and calls are evaluated
and what they see, `SubqueryAt` what `@` comes to inside a subquery.
`HashJoin` is vector matching and `JoinMeaning` what comes out of it, `QueryRange` the time range that is fetched and
`FetchedEdges` why it is not wider than needed,
`HistogramQuantile` and `RateExtrapolation` the two numeric functions with the most cases.

**Rollups** (`pkg/consumer/data`). `BoolRollup` and `NumericRollup`: rolling up block summaries equals summarising the
raw samples, through one or two levels.

**Consumer registry and job queue** (`pkg/consumer/instance`, `pkg/consumer/job`). `Registry` has the allocation of IDs
and its safety over every run, `RegistryRounds` what rounds of calls reach, `RegistryRuns` a run that loses an ID;
`JobCodec` and `JobQueue`.

**Inheritance** (`pkg/model/thing`, `pkg/event/event`). `TypeIndex`, `ThingForest`, `EventTypes`, with `Collections` for the
list comparison they share. `Common` and `IntMath` hold what several parts need.

Conventions. Times are whole milliseconds (nanoseconds in `JobQueue`), values are real numbers, label sets are values
whose hash is injective. A shared pointer that is updated in place is a numbered cell. Each request is one atomic step.
`rank` parameters and fields are ghost: they witness that parent links have no cycle.

## What the code does not do

Each of these is proved, with the exact condition and a concrete case where it helps.

- The ID allocation loop restarts from 1 when it runs out of free IDs and may hand out the same ID twice to one
  consumer: exactly when it is asked for at least two more IDs than are free and the largest free one is neither 0 nor
  the last (`Registry.GrownDistinctIff`). Nine calls by three consumers, none with a lock, reach this
  (`RegistryRuns.DuplicateIsReachable`), and from there one ID is held by nobody for as long as nobody joins or expires
  (`RegistryRuns.NineIsLost`). It takes a consumer that asks for more before another has given back: when those above
  their share call first, all IDs end up partitioned (`RegistryRounds.CallsPartition`).
- A consumer is expired by its own call exactly when collating takes 20 heartbeats or longer
  (`Registry.CallKeepsUnshared`).
- Rolling up booleans with the window length in place of the block length, as the on-the-fly query does, does not
  conserve time (`BoolRollup.RollupConservesIff`).
- A job that is asked for again after its eviction from the cache is written twice (`JobQueue.DeduplicatesIff`,
  `JobQueue.LateRequestExists`); this takes a writer whose clock lags behind the one that evicts (`JobQueue.MonotoneIsNotLate`).
- Pushing a type edit down to derived types does not recognise overrides when a name is deleted, or when the definer
  is two or more levels below (`TypeIndex.PropagationExact`, `TypeIndex.DeletionForgetsOverride`,
  `TypeIndex.InsertionHidesOverride`), although the comment at `pkg/model/thing/manager.go:699` says that propagation
  ceases there.
- The manager lets a thing become its own parent; only request validation refuses it (`ThingForest.Manager.UpdateThing`).
- After a restart with stored custom types the base event type expects two more fields than any event can supply, so
  every plain base event is refused (`EventTypes.Manager.Reload`, `EventTypes.CountDecides`).
- Matching on the metric name can give results with equal labels: exactly when the comparison is one with `bool`, or
  the operator drops the name and the name is not included from the other side (`HashJoin.ResultsDistinctIff`,
  `HashJoin.DroppedNameCollides`).
- A parsed expression that is reused with another range keeps the `@ start()` and `@ end()` of its first use
  (`PromExpr.ReusedTreeIsStale`): it agrees with a fresh one exactly when the ranges have the same start, or the tree
  has no `@ start()`, and the same for the end (`PromExpr.PreprocessIdempotent`).
- A selector with `@` inside a subquery with an offset is read at a wrong time when the subquery's evaluation happens to
  start at the query's own start, as with a window shorter than the step: its offset is then not set again
  (`SubqueryAt.ReadsRightIff`, `SubqueryAt.WrongTimeExists`).
- Negation and range functions drop metric names from whole series, so two series that never meet at a step can still
  fail the query (`RewritingSuccess.RewritingSucceedsIff`, `NegationExample.NegationFailsAcrossSteps`).

## Model

| member | source | states |
|---|---|---|
| `PromExpr.PreprocessHelperStable` | pkg/promql/engine.go:2438-2522 | a tree the helper declines to wrap is a fixed point of it, for every later range |
| `PromExpr.HelpedSameIff` | pkg/promql/engine.go:2438-2522 | two ranges give the same tree exactly when they agree on the start if `@ start()` occurs in it, and on the end if `@ end()` does |
| `PromExpr.PreprocessIdempotent` | pkg/promql/engine.go:2426-2432 | preprocessing twice is preprocessing once; a reused tree agrees with a fresh one exactly when both ranges agree on the marks in the written tree |
| `PromExpr.ReusedTreeIsStale` | pkg/promql/engine.go:2440-2446 | a concrete selector that keeps the start of its first query |
| `PromEval.RangeEvalPointwise` | pkg/promql/engine.go:1102-1127 | combining one result per step into series loses and adds nothing at any step |
| `StepInvariance.SteadyMeaning` | pkg/promql/engine.go:2438-2522 | whatever the helper may wrap has the same value at all timestamps |
| `StepInvariance.SingleSample` | pkg/promql/engine.go:1580-1583 | the "unexpected number of samples" check cannot fail |
| `StepInvariance.SubqueryWindows` | pkg/promql/engine.go:1511-1546 | one subquery evaluation over the union of all windows contains, for each step, exactly the range vector of a separate evaluation |
| `SubquerySteps.SubqueryReads` | pkg/promql/engine.go:1511-1546 | a subquery has its body's value at every multiple of its step inside the window, and nothing at other times; the step is the written one, or the default one if none is written |
| `SubquerySteps.ConstantSubquery` | pkg/promql/engine.go:1524-1528 | a constant is there exactly at those times |
| `SubquerySteps.DefaultStepUnused` | pkg/promql/engine.go:1524-1528 | where every subquery has a written step, engines that differ only in the default step evaluate alike |
| `RangeFunctions.RangeFunctionMeans` | pkg/promql/engine.go:1271-1360 | a function of a range selector sees of each series the non-stale samples from its range before the reading time to that time, and gives its value under the series' labels, without the name except for `last_over_time`; it fails exactly when two series then have the same labels |
| `RangeFunctions.SubqueryFunctionMeans` | pkg/promql/engine.go:1511-1546 | the same for a function of a subquery, which sees the body's values at the multiples of the step |
| `StepInvariance.EvalFaithful` | pkg/promql/engine.go:1163-1599 | a successful evaluation of a prepared tree is, at every step, its meaning at that step, and never panics |
| `Rewriting.RewriteShape` | pkg/promql/engine.go:2438-2567 | the two rewrites together produce prepared trees: offsets set, `@` below wrappers, wrapped parts steady |
| `Rewriting.RewriteMeaning` | pkg/promql/engine.go:2438-2567 | the rewritten tree means what the written one means, at every timestamp |
| `Rewriting.RewritingPreservesMeaning` | pkg/promql/engine.go:2426-2567 | evaluating the rewritten query gives at every step the value of the written expression, where `@` reads at its fixed time; no panic |
| `AtModifier.SelectorIsReadAt` | pkg/promql/engine.go:2440-2446 | a selector is read at the query's start with `@ start()`, at its end with `@ end()`, at the time given with `@`, and otherwise at each step, less its offset |
| `AtModifier.WrappedCalls` | pkg/promql/functions.go:985-993 | a call of constants is made once, unless it is one of the ten functions that depend on the evaluation time |
| `AtModifier.TimeOfEachStep` | pkg/promql/functions.go:985-993 | `time()` over a range is the time of each step |
| `SubqueryAt.EnterTime` | pkg/promql/engine.go:661-685 | going into a subquery moves the reading time by its offset, or to its `@` time less its offset |
| `SubqueryAt.OffsetReads` | pkg/promql/engine.go:2536-2550 | seen from the time a subquery reads at, the offset set makes a selector inside read at its own `@` time less its offset |
| `SubqueryAt.ReadsInside` | pkg/promql/engine.go:1530-1545 | the time at which a selector with `@` inside a subquery is read in fact |
| `SubqueryAt.ReadsRightIff` | pkg/promql/engine.go:1537-1542 | it is the right one, whatever is stored, exactly when the subquery's evaluation does not start at the query's start or the subquery has no offset |
| `SubqueryAt.WrongTimeExists` | pkg/promql/engine.go:1537-1542 | a query for which it is not |
| `RewritingSuccess.EvalSucceedsIff` | pkg/promql/engine.go:1163-1599 | a prepared tree evaluates successfully exactly when all steps do, its subqueries do at every time they are evaluated at (their wrapped parts even without one), and no negation or range function merges series |
| `RewritingSuccess.RewritingSucceedsIff` | pkg/promql/engine.go:2426-2567 | the same for a written query; unless a subquery has no time to be evaluated at, when its wrapped parts still are, the condition is one on the written expression |
| `NegationExample.NegationFailsAcrossSteps` | pkg/promql/engine.go:1404-1418 | a storage with two metrics that never meet at a step: their negation has a value at each step, and the range query fails |
| `SampleRing.SeekFrom` | pkg/promql/value.go:278-291 | forward search for the first sample late enough, resting on the last one otherwise |
| `InstantSelector.MemoizedIterator.Next` | pkg/promql/storage/memoized_iterator.go:99-113 | remembers the sample it leaves |
| `InstantSelector.MemoizedIterator.Seek` | pkg/promql/storage/memoized_iterator.go:71-96 | rests at the first sample at or after the time, and remembers the one before it whenever that one is within the delta |
| `InstantSelector.VectorSelectorSingle` | pkg/promql/engine.go:1630-1656 | the value is that of the newest sample within the lookback window, unless stale |
| `InstantSelector.EvalSeries` | pkg/promql/engine.go:1468-1504 | the forward-only pass gives at every step what a fresh search gives; each point is counted, and the limit is hit exactly when there are too many |
| `InstantSelector.ReadsLatest` | pkg/promql/engine.go:1630-1656 | the value read is the one the single-timestamp semantics assigns to the selector |
| `LoopAgreement.SelectAgrees` | pkg/promql/engine.go:1468-1504 | the column of one pass is the selector's column in the definition of evaluation |
| `SampleRing.TrimDropsPrefix` | pkg/promql/storage/buffer.go:232-238 | trimming removes a prefix of old samples and nothing else |
| `SampleRing.Ring.Add` | pkg/promql/storage/buffer.go:208-239 | the ring, growing as needed, holds the old contents plus the sample, without what fell out of the delta |
| `SampleRing.Ring.ReduceDelta` | pkg/promql/storage/buffer.go:243-264 | a lower delta drops exactly the samples outside of it |
| `MatrixWindow.SelectIs` | pkg/promql/engine.go:1719-1773 | a window selects exactly the non-stale samples between its edges, in order |
| `MatrixWindow.SelectSplit` | pkg/promql/engine.go:1719-1773 | a window splits at any time into two disjoint windows |
| `MatrixWindow.BufferedIterator.Next` | pkg/promql/storage/buffer.go:108-122 | buffers the sample it leaves and drops what is too old |
| `MatrixWindow.BufferedIterator.Seek` | pkg/promql/storage/buffer.go:80-105 | no sample within delta of the sought time is lost, whether the buffer was kept or dropped |
| `MatrixWindow.BufferedIterator.ReduceDelta` | pkg/promql/storage/buffer.go:63-65 | the same promise for the lower delta |
| `MatrixWindow.Evaluator.Retain` | pkg/promql/engine.go:1719-1737 | of the previous window exactly the points still inside are kept, and the sample count follows |
| `MatrixWindow.Evaluator.MatrixIterSlice` | pkg/promql/engine.go:1719-1773 | retained plus appended points are a fresh selection of the window |
| `MatrixWindow.Step` | pkg/promql/engine.go:1319-1338 | one step ends with the window of that step and counts the change in its length |
| `MatrixWindow.EvalSeries` | pkg/promql/engine.go:1296-1355 | at every step the function sees a fresh selection, although the buffer is reduced after the first; the limit strikes exactly when a step adds points to a window that does not fit, or the results do not fit beside the last window |
| `LoopAgreement.SelectSlices` | pkg/promql/engine.go:1719-1773 | selecting samples is cutting the window out of the series |
| `LoopAgreement.WindowAgrees` | pkg/promql/engine.go:1296-1355 | the column of one buffered pass is the range function's column in the definition of evaluation |
| `IntMath.AlignedStartLeast` | pkg/promql/engine.go:1530-1535 | truncating division still finds the least multiple of the step not before the window start |
| `QueryRange.SubqueryTimes` | pkg/promql/engine.go:661-685 | offsets and ranges summed along a path, started afresh at `@` |
| `QueryRange.FindMinMaxTime` | pkg/promql/engine.go:687-753 | the least start and the greatest end over all selectors, zero without any |
| `QueryRange.WalkIsSpans` | pkg/promql/engine.go:692-710 | the range handed over through the walk's state reaches the right selector |
| `QueryRange.EvalLocal` | pkg/promql/engine.go:1511-1546 | evaluation between two times reads nothing outside the covered range, which `@` fixes |
| `QueryRange.RewriteFormed` | pkg/promql/engine.go:2438-2567 | the rewrites never put a wrapper between a range function and its range, and wrap every `@` |
| `QueryRange.FetchedRangeSuffices` | pkg/promql/engine.go:657-753 | a prepared query, with `@` or without, gives the same result on any two storages that agree on the fetched range |
| `FetchedEdges.SelectorSpan` | pkg/promql/engine.go:720-753 | what a plain selector needs, in numbers |
| `FetchedEdges.SubquerySpan` | pkg/promql/engine.go:720-753 | and one in a subquery |
| `FetchedEdges.NestedSpan` | pkg/promql/engine.go:661-685 | offsets and ranges of nested subqueries add up |
| `FetchedEdges.EdgesAreRead` | pkg/promql/engine.go:720-753 | a sample at the start of the fetched range changes the first step of an instant selector, one at its end the last |
| `FetchedEdges.MatrixEdgesAreRead` | pkg/promql/engine.go:720-753 | and so for a range selector under a function that has a value for every window |
| `RangeEval.HeadIsEnough` | pkg/promql/engine.go:1050-1069 | looking at the head of a series tells whether it has a point at the step |
| `RangeEval.Gather` | pkg/promql/engine.go:1050-1069 | one input vector is exactly the points at the step; the limit is hit exactly when they do not fit |
| `RangeEval.GatherAll` | pkg/promql/engine.go:1042-1071 | the same for all inputs of a step |
| `RangeEval.ContainsSameLabelset` | pkg/promql/value.go:133-143 | true exactly when two samples have the same labels |
| `RangeEval.Append` | pkg/promql/engine.go:1102-1115 | each sample extends the series of its label set and no other |
| `RangeEval.CountSamples` | pkg/promql/value.go:161-167 | the number of points of all series |
| `RangeEval.Evaluate` | pkg/promql/engine.go:976-1132 | results, errors and sample count are those of calling the function at each step on the points of that step |
| `RangeEval.ColumnShape` | pkg/promql/engine.go:1102-1115 | output series have strictly increasing timestamps on the grid |
| `RangeEval.ColumnMeaning` | pkg/promql/engine.go:1102-1115 | a series has a point at a step exactly when the call there returned its label set, with that value |
| `LoopAgreement.InputAgrees` | pkg/promql/engine.go:1050-1069 | the input vector of a step is what the definition of evaluation reads from the matrix |
| `LoopAgreement.EvaluateAgrees` | pkg/promql/engine.go:976-1132 | the matrix returned, by the shortcut for one step as well, is the definition's combination of the calls' results |
| `HashJoin.HashOne` | pkg/promql/engine.go:1861-1878 | fails exactly when two samples of the one side share a signature |
| `HashJoin.RowIsProbe` | pkg/promql/engine.go:1893-1899 | with unique signatures a scan of the one side is a single hash lookup |
| `HashJoin.Probe` | pkg/promql/engine.go:1890-1945 | keeps the matching pairs in order; fails exactly when a signature, or a grouped result, repeats |
| `HashJoin.VectorBinop` | pkg/promql/engine.go:1838-1947 | equals the nested-loop join, errors included |
| `JoinMeaning.MatchesIff` | pkg/promql/engine.go:1949-1959 | two samples match exactly when they agree on the listed labels, or on all but the listed ones and the name |
| `JoinMeaning.BinopMeans` | pkg/promql/engine.go:1890-1947 | a normal result has one sample for each kept pair, in the order of the many side: the operator applied in the written order of operands, or 1 and 0 with `bool`, and the labels of the many side with the included ones of the other side and without the dropped ones |
| `JoinMeaning.BinopFails` | pkg/promql/engine.go:1861-1941 | which repeats give which error, said of the samples |
| `HashJoin.OneToManyIsSwapped` | pkg/promql/engine.go:1847-1849 | one-to-many is many-to-one with sides and operands exchanged |
| `HashJoin.ResultCarriesSignature` | pkg/promql/engine.go:1963-2017 | result labels still contain the labels that were matched, unless that is a name that is dropped and not included |
| `HashJoin.ResultsDistinct` | pkg/promql/engine.go:1917-1941 | a normal result then never repeats a label set, although only equal signatures are compared |
| `HashJoin.DroppedNameCollides` | pkg/promql/engine.go:1986-1988 | otherwise two samples with different names on either side give two results with the same labels |
| `HashJoin.ResultsDistinctIff` | pkg/promql/engine.go:1838-1947 | so all inputs give distinct label sets exactly when the match is not on a dropped name |
| `HistogramQuantile.SortBuckets` | pkg/promql/quantile.go:80 | sorted by bound, a permutation |
| `HistogramQuantile.CoalesceBuckets` | pkg/promql/quantile.go:120-134 | in-place merging equals merging one bucket after the other |
| `HistogramQuantile.CoalescedTotals` | pkg/promql/quantile.go:120-134 | the total of every bound and the set of bounds are kept |
| `HistogramQuantile.CoalescedAscends` | pkg/promql/quantile.go:120-134 | bounds strictly increase afterwards |
| `HistogramQuantile.EnsureMonotonic` | pkg/promql/quantile.go:169-179 | the in-place loop computes the running maximum |
| `HistogramQuantile.EnvelopeIsLeast` | pkg/promql/quantile.go:169-179 | that is the least non-decreasing sequence above the counts |
| `HistogramQuantile.Search` | pkg/promql/quantile.go:96 | binary search finds the first bucket whose count reaches the rank |
| `HistogramQuantile.BucketQuantile` | pkg/promql/quantile.go:73-115 | all special values, and otherwise the quantile of the prepared buckets, read at q times the total |
| `HistogramQuantile.PreparedUnique` | pkg/promql/quantile.go:80-86 | the order in which buckets arrive does not matter |
| `HistogramQuantile.PreparedMeaning` | pkg/promql/quantile.go:80-86 | prepared buckets have exactly the given bounds and the least non-decreasing counts above their totals |
| `HistogramQuantile.PreparedProper` | pkg/promql/quantile.go:80-95 | which inputs give a quantile that is a number |
| `HistogramQuantile.QuantilePlaced` | pkg/promql/quantile.go:96-114 | for 0 < q <= 1 the result lies within the first bucket that reaches q times the total, or is the boundary it falls back to |
| `HistogramQuantile.QuantileValue` | pkg/promql/quantile.go:95-114 | and divides that bucket as q times the total divides its count; above all finite buckets it is the highest finite bound |
| `HistogramQuantile.QuantileMonotone` | pkg/promql/quantile.go:73-115 | the result never decreases as q grows |
| `HistogramQuantile.QuantileAtZero` | pkg/promql/quantile.go:99-114 | at q = 0 it is undefined exactly for an empty lowest bucket above zero |
| `RateExtrapolation.RawChange` | pkg/promql/functions.go:75-84 | the difference plus the values lost at resets is the sum of the reset-adjusted steps |
| `RateExtrapolation.StepsNonNegative` | pkg/promql/functions.go:75-84 | a non-negative counter never counts backwards |
| `RateExtrapolation.StepsWithoutReset` | pkg/promql/functions.go:75-84 | without resets it is the plain difference |
| `RateExtrapolation.StepsSplit` | pkg/promql/functions.go:75-84 | counting splits at any sample |
| `RateExtrapolation.ExtrapolatedRate` | pkg/promql/functions.go:59-131 | change grown to the extrapolated interval, per second for a rate, nothing below two samples |
| `RateExtrapolation.GrowsWithInterval` | pkg/promql/functions.go:86-125 | in milliseconds: the change grows in proportion from the time sampled to that and what each edge adds, which is the whole gap if that is below 1.1 average spacings and half a spacing otherwise; a rising counter goes back at most to zero |
| `RateExtrapolation.RateIsPerSecond` | pkg/promql/functions.go:126-129 | rate times range is increase times 1000 |
| `RateExtrapolation.ExactOnLines` | pkg/promql/functions.go:59-131 | on samples of a straight line that come close to both edges the rate is the slope per second and the increase the slope times the window |
| `RateExtrapolation.IntervalBounds` | pkg/promql/functions.go:86-124 | the extrapolated interval lies between the sampled interval and the window |
| `RateExtrapolation.NeverBelowZero` | pkg/promql/functions.go:92-106 | extending a rising counter backwards never takes it below zero |
| `RateExtrapolation.IncreaseBounds` | pkg/promql/functions.go:59-131 | the increase is at least what was counted and at most that stretched over the window |
| `BoolRollup.CountIs` | pkg/consumer/data/rollup.go:286-355 | the counts are the numbers of readings with either value, and add up to all of them |
| `BoolRollup.HeldConserves` | pkg/consumer/data/rollup.go:286-355 | true and false durations add up to the window |
| `BoolRollup.HeldNonNegative` | pkg/consumer/data/rollup.go:286-355 | and neither is negative |
| `BoolRollup.AggregateBool` | pkg/consumer/data/rollup.go:286-355 | one pass computes counts, first and last times, last value and durations |
| `BoolRollup.RollupBool` | pkg/consumer/data/rollup.go:424-526 | one pass over stored summaries, with gaps between them settled |
| `BoolRollup.RollupIsExact` | pkg/consumer/data/rollup.go:424-526 | rolling up the non-empty blocks equals aggregating all readings of the window |
| `BoolRollup.TwoLevelsExact` | pkg/consumer/data/rollup.go:20-65 | minutes into hours into a day gives the same |
| `BoolRollup.RollupConserves` | pkg/consumer/data/rollup.go:424-526 | how far the durations of a rollup are from the window, for any block length passed |
| `BoolRollup.RollupConservesIff` | pkg/consumer/data/rollup.go:168-212 | they add up exactly when the length passed is the block length |
| `NumericRollup.MinAtIs` | pkg/consumer/data/rollup.go:240-262 | the minimum at its earliest time |
| `NumericRollup.MaxAtIs` | pkg/consumer/data/rollup.go:240-262 | the maximum at its earliest time |
| `NumericRollup.Spread` | pkg/consumer/data/rollup.go:276-281 | distances from any point are the spread around the mean plus the distance of the mean |
| `NumericRollup.AggregateNumeric` | pkg/consumer/data/rollup.go:233-284 | one pass computes first, last, extremes, sum, count, average and variance |
| `NumericRollup.RollupNumeric` | pkg/consumer/data/rollup.go:357-422 | pools stored summaries |
| `NumericRollup.RollupIsExact` | pkg/consumer/data/rollup.go:357-422 | pooling block summaries equals summarising all samples, variance included |
| `NumericRollup.TwoLevelsExact` | pkg/consumer/data/rollup.go:20-65 | and so do two levels |
| `Registry.Collate` | pkg/consumer/instance/registry.go:76-91 | compacts the list in place to the living consumers, in order |
| `Registry.LivingMembers` | pkg/consumer/instance/registry.go:76-91 | exactly the consumers whose beat is fresh |
| `Registry.Shrink` | pkg/consumer/instance/registry.go:99-105 | the result is what lies before the last positions given back, followed by exactly the IDs at locked positions among them |
| `Registry.ShrunkDistinct` | pkg/consumer/instance/registry.go:99-105 | releasing introduces no duplicate |
| `Registry.NextClear` | pkg/consumer/instance/registry.go:115 | the first free ID, or none |
| `Registry.MarkUsed` | pkg/consumer/instance/registry.go:107-112 | the IDs any living consumer holds |
| `Registry.Grow` | pkg/consumer/instance/registry.go:113-119 | what the taking loop appends |
| `Registry.GrownAreFree` | pkg/consumer/instance/registry.go:113-119 | only free IDs below the maximum are taken |
| `Registry.GrownIsPrefix` | pkg/consumer/instance/registry.go:113-119 | while enough are free, exactly the smallest |
| `Registry.GrownDistinctIff` | pkg/consumer/instance/registry.go:113-119 | they are distinct exactly outside the stated condition |
| `Registry.ShareValue` | pkg/consumer/instance/registry.go:96 | shares differ by at most one |
| `Registry.SharesAddUp` | pkg/consumer/instance/registry.go:96 | and add up to the maximum, for every number of consumers |
| `Registry.Row.AllocateIDs` | pkg/consumer/instance/registry.go:47-74 | the stored row after a call, and the IDs returned |
| `Registry.CallKeepsUnshared` | pkg/consumer/instance/registry.go:47-121 | a call keeps IDs apart and below the maximum; the caller survives exactly when its own beat is still fresh |
| `Registry.NeverShared` | pkg/consumer/instance/registry.go:47-121 | in every run, from any row in which IDs are apart, no ID is held by two consumers |
| `RegistryRounds.CallServes` | pkg/consumer/instance/registry.go:47-74 | a call in which nobody expires changes only the caller's entry |
| `RegistryRounds.GrowsToShare` | pkg/consumer/instance/registry.go:107-120 | when nobody is above its share, a caller is brought to exactly its share, without duplicates |
| `RegistryRounds.ShrinksToShare` | pkg/consumer/instance/registry.go:97-106 | a caller above its share keeps exactly its first IDs, if those above are not locked |
| `RegistryRounds.RoundUnderway` | pkg/consumer/instance/registry.go:93-121 | during an orderly round, those who have called are at their share, nobody holds an ID twice, and the others are unchanged |
| `RegistryRounds.RoundPartitions` | pkg/consumer/instance/registry.go:93-121 | from any row without repeated IDs, just after a join too, a round in which those above their share go first leaves every ID with exactly one consumer |
| `RegistryRounds.PartitionedIff` | pkg/consumer/instance/registry.go:93-121 | when everybody is at its share, all IDs are held exactly when nobody holds one twice |
| `RegistryRounds.QuietRunIsRound` | pkg/consumer/instance/registry.go:47-121 | a run of calls in which nobody joins or expires is a round |
| `RegistryRounds.CallsPartition` | pkg/consumer/instance/registry.go:47-121 | so such a run in which those above their share call first ends in a partition of all IDs |
| `RegistryRounds.SharesAreFinal` | pkg/consumer/instance/registry.go:47-121 | and once everybody is at its share, such calls change no IDs |
| `RegistryRuns.DuplicateIsReachable` | pkg/consumer/instance/registry.go:47-121 | nine calls without locks after which one consumer holds an ID twice and nobody holds the last one |
| `RegistryRuns.NineIsLost` | pkg/consumer/instance/registry.go:47-121 | no later call changes that while nobody joins or expires |
| `JobCodec.OperationRoundTrip` | pkg/consumer/job/constants.go:38-58 | operation codes are restored |
| `JobCodec.PrintedWidth` | pkg/consumer/job/job.go:56-59 | an index is ten characters wide exactly when it fits |
| `JobCodec.PrintedParses` | pkg/consumer/job/job.go:56-79 | every 64-bit index is restored from its print, and every other print is refused |
| `JobCodec.BlockRoundTrip` | pkg/consumer/job/job.go:56-79 | time blocks are restored for every 64-bit index |
| `JobCodec.JobRoundTrip` | pkg/consumer/job/job.go:128-149 | a job is restored, whatever its key, exactly when its index fits; otherwise it is refused for its unit |
| `JobCodec.AcceptedReprints` | pkg/consumer/job/job.go:128-149 | an accepted text is the text of its job, unless the index has a plus sign or is a negative zero |
| `JobCodec.JobRefused` | pkg/consumer/job/job.go:128-149 | which texts are refused for their operation, index or unit, and which make the decoder panic |
| `JobCodec.CacheKeyInjective` | pkg/consumer/job/manager.go:95 | block text plus key determines both, for all indexes |
| `JobQueue.BlockStarts` | pkg/consumer/job/job.go:17-38 | a block starts at the one local boundary before its data |
| `JobQueue.ProcTimeCloses` | pkg/consumer/job/job.go:171-212 | a rollup is due when the block containing now closes |
| `JobQueue.DueAfterBlock` | pkg/consumer/job/job.go:171-212 | after now, at most one block later; not before its own block closes exactly when that block is not later than now's |
| `JobQueue.RollupRow` | pkg/consumer/job/job.go:151-245 | in numbers: the row of a rollup is due a minute, hour or day after the start of that of now, plus 1, 12 or 24 delays, and names the block its data starts in |
| `JobQueue.DeleteRow` | pkg/consumer/job/job.go:247-285 | a deletion is due at once and leaves the cache alone |
| `JobQueue.Manager.WriteJob` | pkg/consumer/job/manager.go:90-120 | the cache and the rows after a write |
| `JobQueue.Manager.MaintainCache` | pkg/consumer/job/manager.go:184-203 | drops exactly the passed process times |
| `JobQueue.Manager.Handle` | pkg/consumer/job/manager.go:134-203 | every request is one step |
| `JobQueue.CacheRemembers` | pkg/consumer/job/manager.go:90-120 | the cache holds exactly the jobs asked for and not evicted since |
| `JobQueue.DeduplicatesIff` | pkg/consumer/job/manager.go:90-120 | the rows are those of a perfect memory exactly when no job is asked for after its eviction |
| `JobQueue.LateWritesTwice` | pkg/consumer/job/manager.go:90-120 | every job that is asked for, evicted and asked for again has two rows |
| `JobQueue.LateRequestExists` | pkg/consumer/job/manager.go:184-203 | a minute job for which this happens |
| `JobQueue.MonotoneIsNotLate` | pkg/consumer/job/manager.go:184-203 | a clock that never goes back rules that out |
| `JobQueue.WritesFirstRows` | pkg/consumer/job/manager.go:90-120 | so with such a clock the queue writes each job when first asked for |
| `JobQueue.ExactlyOnce` | pkg/consumer/job/manager.go:90-120 | each rollup job asked for is written once, and no other |
| `JobQueue.NeverEarly` | pkg/consumer/job/job.go:158-212 | its time is after now and, for data not in the future, not before its block closes |
| `Collections.DifferenceAndIntersection` | pkg/generic/utils.go:49-131 | three lists without duplicates: names of the first only, of both, of the second only |
| `TypeIndex.WalkChain` | pkg/model/thing/manager.go:1098-1121 | the first definition up the chain wins, for every name |
| `TypeIndex.Inherit` | pkg/model/thing/manager.go:1098-1121 | a new thing's index maps each name to its nearest definition |
| `TypeIndex.ExplodeThingType` | pkg/model/thing/manager.go:580-622 | an exploded type has the same definitions |
| `TypeIndex.UpdateInstantiatedThings` | pkg/model/thing/manager.go:730-751 | the things of one type lose the deleted names and get the root's new ones |
| `TypeIndex.ServeItem` | pkg/model/thing/manager.go:695-722 | one derived type: overridden names are dropped, its things updated, its children queued |
| `TypeIndex.UpdateDerivedChainThings` | pkg/model/thing/manager.go:679-728 | every derived type is served, with exactly the names not stopped above it; the loop ends |
| `TypeIndex.PropagationExact` | pkg/model/thing/manager.go:679-751 | after an edit a name is indexed right for a type exactly when the edit is harmless for it |
| `TypeIndex.EditExact` | pkg/model/thing/manager.go:462-520 | all indexes equal a recomputation exactly when the edit is harmless for all |
| `TypeIndex.NoConflictIsHarmless` | pkg/model/thing/manager.go:679-751 | inserted names not defined two or more levels below, deleted names not defined above or below: always right |
| `TypeIndex.DeletionForgetsOverride` | pkg/model/thing/manager.go:699-704 | a child's own definition is forgotten when its parent's is deleted |
| `TypeIndex.InsertionHidesOverride` | pkg/model/thing/manager.go:699-704 | a grandchild's definition is hidden by an inserted one |
| `TypeIndex.Manager.CreateThingType` | pkg/model/thing/manager.go:176-248 | types keep live parents and no cycle; indexes stay right |
| `TypeIndex.Manager.DeleteThingType` | pkg/model/thing/manager.go:522-548 | only leaves go; forest and indexes stay right |
| `TypeIndex.Manager.CreateThing` | pkg/model/thing/manager.go:770-836 | only for live, instantiable types, with the right index |
| `TypeIndex.Manager.UpdateThingType` | pkg/model/thing/manager.go:462-520 | the type after an edit, the propagated indexes, and when they are right |
| `ThingForest.IsMyChildThing` | pkg/model/thing/manager.go:1123-1137 | true exactly for proper descendants; the search ends |
| `ThingForest.MoveKeepsForestIff` | pkg/model/thing/manager.go:956-969 | placing a thing under another keeps the forest exactly when that is neither itself nor below it |
| `ThingForest.Manager.CreateThing` | pkg/model/thing/manager.go:770-836 | a new thing keeps the forest |
| `ThingForest.Manager.DeleteThing` | pkg/model/thing/manager.go:886-911 | and so does removing one |
| `ThingForest.Manager.Orphan` | pkg/model/thing/manager.go:912-924 | and telling its children |
| `ThingForest.Manager.UpdateThing` | pkg/model/thing/manager.go:956-969 | which parents are refused; the forest stays unless the parent is the thing itself, and is lost then |
| `ThingForest.Manager.RestUpdateThing` | pkg/model/validation/validation.go:267-273 | with request validation the forest always stays |
| `EventTypes.GenerateInheritanceChain` | pkg/event/event/manager.go:415-430 | the ancestors, topmost first |
| `EventTypes.BuildIndex` | pkg/event/event/manager.go:188-215 | the index holds exactly the visible fields and the count is that of the required ones |
| `EventTypes.DeleteFields` | pkg/event/event/manager.go:1050-1068 | removes the named fields from list and index and keeps the count right |
| `EventTypes.UpdateFields` | pkg/event/event/manager.go:305-316 | sets each shared record to what the last specification for its name says, and keeps the count right |
| `EventTypes.InsertFields` | pkg/event/event/manager.go:318-325 | adds fields with new records, as the last specification for each name says, and keeps the count right |
| `EventTypes.ReindexChild` | pkg/event/event/manager.go:523-546 | a descendant takes over inserted names, forgets deleted ones and is counted afresh |
| `EventTypes.DescendantTypes` | pkg/event/event/manager.go:513-521 | the growing list ends with exactly the descendants, each once |
| `EventTypes.IsFieldExists` | pkg/event/event/manager.go:1070-1079 | true exactly when one of the types lists the name |
| `EventTypes.EditFields` | pkg/event/event/manager.go:249-325 | fields that stay keep their records, all end up as the last specification for their name says, no other record changes |
| `EventTypes.EditGood` | pkg/event/event/manager.go:249-333 | an edit keeps all indexes and counts right, in every type |
| `EventTypes.CreateEvent` | pkg/event/event/manager.go:639-656 | the test compares the count with the required fields supplied |
| `EventTypes.CountDecides` | pkg/event/event/manager.go:639-668 | an event of a custom type passes exactly when it supplies every required field |
| `EventTypes.RequiredIsVisible` | pkg/event/event/manager.go:188-215 | which are the required fields listed anywhere on its chain |
| `EventTypes.RequiredAsSpecified` | pkg/event/event/manager.go:188-215 | what is required of an event is what the specifications of its type ask for and what is required of its parent's events |
| `EventTypes.DemandedDistinct` | pkg/event/event/manager.go:188-203 | with distinct names that is every name specified as required |
| `EventTypes.RequiredOnChain` | pkg/event/event/manager.go:188-215 | so it is what the specifications along its chain ask for together |
| `EventTypes.ReloadGood` | pkg/event/event/manager.go:470-498 | rebuilding from the stored lists gives right indexes and counts |
| `EventTypes.Manager.CreateEventType` | pkg/event/event/manager.go:152-231 | when it is refused, what it adds, and that everything stays right and as specified |
| `EventTypes.Manager.UpdateEventType` | pkg/event/event/manager.go:249-333 | when it is refused, what it changes, and that everything stays right and as specified |
| `EventTypes.Manager.DeleteEventType` | pkg/event/event/manager.go:335-370 | only custom leaves go, and everything stays right |
| `EventTypes.Manager.Reload` | pkg/event/event/manager.go:470-498 | everything stays right, except that the base type then counts two |
| `EventTypes.Manager.AcceptsEvent` | pkg/event/event/manager.go:627-668 | over every history, events are accepted exactly with all fields that the specifications last given for their type and its ancestors require |

## Left out

- QueryRange.FetchedRangeSuffices: excludes `@` inside subqueries, and in the range of a function that depends on the evaluation time.
- MatrixWindow.EvalSeries: covers one series; the loop over series only adds up its sample counts.
- NumericRollup.Spread: the stored standard deviation is the square root of the variance used here.
- TypeIndex.Manager.UpdateThingType: names are taken as trimmed; the comparison in `pkg/model/thing/manager.go:334-336` uses untrimmed ones.
- EventTypes.Manager.CreateEventType: validation refuses duplicate field names before the manager runs; the manager itself would count them twice.
- EventTypes.GenerateInheritanceChain: compares type names exactly, while the code ends a chain at names that equal a fundamental one up to case.
- PromQL: `timestamp()`, `absent_over_time`, range functions with further arguments, parametrised aggregations, set operators.
- Rewriting.RewritingPreservesMeaning: excludes `@` inside subqueries, for which the code does not keep the meaning (see above); `SubqueryAt` has the exact condition for one selector.
- PromQL: the tree is rewritten in place; the model returns a new tree, so sharing of subtrees is not captured, reuse of a whole tree is.
- PromQL: series helpers of `rangeEval`, point pools, byte-buffer memo tables for signatures and result labels, warnings, tracing.
- IEEE rounding, NaN arguments, infinities other than the open bucket bound, and hash collisions.
- 64-bit overflow of timestamps and counts.
- Version checks, descriptions and other metadata of types and things; the lists behind the name maps of thing types.
- Storage of rows, types and things, JSON, parsing of field values, and time zones with daylight saving.
- Interleavings inside one request: goroutines, channel hand-over to the persister, concurrent read-modify-write of the registry row.
- "A locked ID is never released" is not claimed: the releasing loop tests list positions, not IDs.
- The consumer hash of a job is a parameter; durations below a minute have no constructor and no claim.
- `pkg/exchange`, `pkg/repository`, `pkg/data`, notification, installation, agents, HTTP handlers and query text: I/O or simpler bookkeeping.
