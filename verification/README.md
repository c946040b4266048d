# Verification of ClickCannon's generators and block handling

This project models the parts of ClickCannon whose claims range over all sweeps, all series
and all interleavings, and proves those claims.

The synthetic-metrics engine keeps no state between sweeps. Every data point is a function of
the seed, the metric, the series and the sweep, and yet the stream has to look like a stateful
fleet: counters that only grow until they reset, restarts that are announced, churned resources
whose series are closed by one staleness marker, delta windows that tile time, an exact number
of distinct series, and workers that cover everything once. Around it stand pieces that do keep
state: request builders, the retrying flush, a lock-free resource cache, a rate window over a
ring buffer, a block pool, and an insert worker that swaps columns with pooled blocks.

## How the model is laid out

| file | what it models |
|---|---|
| words.dfy, mixing.dfy | 64-bit words, the mixer and the seeds derived with it |
| sweeps.dfy | churn generations, reset epochs, jittered timestamps |
| streams.dfy | windows, staleness markers, the stream of a series over a run |
| values.dfy, histograms.dfy | counters, counts, summaries, both histogram kinds |
| readings.dfy | what a reader of the wire can rely on, across all accumulating types |
| strictness.dfy | where cumulative values grow strictly, and where they never decrease |
| roundrobin.dfy | assignment of metric types |
| attributes.dfy, vocabulary.dfy | the attribute space and the strings it selects |
| coverage.dfy | which worker adds which point, and how many there are |
| draws.dfy | which draws are independent, and the ranges of what is drawn |
| grouping.dfy, builder.dfy | grouping of points into requests |
| wire.dfy | the points of one series on the wire, and next to each other |
| fingerprints.dfy, otlp.dfy | fingerprints of names and attribute sets, grouping of logs and spans |
| worker.dfy | the sweep loop, checkpoints, and the flush with bounded retry |
| fleet.dfy | what all workers send, series by series and in all |
| resources.dfy | the lock-free cache of two generations |
| window.dfy | the sliding window of the read-rate limiter |
| pool.dfy, insert.dfy | block ownership |
| ids.dfy | in-place mutation of identifiers |
| options.dfy | absent values |

Methods are proved against functions of their inputs, objects against the log of everything
that was done to them, and concurrent code as steps of a state machine whose interleavings are
sequences of actions. Mixers are arbitrary functions in all results except those of
mixing.dfy, `Builders.GroupsKeptApart`, `Builders.SplitMixersSeparate` and
`Builders.SeriesHaveOwnSeeds`, which are about splitmix64 itself. Floating
point is modelled by reals, exponentials and powers of ten by arbitrary functions with the few
bounds the argument needs. The exporter, the ClickHouse client, the clock, the rate limiter and
cancellation are adversaries: their answers are given as functions of what is asked, any
functions, and results say what follows from them.

Lemmas carry `{:induction false}` throughout, so that every induction is the one written down.

## Where the code and its comments disagree

The model follows the code.

- The comment on `epochStart` (internal/metricgen/values.go:103) allows negative results. There
  are none: `generationStart` is never negative and wins the comparison
  (`Sweeps.EpochStartIsLatestBoundary`).
- The package comment (internal/metricgen/values.go:5-9) calls cumulative series strictly
  monotonic within an epoch. Monotonic sums, histograms and summaries never decrease; they are
  strict, at all rates, exactly if they are sums with full precision or two or more decimals
  (`Strictness.GrowsIff`; `Strictness.StrictAtIff` has the condition on the rate, and
  `Strictness.StillSeriesStands` a series that stands still). Cumulative sums that are not
  monotonic carry gauge values and do decrease, unless they are idle
  (`Strictness.SumNeverDecreasesIff`).
- `MutateIDs` (internal/block/columns.go:29-32) is to make data of different loops
  distinguishable. Loops keep apart one identifier, up to 4096 of them, but different
  identifiers can meet, exactly as `IdColumns.LoopsMeetIff` says.
- The comment on `appendAttrs` (internal/metricgen/values.go:89-92) says that every series has a
  unique attribute vector. The digits are unique; the strings are under the exact condition of
  `Vocabularies.VectorsDistinctIff`.
- The comment on `markerStartNano` (internal/metricgen/builder.go:308-311) says that a marker has
  the start of the final real point. For delta metrics it has that point's timestamp instead
  (`Streams.MarkerRepeatsStartIff`).
- The comments on the group keys (internal/otel/convert.go:32-33, internal/otel/convert_logs.go:36-39)
  say that the delimiters keep apart values with ambiguous boundaries. They do if and only if no
  delimiter occurs in one of the two values beside it (`Fingerprints.PairAmbiguousIff`,
  `Otlp.LogNamesMixIff`, `Otlp.TraceNamesMixIff`; `Otlp.MarkMovesOver` has rows that mix).
- `shiftHexByte` falls back to plain addition for characters that are no hex digits, which merges
  different identifiers exactly as `IdColumns.IdsMergedIff` says (`IdColumns.SlashMeetsF` has two);
  hexadecimal ones stay apart.

## Model

| member | source | states |
|---|---|---|
| Words.XorShiftInverse | internal/metricgen/hash.go:13-17 | an xor-shift by n is undone by a two-term xor-shift, in both orders, whenever 3n covers the word; this is why each xor-shift step of the mixer loses nothing |
| Words.MulInverse | internal/metricgen/hash.go:14-16 | multiplying by a word that has an inverse modulo 2^64 is undone by multiplying by that inverse, in both orders |
| Mixing.FinalizerBijective | internal/metricgen/hash.go:11-19 | every add, xor-shift, multiply finalizer of this form with invertible constants is a two-sided bijection; it covers splitmix64 and the finaliser of the OTLP fingerprints |
| Mixing.SplitmixBijective | internal/metricgen/hash.go:11-19 | splitmix64 with its actual constants has an explicit two-sided inverse on all 64-bit words |
| Mixing.SplitmixInjective | internal/metricgen/hash.go:11-19 | splitmix64 never maps two words to one |
| Mixing.Mix2Injective | internal/metricgen/hash.go:21-23 | mix2 is injective in each argument with the other fixed |
| Mixing.Mix3Injective | internal/metricgen/hash.go:25-27 | mix3 is injective in each of its three arguments with the others fixed |
| Mixing.MetricSeedsDistinct | internal/metricgen/plan.go:332-343 | two metric indexes never share their seed s1 nor their value seed, whatever the application seed |
| Mixing.SeriesSeedsDistinct | internal/metricgen/values.go:79-87 | under splitmix64 two series of a metric never share a value seed, nor does one series index in two metrics or under two application seeds |
| Sweeps.GenerationChangedIff | internal/metricgen/plan.go:546-556 | generationChanged holds at sweep k exactly when k > 0 and the generation is the successor of the one at k - 1, and otherwise the generation is unchanged; so gen - 1 and k - 1 never underflow where a marker is sent |
| Sweeps.GenerationMonotone | internal/metricgen/plan.go:536-544 | the generation of a resource never goes back |
| Sweeps.GenerationStartIsFirst | internal/metricgen/plan.go:558-571 | generationStart lies in 0..k, is a churn boundary unless it is 0, and the sweeps up to k of the same generation are exactly those not before it |
| Sweeps.ChurnsOncePerLifetime | internal/metricgen/plan.go:546-556 | of as many consecutive sweeps as a resource lives, exactly one churns it |
| Sweeps.ChurnIsStaggered | internal/metricgen/plan.go:536-544 | the fleet does not churn as one: two resources may first churn at any two sweeps of their lifetimes |
| Sweeps.EpochStartIsLatestBoundary | internal/metricgen/values.go:103-115 | epochStart is the latest epoch boundary (start of run, counter reset, churn) not after k; it lies in 0..k for every k, so it is never negative |
| Sweeps.LatestBoundaryUnique | internal/metricgen/values.go:103-115 | that characterisation determines epochStart |
| Sweeps.EpochStructure | internal/metricgen/values.go:103-115 | epochStart is constant on [epochStart(k), k], an epoch never crosses a generation, and epochStart(k) == k exactly at a boundary |
| Sweeps.EpochStartMonotone | internal/metricgen/values.go:107-115 | epoch starts follow one another in time |
| Sweeps.ResetsOncePerPeriod | internal/metricgen/values.go:107-110 | of as many consecutive sweeps as its period, a counter resets in exactly one |
| Sweeps.ResetsAreStaggered | internal/metricgen/values.go:107-110 | two series may have any two periods from 2000 to 21999 sweeps and first reset at any sweep of theirs |
| Sweeps.PointInstant | internal/metricgen/plan.go:513-534 | a point stands at the start of the run plus its sweep times the interval plus, unless timestamps are aligned, a phase below the interval, give or take the jitter |
| Sweeps.PointInstantReached | internal/metricgen/plan.go:513-534 | every phase and every jitter in these bounds is that of some mixer |
| Sweeps.ScrapedTogether | internal/metricgen/plan.go:513-534 | at one sweep two series of one resource are at most two jitters apart |
| Sweeps.TogetherIsTight | internal/metricgen/plan.go:524-534 | some mixer puts two series of one resource exactly two jitters apart, so series jitter on their own |
| Sweeps.PhaseAndChurnApart | internal/metricgen/plan.go:516-544 | the phase of a resource within the interval and the sweep it first churns at may be anything together |
| Sweeps.PointGap | internal/metricgen/plan.go:524-534 | the gap between two points of a series is the gap between their sweeps give or take two jitters |
| Sweeps.PointTimesIncrease | internal/metricgen/plan.go:524-534 | timestamps of a series are strictly ordered as its sweeps are, in both directions, for all sweeps including those before the run |
| Sweeps.JitterBoundIsTight | internal/metricgen/config.go:377-379 | the validated bound 2 * jitter < interval cannot be relaxed: otherwise some mixer makes neighbouring points meet or cross |
| Sweeps.NanoOrder | internal/metricgen/builder.go:356-361 | on the wire two instants keep their strict order exactly when the later one is after the Unix epoch, because earlier ones clamp to 0; the weak order is always kept |
| Sweeps.NanoReadBack | internal/metricgen/builder.go:356-361 | in range the wire tells an instant to the millisecond, instants before the epoch are 0, and the first millisecond beyond the range wraps |
| Sweeps.WireTimesIncrease | internal/metricgen/builder.go:356-361 | wire timestamps of a series strictly increase exactly when the later point is after the Unix epoch |
| Streams.DeltaWindowsTile | internal/metricgen/builder.go:320-330 | delta windows tile time: every instant from the sweep before the run up to the last point lies in the window of exactly one sweep |
| Streams.WindowOrder | internal/metricgen/builder.go:143-154 | no start time is after its timestamp, it equals it exactly for accumulating metrics at an epoch boundary, and between boundaries it does not move |
| Streams.MarkerContinuesWindow | internal/metricgen/builder.go:308-318 | a marker carries the start of the last real point when that point accumulates, starts at that point's timestamp for deltas, and is itself later than that point |
| Streams.MarkerRepeatsStartIff | internal/metricgen/builder.go:308-318 | a marker repeats the start of the last real point if and only if the metric is a gauge or accumulates; for deltas the reported instants differ as well |
| Streams.LifeSpan | internal/metricgen/plan.go:538-571 | a generation is the interval of sweeps from its birth to its death, and the change into the next one happens exactly at its death |
| Streams.GenerationOnTheWire | internal/metricgen/builder.go:115-125 | of one generation of a series the wire sees its real points sweep by sweep, then exactly one marker at the sweep that replaced it, if the run got that far, and then nothing |
| Streams.MarkersInPlace | internal/metricgen/builder.go:119-125 | in the stream of a series a marker stands right after the last real point of the generation it closes and right before the first of the next |
| Streams.EventsCarryGeneration | internal/metricgen/builder.go:115-127 | a reading carries the generation of its sweep, a marker the one before |
| Streams.RealsInOrder | internal/metricgen/builder.go:119-127 | before a reading comes the marker of its sweep or the reading of the sweep before |
| Streams.StreamLength | internal/metricgen/builder.go:115-125 | a series emits one real point per sweep and, with markers on, one marker per generation it went through |
| Streams.StreamWithoutMarkers | internal/metricgen/builder.go:123-125 | without churn or with markers off the stream is the real points alone, in sweep order |
| Values.QuantizeMonotone | internal/metricgen/values.go:43-55 | quantizing keeps order in every precision class, and keeps apart values a rounding step of their class apart |
| Values.WobblyIncreases | internal/metricgen/values.go:11-12 | rate * age outweighs any wobble: a later age always gives a larger value, by at least 0.01 at the rates in use |
| Values.CounterNeverDecreases | internal/metricgen/values.go:151-163 | within an epoch a cumulative sum never decreases, as a float and truncated to an integer, in every precision class |
| Values.CounterDropsOnlyAtBoundaries | internal/metricgen/values.go:151-163 | over a whole run a counter can drop only at a reset or a churn boundary, where it restarts between 0 and 0.9 * rate + 0.05 |
| Strictness.StrictAtIffWorst | internal/metricgen/values.go:151-163 | whether a counter grows from every sweep of an epoch to every later one, whatever it draws, is decided by the largest wobble followed by none at neighbouring sweeps |
| Strictness.StrictAtIff | internal/metricgen/values.go:151-163 | exactly which rates make a counter strict: full precision always; idle counters if and only if the rate is at least 50; integral and decimal ones if and only if no sweep's expected value, in steps, lies the share no wobble reaches above a cut |
| Strictness.StrictThresholds | internal/metricgen/values.go:151-163 | ten steps per sweep are always enough for integral and decimal counters, less than one never is |
| Strictness.CountIsCounter | internal/metricgen/values.go:191-200 | bucket and summary counts are integral counters at their rate, so the same rates make them strict |
| Strictness.StrictIncreaseIff | internal/metricgen/values.go:5-12 | counters are strict at all rates if and only if they carry full precision or at least two decimals |
| Strictness.GrowsIff | internal/metricgen/values.go:5-12 | strictly monotonic within an epoch: that holds for all series of a kind if and only if it is a monotonic sum with full precision or at least two decimals, and for no histogram of either kind and no summary, whatever its precision |
| Strictness.StillSeriesStands | internal/metricgen/values.go:5-12 | a series whose counter does not move from sweep 0 to sweep 1 of an epoch, in every texture that allows it, and whose summary counts nothing at both |
| Strictness.SumNeverDecreasesIff | internal/metricgen/builder.go:140-155 | cumulative sums never decrease within an epoch if and only if they are monotonic or idle, whatever the wave |
| Strictness.SumFalls | internal/metricgen/values.go:117-137 | a sum that is neither falls with a gauge whose level falls |
| Values.MonotoneCountNeverDecreases | internal/metricgen/values.go:191-200 | within an epoch a bucket or summary count never decreases, at any non-negative rate |
| Values.SummaryPoint | internal/metricgen/values.go:302-320 | the loop fills every quantile and returns count and sum as specified |
| Values.FillQuantiles | internal/metricgen/values.go:316-318 | the loop over the quantiles, in place |
| Values.SummaryNeverDecreases | internal/metricgen/values.go:302-320 | the count and the sum of a summary never decrease within an epoch |
| Values.QuantilesOrdered | internal/metricgen/values.go:302-320 | ascending quantile levels get ascending values, after rounding |
| Histograms.BuildHistShapes | internal/metricgen/plan.go:84-120 | 24 shapes; shape i has center i / 3 and spread i mod 3, is the gaussian of these divided by its total, sums to 1, and its extent is the first and last bucket with at least a twentieth of the largest weight |
| Histograms.BuildShape | internal/metricgen/plan.go:88-116 | one shape, as above |
| Histograms.FillWeights | internal/metricgen/plan.go:91-97 | the first loop: the raw gaussian and its total |
| Histograms.Normalize | internal/metricgen/plan.go:98-102 | the second loop, in place: every weight divided by the total, their sum 1, and the largest of them |
| Histograms.FindExtent | internal/metricgen/plan.go:103-115 | the scans from both ends: everything outside the extent is negligible against the largest weight and its ends are not |
| Histograms.ExtentOrdered | internal/metricgen/plan.go:103-115 | minIdx <= maxIdx for every built shape |
| Histograms.ShapePeaksAtCenter | internal/metricgen/plan.go:91-102 | the farther a bucket is from the center of a shape the less weight it has, and buckets equally far have equal weights |
| Histograms.CentersAndSpreads | internal/metricgen/plan.go:84-92 | centers stand in the middle of each eighth of the buckets, and the spreads grow |
| Histograms.BucketMids | internal/metricgen/plan.go:390-401 | the loop computes half the first bound, the middle of each finite bucket, and 1.5 times the last bound |
| Histograms.MidsInsideBuckets | internal/metricgen/plan.go:390-401 | for increasing positive bounds every representative lies strictly inside its bucket, in the middle, or half a bound beyond the last one, and they strictly increase |
| Histograms.FillBuckets | internal/metricgen/values.go:218-229 | the shared loop of both histogram kinds: the counts, their total, and the sum they imply at the representatives |
| Histograms.HistPoint | internal/metricgen/values.go:207-233 | a point's count is the total of its buckets, its sum is consistent with them, and its minimum and maximum come from the shape's extent |
| Histograms.HistMinBelowMax | internal/metricgen/values.go:230-231 | the reported minimum is below the reported maximum for every shape and all valid bounds |
| Histograms.BucketsNeverDecrease | internal/metricgen/values.go:218-229 | within an epoch no cumulative bucket and no total of buckets decreases |
| Histograms.BucketShare | internal/metricgen/values.go:218-229 | a bucket counts its weight's share of the rate: over the age of the epoch and at most nine tenths of a sweep more, or over half to one and a half sweeps for a delta, rounded down |
| Histograms.HistogramCountsTheRate | internal/metricgen/values.go:207-233 | the shares are the whole rate: a histogram's count is that of the rate, within one event per bucket |
| Histograms.BucketsDrawApart | internal/metricgen/values.go:222-224 | two buckets draw on their own: with one rate some mixer lets one count nothing where the other counts four |
| Histograms.HistogramNeverDecreases | internal/metricgen/values.go:207-233 | within an epoch a cumulative histogram never goes back in any bucket, in its count or in its sum |
| Histograms.ExpPowTable | internal/metricgen/plan.go:403-411 | entry i of the table is base to the power minIdx + i |
| Histograms.PowerIncreases | internal/metricgen/plan.go:403-411 | integer powers of a base above 1 strictly increase, negative exponents included |
| Histograms.ExpBucketLens | internal/metricgen/values.go:293-300 | 8 to 32 positive buckets; negative ones absent or 2 up to as many |
| Histograms.ExpHistPoint | internal/metricgen/values.go:235-291 | every lookup in the 80-entry table is in range for every series; the count is positive, negative and zero counts together, the sum is consistent with both sides, the negative offset is the positive one or 0, and only a zero bucket has a threshold |
| Histograms.ExpMidsIncrease | internal/metricgen/values.go:246-251 | bucket middles read from the table are positive and strictly increase |
| Histograms.ExpMinBelowMax | internal/metricgen/values.go:285-289 | the reported minimum of an exponential point is below its maximum, with or without negative buckets |
| Histograms.ExpHistogramNeverDecreases | internal/metricgen/values.go:253-283 | within an epoch no bucket on either side, not the zero bucket and not the count decreases |
| Histograms.ExpSumNeverDecreases | internal/metricgen/values.go:260-265 | nor does the sum, when there are no negative buckets |
| DrawRanges.ExpSharesOfRate | internal/metricgen/values.go:253-283 | positive buckets share the rate, negative ones a tenth of it, the zero bucket gets a hundredth if there is one |
| DrawRanges.ExpShapesReached | internal/metricgen/values.go:293-300 | a series starts at any of 40 exponents and keeps any number of buckets from 8 to 32, half as many negative ones |
| DrawRanges.SeriesDrawApart | internal/metricgen/hash.go:21-39 | what is drawn once for a series is drawn apart for two series or two purposes: any two fractions can come together |
| DrawRanges.SweepsDrawApart | internal/metricgen/hash.go:25-39 | what is drawn at every sweep is drawn apart for two series, two purposes or two sweeps |
| DrawRanges.RatesInRange | internal/metricgen/values.go:140-149 | rates are powers of ten from 0.1 up to 1000, exclusive |
| DrawRanges.EpochRatesAreFresh | internal/metricgen/values.go:144-149 | every epoch picks a fresh rate: two epochs of a series may have any two |
| DrawRanges.SeriesRatesAreFresh | internal/metricgen/values.go:140-142 | two series may have any two rates per sweep |
| DrawRanges.CounterCountsTheRate | internal/metricgen/values.go:151-163 | a counter stands at its rate times its age, at most nine tenths of a sweep more, up to the step of its texture; an idle one counts a fiftieth of its rate |
| DrawRanges.SummaryCountsTheRate | internal/metricgen/values.go:302-306 | the count of a summary is that of its rate, within one event |
| DrawRanges.TextureBands | internal/metricgen/values.go:25-73 | of a hundred fractions 12 make a series idle, 38 integral, 35 decimal, 15 full, the last two integral where values are integers |
| DrawRanges.GaugeBand | internal/metricgen/values.go:117-137 | a gauge that is not idle stays between 0.27 and 2.17 times its base before it is quantized, and the base is a power of ten from 0.01 up to 10000, exclusive |
| DrawRanges.RegimeHolds | internal/metricgen/values.go:126-129 | the level of a gauge holds for a whole regime of at least 500 sweeps |
| DrawRanges.SwingRepeats | internal/metricgen/values.go:131-135 | apart from its noise the swing of a gauge repeats with the period of its wave, 60 to 3599 sweeps |
| DrawRanges.QuantileBand | internal/metricgen/values.go:302-320 | quantiles 0, 0.5 and 1 of a summary are one, two and five times the base latency, a tenth more or less and a rounding step |
| Readings.StartTellsEpoch | internal/metricgen/builder.go:143-154 | two points of an accumulating series report the same start exactly when they belong to the same epoch |
| Readings.SameStartAccumulates | internal/metricgen/values.go:5-12 | what a reader of the wire relies on: of two points of a monotonic sum, histogram or summary that is cumulative, with equal start times not before 1970, the later one has accumulated everything the earlier one had |
| Readings.WireStartsEqualIff | internal/metricgen/builder.go:356-361 | wire starts are equal exactly for points of one epoch, or when both starts are at or before the Unix epoch and clamp to 0 |
| Readings.StartMovesAtBoundaries | internal/metricgen/builder.go:143-154 | the start time moves exactly at epoch boundaries and there equals the point's own timestamp |
| Readings.RestartIsAnnounced | internal/metricgen/values.go:5-12 | a point that lost anything its predecessor had accumulated reports its own timestamp as its start |
| RoundRobin.TypeCycle | internal/metricgen/plan.go:247-276 | the computed cycle has the length of the total weight and every position holds the greedy choice, the first type on a tie |
| RoundRobin.GreedyDetermined | internal/metricgen/plan.go:262-273 | the greedy rule with its tie-break determines the cycle |
| RoundRobin.Earn | internal/metricgen/plan.go:262-271 | the inner loop, in place: every type earns its weight and the first of the richest weighted types is found |
| RoundRobin.Choose | internal/metricgen/plan.go:262-273 | one step keeps the accumulators equal to the credit of the prefix |
| RoundRobin.CreditBounds | internal/metricgen/plan.go:259-273 | after every step the accumulators sum to 0, none is a whole total in debt or four in credit, and weightless types hold nothing |
| RoundRobin.NeverRunsAhead | internal/metricgen/plan.go:243-246 | after every prefix of n, total * count < n * weight + total, and the count lags by less than four |
| RoundRobin.CycleIsExact | internal/metricgen/plan.go:243-246 | over a cycle every type appears exactly as often as its weight and all accumulators are back at 0 |
| Attributes.DimSizes | internal/metricgen/plan.go:445-466 | whatever the roots and the head draw, every size is at least 1 and the product of the sizes is at least the cardinality |
| Attributes.AppendAttrs | internal/metricgen/values.go:89-101 | the loop over the running remainder computes the mixed-radix digits |
| Attributes.DigitsDecode | internal/metricgen/values.go:89-101 | digits determine the series: composing them gives the index back |
| Attributes.ComposeEncodes | internal/metricgen/values.go:89-101 | conversely every digit vector in range is the digits of a series in range |
| Attributes.DigitsDistinct | internal/metricgen/values.go:89-92 | digit vectors of two series in the space are equal exactly when the series are |
| Attributes.DigitUsed | internal/metricgen/values.go:93-101 | no series below the cardinality uses a value beyond the computed number of used values of a dimension |
| Attributes.ValueReached | internal/metricgen/values.go:93-101 | every value below that number is used, by a series that differs from series 0 in that dimension only |
| Vocabularies.ValuesDistinct | internal/metricgen/plan.go:468-504 | within its period (40 for rpc.service, 280 for operation, none for the others) a key never gives two indexes one string |
| Vocabularies.ValuesRepeat | internal/metricgen/plan.go:491-496 | beyond it, some index in range repeats the string of index 0 |
| Vocabularies.RpcServiceRepeats | internal/metricgen/plan.go:491-492 | rpc.service gives two indexes one string exactly when they agree modulo 40 |
| Vocabularies.OperationRepeats | internal/metricgen/plan.go:495-496 | operation does exactly when both word picks agree, which below 280 means equal indexes |
| Vocabularies.ItoaInjective | internal/metricgen/plan.go:503 | decimal numerals of two numbers are equal exactly when the numbers are |
| Vocabularies.VectorsDistinctIff | internal/metricgen/values.go:89-92 | the attribute strings of the series of a metric are pairwise distinct if and only if no rpc.service dimension uses more than 40 values and no operation dimension more than 280 |
| Vocabularies.FortyFirstRepeats | internal/metricgen/plan.go:491-492 | with 41 series over 41 values of rpc.service, series 0 and 40 carry the same attributes |
| Coverage.RotationIsBijective | internal/metricgen/plan.go:506-511 | in every sweep every metric comes up at exactly one position |
| Coverage.RotationIsFair | internal/metricgen/plan.go:506-511 | in as many consecutive sweeps as there are metrics, every metric takes every place in the sweep exactly once |
| Coverage.WorkerOfIs | internal/metricgen/worker.go:179 | series are dealt to workers by their index modulo the thread count |
| Coverage.RunCount | internal/metricgen/worker.go:176-179 | one worker makes the calls of its stripe once each and no others, from any sweep on |
| Coverage.FleetCoversOnce | internal/metricgen/worker.go:175-193 | for any number of workers a whole run adds the point of every metric, series and sweep exactly once and nothing else |
| Coverage.EmittedOrderless | internal/metricgen/worker.go:175-193 | neither the number of calls nor what they emit depends on their order |
| Coverage.FleetTotals | internal/metricgen/worker.go:175-193 | a fleet makes total series times sweeps calls, for any thread count, and emits the lives of all series |
| Coverage.SeriesLifeEmits | internal/metricgen/builder.go:115-125 | the calls of one series emit as many points as its stream has events |
| Coverage.RunOrder | internal/metricgen/worker.go:176-179 | a worker calls for a series of its stripe once per sweep in ascending order of sweeps, and for no series outside it |
| Coverage.FleetPoints | internal/metricgen/builder.go:119-125 | with markers on a run appends total series times sweeps points plus, summed over all series, the difference between last and first generation |
| Grouping.GroupedIsGrouping | internal/otel/convert_logs.go:58-74 | the list maintained entry by entry is the grouping of the log: one group per distinct key, first seen first, with the header of its first entry and all its rows in order; the index finds exactly the groups, and the rows add up |
| Grouping.GroupingDetermined | internal/otel/convert_logs.go:21-27 | that description determines the list |
| Grouping.GroupHoldsIdentity | internal/otel/convert_logs.go:36-42 | if no other identity in play collides on the key, a group holds exactly the rows of its identity, in order |
| Builders.MakeSeries | internal/metricgen/values.go:79-87 | the owning resource is always one of the fleet's |
| Builders.OwnersAndValuesApart | internal/metricgen/values.go:79-87 | who owns a series depends on the metric's structural seed alone and its values on the value seed alone, and any resource and any seed can come together |
| Builders.SeriesHaveOwnSeeds | internal/metricgen/values.go:79-87 | with the mixers in use the series of a metric all have seeds of their own |
| Builders.WireIsStream | internal/metricgen/builder.go:113-139 | what the sweeps of a series append is its stream, event by event: each reading with its values and each marker with none, in the group of its generation, with the attributes of the series |
| Wires.WireEntry | internal/metricgen/builder.go:113-306 | every entry of a series' wire: the group of its resource, of the generation of its event and of the metric's scope, with the key mixed of these three; the metric; the series with its attributes and levels; the timestamp, in nanoseconds, of the sweep; and values exactly if it is a reading |
| Wires.WireStart | internal/metricgen/builder.go:143-154 | its start: none for a gauge, the instant of the epoch's first sweep for what accumulates, with a marker that of the last reading's epoch, the instant of the sweep before for a delta |
| Wires.MarkerOnTheWire | internal/metricgen/builder.go:237-318 | on the wire a marker directly follows the last reading of its series, under the same identity and key, has that reading's start, or for a delta starts at its timestamp, and has the timestamp of the reading that follows |
| Wires.MarkerKeptApart | internal/metricgen/builder.go:119-127 | the reading after a marker belongs to the next generation, and to another group with mixers that separate |
| Wires.ReadingsJoinUp | internal/metricgen/builder.go:320-330 | from one reading to the next, marker or not: a delta starts at the timestamp of the one before; what accumulates keeps the start and the group of the one before unless a boundary moved the start to its own timestamp; a gauge has none |
| Builders.Builder.constructor | internal/metricgen/builder.go:29-31 | a new builder is empty |
| Builders.Builder.Append | internal/metricgen/builder.go:49-96 | a point goes to the metric within the group of its key, either being opened if new; the whole state stays the two-level grouping of everything added |
| Builders.Builder.AddPoint | internal/metricgen/builder.go:113-235 | the log grows by exactly the placements of the series at that sweep: the marker if one is due, then the reading with its window, timestamp, attributes, levels, values and exemplars |
| Builders.Builder.AddStalenessMarker | internal/metricgen/builder.go:237-306 | the log grows by the marker of the old generation: the attributes and levels of the series, the marker's window, and nothing recorded |
| Builders.Builder.Build | internal/metricgen/builder.go:35-41 | the request is the two-level grouping of the log |
| Builders.Builder.Reset | internal/metricgen/builder.go:43-47 | the builder is empty again |
| Builders.RequestStep | internal/metricgen/builder.go:49-96 | one more entry in the log changes the grouped request in the group and metric of the entry only |
| Builders.RequestIsComplete | internal/metricgen/builder.go:10-15 | every added point is in the request exactly once: groups group the points by key under the identity of the first, metrics group each group's points by metric, and the totals agree |
| Builders.GroupIsIdentity | internal/metricgen/builder.go:49-52 | if no other identity in the request collides with it, a group holds exactly the points of its resource, generation and scope |
| Builders.GroupsKeptApart | internal/metricgen/builder.go:49-52 | two groups that agree in two of resource, generation and scope share a key exactly if they agree in the third |
| Builders.SplitMixersSeparate | internal/metricgen/hash.go:25-27 | the mixers in use separate: three mixed words tell each of them while the other two are fixed |
| Workers.Worker.constructor | internal/metricgen/worker.go:60-70 | a worker starts with nothing generated, delivered or granted, before the first question it asks the world |
| Workers.Worker.Flush | internal/metricgen/worker.go:72-148 | a non-empty builder is emptied into one batch that groups exactly its points; it is booked as delivered, and the totals grow by its points and by one request, exactly if the world takes that request: it can be marshalled and one of five attempts succeeds; an empty builder sends nothing |
| Workers.Worker.Deliver | internal/metricgen/worker.go:94-147 | a request is delivered exactly if one of the first five attempts is accepted after failures that allow another try; the waits are 250, 500, 1000 and 2000 ms |
| Workers.Worker.Settle | internal/metricgen/worker.go:116-121 | the batch is booked as it came out, and the totals grow by its points and by one request exactly if it was delivered |
| Workers.Worker.Run | internal/metricgen/worker.go:175-209 | a run makes the worker's calls in order from the first; it completes exactly if it has a number of sweeps and no checkpoint was cancelled or failed by the limiter, and then has made all calls and holds nothing back; every batch but the last was full or found overdue |
| Workers.Worker.Finish | internal/metricgen/worker.go:206 | nothing stays in the builder, and only this batch is sent for being the last |
| Workers.Worker.RunSweep | internal/metricgen/worker.go:176-193 | a sweep makes exactly its calls, metric by metric in rotated order, unless a checkpoint ended the run |
| Workers.Worker.RunTurn | internal/metricgen/worker.go:177-179 | the metric whose turn it is in the rotation makes its stripe, unless a checkpoint ended the run |
| Workers.Worker.RunStripe | internal/metricgen/worker.go:179-192 | a stripe makes exactly its calls, a stride of threads apart, unless a checkpoint ended the run |
| Workers.Worker.Step | internal/metricgen/worker.go:180-191 | the next call is made, or the checkpoint due before it, which is due exactly when the allowance is used up, ended the run |
| Workers.Worker.Permit | internal/metricgen/worker.go:180-185 | the checkpoint is passed exactly when the allowance is used up, and a point is permitted exactly if no checkpoint has ended the run |
| Workers.Worker.AddPoint | internal/metricgen/worker.go:186-191 | one call is made, and the builder is flushed exactly if it then holds a full request |
| Workers.Worker.Generate | internal/metricgen/worker.go:186-188 | one permission is used up and exactly the placements of the next call are added |
| Workers.Worker.Checkpoint | internal/metricgen/worker.go:150-173 | a checkpoint grants exactly one chunk, or none and ends the run if it is cancelled or the limiter fails; unless cancelled it flushes exactly a non-empty request that is overdue |
| Workers.Worker.FlushOverdue | internal/metricgen/worker.go:159-161 | exactly a non-empty request that this checkpoint finds overdue is flushed |
| Workers.WorkerConserves | internal/metricgen/worker.go:72-148 | at any time the points generated are, in order, those flushed and then those in the builder, and number the points delivered, dropped and pending; those delivered are the points of the requests the world took |
| Workers.DeliveredOrNot | internal/metricgen/worker.go:108-137 | every flushed point is counted as delivered or as dropped, not both |
| Workers.TakenAreDelivered | internal/metricgen/worker.go:94-147 | the points booked as delivered are those of the batches the world takes, by their place among the requests |
| Workers.GeneratedCount | internal/metricgen/worker.go:186-188 | calls generate as many points as the streams of their series account for |
| Fleets.FleetGenerates | internal/metricgen/worker.go:175-193 | what all calls of a fleet generate numbers total series times sweeps plus the generation changes of all series |
| Fleets.FleetConserves | internal/metricgen/worker.go:72-209 | once all workers of a fleet are done, points delivered plus points dropped number total series times sweeps plus the generation changes of all series, whatever the endpoint answered and however many workers there are |
| Fleets.WorkerSendsStreams | internal/metricgen/worker.go:175-193 | at any time what a worker has sent or holds of a series is that series' stream up to some sweep, in order and with its markers in place; all of it after a complete run; nothing of series outside its stripe |
| Fleets.GeneratedForIs | internal/metricgen/worker.go:179-191 | of all that calls generate, what belongs to one series is what the calls for that series generate |
| Fleets.GeneratedForSeries | internal/metricgen/worker.go:176-191 | and that is what its sweeps append, if these calls are its sweeps in order |
| Resources.RunKeepsInv | internal/metricgen/resources.go:56-81 | every interleaving keeps every published slot genuine: the resource of its generation with a strictly older one behind it |
| Resources.GetIsBuild | internal/metricgen/resources.go:56-81 | under every interleaving of any number of workers get(idx, gen) returns build(idx, gen) |
| Resources.GetAlone | internal/metricgen/resources.go:56-81 | a get nobody interferes with publishes what it built if it is newer than the slot, with the former one as previous, and otherwise changes nothing but its own return |
| Resources.HitBuildsNothing | internal/metricgen/resources.go:56-68 | a get builds nothing exactly if the slot has the generation asked for as its current or its previous one |
| Resources.StepAdvances | internal/metricgen/resources.go:70-79 | a step leaves a slot alone or moves it to a strictly newer generation with the former one as its previous |
| Resources.SlotHoldsLastTwo | internal/metricgen/resources.go:17-20 | the generations a slot publishes strictly increase and it always holds the last two of them |
| SlidingWindows.SlidingWindow.constructor | internal/disk/speedreader.go:234-239 | a new window is empty |
| SlidingWindows.SlidingWindow.Add | internal/disk/speedreader.go:241-257 | after adding, the ring holds exactly the newest entries of the log, at most capacity of them and none before the cutoff; a read that comes after the window has moved past its time finds the ring empty and is all it holds; tail and byte total agree |
| SlidingWindows.SlidingWindow.CleanOldEntries | internal/disk/speedreader.go:279-286 | cleaning leaves exactly the recent entries for the later of the old and the new cutoff |
| SlidingWindows.SlidingWindow.DropBefore | internal/disk/speedreader.go:281-285 | the loop drops the longest prefix of entries before the limit and nothing else |
| SlidingWindows.SlidingWindow.DropOldest | internal/disk/speedreader.go:282-284 | the oldest entry leaves, with its bytes |
| SlidingWindows.SlidingWindow.Insert | internal/disk/speedreader.go:253-256 | an entry joins at the end, with its bytes |
| SlidingWindows.SlidingWindow.Push | internal/disk/speedreader.go:247-256 | a full ring drops its oldest entry to make room |
| SlidingWindows.SlidingWindow.GetRate | internal/disk/speedreader.go:259-277 | the rate is the bytes of the recent entries of the log by the time since the oldest of them, and 0 when there are none or no time passed |
| SlidingWindows.SlidingWindow.CurrentRate | internal/disk/speedreader.go:266-276 | the rate of what is in the ring |
| SlidingWindows.RecentIsSuffix | internal/disk/speedreader.go:241-286 | the recent entries are the end of the log, at most capacity, none too old |
| SlidingWindows.RecentIsMaximal | internal/disk/speedreader.go:241-286 | and nothing was left out: every earlier entry is too old or one too many |
| SlidingWindows.RecentDrops | internal/disk/speedreader.go:279-286 | a later cutoff takes away a prefix of the recent entries and nothing else, also after entries were lost to capacity |
| SlidingWindows.RecentAdds | internal/disk/speedreader.go:247-256 | a new entry joins the recent ones, pushing out the oldest when they are full |
| SlidingWindows.WrapIsRemainder | internal/disk/speedreader.go:249-254 | the remainder taken at every step is a single wrap |
| BlockPools.PoolIsConserved | internal/block/pool.go:25-74 | under every interleaving blocks in the pool, held, and in releases under way number the pool size and are distinct; with retirement on the uses on record are those of exactly these blocks, each below the limit, and counted uses equal retireAfter times evictions plus the uses on record |
| BlockPools.SendNeverBlocks | internal/block/pool.go:73 | a release never waits on the channel |
| BlockPools.QuietAccounting | internal/block/pool.go:54-74 | with no release under way, counted uses equal retireAfter times the retired total plus the uses on record |
| BlockPools.ReleaseFate | internal/block/pool.go:54-74 | a released block goes back itself, with one more use, unless it has served retireAfter times; then it is struck off; without retirement it always goes back |
| BlockPools.GoneForGood | internal/block/pool.go:59-61 | a block struck off is never in the pool, held or on its way again |
| BlockPools.ServesExactly | internal/block/pool.go:54-71 | under every interleaving the releases of a block are its uses on record while there is such a block, and exactly retireAfter once it is retired |
| BlockPools.NeverRetires | internal/block/pool.go:54-73 | with retirement off the blocks are always those of the beginning and none is retired |
| BlockPools.FirstInFirstOut | internal/block/pool.go:46-73 | under every interleaving the blocks taken and those in the pool are, in order, those of the beginning and those sent since |
| BlockPools.StepKeepsDistinct | internal/block/pool.go:50-74 | no step puts a block in two places |
| BlockPools.StepKeepsConserved | internal/block/pool.go:50-74 | no step loses or gains a block |
| BlockPools.StepKeepsAccounted | internal/block/pool.go:54-71 | no step loses a use |
| InsertWorkers.SwapInput | internal/insert/worker.go:319-328 | the two inputs exchange their columns, in place |
| InsertWorkers.Worker.constructor | internal/insert/worker.go:91-94 | a worker starts with its own columns and no block |
| InsertWorkers.Worker.Receive | internal/insert/worker.go:109-112 | the next block of the queue becomes the current one |
| InsertWorkers.Worker.Load | internal/insert/worker.go:148-151 | the block's columns go into the placeholder and the placeholder's own into the block, both in place |
| InsertWorkers.Worker.Release | internal/insert/worker.go:120-126 | the block is given back once and has its own columns at that moment, and the placeholder has its own again |
| InsertWorkers.Worker.ResetPlaceholder | internal/insert/worker.go:118 | emptying the placeholder empties its own columns and leaves those of a loaded block alone |
| InsertWorkers.Worker.LoadNext | internal/insert/worker.go:132-155 | the block at hand, or the next delivery if one is available, is loaded and counted; no more rows are promised exactly if there is neither, and then nothing changes |
| InsertWorkers.Block.constructor | internal/block/logs.go:156-183 | a new block's input names its own columns |
| InsertWorkers.Worker.OnInput | internal/insert/worker.go:117-156 | the batch ends exactly if it is over its size, or no block is at hand and none comes; otherwise the next delivery, or the one at hand, is loaded and is the next of the batch; whenever it is called, every delivery received was given back with its own columns or is current |
| InsertWorkers.Worker.LoadRows | internal/insert/worker.go:153 | the row count stays the rows of the blocks loaded |
| InsertWorkers.Worker.Query | internal/insert/worker.go:114-180 | the client is given the deliveries from the one at hand on, as many as Given says and all of them if it keeps asking; the rows are at most the batch size and one more block |
| InsertWorkers.Worker.RunBatch | internal/insert/worker.go:99-211 | one batch: the next delivery and those its client is given after it, all given back by the end |
| InsertWorkers.GivenIsExact | internal/insert/worker.go:127-147 | a batch is never over its size before its last block, and it ends before its client does only over its size, at the end of the queue, or when nothing came |
| InsertWorkers.ServedDetermined | internal/insert/worker.go:96-226 | what the queries of a run serve is determined by its clients |
| InsertWorkers.EveryDeliveryIsGiven | internal/insert/worker.go:99-211 | every delivery taken falls to exactly one query, whose client was given it, unless the client never asked: then it is that query's only one and goes back unread |
| InsertWorkers.Worker.Run | internal/insert/worker.go:82-226 | however a run ends, every delivery received was given back exactly once, in order and with its own columns at that moment, and all blocks and the placeholder have their own; its queries follow on each other and serve their clients; it is cancelled, fails, stops or retires exactly when the inputs say so |
| Fingerprints.FnvStr | internal/otel/convert.go:23-30 | the loop computes FNV-1a |
| Fingerprints.HashKVSet | internal/otel/convert.go:62-72 | the loop computes the fold of the pair digests |
| Fingerprints.FoldOrderless | internal/otel/convert.go:51-55 | folding a commuting step does not depend on the order of the elements |
| Fingerprints.SetHashOrderless | internal/otel/convert.go:51-55 | equal multisets of pairs have equal fingerprints, in whatever order they arrive |
| Fingerprints.EveryPairCounts | internal/otel/convert.go:62-72 | another pair in the place of one changes the fingerprint of a set exactly if the two have different digests |
| Fingerprints.SizeCounts | internal/otel/convert.go:62-72 | sets whose sizes differ modulo 2^32 have different fingerprints, in particular a set and the same with one more pair |
| Fingerprints.TwiceCounts | internal/otel/convert.go:62-72 | a pair taken twice leaves no trace in the exclusive or; another taken twice in its place has the same fingerprint exactly if their mixed digests agree modulo 2^63 |
| Fingerprints.MixTells | internal/otel/convert.go:41-49 | mixing a digest for the sum loses nothing of it |
| Otlp.EveryLogAttributeCounts | internal/otel/convert_logs.go:36-56 | log rows that differ in one pair of the resource or of the scope share a key exactly if the two pairs have one digest, and a row with one pair more never does |
| Otlp.EveryTraceAttributeCounts | internal/otel/convert_traces.go:30-50 | the same for spans and their resource |
| Otlp.SameLogKey | internal/otel/convert_logs.go:36-56 | log rows of one resource and scope identity, attributes in any order, never split over two groups |
| Otlp.SameTraceKey | internal/otel/convert_traces.go:35-43 | nor do spans of one identity |
| Otlp.LogGroup | internal/otel/convert_logs.go:35-89 | if no other identity in play has its key, a log identity has exactly one group, with exactly its rows in order, under its resource and scope up to the order of attributes |
| Otlp.TraceGroup | internal/otel/convert_traces.go:34-97 | if no other identity in play has its key, a span identity has exactly one group, with exactly its spans in order, under its resource up to the order of attributes |
| Fingerprints.FnvAppend | internal/otel/convert.go:23-30 | hashing can be continued: the digest of a text is that of its end from that of its beginning |
| Fingerprints.FnvKeepsApart | internal/otel/convert.go:23-30 | one text folded into two digests gives equal digests exactly when they were equal |
| Fingerprints.EveryByteCounts | internal/otel/convert.go:23-30 | texts that differ in exactly one byte never have the same digest |
| Fingerprints.PairDigest | internal/otel/convert.go:32-39 | a pair is hashed as its key, a mark, its value and another mark |
| Fingerprints.FoldMarkedIs | internal/otel/convert_logs.go:43-51 | hashing fields and marks one after the other is hashing the joined text |
| Fingerprints.OneReading | internal/otel/convert_logs.go:36-42 | a joined text of fields in which no mark strays has one reading |
| Fingerprints.AmbiguousIff | internal/otel/convert_logs.go:36-42 | for any number of fields and different marks between them, a joined text has a second reading if and only if some mark occurs in one of the two fields beside it |
| Fingerprints.PairAmbiguousIff | internal/otel/convert.go:32-39 | another pair is hashed as the same text if and only if this one contains the mark between key and value |
| Otlp.LogScalarIs | internal/otel/convert_logs.go:43-51 | the scalar of a log row is the digest of its five names, joined by four different marks |
| Otlp.TraceScalarIs | internal/otel/convert_traces.go:38-42 | the scalar of a span is the digest of its three names, joined by two different marks |
| Otlp.NamesTold | internal/otel/convert_logs.go:36-42 | if no mark strays in one of them, two log rows are hashed as the same text exactly when all their names are equal |
| Otlp.LogNamesMixIff | internal/otel/convert_logs.go:36-51 | another row with other names is hashed as the same text as a given one, and gets the same group, if and only if a mark of the given one occurs in one of the two names beside it |
| Otlp.TraceNamesMixIff | internal/otel/convert_traces.go:35-42 | another span with other names is hashed as the same text as a given one, and gets the same group, if and only if a mark of the given one occurs in one of the two names beside it |
| Otlp.MarkMovesOver | internal/otel/convert_logs.go:36-51 | two log rows, and two spans, of different services that share a group |
| Otlp.TraceNamesTold | internal/otel/convert_traces.go:35-42 | if no mark strays in one of them, two spans are hashed as the same text exactly when all their names are equal |
| Otlp.EveryNameCounts | internal/otel/convert_logs.go:36-56 | rows whose names differ in exactly one byte never share a group key, for logs and traces |
| Otlp.BuildResource | internal/otel/convert.go:90-105 | the loop yields the row's attributes and the service they do not name yet |
| Otlp.ResourceNamesService | internal/otel/convert.go:90-105 | a resource names a service exactly if its row does in either way, its own attributes stand first, and rows that differ in the order of attributes have resources that do |
| Otlp.ExportBuilder.constructor | internal/otel/convert_traces.go:28-30 | a new builder is empty |
| Otlp.ExportBuilder.Add | internal/otel/convert_logs.go:35-89 | a row goes to the group of the key computed from its identity; the groups stay the grouping of everything added, and the count grows by one |
| Otlp.ExportBuilder.Build | internal/otel/convert_logs.go:91-93 | the request is the grouping of the log and its rows number the count |
| Otlp.ExportBuilder.Reset | internal/otel/convert_logs.go:95-99 | the builder is empty again |
| IdColumns.OnlyTheEndChanges | internal/block/columns.go:55-61 | a loop acts on the last three characters alone: what stands before stays as it is and does not matter |
| IdColumns.ShiftCell | internal/block/columns.go:64-73 | the inner loop shifts one cell of the buffer in place and touches nothing else |
| IdColumns.ShiftColumn | internal/block/columns.go:59-75 | the column is shifted in place, one cell after the other |
| IdColumns.CellShifted | internal/block/columns.go:59-75 | every identifier of the column thereby becomes its shifted self |
| IdColumns.OutsideUntouched | internal/block/columns.go:59-75 | and no byte outside the cells changes |
| IdColumns.ShiftByteGroup | internal/block/columns.go:36-53 | on hex characters shifts stay hex, compose by adding modulo 16, are told apart by their amounts, and shifting by 0 does nothing |
| IdColumns.ShiftByteInjective | internal/block/columns.go:36-53 | shifts by one amount keep apart what was apart |
| IdColumns.ShiftedKeepsLinks | internal/block/traces.go:186-194 | two hex identifiers are equal after a loop exactly when they were equal before, so links between spans, parents and traces survive; hex stays hex |
| IdColumns.LoopsDistinguished | internal/block/columns.go:55-57 | two loops give an identifier the same value exactly when their indexes agree modulo 4096, or modulo 1, 16, 256 for identifiers of length 0, 1, 2 |
| IdColumns.LoopsMeetIff | internal/block/columns.go:29-33 | different identifiers can meet across loops: two hexadecimal ones become the same in some two loops exactly when they have one length and differ in their last three characters only |
| IdColumns.ShiftedInverse | internal/block/columns.go:62-75 | every loop's mutation is undone by that of another loop index, and loop 0 changes nothing |
| IdColumns.NonHexCollidesIff | internal/block/columns.go:45-46 | a byte that is no hex digit can meet a shifted hex digit exactly when it lies less than 16 below a hex range |
| IdColumns.BytesMergedIff | internal/block/columns.go:36-53 | some shift takes two bytes to one exactly when they are equal or one is a hex digit and the other its partner below a hex range |
| IdColumns.IdsMergedIff | internal/block/columns.go:59-75 | some loop gives two identifiers one value if and only if they have one length and differ only in partners among their last three characters; hexadecimal ones only if they are equal |
| IdColumns.SlashMeetsF | internal/block/columns.go:45-46 | loop 1 makes one identifier of two, one ending in a slash and one in f |

## Left out

- Floating-point rounding: values are reals, and the overflow of counts beyond 64 bits and of sums is not modelled.
- Wrap-around of `k + phase` and of millisecond arithmetic: sweeps and instants are unbounded integers; the wrap of nanoseconds at 2^64 is modelled, and order is claimed up to the last instant that fits.
- Workers.Worker.Run: a run of 0 sweeps is cancelled at a horizon that is a parameter, any number, because the source's loop has no end of its own.
- Builders.Builder.AddPoint: attributes, values and exemplars of a point are arbitrary functions of metric, series and sweep there; which values they are is the subject of values.dfy, histograms.dfy and readings.dfy.
- Builders.Builder.AddStalenessMarker: where the source writes zeros beside the flag for no recorded value, the model records nothing.
- Delta sum values and the choice of exemplars: no claim about them is more than a range.
- The sine behind gauges: any wave between -1 and 1, since nothing proved depends on its form.
- Sharing of group objects: groups are addressed by their position in the order where the source shares pointers between a map and a slice, and the metrics of a group are a value inside it, so aliasing is not modelled.
- Builders.GroupIsIdentity: assumes that no other identity in the request has the same 64-bit key, because collisions are possible.
- Otlp.LogGroup: assumes that no other identity among the rows has the same fingerprints, because collisions are possible.
- Otlp.TraceGroup: assumes the same of spans.
- Conversion of log and span fields, identifiers and enumerations to OTLP: field-by-field copying.
- Strings of resource attributes: what the cache builds is an arbitrary function of index and generation.
- The choice of attribute keys and the words behind the values: vocabularies are parameters, required to be what the tables are (40 distinct lower-case words each, pools of distinct words without hyphens).
- What columns hold beyond a number of rows, and what other goroutines do to a block that was given back before it is queued again.
- The insert scheduler's queue probe and the disk worker's cancellation branch: both take blocks from the queue outside the insert worker's run, so no conservation is claimed across them.
- Foreign blocks and double releases: clients of the pool release only what they hold; `Destroy` is not modelled.
- SlidingWindows.SlidingWindow.Add: expects times of reads that do not go back among themselves, as one reader's clock gives them.
- The limiter's token bucket and limit optimisation (internal/disk/speedreader.go:137-215): clamped arithmetic with easy bounds.
- Negative loop indexes in identifier mutation: loops are counted from 0.
- Configuration defaults, validation messages and name tables: their guarantees appear as preconditions.
- gRPC and HTTP clients, marshalling, ClickHouse access, logging and self-metrics: only their outcomes are modelled.
