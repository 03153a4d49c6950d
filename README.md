# Live pulse-shape-discrimination plot: a Dafny model of `update_plot`

`livepsd.py` reads digitiser events from a growing waveform file and plots,
for every accepted event, the charge in a short integration window against the
ratio of long-window to short-window charge. Each animation frame calls
`update_plot`, which does three things:

- **Per-event feature extraction** (lines 52-65). The record's polarity is
  inverted. The median of its first 300 samples is subtracted. Samples below
  `adcThreshold` are zeroed. Two windows that both start at `trigger - lookback`
  are cut out. The event is dropped when the short window's peak is below 150.
  Otherwise the two window sums and their quotient are appended to the tick's
  lists.
- **The retry counter** (lines 41 and 66-71). `error_count` starts at zero in
  every call. It grows by one for each `IndexError` from `read_next` and is
  never reset. The process exits once the count exceeds 10.
- **Accumulation** (lines 73-75). The tick's lists are appended to the global
  arrays `shorts_arr` and `ratios_arr`.

The model has three modules:

- `Stats` (`stats.dfy`): exact-arithmetic `np.sum`, `np.max` and `np.median`.
  The median is defined through an insertion sort; for an even count it is the
  mean of the two middle values.
- `FeatureExtractor` (`features.dfy`): lines 52-65 as functions on a record's
  samples. Samples are integers (ADC counts) and the corrected waveform is real.
  Slicing follows numpy for a step of one: a negative bound counts from the end
  and a bound past either end is clamped.
- `BatchAccumulator` (`accumulator.dfy`) holds three pieces:
  - `Collect`, the polling loop as a method with a `while` loop and its
    invariants, taking the loop body as the step it makes of each poll;
  - `Steps`, that step for update_plot's own body;
  - the class `LiveDataset`, whose `Tick` method runs the loop with that body
    and extends the two arrays.

The wall-clock loop bound is replaced by the finite sequence of poll outcomes
that `read_next` delivered before the deadline. Each outcome is either a record
or `NoData`, which stands for an `IndexError`. A tick ends in one of three ways:
it returns normally, it exits on the eleventh `IndexError`, or it raises.
Raising happens when `np.max` of an empty short window throws `ValueError`,
which the loop's `except IndexError` does not catch.

Three behaviours of the code shape the model:

- The counter is not reset by a successful read. The tick exits on the
  eleventh `IndexError` of that call, whatever lies between.
- A record shorter than 300 samples is not an error. `record[:300]` simply
  takes all of it.
- A zero `short_sum` is not an error. numpy's float division gives inf or nan,
  modelled as `Quantity.NonFinite`. A non-negative threshold alone keeps an
  accepted event from getting there, since its short_sum is at least its peak
  of 150 or more; see `AcceptedShortSumAtLeastFloor`. That the ratio is also at
  least 1 needs in addition `shortWindow <= longWindow` and window stops on one
  side of index 0; see `AcceptedRatioAtLeastOne`.

## Model

| member | source | states |
|---|---|---|
| Stats.SumNonNegative | livepsd.py:61-62 | the sum of non-negative samples is non-negative |
| Stats.SumAtLeastElement | livepsd.py:61 | over non-negative samples the sum is at least every single sample |
| Stats.SumPrefixAtMost | livepsd.py:61-62 | over non-negative samples a prefix sums to at most the whole sequence |
| Stats.MaxIsPeak | livepsd.py:59 | np.max of a non-empty window is one of its samples, and no sample exceeds it |
| Stats.Insert | livepsd.py:53 | insertion adds exactly one element |
| Stats.InsertPermutes | livepsd.py:53 | insertion adds x to the multiset of samples and changes nothing else |
| Stats.InsertSorted | livepsd.py:53 | insertion into a sorted sequence leaves it sorted |
| Stats.SortedOf | livepsd.py:53 | the sorted order has as many samples as the input |
| Stats.SortedOfSorted | livepsd.py:53 | the order the median reads is ascending |
| Stats.SortedOfPermutes | livepsd.py:53 | the order the median reads is a permutation of the samples |
| Stats.MedianBetweenSamples | livepsd.py:53 | the median lies between two of the samples |
| Stats.ShiftedCons | livepsd.py:53 | subtracting a constant distributes over a leading sample |
| Stats.InsertShifted | livepsd.py:53 | subtracting a constant from every sample commutes with insertion |
| Stats.SortedOfShifted | livepsd.py:53 | subtracting a constant from every sample commutes with sorting |
| Stats.MedianShifted | livepsd.py:53 | subtracting c from every sample subtracts c from the median |
| FeatureExtractor.Inverted | livepsd.py:52 | `record * -1`: same length, every sample negated |
| FeatureExtractor.BaselineRegionShifted | livepsd.py:53 | taking the first 300 samples commutes with subtracting a constant |
| FeatureExtractor.Thresholded | livepsd.py:54 | same length; samples below the threshold become 0 and the others are kept, so every sample is 0 or at least the threshold |
| FeatureExtractor.Baselined | livepsd.py:52-53 | the inverted, baseline-subtracted record has one sample per recorded sample |
| FeatureExtractor.Waveform | livepsd.py:52-54 | the corrected waveform has one sample per recorded sample |
| FeatureExtractor.WaveformZeroOrAboveThreshold | livepsd.py:52-54 | after lines 52-54 every sample is exactly 0 or at least adcThreshold |
| FeatureExtractor.BaselineRemoved | livepsd.py:53 | after the subtraction, the median of the first 300 samples is 0 |
| FeatureExtractor.SliceBound | livepsd.py:55-58 | a slice bound lands in [0, n]; an in-range bound is kept and a negative one counts from the end |
| FeatureExtractor.Slice | livepsd.py:55-58 | with in-range ordered bounds the slice is exactly that index range |
| FeatureExtractor.SliceNonNegative | livepsd.py:55-58 | a slice of non-negative samples is non-negative |
| FeatureExtractor.SlicePrefix | livepsd.py:55-58 | with one start and ordered stops of one sign, the shorter slice is a prefix of the longer |
| FeatureExtractor.ShortWindowIsPrefix | livepsd.py:55-58 | when shortWindow <= longWindow, and the two stops trigger + shortWindow and trigger + longWindow are not on opposite sides of 0, the short window is a prefix of the long window |
| FeatureExtractor.WindowsInRange | livepsd.py:55-58 | with in-range indices both windows are the index ranges starting at trigger - lookback |
| FeatureExtractor.ExtractCases | livepsd.py:59-60 | an event is rejected exactly when its short window is non-empty with peak below 150, it fails exactly when that window is empty, and it is accepted otherwise |
| FeatureExtractor.WindowsNonNegative | livepsd.py:54-58 | with adcThreshold >= 0 both windows hold only non-negative samples |
| FeatureExtractor.QuotientAtLeastOne | livepsd.py:65 | a positive divisor not above the dividend gives a finite quotient of at least 1 |
| FeatureExtractor.AcceptedShortSumAtLeastFloor | livepsd.py:54-65 | with adcThreshold >= 0 and any windows, an accepted event has short_sum >= 150, so line 65 never divides by zero and its ratio is finite |
| FeatureExtractor.AcceptedRatioAtLeastOne | livepsd.py:54-65 | with adcThreshold >= 0, shortWindow <= longWindow and the two window stops not on opposite sides of 0, an accepted event has short_sum >= 150 and long_sum >= short_sum, and its ratio is finite and at least 1 |
| BatchAccumulator.StepsWith | livepsd.py:46-71 | the loop makes one step per poll |
| BatchAccumulator.StepsAt | livepsd.py:46-71 | step i of update_plot's loop is the step of poll i |
| BatchAccumulator.StepsAppend | livepsd.py:47-49 | the steps of consecutive batches of polls are the steps of each batch, concatenated |
| BatchAccumulator.StepOfCases | livepsd.py:49-66 | only an IndexError counts as missed; a record is skipped exactly when its short window's peak is below 150, and appended exactly when it is at least 150 |
| BatchAccumulator.FirstStopFrom | livepsd.py:47-71 | the loop stops at the first step that raises or takes error_count past 10, and at no earlier step |
| BatchAccumulator.ShortSums | livepsd.py:63 | one short sum per accepted event |
| BatchAccumulator.LongSums | livepsd.py:64 | one long sum per accepted event |
| BatchAccumulator.Ratios | livepsd.py:65 | one ratio per accepted event |
| BatchAccumulator.StepEffect | livepsd.py:63-68 | one step adds 1 to error_count only on an IndexError, appends a feature only when accepted, and stops only on a raise or the eleventh IndexError |
| BatchAccumulator.FeatureListsSnoc | livepsd.py:63-65 | an accepted event appends exactly one entry to each of shorts, longs and ratios |
| BatchAccumulator.NotStoppedYet | livepsd.py:47-71 | a step before the first stop that does not stop the loop moves the loop past it |
| BatchAccumulator.FirstStopIs | livepsd.py:47-71 | an index with no stop before it and a stop at it is the first stop |
| BatchAccumulator.Collect | livepsd.py:41-71 | the loop's result is how its steps end; error_count is the number of IndexErrors it consumed; shorts, longs and ratios are the sums and ratios of the accepted events before the stop, in read order and of equal length |
| BatchAccumulator.LiveDataset.constructor | livepsd.py:16-19 | both global arrays start empty and in lockstep |
| BatchAccumulator.LiveDataset.Tick | livepsd.py:40-75 | a normal return appends the tick's short sums and ratios after the unchanged old contents; an exit or a raise leaves both arrays unchanged; the arrays stay in lockstep |
| BatchAccumulator.MissedCountStep | livepsd.py:41-67 | error_count starts at 0, an IndexError adds exactly 1 and any other step leaves it unchanged |
| BatchAccumulator.MissedCountMonotone | livepsd.py:67 | error_count never decreases along the loop |
| BatchAccumulator.WithinBudgetBeforeStop | livepsd.py:66-70 | before the loop stops, error_count is at most 10 |
| BatchAccumulator.ExitsOnEleventhMiss | livepsd.py:66-70 | the tick exits exactly when some IndexError is the eleventh of the tick and no record raised before it; error_count is then 11 |
| BatchAccumulator.ReturnsIff | livepsd.py:47-71 | the tick returns normally exactly when it saw at most ten IndexErrors and no record raised |
| BatchAccumulator.AddedFeaturesAppend | livepsd.py:49-65 | the features of consecutive runs of steps are concatenated in read order |
| BatchAccumulator.AddedFeaturesOfOne | livepsd.py:59-65 | one step contributes its feature if accepted and nothing otherwise |
| BatchAccumulator.AddedFeaturesFromSteps | livepsd.py:63-65 | every stored feature is the feature of some accepted record |
| BatchAccumulator.AddedShortSumsAtLeastFloor | livepsd.py:54-65 | with adcThreshold >= 0 and any windows, every feature a tick stores has short_sum >= 150 and a finite ratio |
| BatchAccumulator.AddedRatiosAtLeastOne | livepsd.py:54-65 | with adcThreshold >= 0, shortWindow <= longWindow and the two window stops not on opposite sides of 0, every feature a tick stores has short_sum >= 150 and a finite ratio of at least 1 |
| BatchAccumulator.DefaultRatiosAtLeastOne | livepsd.py:27-36 | under the command line's default options every feature a tick stores has short_sum >= 150 and a finite ratio of at least 1 |

## Left out

- Wall-clock timing is not modelled. This covers the `time.time()` bound of line 47 and the `time.sleep(1)` of line 71; the loop runs over the finite sequence of polls made before the deadline. With a real clock the one-second sleep uses up the tick's one-second budget, so a tick sees at most one `IndexError`, and the exit of line 70 is reached only if the loop body runs eleven times without time passing.
- `read_next` and the `gimmedatwave` parser (lines 14 and 83-84) are `gimmedatwave` code, which is not part of this model. A poll is either a record (id and integer samples) or `NoData` for its `IndexError`.
- `np.log10` at line 75 is not modelled. `LiveDataset.Tick` stores the raw ratio long_sum / short_sum where the source stores its base-10 logarithm.
- Floating-point rounding is not modelled: sums, the median and the quotient are exact reals. Only division by zero keeps its IEEE outcome, as `NonFinite`.
- The record's numpy dtype is not modelled. On a signed integer dtype, `record * -1` wraps the dtype's minimum value back to itself. On an unsigned dtype it does not wrap: NumPy 1 promotes to a signed type, and NumPy 2 raises OverflowError, which the loop does not catch. The model negates exactly.
- The NaN median of an empty record is not modelled; an empty record yields an empty waveform, and its empty short window raises as in the code.
- The progress prints (lines 50-51, 69, 72) are left out.
- `argparse` (lines 22-37), the plot set-up and `sc.set_offsets` / `set_sizes` (lines 76-77, 85-91) are left out. The integer options become `Config`, with the command line's defaults in `DEFAULT_CONFIG`.
- `LiveDataset.Tick`: after an exception the model returns `Raised` with the dataset unchanged. In the program the exception leaves `update_plot` and reaches the animation framework.
- `ShortWindowIsPrefix`, `AcceptedRatioAtLeastOne` and `AddedRatiosAtLeastOne` assume that the two window stops are not on opposite sides of index 0. numpy's negative indexing wraps only the negative stop, so there the short window need not be a prefix of the long one and the ratio can be below 1. The short_sum >= 150 and finite-ratio halves hold without that condition, in `AcceptedShortSumAtLeastFloor` and `AddedShortSumsAtLeastFloor`.
