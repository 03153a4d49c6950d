/** Pulse-shape-discrimination features of one digitised waveform
    (livepsd.py, update_plot, lines 52-65): polarity inversion, baseline
    subtraction, thresholding, the short and long integration windows, the
    amplitude floor and the long/short charge ratio. */
module FeatureExtractor {
  import opened Stats

  /** The integer options of the command line (livepsd.py:27-36). */
  datatype Config = Config(trigger: int, shortWindow: int, longWindow: int, lookback: int, adcThreshold: int)

  const DEFAULT_CONFIG := Config(630, 10, 1000, 5, 15)

  /** The baseline is the median of this many leading samples. */
  const BASELINE_SAMPLES: nat := 300

  /** A short window whose peak is below this is not a pulse of interest. */
  const AMPLITUDE_FLOOR: real := 150.0

  /** A float64 quotient: a zero divisor gives inf or nan, not an exception. */
  datatype Quantity = Finite(value: real) | NonFinite

  /** short_sum and long_sum of an accepted event. */
  datatype Feature = Feature(shortSum: real, longSum: real)

  /** Accepted: a feature to append. Rejected: the `continue` of line 60.
      Failed: np.max of an empty short window raises ValueError, which the
      loop's `except IndexError` does not catch. */
  datatype Extraction = Accepted(feature: Feature) | Rejected | Failed

  /** record * -1 */
  function Inverted(s: seq<int>): (r: seq<real>)
    ensures |r| == |s|
    ensures forall i :: 0 <= i < |s| ==> r[i] == -(s[i] as real)
  {
    seq(|s|, i requires 0 <= i < |s| => -(s[i] as real))
  }

  /** record[:300]: a record shorter than 300 samples gives all of itself. */
  function BaselineRegion(s: seq<real>): (r: seq<real>)
  {
    if |s| <= BASELINE_SAMPLES then s else s[..BASELINE_SAMPLES]
  }

  lemma BaselineRegionShifted(s: seq<real>, c: real)
    ensures BaselineRegion(Shifted(s, c)) == Shifted(BaselineRegion(s), c)
  {
  }

  /** record[record < adcThreshold] = 0 */
  function Thresholded(s: seq<real>, threshold: int): (r: seq<real>)
    ensures |r| == |s|
    ensures forall i :: 0 <= i < |s| ==> r[i] == 0.0 || r[i] >= threshold as real
    ensures forall i :: 0 <= i < |s| && s[i] >= threshold as real ==> r[i] == s[i]
    ensures forall i :: 0 <= i < |s| && s[i] < threshold as real ==> r[i] == 0.0
  {
    seq(|s|, i requires 0 <= i < |s| => if s[i] < threshold as real then 0.0 else s[i])
  }

  /** The record after lines 52-53: inverted, then the median of its first
      300 samples subtracted. An empty record stays empty (its NaN median
      touches no sample). */
  function Baselined(samples: seq<int>): (r: seq<real>)
    ensures |r| == |samples|
  {
    if samples == [] then []
    else
      var inverted := Inverted(samples);
      Shifted(inverted, Median(BaselineRegion(inverted)))
  }

  /** The waveform after lines 52-54: baseline-subtracted, then thresholded. */
  function Waveform(cfg: Config, samples: seq<int>): (w: seq<real>)
    ensures |w| == |samples|
  {
    Thresholded(Baselined(samples), cfg.adcThreshold)
  }

  /** Python's reading of one slice bound against a sequence of length n:
      a negative bound counts from the end, and a bound past either end is
      clamped to it. */
  function SliceBound(i: int, n: nat): (b: nat)
    ensures b <= n
    ensures 0 <= i <= n ==> b == i
    ensures i < 0 && -i <= n ==> b == n + i
  {
    if i < 0 then (if i + n < 0 then 0 else i + n)
    else if i > n then n
    else i
  }

  /** s[start:stop] with numpy's semantics for a step of one. */
  function Slice(s: seq<real>, start: int, stop: int): (r: seq<real>)
    ensures 0 <= start <= stop <= |s| ==> r == s[start..stop]
  {
    var a, b := SliceBound(start, |s|), SliceBound(stop, |s|);
    if b <= a then [] else s[a..b]
  }

  lemma SliceNonNegative(s: seq<real>, start: int, stop: int)
    requires NonNegative(s)
    ensures NonNegative(Slice(s, start, stop))
  {
  }

  /** Slices with one start and ordered stops of the same sign: the shorter is
      a prefix of the longer. */
  lemma SlicePrefix(s: seq<real>, start: int, stop1: int, stop2: int)
    requires stop1 <= stop2
    requires 0 <= stop1 || stop2 < 0
    ensures |Slice(s, start, stop1)| <= |Slice(s, start, stop2)|
    ensures Slice(s, start, stop1) == Slice(s, start, stop2)[..|Slice(s, start, stop1)|]
  {
  }

  /** Both windows open at trigger - lookback. */
  function WindowStart(cfg: Config): int
  {
    cfg.trigger - cfg.lookback
  }

  function ShortWindow(cfg: Config, samples: seq<int>): seq<real>
  {
    Slice(Waveform(cfg, samples), WindowStart(cfg), cfg.trigger + cfg.shortWindow)
  }

  function LongWindow(cfg: Config, samples: seq<int>): seq<real>
  {
    Slice(Waveform(cfg, samples), WindowStart(cfg), cfg.trigger + cfg.longWindow)
  }

  /** IEEE division as numpy's float64 scalars do it. */
  function Divide(n: real, d: real): Quantity
  {
    if d == 0.0 then NonFinite else Finite(n / d)
  }

  /** The per-event body of the tick loop, lines 52-65. */
  function Extract(cfg: Config, samples: seq<int>): Extraction
  {
    var short := ShortWindow(cfg, samples);
    var long := LongWindow(cfg, samples);
    if short == [] then Failed
    else if Max(short) < AMPLITUDE_FLOOR then Rejected
    else Accepted(Feature(Sum(short), Sum(long)))
  }

  /** long_sum / short_sum (line 65). */
  function Ratio(f: Feature): Quantity
  {
    Divide(f.longSum, f.shortSum)
  }

  // ---------------------------------------------------------------------
  // Properties of the extraction

  /** After lines 52-54 every sample is exactly zero or at least the ADC threshold. */
  lemma WaveformZeroOrAboveThreshold(cfg: Config, samples: seq<int>, i: int)
    requires 0 <= i < |samples|
    ensures Waveform(cfg, samples)[i] == 0.0 || Waveform(cfg, samples)[i] >= cfg.adcThreshold as real
  {
  }

  /** Subtracting the median of the first 300 samples leaves a record whose
      first 300 samples have median zero (before thresholding). */
  lemma {:induction false} BaselineRemoved(samples: seq<int>)
    requires samples != []
    ensures Median(BaselineRegion(Baselined(samples))) == 0.0
  {
    var v := Inverted(samples);
    var c := Median(BaselineRegion(v));
    BaselineRegionShifted(v, c);
    MedianShifted(BaselineRegion(v), c);
  }

  /** Both windows start at trigger - lookback, and when shortWindow <=
      longWindow the short window is a prefix of the long one (provided the two
      stops do not lie on opposite sides of index zero, where Python's negative
      indexing would wrap only one of them). */
  lemma ShortWindowIsPrefix(cfg: Config, samples: seq<int>)
    requires cfg.shortWindow <= cfg.longWindow
    requires 0 <= cfg.trigger + cfg.shortWindow || cfg.trigger + cfg.longWindow < 0
    ensures |ShortWindow(cfg, samples)| <= |LongWindow(cfg, samples)|
    ensures ShortWindow(cfg, samples) == LongWindow(cfg, samples)[..|ShortWindow(cfg, samples)|]
  {
  }

  /** With in-range indices the windows are exactly the index ranges
      [trigger - lookback, trigger + shortWindow) and [trigger - lookback, trigger + longWindow). */
  lemma WindowsInRange(cfg: Config, samples: seq<int>)
    requires 0 <= WindowStart(cfg) <= cfg.trigger + cfg.shortWindow <= |samples|
    requires WindowStart(cfg) <= cfg.trigger + cfg.longWindow <= |samples|
    ensures ShortWindow(cfg, samples) == Waveform(cfg, samples)[WindowStart(cfg)..cfg.trigger + cfg.shortWindow]
    ensures LongWindow(cfg, samples) == Waveform(cfg, samples)[WindowStart(cfg)..cfg.trigger + cfg.longWindow]
  {
  }

  /** The event is skipped exactly when its short window has samples and
      their peak is below 150; it fails exactly when the short window is empty. */
  lemma ExtractCases(cfg: Config, samples: seq<int>)
    ensures Extract(cfg, samples).Failed? <==> ShortWindow(cfg, samples) == []
    ensures Extract(cfg, samples).Rejected? <==>
              ShortWindow(cfg, samples) != [] && Max(ShortWindow(cfg, samples)) < AMPLITUDE_FLOOR
    ensures Extract(cfg, samples).Accepted? <==>
              ShortWindow(cfg, samples) != [] && Max(ShortWindow(cfg, samples)) >= AMPLITUDE_FLOOR
  {
  }

  /** With a non-negative ADC threshold every sample of either window is non-negative. */
  lemma WindowsNonNegative(cfg: Config, samples: seq<int>)
    requires cfg.adcThreshold >= 0
    ensures NonNegative(ShortWindow(cfg, samples))
    ensures NonNegative(LongWindow(cfg, samples))
  {
  }

  lemma QuotientAtLeastOne(n: real, d: real)
    requires 0.0 < d <= n
    ensures Divide(n, d) == Finite(n / d) && n / d >= 1.0
  {
  }

  /** Under a non-negative threshold alone, an accepted event has short_sum >=
      150, so line 65 never divides by zero, whatever the window sizes. */
  lemma {:induction false} AcceptedShortSumAtLeastFloor(cfg: Config, samples: seq<int>)
    requires cfg.adcThreshold >= 0
    requires Extract(cfg, samples).Accepted?
    ensures Extract(cfg, samples).feature.shortSum >= AMPLITUDE_FLOOR
    ensures Ratio(Extract(cfg, samples).feature).Finite?
  {
    var short := ShortWindow(cfg, samples);
    WindowsNonNegative(cfg, samples);
    MaxIsPeak(short);
    var peak :| 0 <= peak < |short| && short[peak] == Max(short);
    SumAtLeastElement(short, peak);
  }

  /** An accepted event, under a non-negative threshold, shortWindow <=
      longWindow and window stops on one side of index 0, also has long_sum >=
      short_sum, so its ratio is finite and at least one. */
  lemma {:induction false} AcceptedRatioAtLeastOne(cfg: Config, samples: seq<int>)
    requires cfg.adcThreshold >= 0
    requires cfg.shortWindow <= cfg.longWindow
    requires 0 <= cfg.trigger + cfg.shortWindow || cfg.trigger + cfg.longWindow < 0
    requires Extract(cfg, samples).Accepted?
    ensures Extract(cfg, samples).feature.shortSum >= AMPLITUDE_FLOOR
    ensures Extract(cfg, samples).feature.longSum >= Extract(cfg, samples).feature.shortSum
    ensures Ratio(Extract(cfg, samples).feature).Finite?
    ensures Ratio(Extract(cfg, samples).feature).value >= 1.0
  {
    var short, long := ShortWindow(cfg, samples), LongWindow(cfg, samples);
    AcceptedShortSumAtLeastFloor(cfg, samples);
    WindowsNonNegative(cfg, samples);
    ShortWindowIsPrefix(cfg, samples);
    SumPrefixAtMost(long, |short|);
    QuotientAtLeastOne(Sum(long), Sum(short));
  }
}
