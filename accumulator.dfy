/** One animation tick of the live PSD plot (livepsd.py, update_plot, lines
    40-78): the polling loop with its IndexError retry counter, and the
    accumulation of the tick's accepted events into the growing dataset.
    The wall-clock bound of the loop is replaced by the finite sequence of
    poll outcomes the source delivered before the deadline. */
module BatchAccumulator {
  import opened Stats
  import opened FeatureExtractor

  /** The tick ends the process once more than this many reads have failed. */
  const RETRY_BUDGET: nat := 10

  /** What one call of read_next gave: an event, or IndexError (no new record yet). */
  datatype Poll = Record(id: int, samples: seq<int>) | NoData

  /** Returned: the loop ran out of time and the dataset was extended.
      Exited: sys.exit() after too many IndexErrors.
      Raised: an exception other than IndexError left update_plot. */
  datatype TickResult = Returned | Exited | Raised

  /** What the loop body makes of one poll: an IndexError (Missed), a
      rejected event (Skipped, the `continue` of line 60), an accepted event
      (Added), or an exception that leaves update_plot (Crashed). */
  datatype Step = Missed | Skipped | Added(feature: Feature) | Crashed

  function StepOf(cfg: Config, p: Poll): Step
  {
    match p
    case NoData => Missed
    case Record(_, samples) =>
      match Extract(cfg, samples)
      case Failed => Crashed
      case Rejected => Skipped
      case Accepted(f) => Added(f)
  }

  /** The body of the polling loop (lines 46-71) for one configuration. */
  function LoopBody(cfg: Config): Poll -> Step
  {
    p => StepOf(cfg, p)
  }

  /** What a loop body makes of each poll, in order. */
  function StepsWith(body: Poll -> Step, polls: seq<Poll>): (steps: seq<Step>)
    ensures |steps| == |polls|
  {
    seq(|polls|, i requires 0 <= i < |polls| => body(polls[i]))
  }

  /** The steps of update_plot's own loop body. */
  function Steps(cfg: Config, polls: seq<Poll>): seq<Step>
  {
    StepsWith(LoopBody(cfg), polls)
  }

  lemma StepsAt(cfg: Config, polls: seq<Poll>, i: int)
    requires 0 <= i < |polls|
    ensures |Steps(cfg, polls)| == |polls|
    ensures Steps(cfg, polls)[i] == StepOf(cfg, polls[i])
  {
  }

  /** The number of IndexErrors among the steps: error_count. */
  function MissedCount(steps: seq<Step>): nat
  {
    if steps == [] then 0
    else MissedCount(steps[..|steps| - 1]) + (if steps[|steps| - 1].Missed? then 1 else 0)
  }

  /** The features of the accepted events among the steps, in poll order. */
  function AddedFeatures(steps: seq<Step>): seq<Feature>
  {
    if steps == [] then []
    else
      var earlier := AddedFeatures(steps[..|steps| - 1]);
      match steps[|steps| - 1]
      case Added(f) => earlier + [f]
      case _ => earlier
  }

  /** The loop leaves update_plot at step i: on the IndexError that takes
      error_count past the budget, or on an exception. */
  predicate StopsAt(steps: seq<Step>, i: nat)
    requires i < |steps|
  {
    match steps[i]
    case Missed => MissedCount(steps[..i + 1]) > RETRY_BUDGET
    case Crashed => true
    case _ => false
  }

  /** The first step at or after i where the loop stops, or |steps| if none. */
  function FirstStopFrom(steps: seq<Step>, i: nat): (k: nat)
    requires i <= |steps|
    ensures i <= k <= |steps|
    ensures forall j :: i <= j < k ==> !StopsAt(steps, j)
    ensures k < |steps| ==> StopsAt(steps, k)
    decreases |steps| - i
  {
    if i == |steps| || StopsAt(steps, i) then i else FirstStopFrom(steps, i + 1)
  }

  function FirstStop(steps: seq<Step>): nat
  {
    FirstStopFrom(steps, 0)
  }

  /** How the tick ends. */
  function Outcome(steps: seq<Step>): TickResult
  {
    var k := FirstStop(steps);
    if k == |steps| then Returned
    else if steps[k].Missed? then Exited
    else Raised
  }

  /** The steps the loop actually took: up to and including the one it stopped at. */
  function Consumed(steps: seq<Step>): seq<Step>
  {
    var k := FirstStop(steps);
    if k < |steps| then steps[..k + 1] else steps
  }

  /** No step before index j raised. */
  predicate NoCrashBefore(steps: seq<Step>, j: int)
    requires j <= |steps|
  {
    forall i :: 0 <= i < j ==> !steps[i].Crashed?
  }

  function ShortSums(fs: seq<Feature>): (r: seq<real>)
    ensures |r| == |fs|
  {
    seq(|fs|, i requires 0 <= i < |fs| => fs[i].shortSum)
  }

  function LongSums(fs: seq<Feature>): (r: seq<real>)
    ensures |r| == |fs|
  {
    seq(|fs|, i requires 0 <= i < |fs| => fs[i].longSum)
  }

  function Ratios(fs: seq<Feature>): (r: seq<Quantity>)
    ensures |r| == |fs|
  {
    seq(|fs|, i requires 0 <= i < |fs| => Ratio(fs[i]))
  }

  /** What the loop's step i does to error_count, to the accepted features and to the stop condition. */
  lemma StepEffect(steps: seq<Step>, i: nat)
    requires i < |steps|
    ensures MissedCount(steps[..i + 1]) == MissedCount(steps[..i]) + (if steps[i].Missed? then 1 else 0)
    ensures AddedFeatures(steps[..i + 1]) ==
              AddedFeatures(steps[..i]) + (if steps[i].Added? then [steps[i].feature] else [])
    ensures StopsAt(steps, i) <==>
              steps[i].Crashed? || (steps[i].Missed? && MissedCount(steps[..i]) + 1 > RETRY_BUDGET)
  {
    assert steps[..i + 1][..i] == steps[..i];
  }

  lemma FeatureListsSnoc(fs: seq<Feature>, f: Feature)
    ensures ShortSums(fs + [f]) == ShortSums(fs) + [f.shortSum]
    ensures LongSums(fs + [f]) == LongSums(fs) + [f.longSum]
    ensures Ratios(fs + [f]) == Ratios(fs) + [Ratio(f)]
  {
  }

  /** A step that does not stop the loop, taken before the first stop, moves past it. */
  lemma NotStoppedYet(steps: seq<Step>, i: nat)
    requires i < |steps| && i <= FirstStop(steps)
    requires !StopsAt(steps, i)
    ensures i + 1 <= FirstStop(steps)
  {
  }

  lemma FirstStopIs(steps: seq<Step>, k: nat)
    requires k <= |steps|
    requires forall j :: 0 <= j < k ==> !StopsAt(steps, j)
    requires k < |steps| ==> StopsAt(steps, k)
    ensures FirstStop(steps) == k
  {
  }

  /** The polling loop of lines 41-71, run over the polls read before the
      deadline, with the loop body given as the step it makes of each poll.
      It returns how the loop ended, the per-tick lists shorts, longs and
      ratios, and error_count. */
  method Collect(body: Poll -> Step, polls: seq<Poll>)
    returns (result: TickResult, shorts: seq<real>, longs: seq<real>, ratios: seq<Quantity>, errorCount: nat)
    ensures var steps := StepsWith(body, polls);
            result == Outcome(steps) &&
            errorCount == MissedCount(Consumed(steps))
    ensures var steps := StepsWith(body, polls);
            var done := AddedFeatures(steps[..FirstStop(steps)]);
            shorts == ShortSums(done) && longs == LongSums(done) && ratios == Ratios(done)
    ensures |shorts| == |longs| == |ratios|
  {
    ghost var steps := StepsWith(body, polls);
    errorCount := 0;
    shorts, longs, ratios := [], [], [];
    var i := 0;
    while i < |polls|
      invariant 0 <= i <= |polls|
      invariant i <= FirstStop(steps)
      invariant errorCount == MissedCount(steps[..i])
      invariant shorts == ShortSums(AddedFeatures(steps[..i]))
      invariant longs == LongSums(AddedFeatures(steps[..i]))
      invariant ratios == Ratios(AddedFeatures(steps[..i]))
    {
      var step := body(polls[i]);
      assert step == steps[i];
      StepEffect(steps, i);
      match step {
        case Missed =>
          errorCount := errorCount + 1;
          if errorCount > RETRY_BUDGET {
            return Exited, shorts, longs, ratios, errorCount;
          }
        case Crashed =>
          return Raised, shorts, longs, ratios, errorCount;
        case Skipped =>
        case Added(f) =>
          FeatureListsSnoc(AddedFeatures(steps[..i]), f);
          shorts := shorts + [f.shortSum];
          longs := longs + [f.longSum];
          ratios := ratios + [Divide(f.longSum, f.shortSum)];
      }
      NotStoppedYet(steps, i);
      i := i + 1;
    }
    assert steps[..|polls|] == steps;
    result := Returned;
  }

  /** The globals shorts_arr and ratios_arr (livepsd.py:16-19), grown by each tick. */
  class LiveDataset {
    var shortSums: seq<real>
    var ratios: seq<Quantity>

    /** The two arrays stay in lockstep: entry i of each belongs to the i-th accepted event. */
    ghost predicate Valid()
      reads this
    {
      |shortSums| == |ratios|
    }

    constructor ()
      ensures Valid()
      ensures shortSums == [] && ratios == []
    {
      shortSums := [];
      ratios := [];
    }

    /** update_plot: run the polling loop, then (if it returned) append the
        tick's accepted events (lines 73-75). An exit or an exception leaves
        the dataset as it was and loses the tick's events. */
    method Tick(cfg: Config, polls: seq<Poll>) returns (result: TickResult)
      requires Valid()
      modifies this
      ensures Valid()
      ensures result == Outcome(Steps(cfg, polls))
      ensures result == Returned ==>
                shortSums == old(shortSums) + ShortSums(AddedFeatures(Steps(cfg, polls))) &&
                ratios == old(ratios) + Ratios(AddedFeatures(Steps(cfg, polls)))
      ensures result != Returned ==> shortSums == old(shortSums) && ratios == old(ratios)
    {
      var shorts, longs, tickRatios, errorCount;
      result, shorts, longs, tickRatios, errorCount := Collect(LoopBody(cfg), polls);
      if result == Returned {
        ghost var steps := Steps(cfg, polls);
        assert steps[..FirstStop(steps)] == steps;
        shortSums := shortSums + shorts;
        ratios := ratios + tickRatios;
      }
    }
  }

  // ---------------------------------------------------------------------
  // Properties of the tick

  /** Only an IndexError is a Missed step; a record is Skipped exactly when
      its short window's peak is below 150. */
  lemma StepOfCases(cfg: Config, p: Poll)
    ensures StepOf(cfg, p).Missed? <==> p.NoData?
    ensures StepOf(cfg, p).Crashed? <==> p.Record? && ShortWindow(cfg, p.samples) == []
    ensures StepOf(cfg, p).Skipped? <==>
              p.Record? && ShortWindow(cfg, p.samples) != [] && Max(ShortWindow(cfg, p.samples)) < AMPLITUDE_FLOOR
    ensures StepOf(cfg, p).Added? <==>
              p.Record? && ShortWindow(cfg, p.samples) != [] && Max(ShortWindow(cfg, p.samples)) >= AMPLITUDE_FLOOR
  {
  }

  /** error_count starts at zero, grows by one per IndexError and is left
      alone by every other step. */
  lemma MissedCountStep(steps: seq<Step>, s: Step)
    ensures MissedCount([]) == 0
    ensures MissedCount(steps + [s]) == MissedCount(steps) + (if s.Missed? then 1 else 0)
  {
  }

  lemma {:induction false} MissedCountMonotone(steps: seq<Step>, i: nat, j: nat)
    requires i <= j <= |steps|
    ensures MissedCount(steps[..i]) <= MissedCount(steps[..j])
    decreases j - i
  {
    if i < j {
      assert steps[..j][..j - 1] == steps[..j - 1];
      MissedCountMonotone(steps, i, j - 1);
    }
  }

  /** Before the loop stops, at most ten IndexErrors have been seen. */
  lemma {:induction false} WithinBudgetBeforeStop(steps: seq<Step>, j: nat)
    requires j <= |steps|
    requires forall i :: 0 <= i < j ==> !StopsAt(steps, i)
    ensures MissedCount(steps[..j]) <= RETRY_BUDGET
  {
    if j > 0 {
      WithinBudgetBeforeStop(steps, j - 1);
      assert steps[..j][..j - 1] == steps[..j - 1];
      assert !StopsAt(steps, j - 1);
    }
  }

  /** The tick exits exactly on the eleventh IndexError, never earlier, provided
      no record before it raised; error_count is then eleven. */
  lemma ExitsOnEleventhMiss(steps: seq<Step>)
    ensures Outcome(steps) == Exited <==>
              exists j :: 0 <= j < |steps| && steps[j].Missed? &&
                          MissedCount(steps[..j + 1]) == RETRY_BUDGET + 1 &&
                          NoCrashBefore(steps, j)
    ensures Outcome(steps) == Exited ==> MissedCount(Consumed(steps)) == RETRY_BUDGET + 1
  {
    var k := FirstStop(steps);
    if Outcome(steps) == Exited {
      WithinBudgetBeforeStop(steps, k);
      assert steps[..k + 1][..k] == steps[..k];
      assert NoCrashBefore(steps, k) by {
        forall i | 0 <= i < k
          ensures !steps[i].Crashed?
        {
          assert !StopsAt(steps, i);
        }
      }
    }
    if j :| 0 <= j < |steps| && steps[j].Missed? &&
            MissedCount(steps[..j + 1]) == RETRY_BUDGET + 1 && NoCrashBefore(steps, j) {
      forall i | 0 <= i < j
        ensures !StopsAt(steps, i)
      {
        if steps[i].Missed? {
          assert steps[..j + 1][..j] == steps[..j];
          MissedCountMonotone(steps, i + 1, j);
        }
      }
      FirstStopIs(steps, j);
    }
  }

  /** The tick returns normally exactly when it saw at most ten IndexErrors
      and no record raised. */
  lemma ReturnsIff(steps: seq<Step>)
    ensures Outcome(steps) == Returned <==>
              MissedCount(steps) <= RETRY_BUDGET && NoCrashBefore(steps, |steps|)
  {
    if Outcome(steps) == Returned {
      WithinBudgetBeforeStop(steps, |steps|);
      assert steps[..|steps|] == steps;
      forall i | 0 <= i < |steps|
        ensures !steps[i].Crashed?
      {
        assert !StopsAt(steps, i);
      }
    }
    if MissedCount(steps) <= RETRY_BUDGET && NoCrashBefore(steps, |steps|) {
      forall i | 0 <= i < |steps|
        ensures !StopsAt(steps, i)
      {
        if steps[i].Missed? {
          assert steps[..|steps|] == steps;
          MissedCountMonotone(steps, i + 1, |steps|);
        }
      }
      FirstStopIs(steps, |steps|);
    }
  }

  /** Accepted events enter in the order they were read; rejected events and
      IndexErrors contribute nothing. */
  lemma {:induction false} AddedFeaturesAppend(p: seq<Step>, q: seq<Step>)
    ensures AddedFeatures(p + q) == AddedFeatures(p) + AddedFeatures(q)
    decreases |q|
  {
    if q == [] {
      assert p + q == p;
    } else {
      var q' := q[..|q| - 1];
      assert (p + q)[..|p + q| - 1] == p + q';
      assert (p + q)[|p + q| - 1] == q[|q| - 1];
      AddedFeaturesAppend(p, q');
    }
  }

  /** What one step contributes on its own: its feature if accepted, else nothing. */
  lemma AddedFeaturesOfOne(s: Step)
    ensures AddedFeatures([s]) == if s.Added? then [s.feature] else []
  {
  }

  /** Steps and feature lists are split by the same prefix of the polls. */
  lemma StepsAppend(cfg: Config, p: seq<Poll>, q: seq<Poll>)
    ensures Steps(cfg, p + q) == Steps(cfg, p) + Steps(cfg, q)
  {
  }

  /** Every stored feature is the feature of some accepted record. */
  lemma {:induction false} AddedFeaturesFromSteps(steps: seq<Step>, k: int)
    requires 0 <= k < |AddedFeatures(steps)|
    ensures exists i :: 0 <= i < |steps| && steps[i] == Added(AddedFeatures(steps)[k])
    decreases |steps|
  {
    var n := |steps| - 1;
    var earlier := AddedFeatures(steps[..n]);
    if k < |earlier| {
      assert AddedFeatures(steps)[k] == earlier[k];
      AddedFeaturesFromSteps(steps[..n], k);
      var i :| 0 <= i < n && steps[..n][i] == Added(earlier[k]);
      assert steps[i] == steps[..n][i];
    } else {
      assert steps[n].Added?;
    }
  }

  /** Under a non-negative ADC threshold alone, every event the tick accepts
      has short_sum >= 150 and a finite ratio. */
  lemma AddedShortSumsAtLeastFloor(cfg: Config, polls: seq<Poll>, k: int)
    requires cfg.adcThreshold >= 0
    requires 0 <= k < |AddedFeatures(Steps(cfg, polls))|
    ensures AddedFeatures(Steps(cfg, polls))[k].shortSum >= AMPLITUDE_FLOOR
    ensures Ratio(AddedFeatures(Steps(cfg, polls))[k]).Finite?
  {
    var steps := Steps(cfg, polls);
    AddedFeaturesFromSteps(steps, k);
    var i :| 0 <= i < |steps| && steps[i] == Added(AddedFeatures(steps)[k]);
    StepsAt(cfg, polls, i);
    AcceptedShortSumAtLeastFloor(cfg, polls[i].samples);
  }

  /** Under a non-negative ADC threshold, shortWindow <= longWindow and window
      stops on one side of index 0, every event the tick accepts has short_sum
      >= 150 and a finite ratio of at least one. */
  lemma AddedRatiosAtLeastOne(cfg: Config, polls: seq<Poll>, k: int)
    requires cfg.adcThreshold >= 0
    requires cfg.shortWindow <= cfg.longWindow
    requires 0 <= cfg.trigger + cfg.shortWindow || cfg.trigger + cfg.longWindow < 0
    requires 0 <= k < |AddedFeatures(Steps(cfg, polls))|
    ensures AddedFeatures(Steps(cfg, polls))[k].shortSum >= AMPLITUDE_FLOOR
    ensures Ratio(AddedFeatures(Steps(cfg, polls))[k]).Finite?
    ensures Ratio(AddedFeatures(Steps(cfg, polls))[k]).value >= 1.0
  {
    var steps := Steps(cfg, polls);
    AddedFeaturesFromSteps(steps, k);
    var i :| 0 <= i < |steps| && steps[i] == Added(AddedFeatures(steps)[k]);
    StepsAt(cfg, polls, i);
    AcceptedRatioAtLeastOne(cfg, polls[i].samples);
  }

  /** Under the command line's defaults (threshold 15, windows 10 <= 1000,
      trigger 630) every ratio a tick stores is finite and at least one. */
  lemma DefaultRatiosAtLeastOne(polls: seq<Poll>, k: int)
    requires 0 <= k < |AddedFeatures(Steps(DEFAULT_CONFIG, polls))|
    ensures AddedFeatures(Steps(DEFAULT_CONFIG, polls))[k].shortSum >= AMPLITUDE_FLOOR
    ensures Ratio(AddedFeatures(Steps(DEFAULT_CONFIG, polls))[k]).Finite?
    ensures Ratio(AddedFeatures(Steps(DEFAULT_CONFIG, polls))[k]).value >= 1.0
  {
    AddedRatiosAtLeastOne(DEFAULT_CONFIG, polls, k);
  }
}
