/** Period and jitter statistics (`period_stats_t`): the previous tick, the target
    period, the running total and maximum of the absolute timing error and the
    sample count of the current report window. A previous tick of 0 means "no
    baseline": the next update only records the baseline. */
module Jitter {
  import opened Config
  import opened Accumulate

  function Abs(x: int): nat
  {
    if x < 0 then -x else x
  }

  /** Absolute deviation of one measured interval from the target period. */
  function TickError(prevUs: int, nowUs: int, targetUs: int): nat
  {
    Abs(nowUs - prevUs - targetUs)
  }

  /** The previous-tick field after the updates `ticks`: the last of them, or 0 before any. */
  function LastOrZero(ticks: seq<int>): int
  {
    if ticks == [] then 0 else ticks[|ticks| - 1]
  }

  /** The errors a window samples when it is fed the clock readings `ticks` after
      initialisation: an update whose previous tick is 0 only seeds the baseline. */
  function WindowErrors(targetUs: int, ticks: seq<int>): seq<int>
  {
    if ticks == [] then []
    else
      var earlier := ticks[..|ticks| - 1];
      var prev := LastOrZero(earlier);
      if prev == 0 then WindowErrors(targetUs, earlier)
      else WindowErrors(targetUs, earlier) + [TickError(prev, ticks[|ticks| - 1], targetUs)]
  }

  /** One more update either only moves the baseline (none yet) or appends the
      interval's error, raising the total, the maximum and the count accordingly. */
  lemma WindowStep(targetUs: int, ticks: seq<int>, nowUs: int)
    ensures LastOrZero(ticks + [nowUs]) == nowUs
    ensures var before := WindowErrors(targetUs, ticks);
            var after := WindowErrors(targetUs, ticks + [nowUs]);
            var e := TickError(LastOrZero(ticks), nowUs, targetUs);
            if LastOrZero(ticks) == 0 then after == before
            else
              after == before + [e] && Sum(after) == Sum(before) + e &&
              MaxOf(after) == (if e > MaxOf(before) then e else MaxOf(before))
  {
    assert (ticks + [nowUs])[..|ticks|] == ticks;
    if LastOrZero(ticks) != 0 {
      AppendStep(WindowErrors(targetUs, ticks), TickError(LastOrZero(ticks), nowUs, targetUs));
    }
  }

  /** Every window keeps 0 <= max <= sum, and an unsampled window has both at 0. */
  lemma WindowTotals(targetUs: int, ticks: seq<int>)
    ensures var errors := WindowErrors(targetUs, ticks);
            0 <= MaxOf(errors) <= Sum(errors) &&
            (|errors| == 0 ==> Sum(errors) == 0 && MaxOf(errors) == 0)
  {
    var errors := WindowErrors(targetUs, ticks);
    WindowErrorsNonNegative(targetUs, ticks);
    MaxOfBounds(errors);
    MaxAtMostSum(errors);
  }

  /** The inputs of one report: what the averages and percentages are computed from. */
  datatype Summary = Summary(count: nat, errAbsSumUs: int, errAbsMaxUs: int, targetPeriodUs: int)

  /** What a report on the window fed `ticks` shows: nothing when no interval was sampled. */
  function WindowSummary(targetUs: int, ticks: seq<int>): Option<Summary>
  {
    var errors := WindowErrors(targetUs, ticks);
    if |errors| == 0 then None else Some(Summary(|errors|, Sum(errors), MaxOf(errors), targetUs))
  }

  lemma {:induction false} WindowErrorsNonNegative(targetUs: int, ticks: seq<int>)
    ensures NonNegative(WindowErrors(targetUs, ticks))
  {
    if ticks != [] {
      WindowErrorsNonNegative(targetUs, ticks[..|ticks| - 1]);
    }
  }

  /** With a clock that never reads 0, the first tick of a window only seeds the
      baseline and every later tick samples the interval since the one before:
      n ticks give n - 1 samples. */
  lemma {:induction false} SeedThenSample(targetUs: int, ticks: seq<int>)
    requires |ticks| > 0
    requires forall i :: 0 <= i < |ticks| ==> ticks[i] != 0
    ensures |WindowErrors(targetUs, ticks)| == |ticks| - 1
    ensures forall i :: 0 <= i < |ticks| - 1 ==>
              WindowErrors(targetUs, ticks)[i] == TickError(ticks[i], ticks[i + 1], targetUs)
  {
    var earlier := ticks[..|ticks| - 1];
    if earlier != [] {
      SeedThenSample(targetUs, earlier);
      assert LastOrZero(earlier) == ticks[|ticks| - 2];
    }
  }

  /** A reported window has at least one sample, and its maximum error lies
      between the average error and the total error. */
  lemma SummaryBounds(targetUs: int, ticks: seq<int>)
    ensures WindowSummary(targetUs, ticks).None? <==> |WindowErrors(targetUs, ticks)| == 0
    ensures WindowSummary(targetUs, ticks).Some? ==>
              var r := WindowSummary(targetUs, ticks).value;
              r.count > 0 && r.targetPeriodUs == targetUs &&
              r.errAbsMaxUs <= r.errAbsSumUs <= r.count * r.errAbsMaxUs
  {
    var errors := WindowErrors(targetUs, ticks);
    WindowErrorsNonNegative(targetUs, ticks);
    MaxAtMostSum(errors);
    SumAtMostCountTimesMax(errors);
  }

  /** The statistics record of one periodic loop, updated in place. */
  class PeriodStats {
    var prevTickUs: int
    var targetPeriodUs: int
    var errAbsSumUs: int
    var errAbsMaxUs: int
    var count: nat

    /** Clock readings handed to Update since the last initialisation. */
    ghost var ticks: seq<int>

    ghost predicate Valid()
      reads this
    {
      var errors := WindowErrors(targetPeriodUs, ticks);
      prevTickUs == LastOrZero(ticks) &&
      count == |errors| && errAbsSumUs == Sum(errors) && errAbsMaxUs == MaxOf(errors)
    }

    constructor (periodUs: int)
      ensures Valid() && ticks == []
      ensures targetPeriodUs == periodUs
      ensures prevTickUs == 0 && errAbsSumUs == 0 && errAbsMaxUs == 0 && count == 0
    {
      targetPeriodUs := periodUs;
      prevTickUs := 0;
      errAbsSumUs := 0;
      errAbsMaxUs := 0;
      count := 0;
      ticks := [];
    }

    /** `stats_init`: clear every field and set the target period. */
    method Init(periodUs: int)
      modifies this
      ensures Valid() && ticks == []
      ensures targetPeriodUs == periodUs
      ensures prevTickUs == 0 && errAbsSumUs == 0 && errAbsMaxUs == 0 && count == 0
    {
      targetPeriodUs := periodUs;
      prevTickUs := 0;
      errAbsSumUs := 0;
      errAbsMaxUs := 0;
      count := 0;
      ticks := [];
    }

    /** `stats_update`: seed the baseline, or sample |dt - target| into the totals. */
    method Update(nowUs: int)
      requires Valid()
      modifies this
      ensures Valid()
      ensures targetPeriodUs == old(targetPeriodUs)
      ensures ticks == old(ticks) + [nowUs]
      ensures prevTickUs == nowUs
      ensures old(prevTickUs) == 0 ==>
                count == old(count) && errAbsSumUs == old(errAbsSumUs) && errAbsMaxUs == old(errAbsMaxUs)
      ensures old(prevTickUs) != 0 ==>
                var e := TickError(old(prevTickUs), nowUs, targetPeriodUs);
                count == old(count) + 1 && errAbsSumUs == old(errAbsSumUs) + e &&
                errAbsMaxUs == (if e > old(errAbsMaxUs) then e else old(errAbsMaxUs))
      ensures 0 <= errAbsMaxUs <= errAbsSumUs
      ensures count == 0 ==> errAbsSumUs == 0 && errAbsMaxUs == 0
    {
      WindowStep(targetPeriodUs, ticks, nowUs);
      WindowTotals(targetPeriodUs, ticks + [nowUs]);
      if prevTickUs == 0 {
        prevTickUs := nowUs;
      } else {
        var dt := nowUs - prevTickUs;
        prevTickUs := nowUs;
        var aerr := Abs(dt - targetPeriodUs);
        errAbsSumUs := errAbsSumUs + aerr;
        if aerr > errAbsMaxUs {
          errAbsMaxUs := aerr;
        }
        count := count + 1;
      }
      ticks := ticks + [nowUs];
    }

    /** `stats_report_and_clear` up to its logging: nothing when the window holds no
        sample, so no division by a zero count, and the record is left as it is. */
    method Report() returns (r: Option<Summary>)
      requires Valid()
      ensures r.None? <==> count == 0
      ensures r == WindowSummary(targetPeriodUs, ticks)
      ensures r.Some? ==> r.value.count > 0 && r.value.errAbsMaxUs <= r.value.errAbsSumUs <= r.value.count * r.value.errAbsMaxUs
    {
      SummaryBounds(targetPeriodUs, ticks);
      if count == 0 {
        return None;
      }
      r := Some(Summary(count, errAbsSumUs, errAbsMaxUs, targetPeriodUs));
    }
  }
}
