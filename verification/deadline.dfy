/** The fixed-rate deadline timer `delay_until_us`: one absolute deadline in
    microseconds, 0 meaning "not set yet", advanced by exactly one period per call.
    The two clock readings the call makes are parameters; the millisecond sleep
    and the cooperative yield it may issue are returned as a Suspension. */
module Deadline {
  import opened Config

  /** What one call did after advancing the deadline. */
  datatype Suspension =
    | Behind                                          // deadline already reached: returned at once
    | Waited(sleepMs: Option<nat>, yielded: bool)     // millisecond count handed to the sleep, if any; whether it yielded

  /** The deadline after one call that read the clock at `now`. */
  function Advance(deadlineUs: int, periodUs: int, now: int): int
  {
    if deadlineUs == 0 then now + periodUs else deadlineUs + periodUs
  }

  /** The deadline after calls that read the clock at `nows`, in order, starting from `deadlineUs`. */
  function Schedule(deadlineUs: int, periodUs: int, nows: seq<int>): int
  {
    if nows == [] then deadlineUs
    else Advance(Schedule(deadlineUs, periodUs, nows[..|nows| - 1]), periodUs, nows[|nows| - 1])
  }

  /** One more call is one more step of the schedule. */
  lemma ScheduleStep(periodUs: int, nows: seq<int>, now: int)
    ensures Schedule(0, periodUs, nows + [now]) == Advance(Schedule(0, periodUs, nows), periodUs, now)
  {
    assert (nows + [now])[..|nows|] == nows;
  }

  /** What the call does once the deadline is `deadlineUs`, the clock read `now`
      before any suspension and `afterSleep` after the coarse sleep. */
  function Plan(deadlineUs: int, now: int, afterSleep: int): (s: Suspension)
    ensures s.Behind? <==> deadlineUs - now <= 0
    ensures s.Waited? ==> (s.sleepMs.Some? <==> deadlineUs - now >= UsPerMs)
    ensures s.Waited? && s.sleepMs.Some? ==> s.sleepMs.value * UsPerMs <= deadlineUs - now
    ensures s.Waited? && s.sleepMs.Some? && deadlineUs - now < UsPerMs * Uint32Limit ==>
              deadlineUs - now < (s.sleepMs.value + 1) * UsPerMs
    ensures s.Waited? ==> (s.yielded <==> 0 < deadlineUs - afterSleep < UsPerMs)
  {
    var waitUs := deadlineUs - now;
    if waitUs <= 0 then Behind
    else
      var coarse := if waitUs >= UsPerMs then Some(Wrap32(waitUs / UsPerMs)) else None;
      var remainUs := deadlineUs - afterSleep;
      Waited(coarse, 0 < remainUs < UsPerMs)
  }

  /** Once set (and with a positive period), the deadline moves by exactly one
      period per call whatever the clock reads: the schedule never drifts. */
  lemma {:induction false} ScheduleIgnoresClock(deadlineUs: int, periodUs: int, nows: seq<int>)
    requires deadlineUs > 0 && periodUs > 0
    ensures Schedule(deadlineUs, periodUs, nows) == deadlineUs + |nows| * periodUs
  {
    if nows != [] {
      var p := nows[..|nows| - 1];
      ScheduleIgnoresClock(deadlineUs, periodUs, p);
      assert |nows| * periodUs == |p| * periodUs + periodUs;
    }
  }

  /** From the unset state, n calls leave the deadline at first reading + n periods:
      the first call anchors the schedule and later calls, overrun or not, follow it. */
  lemma {:induction false} NoDrift(periodUs: int, nows: seq<int>)
    requires periodUs > 0 && |nows| > 0 && nows[0] >= 0
    ensures Schedule(0, periodUs, nows) == nows[0] + |nows| * periodUs
  {
    var p := nows[..|nows| - 1];
    if p != [] {
      assert p[0] == nows[0];
      NoDrift(periodUs, p);
      assert |nows| * periodUs == |p| * periodUs + periodUs;
    }
  }

  /** The per-activity deadline that `delay_until_us` updates in place. */
  class DeadlineTimer {
    var nextDeadlineUs: int

    constructor ()
      ensures nextDeadlineUs == 0
    {
      nextDeadlineUs := 0;
    }

    /** One call: advance the deadline, then return at once if it has passed,
        otherwise sleep the whole milliseconds and yield for a sub-millisecond rest. */
    method DelayUntil(periodUs: int, now: int, afterSleep: int) returns (s: Suspension)
      modifies this
      ensures nextDeadlineUs == Advance(old(nextDeadlineUs), periodUs, now)
      ensures old(nextDeadlineUs) != 0 ==> nextDeadlineUs == old(nextDeadlineUs) + periodUs
      ensures s == Plan(nextDeadlineUs, now, afterSleep)
    {
      if nextDeadlineUs == 0 {
        nextDeadlineUs := now + periodUs;
      } else {
        nextDeadlineUs := nextDeadlineUs + periodUs;
      }
      var waitUs := nextDeadlineUs - now;
      if waitUs <= 0 {
        return Behind;
      }
      var sleepMs: Option<nat> := None;
      if waitUs >= UsPerMs {
        sleepMs := Some(Wrap32(waitUs / UsPerMs));
      }
      var remainUs := nextDeadlineUs - afterSleep;
      s := Waited(sleepMs, 0 < remainUs < UsPerMs);
    }
  }
}
