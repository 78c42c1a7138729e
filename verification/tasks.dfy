/** One iteration of each loop of the core-pinned demo: the 1 kHz control loop and
    the 500 Hz acquisition loop (both on core 0) and the communication loop (core 1).
    Clock readings and the outcomes of the queue calls are parameters; the endless
    loops themselves, the workloads and the log lines are not part of the model. */
module Tasks {
  import opened Config
  import opened Accumulate
  import opened Deadline
  import opened Jitter

  /** A control message: when it was stamped and its sequence number (a `uint32_t`). */
  datatype CtrlMsg = CtrlMsg(tSendUs: int, seqNo: nat)

  /** Sequence numbers of the messages the queue accepted, given the send outcome
      of every control cycle in order: cycle i carries number i modulo 2^32. */
  function Accepted(outcomes: seq<bool>): seq<nat>
  {
    if outcomes == [] then []
    else
      var n := |outcomes| - 1;
      Accepted(outcomes[..n]) + (if outcomes[n] then [Wrap32(n)] else [])
  }

  /** Before the counter wraps, the accepted numbers are exactly the cycles whose
      send succeeded, in increasing order: a dropped send leaves a gap. */
  lemma {:induction false} AcceptedSequenceNumbers(outcomes: seq<bool>)
    requires |outcomes| <= Uint32Limit
    ensures forall k: int :: k in Accepted(outcomes) <==> 0 <= k < |outcomes| && outcomes[k]
    ensures forall i, j :: 0 <= i < j < |Accepted(outcomes)| ==> Accepted(outcomes)[i] < Accepted(outcomes)[j]
  {
    if outcomes != [] {
      var n := |outcomes| - 1;
      var p := outcomes[..n];
      AcceptedSequenceNumbers(p);
      assert forall k :: 0 <= k < n ==> p[k] == outcomes[k];
      var a := Accepted(outcomes);
      assert a == Accepted(p) + (if outcomes[n] then [n] else []);
      forall i, j | 0 <= i < j < |a|
        ensures a[i] < a[j]
      {
        if j == |Accepted(p)| {
          assert Accepted(p)[i] in Accepted(p);
        }
      }
    }
  }

  lemma AcceptedStep(outcomes: seq<bool>, sendOk: bool)
    ensures Accepted(outcomes + [sendOk]) ==
              if sendOk then Accepted(outcomes) + [Wrap32(|outcomes|)] else Accepted(outcomes)
  {
    assert (outcomes + [sendOk])[..|outcomes|] == outcomes;
  }

  lemma WrapStep(cycles: nat)
    ensures Wrap32(Wrap32(cycles) + 1) == Wrap32(cycles + 1)
  {
    var q := cycles / Uint32Limit;
    assert cycles == q * Uint32Limit + Wrap32(cycles);
    assert cycles + 1 == q * Uint32Limit + (Wrap32(cycles) + 1);
  }

  /** The report boundary shared by the two periodic loops: when REPORT_MS has
      elapsed, report the window, re-initialise the statistics (so the next tick
      only re-seeds the baseline) and restart the window at `nowUs`. */
  method CloseWindowIfDue(stats: PeriodStats, lastReportUs: int, nowUs: int, periodUs: int)
    returns (report: Option<Summary>, nextReportUs: int)
    requires stats.Valid()
    modifies stats
    ensures stats.Valid()
    ensures ReportDue(nowUs, lastReportUs) ==>
              report == WindowSummary(old(stats.targetPeriodUs), old(stats.ticks)) &&
              stats.ticks == [] && stats.targetPeriodUs == periodUs && stats.prevTickUs == 0 &&
              stats.count == 0 && stats.errAbsSumUs == 0 && stats.errAbsMaxUs == 0 &&
              nextReportUs == nowUs
    ensures !ReportDue(nowUs, lastReportUs) ==>
              report == None && unchanged(stats) && nextReportUs == lastReportUs
  {
    report, nextReportUs := None, lastReportUs;
    if ReportDue(nowUs, lastReportUs) {
      report := stats.Report();
      stats.Init(periodUs);
      nextReportUs := nowUs;
    }
  }

  /** Local state of the control loop. */
  class ControlTask {
    const stats: PeriodStats
    const timer: DeadlineTimer
    var lastReportTimeUs: int
    var sequenceNumber: nat

    /** Outcome of the queue send of every cycle so far. */
    ghost var sendOutcomes: seq<bool>
    /** Clock readings taken by the deadline timer so far. */
    ghost var delayReadings: seq<int>

    ghost predicate Valid()
      reads this, stats, timer
    {
      stats.Valid() && stats.targetPeriodUs == CtrlPeriodUs &&
      timer.nextDeadlineUs == Schedule(0, CtrlPeriodUs, delayReadings) &&
      sequenceNumber == Wrap32(|sendOutcomes|)
    }

    /** The set-up before the loop: fresh statistics, an unset deadline, the report
        window starting at the clock reading `nowUs`, and sequence number 0. */
    constructor (nowUs: int)
      ensures Valid() && fresh(stats) && fresh(timer)
      ensures stats.ticks == [] && timer.nextDeadlineUs == 0
      ensures lastReportTimeUs == nowUs && sequenceNumber == 0
      ensures sendOutcomes == [] && delayReadings == []
    {
      stats := new PeriodStats(CtrlPeriodUs);
      timer := new DeadlineTimer();
      lastReportTimeUs := nowUs;
      sequenceNumber := 0;
      sendOutcomes := [];
      delayReadings := [];
    }

    /** Stamp and number this cycle's message and record the send outcome: the
        number advances whether or not the queue accepts the message. */
    method NextMessage(startUs: int, sendOk: bool) returns (msg: CtrlMsg)
      requires sequenceNumber == Wrap32(|sendOutcomes|)
      modifies this`sequenceNumber, this`sendOutcomes
      ensures sequenceNumber == Wrap32(|sendOutcomes|)
      ensures msg == CtrlMsg(startUs, old(sequenceNumber))
      ensures sequenceNumber == Wrap32(old(sequenceNumber) + 1)
      ensures sendOutcomes == old(sendOutcomes) + [sendOk]
      ensures Accepted(sendOutcomes) ==
                if sendOk then Accepted(old(sendOutcomes)) + [msg.seqNo] else Accepted(old(sendOutcomes))
    {
      msg := CtrlMsg(startUs, sequenceNumber);
      WrapStep(|sendOutcomes|);
      AcceptedStep(sendOutcomes, sendOk);
      sequenceNumber := Wrap32(sequenceNumber + 1);
      sendOutcomes := sendOutcomes + [sendOk];
    }

    /** One cycle: stamp and number a message, feed the end time into the
        statistics, report at the window boundary, then wait for the next deadline. */
    method Step(startUs: int, sendOk: bool, endUs: int, delayNowUs: int, afterSleepUs: int)
      returns (msg: CtrlMsg, report: Option<Summary>, suspension: Suspension)
      requires Valid()
      modifies this, stats, timer
      ensures Valid()
      ensures msg == CtrlMsg(startUs, old(sequenceNumber))
      ensures sequenceNumber == Wrap32(old(sequenceNumber) + 1)
      ensures sendOutcomes == old(sendOutcomes) + [sendOk]
      ensures Accepted(sendOutcomes) ==
                if sendOk then Accepted(old(sendOutcomes)) + [msg.seqNo] else Accepted(old(sendOutcomes))
      ensures ReportDue(endUs, old(lastReportTimeUs)) ==>
                report == WindowSummary(CtrlPeriodUs, old(stats.ticks) + [endUs]) &&
                stats.ticks == [] && lastReportTimeUs == endUs
      ensures !ReportDue(endUs, old(lastReportTimeUs)) ==>
                report == None && stats.ticks == old(stats.ticks) + [endUs] &&
                lastReportTimeUs == old(lastReportTimeUs)
      ensures delayReadings == old(delayReadings) + [delayNowUs]
      ensures timer.nextDeadlineUs == Advance(old(timer.nextDeadlineUs), CtrlPeriodUs, delayNowUs)
      ensures suspension == Plan(timer.nextDeadlineUs, delayNowUs, afterSleepUs)
    {
      msg := NextMessage(startUs, sendOk);

      stats.Update(endUs);
      report, lastReportTimeUs := CloseWindowIfDue(stats, lastReportTimeUs, endUs, CtrlPeriodUs);

      suspension := timer.DelayUntil(CtrlPeriodUs, delayNowUs, afterSleepUs);
      ScheduleStep(CtrlPeriodUs, delayReadings, delayNowUs);
      delayReadings := delayReadings + [delayNowUs];
    }
  }

  /** Local state of the acquisition loop. */
  class DaqTask {
    const stats: PeriodStats
    const timer: DeadlineTimer
    var lastReportUs: int

    /** Clock readings taken by the deadline timer so far. */
    ghost var delayReadings: seq<int>

    ghost predicate Valid()
      reads this, stats, timer
    {
      stats.Valid() && stats.targetPeriodUs == DaqPeriodUs &&
      timer.nextDeadlineUs == Schedule(0, DaqPeriodUs, delayReadings)
    }

    constructor (nowUs: int)
      ensures Valid() && fresh(stats) && fresh(timer)
      ensures stats.ticks == [] && timer.nextDeadlineUs == 0
      ensures lastReportUs == nowUs && delayReadings == []
    {
      stats := new PeriodStats(DaqPeriodUs);
      timer := new DeadlineTimer();
      lastReportUs := nowUs;
      delayReadings := [];
    }

    /** One cycle: feed the sample time into the statistics, report at the window
        boundary, then wait for the next deadline. */
    method Step(nowUs: int, delayNowUs: int, afterSleepUs: int)
      returns (report: Option<Summary>, suspension: Suspension)
      requires Valid()
      modifies this, stats, timer
      ensures Valid()
      ensures ReportDue(nowUs, old(lastReportUs)) ==>
                report == WindowSummary(DaqPeriodUs, old(stats.ticks) + [nowUs]) &&
                stats.ticks == [] && lastReportUs == nowUs
      ensures !ReportDue(nowUs, old(lastReportUs)) ==>
                report == None && stats.ticks == old(stats.ticks) + [nowUs] &&
                lastReportUs == old(lastReportUs)
      ensures delayReadings == old(delayReadings) + [delayNowUs]
      ensures timer.nextDeadlineUs == Advance(old(timer.nextDeadlineUs), DaqPeriodUs, delayNowUs)
      ensures suspension == Plan(timer.nextDeadlineUs, delayNowUs, afterSleepUs)
    {
      stats.Update(nowUs);
      report, lastReportUs := CloseWindowIfDue(stats, lastReportUs, nowUs, DaqPeriodUs);

      suspension := timer.DelayUntil(DaqPeriodUs, delayNowUs, afterSleepUs);
      ScheduleStep(DaqPeriodUs, delayReadings, delayNowUs);
      delayReadings := delayReadings + [delayNowUs];
    }
  }

  /** What the communication loop reports at a window boundary. */
  datatype CommReport =
    | NoMessages
    | Latency(receivedCount: nat, totalLatencyUs: int, maxLatencyUs: int)

  /** The report on a window whose received messages had latencies `window`. */
  function LatencyReport(window: seq<int>): CommReport
  {
    if |window| == 0 then NoMessages else Latency(|window|, Sum(window), MaxOf(window))
  }

  /** An average is reported only for a window that received something, and then
      it never exceeds the maximum; with non-negative latencies the maximum never
      exceeds the total. */
  lemma LatencyReportBounds(window: seq<int>)
    ensures LatencyReport(window).NoMessages? <==> |window| == 0
    ensures LatencyReport(window).Latency? ==>
              var r := LatencyReport(window);
              r.receivedCount == |window| > 0 && 0 <= r.maxLatencyUs &&
              r.totalLatencyUs <= r.receivedCount * r.maxLatencyUs &&
              (NonNegative(window) ==> r.maxLatencyUs <= r.totalLatencyUs)
  {
    MaxOfBounds(window);
    SumAtMostCountTimesMax(window);
    if NonNegative(window) {
      MaxAtMostSum(window);
    }
  }

  /** Local state of the communication loop; latencies are kept in microseconds. */
  class CommTask {
    var receivedCount: nat
    var totalLatencyUs: int
    var maxLatencyUs: int
    var lastReportTimeUs: int

    /** Latencies of the messages received in the current window. */
    ghost var latencies: seq<int>

    ghost predicate Valid()
      reads this
    {
      receivedCount == |latencies| && totalLatencyUs == Sum(latencies) && maxLatencyUs == MaxOf(latencies)
    }

    constructor (nowUs: int)
      ensures Valid() && latencies == []
      ensures receivedCount == 0 && totalLatencyUs == 0 && maxLatencyUs == 0
      ensures lastReportTimeUs == nowUs
    {
      receivedCount := 0;
      totalLatencyUs := 0;
      maxLatencyUs := 0;
      lastReportTimeUs := nowUs;
      latencies := [];
    }

    /** One cycle: on a successful receive (read at `receiveUs`) account the
        message's latency; at the window boundary (clock read at `nowUs`) report
        and zero all three accumulators together. */
    method Step(received: Option<CtrlMsg>, receiveUs: int, nowUs: int) returns (report: Option<CommReport>)
      requires Valid()
      modifies this
      ensures Valid()
      ensures var window := old(latencies) + (if received.Some? then [receiveUs - received.value.tSendUs] else []);
              if ReportDue(nowUs, old(lastReportTimeUs)) then
                report == Some(LatencyReport(window)) && latencies == [] &&
                receivedCount == 0 && totalLatencyUs == 0 && maxLatencyUs == 0 &&
                lastReportTimeUs == nowUs
              else
                report == None && latencies == window && lastReportTimeUs == old(lastReportTimeUs)
    {
      if received.Some? {
        var latencyUs := receiveUs - received.value.tSendUs;
        totalLatencyUs := totalLatencyUs + latencyUs;
        if latencyUs > maxLatencyUs {
          maxLatencyUs := latencyUs;
        }
        receivedCount := receivedCount + 1;
        latencies := latencies + [latencyUs];
        assert latencies[..|latencies| - 1] == old(latencies);
      } else {
        assert latencies == old(latencies) + [];
      }

      report := None;
      if ReportDue(nowUs, lastReportTimeUs) {
        if receivedCount > 0 {
          report := Some(Latency(receivedCount, totalLatencyUs, maxLatencyUs));
        } else {
          report := Some(NoMessages);
        }
        assert report == Some(LatencyReport(latencies));
        receivedCount := 0;
        totalLatencyUs := 0;
        maxLatencyUs := 0;
        lastReportTimeUs := nowUs;
        latencies := [];
      }
    }
  }
}
