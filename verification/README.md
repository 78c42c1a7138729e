# Core-pinned real-time loops, modelled in Dafny

This project models the timing core of the ESP32 "core pinned" real-time demo
(`08-esp-idf-specific/Core_Pinned/main/Core_Pinned.c`): a 1 kHz control loop and a
500 Hz data-acquisition loop pinned to core 0, and a communication loop on core 1
that receives the control loop's timestamped messages.

- `config.dfy` (module `Config`): rates, periods, the 1000 ms report interval, the
  report gate `(now - last) >= REPORT_MS * 1000`, and 32-bit wrap-around.
- `accumulate.dfy` (module `Accumulate`): the running total and running maximum the
  loops keep, as functions of the samples of a window, with their bounds.
- `deadline.dfy` (module `Deadline`): `delay_until_us` as the class `DeadlineTimer`,
  whose one field is the deadline (0 = unset). `Schedule` folds the deadline update
  over any run of calls. `Plan` gives what a call does: return at once, sleep for whole
  milliseconds, yield.
- `jitter.dfy` (module `Jitter`): `period_stats_t` as the class `PeriodStats` with
  `stats_init`, `stats_update` and the guard of `stats_report_and_clear`. The class
  keeps a ghost log of the clock readings it was fed since initialisation.
  `WindowErrors` is the reference definition of the errors such a window samples, and
  the class invariant ties every field to it.
- `tasks.dfy` (module `Tasks`): one step of each loop (`ControlTask.Step`,
  `DaqTask.Step`, `CommTask.Step`) and the shared report boundary `CloseWindowIfDue`.
  `Accepted` gives the sequence numbers that reach the queue, given every cycle's send
  outcome.

Clock readings (`esp_timer_get_time`) and the outcomes of `xQueueSend` and
`xQueueReceive` are parameters of the step methods. The sleep and the yield of
`delay_until_us` are returned as a `Suspension` value.

Despite its name, `stats_report_and_clear` takes a `const` pointer and only reads.
The caller clears the window by re-running `stats_init`
(`Core_Pinned.c` lines 193-194 and 228-229). So the model's `Report` changes nothing
and `CloseWindowIfDue` calls `Init`.

## Model

| member | source | states |
|---|---|---|
| Config.Wrap32 | 08-esp-idf-specific/Core_Pinned/main/Core_Pinned.c:44 | a `uint32_t` value is below 2^32, equals the unwrapped value while that is in range, and is always congruent to it modulo 2^32 |
| Accumulate.MaxOfBounds | 08-esp-idf-specific/Core_Pinned/main/Core_Pinned.c:80 | the running maximum (starting at 0, replaced only by a strictly larger sample) is non-negative, bounds every sample and is 0 or one of the samples |
| Accumulate.MaxAtMostSum | 08-esp-idf-specific/Core_Pinned/main/Core_Pinned.c:79-80 | with non-negative samples the maximum error never exceeds the accumulated error |
| Accumulate.SumAtMostCountTimesMax | 08-esp-idf-specific/Core_Pinned/main/Core_Pinned.c:79-86 | the total of n samples is at most n times their maximum, so the average never exceeds the maximum |
| Deadline.Plan | 08-esp-idf-specific/Core_Pinned/main/Core_Pinned.c:105-119 | returns at once exactly when `deadline - now <= 0`. It asks for a millisecond sleep exactly when the wait is at least 1000 µs. The sleep is never negative, never overshoots the deadline (`ms * 1000 <= wait`) and, before the 32-bit cast truncates, covers all but the sub-millisecond part. It yields exactly when the second reading leaves `0 < remain < 1000` |
| Deadline.ScheduleIgnoresClock | 08-esp-idf-specific/Core_Pinned/main/Core_Pinned.c:102-104 | once the deadline is set, n calls move it by exactly n periods whatever the clock reads, overruns included |
| Deadline.NoDrift | 08-esp-idf-specific/Core_Pinned/main/Core_Pinned.c:100-104 | from the unset deadline, n calls leave it at the first reading plus n periods: the first call anchors the schedule and it never drifts |
| Deadline.DeadlineTimer.constructor | 08-esp-idf-specific/Core_Pinned/main/Core_Pinned.c:164 | the deadline starts at the "unset" value 0 |
| Deadline.DeadlineTimer.DelayUntil | 08-esp-idf-specific/Core_Pinned/main/Core_Pinned.c:97-120 | the deadline becomes `now + period` when unset and `old + period` otherwise. The call's sleep and yield are those of `Plan` on the new deadline, so an overrun returns at once with the deadline already advanced |
| Jitter.WindowErrorsNonNegative | 08-esp-idf-specific/Core_Pinned/main/Core_Pinned.c:77-78 | every sampled error is an absolute value, never negative |
| Jitter.SeedThenSample | 08-esp-idf-specific/Core_Pinned/main/Core_Pinned.c:69-82 | with a clock that never reads 0, n ticks after initialisation give n - 1 samples. The first tick only seeds the baseline, and sample i is `\|t[i+1] - t[i] - target\|` |
| Jitter.SummaryBounds | 08-esp-idf-specific/Core_Pinned/main/Core_Pinned.c:84-88 | a window reports nothing exactly when it sampled nothing. A reported window has count > 0 (no division by zero), and its maximum error lies between the average error and the total error |
| Jitter.PeriodStats.constructor | 08-esp-idf-specific/Core_Pinned/main/Core_Pinned.c:60-67 | a new record has the given target period and every other field at 0 |
| Jitter.PeriodStats.Init | 08-esp-idf-specific/Core_Pinned/main/Core_Pinned.c:60-67 | re-initialisation sets the target period to the argument, zeroes the baseline, sum, max and count, and empties the window |
| Jitter.PeriodStats.Update | 08-esp-idf-specific/Core_Pinned/main/Core_Pinned.c:69-82 | with no baseline it only records `now`. Otherwise it adds `\|dt - target\|` to the sum, raises the max to it, counts one sample and moves the baseline to `now`. The target never changes. The invariants `0 <= max <= sum` and "count 0 implies sum and max 0" are kept, and every field stays equal to its value in the reference `WindowErrors` of the ticks fed since initialisation |
| Jitter.PeriodStats.Report | 08-esp-idf-specific/Core_Pinned/main/Core_Pinned.c:84-93 | nothing is reported exactly when the count is 0. Otherwise the report carries the window's count, sum, max and target, equal to the reference `WindowSummary` of the ticks fed so far. The record is not modified |
| Tasks.AcceptedSequenceNumbers | 08-esp-idf-specific/Core_Pinned/main/Core_Pinned.c:178-185 | before the counter wraps, the numbers of the accepted messages are exactly the cycles whose send succeeded, strictly increasing. A dropped send leaves a gap |
| Tasks.CloseWindowIfDue | 08-esp-idf-specific/Core_Pinned/main/Core_Pinned.c:191-196 | when `now - last >= 1000000` it reports the window, re-initialises the statistics with the period (baseline 0, so the next tick only re-seeds) and sets `last = now`. Otherwise it reports nothing and changes nothing |
| Tasks.ControlTask.constructor | 08-esp-idf-specific/Core_Pinned/main/Core_Pinned.c:161-166 | fresh statistics with the 1000 µs period, an unset deadline, the window starting at the first clock reading, sequence number 0 |
| Tasks.ControlTask.NextMessage | 08-esp-idf-specific/Core_Pinned/main/Core_Pinned.c:178-185 | the message carries `t_send = start` and the current sequence number. The counter advances modulo 2^32 whatever the send outcome, and the accepted numbers grow by this number only when the send succeeds |
| Tasks.ControlTask.Step | 08-esp-idf-specific/Core_Pinned/main/Core_Pinned.c:171-202 | the message carries `t_send = start` and the current number. The number advances modulo 2^32 whether or not the send succeeds, and the accepted numbers grow only on success. The end time is fed to the statistics and the window is closed at the boundary. The deadline timer is driven with the 1000 µs period and stays equal to `Schedule` over all its readings |
| Tasks.DaqTask.constructor | 08-esp-idf-specific/Core_Pinned/main/Core_Pinned.c:214-218 | fresh statistics with the 2000 µs period, an unset deadline, the window starting at the first clock reading |
| Tasks.DaqTask.Step | 08-esp-idf-specific/Core_Pinned/main/Core_Pinned.c:220-234 | the sample time is fed to the statistics, the window is closed at the boundary, and the deadline is advanced with the 2000 µs period |
| Tasks.LatencyReportBounds | 08-esp-idf-specific/Core_Pinned/main/Core_Pinned.c:262-271 | "no messages" is reported exactly for an empty window. Otherwise the count is positive (so the average is defined), the maximum is non-negative, and the average is at most the maximum |
| Tasks.CommTask.constructor | 08-esp-idf-specific/Core_Pinned/main/Core_Pinned.c:242-244 | count, total and maximum latency start at 0 and the window starts at the first clock reading |
| Tasks.CommTask.Step | 08-esp-idf-specific/Core_Pinned/main/Core_Pinned.c:249-280 | count, total and maximum latency change only on a successful receive, by the message's latency. At the boundary the loop reports the window (or "no messages") and zeroes all three together with `last = now` |

## Left out

- `Peripheral_Integration.c`, `Performance_Optimization.c` and `Dual_Core.c` only create tasks, delay and log. None of them has logic of its own to model.
- ESP-IDF and FreeRTOS calls are foreign code: the clock, `vTaskDelay`, `taskYIELD`, the queue calls, the task-watchdog calls, task creation with priorities, stacks and core pinning, and the free-heap query. Clock readings and queue outcomes are parameters. The sleep and the yield are recorded as requests in `Suspension`. The watchdog reset and registration are not modelled.
- The queue itself (capacity 32, FIFO order, blocking receive with a 10 ms timeout) belongs to FreeRTOS and is not modelled. The comm loop's receive is an `Option<CtrlMsg>` parameter.
- Deadline.DeadlineTimer.DelayUntil: the tick conversion `pdMS_TO_TICKS` depends on a tick rate that is not part of this model. The model stops at the millisecond count, so the `dly > 0` test is not modelled. How long the sleep and the yield really last is up to the scheduler, so the model makes no promise that the call returns at or after the deadline.
- Floating point is not modelled: `do_control_compute` (`sqrtf`), `do_daq_read` (`sinf`/`cosf`), the `ctrl_output` field of a message, and the average, jitter-percent and Hz values a report prints. A report carries the integer inputs of those values (count, sum, max, target).
- Jitter.PeriodStats.Update: the error is the exact integer `|dt - target|`, where the code takes it as a `double`, which is exact for any realistic magnitude. `count` is unbounded, while the code's `uint32_t` would wrap after 2^32 samples in one window; a window lasts about one second.
- Tasks.CommTask.Step: latencies are accumulated in integer microseconds rather than `double` milliseconds. `received_count` is unbounded, where the code's `uint32_t` would wrap.
- Timestamps and deadlines are unbounded integers. The code's `int64_t` microsecond clock cannot overflow within a realistic uptime.
- `do_comm_io`, `do_background_work` and the background task (a delay loop that logs every 20th pass) only delay or log. The endless `while (1)` loops are modelled as one step per loop. Each task's set-up before its loop is its class's constructor.
- `app_main` is left out because it only makes foreign calls: `xQueueCreate(32, ...)`, the four task creations and the `configASSERT` stops.
