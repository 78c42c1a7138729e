/** Configuration of the core-pinned real-time demo: rates, periods and the report
    interval, plus the small value types shared by the other modules. */
module Config {

  /** Target rates of the two periodic loops, in Hz. */
  const CtrlHz := 1000
  const DaqHz := 500

  /** Periods in microseconds, derived from the rates by integer division. */
  const CtrlPeriodUs := 1000000 / CtrlHz
  const DaqPeriodUs := 1000000 / DaqHz

  /** Interval between two statistics reports, in milliseconds. */
  const ReportMs := 1000

  const UsPerMs := 1000

  /** 2^32: a `uint32_t` counter wraps around here. */
  const Uint32Limit := 0x1_0000_0000

  /** An unsigned 32-bit increment or cast keeps the value modulo 2^32. */
  function Wrap32(x: int): (r: nat)
    ensures r < Uint32Limit
    ensures 0 <= x < Uint32Limit ==> r == x
    ensures (x - r) % Uint32Limit == 0
  {
    x % Uint32Limit
  }

  /** The report gate every loop uses: at least REPORT_MS milliseconds since the last report. */
  predicate ReportDue(nowUs: int, lastReportUs: int)
  {
    nowUs - lastReportUs >= ReportMs * UsPerMs
  }

  datatype Option<T> = None | Some(value: T)
}
