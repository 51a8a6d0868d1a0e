/** The records of `src/types/index.ts`. Dates are kept as the `yyyy-MM-dd`
    strings the source stores; money is a real number. */
module Types {
  import opened Options

  /** A worker. `joinDate` is optional because the add dialog submits none;
      `leftDate` is `None` for both `null` and `undefined`. */
  datatype Worker = Worker(
    id: string,
    name: string,
    assignedSalary: real,
    joinDate: Option<string>,
    leftDate: Option<string>)

  /** `Omit<Worker, 'id'>`: what `addWorker` is given. */
  datatype WorkerData = WorkerData(
    name: string,
    assignedSalary: real,
    joinDate: Option<string>,
    leftDate: Option<string>)

  /** `'present' | 'absent' | 'half-day' | 'per-day-wage-taken'`. */
  datatype AttendanceStatus = Present | Absent | HalfDay | PerDayWageTaken

  /** An attendance record. Every calculation reads an optional
      `moneyTakenAmount`, the cash the worker took that day. */
  datatype AttendanceRecord = AttendanceRecord(
    id: string,
    workerId: string,
    date: string,
    status: AttendanceStatus,
    moneyTakenAmount: Option<real>)

  /** `Omit<AttendanceRecord, 'id'>`: what `addAttendanceRecord` is given. */
  datatype RecordData = RecordData(
    workerId: string,
    date: string,
    status: AttendanceStatus,
    moneyTakenAmount: Option<real>)

  /** A stored anomaly-detection result for one worker and one `yyyy-MM` month. */
  datatype AnomalyReport = AnomalyReport(
    workerId: string,
    monthYear: string,
    anomalies: seq<string>,
    summary: string,
    generatedAt: string)

  /** `r.moneyTakenAmount || 0`. */
  function MoneyTaken(r: AttendanceRecord): (m: real)
    ensures r.moneyTakenAmount.None? ==> m == 0.0
    ensures r.moneyTakenAmount.Some? ==> m == r.moneyTakenAmount.value
  {
    r.moneyTakenAmount.GetOr(0.0)
  }

  function WorkerId(w: Worker): string { w.id }
  function RecordId(r: AttendanceRecord): string { r.id }
  function RecordDate(r: AttendanceRecord): string { r.date }

  /** Records are looked up by worker and day. */
  function RecordKey(r: AttendanceRecord): (string, string) { (r.workerId, r.date) }

  /** Reports are replaced by worker and month. */
  function ReportKey(r: AnomalyReport): (string, string) { (r.workerId, r.monthYear) }
}
