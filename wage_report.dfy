/** The `salaryCalculation` of `src/components/reports/WageReport.tsx`: a
    weekday rate, and deductions for absent, half-day and per-day-wage-taken
    records of the selected worker in the selected month. */
module WageReport {
  import opened Options
  import opened Seqs
  import opened Types
  import opened DateUtils
  import opened Records

  datatype SalaryCalculation = SalaryCalculation(
    assignedSalary: real,
    workingDays: nat,
    dailyRate: real,
    absentDays: nat,
    halfDays: nat,
    perDayWageTakenDays: nat,
    deductionForAbsence: real,
    deductionForHalfDay: real,
    deductionForPerDayWage: real,
    netSalary: real)

  /** The calculation once the month's weekday count and the three day counts
      are known; with no weekday nothing is deducted. */
  function Deduct(assignedSalary: real, workingDays: nat, absentDays: nat, halfDays: nat, perDayWageTakenDays: nat)
    : SalaryCalculation
  {
    if workingDays == 0 then
      SalaryCalculation(assignedSalary, 0, 0.0, 0, 0, 0, 0.0, 0.0, 0.0, assignedSalary)
    else
      var dailyRate := assignedSalary / workingDays as real;
      var deductionForAbsence := absentDays as real * dailyRate;
      var deductionForHalfDay := halfDays as real * (dailyRate / 2.0);
      var deductionForPerDayWage := perDayWageTakenDays as real * dailyRate;
      SalaryCalculation(assignedSalary, workingDays, dailyRate,
        absentDays, halfDays, perDayWageTakenDays,
        deductionForAbsence, deductionForHalfDay, deductionForPerDayWage,
        assignedSalary - deductionForAbsence - deductionForHalfDay - deductionForPerDayWage)
  }

  /** The calculation over the considered records. */
  function SalaryFromCounts(assignedSalary: real, workingDays: nat, rs: seq<AttendanceRecord>): SalaryCalculation {
    Deduct(assignedSalary, workingDays,
      CountStatus(rs, Absent), CountStatus(rs, HalfDay), CountStatus(rs, PerDayWageTaken))
  }

  /** `salaryCalculation` for a selected worker and the month of `currentMonth`. */
  function SalaryCalculationFor(worker: Worker, rs: seq<AttendanceRecord>, currentMonth: Date): SalaryCalculation
    requires 1 <= currentMonth.month <= 12
  {
    var workerAttendanceForMonth :=
      WorkerAttendanceForMonth(rs, worker.id, currentMonth.year, currentMonth.month);
    SalaryFromCounts(worker.assignedSalary, |WeekdaysInMonth(currentMonth)|, workerAttendanceForMonth)
  }

  /** `salaryCalculation`: `null` when the selected id names no worker. */
  function SalaryCalculationOf(workers: seq<Worker>, selectedWorkerId: Option<string>,
                               rs: seq<AttendanceRecord>, currentMonth: Date): (r: Option<SalaryCalculation>)
    requires 1 <= currentMonth.month <= 12
    ensures r.None? <==> selectedWorkerId.None? || FindWorker(workers, selectedWorkerId.value).None?
  {
    match selectedWorkerId
    case None => None
    case Some(id) =>
      match FindWorker(workers, id)
      case None => None
      case Some(worker) => Some(SalaryCalculationFor(worker, rs, currentMonth))
  }

  /** Only the selected worker's records dated in the selected month are counted:
      the three day counts are those of exactly these records. */
  lemma CountedRecords(worker: Worker, rs: seq<AttendanceRecord>, currentMonth: Date)
    requires 1 <= currentMonth.month <= 12
    ensures var c := SalaryCalculationFor(worker, rs, currentMonth);
      var considered := WorkerAttendanceForMonth(rs, worker.id, currentMonth.year, currentMonth.month);
      c.absentDays == CountStatus(considered, Absent) &&
      c.halfDays == CountStatus(considered, HalfDay) &&
      c.perDayWageTakenDays == CountStatus(considered, PerDayWageTaken)
  {
    WeekdaysInMonthBounds(currentMonth);
  }

  /** The weekday count is that of the month (20 to 23), so the zero-weekday
      branch is never taken, and the daily rate is the salary spread over them. */
  lemma WeekdayRate(worker: Worker, rs: seq<AttendanceRecord>, currentMonth: Date)
    requires 1 <= currentMonth.month <= 12
    ensures SalaryCalculationFor(worker, rs, currentMonth).workingDays == |WeekdaysInMonth(currentMonth)|
    ensures 20 <= SalaryCalculationFor(worker, rs, currentMonth).workingDays <= 23
  {
    WeekdaysInMonthBounds(currentMonth);
  }

  /** With weekdays in the month, the daily rate times the weekdays gives back
      the salary. */
  lemma RateTimesDays(assignedSalary: real, workingDays: nat, rs: seq<AttendanceRecord>)
    requires workingDays > 0
    ensures SalaryFromCounts(assignedSalary, workingDays, rs).dailyRate * workingDays as real == assignedSalary
  {
    var c := SalaryFromCounts(assignedSalary, workingDays, rs);
    assert c.dailyRate == assignedSalary / workingDays as real;
  }

  /** In the zero-weekday branch nothing is deducted and the net is the salary. */
  lemma ZeroWeekdayBranch(assignedSalary: real, rs: seq<AttendanceRecord>)
    ensures var c := SalaryFromCounts(assignedSalary, 0, rs);
      c.deductionForAbsence == 0.0 && c.deductionForHalfDay == 0.0 && c.deductionForPerDayWage == 0.0 &&
      c.netSalary == assignedSalary
  {
  }

  /** The net salary is the salary less one daily rate per absent or
      per-day-wage-taken record and half a rate per half-day record. */
  lemma NetSalaryFormula(assignedSalary: real, workingDays: nat, rs: seq<AttendanceRecord>)
    requires workingDays > 0
    ensures var c := SalaryFromCounts(assignedSalary, workingDays, rs);
      c.netSalary == assignedSalary - c.dailyRate *
        (CountStatus(rs, Absent) as real + CountStatus(rs, HalfDay) as real / 2.0
         + CountStatus(rs, PerDayWageTaken) as real)
  {
  }

  /** A present record never changes the figures. */
  lemma PresentRecordIgnored(assignedSalary: real, workingDays: nat, rs: seq<AttendanceRecord>, x: AttendanceRecord)
    requires x.status == Present
    ensures SalaryFromCounts(assignedSalary, workingDays, rs + [x]) == SalaryFromCounts(assignedSalary, workingDays, rs)
  {
    CountStatusSnoc(rs, x, Absent);
    CountStatusSnoc(rs, x, HalfDay);
    CountStatusSnoc(rs, x, PerDayWageTaken);
  }

  /** Records that are all present give the full salary. */
  lemma {:induction false} AllPresentFullSalary(assignedSalary: real, workingDays: nat, rs: seq<AttendanceRecord>)
    requires forall i :: 0 <= i < |rs| ==> rs[i].status == Present
    ensures SalaryFromCounts(assignedSalary, workingDays, rs).netSalary == assignedSalary
  {
    if rs == [] {
      assert Filter(rs, HasStatus(Absent)) == [];
      assert Filter(rs, HasStatus(HalfDay)) == [];
      assert Filter(rs, HasStatus(PerDayWageTaken)) == [];
    } else {
      var rs' := rs[..|rs| - 1];
      assert rs == rs' + [rs[|rs| - 1]];
      AllPresentFullSalary(assignedSalary, workingDays, rs');
      PresentRecordIgnored(assignedSalary, workingDays, rs', rs[|rs| - 1]);
    }
  }

  /** With a non-negative salary the net never exceeds it. */
  lemma NetAtMostSalary(assignedSalary: real, workingDays: nat, rs: seq<AttendanceRecord>)
    requires assignedSalary >= 0.0
    ensures SalaryFromCounts(assignedSalary, workingDays, rs).netSalary <= assignedSalary
  {
    if workingDays > 0 {
      var c := SalaryFromCounts(assignedSalary, workingDays, rs);
      assert c.dailyRate >= 0.0;
      NetSalaryFormula(assignedSalary, workingDays, rs);
    }
  }

  /** More absences than weekdays make the net negative; since weekend-dated
      records are counted too, a month's absences can exceed its weekdays. */
  lemma NetNegative(assignedSalary: real, workingDays: nat, rs: seq<AttendanceRecord>)
    requires assignedSalary > 0.0 && workingDays > 0
    requires CountStatus(rs, Absent) > workingDays
    ensures SalaryFromCounts(assignedSalary, workingDays, rs).netSalary < 0.0
  {
    var a, h, p := CountStatus(rs, Absent), CountStatus(rs, HalfDay), CountStatus(rs, PerDayWageTaken);
    assert SalaryFromCounts(assignedSalary, workingDays, rs) == Deduct(assignedSalary, workingDays, a, h, p);
    OverDeduction(assignedSalary, workingDays as real, a as real, h as real, p as real);
  }

  /** Deducting more than `w` rates of `s / w` leaves less than nothing. */
  lemma OverDeduction(s: real, w: real, a: real, h: real, p: real)
    requires s > 0.0 && w > 0.0 && a >= w + 1.0 && h >= 0.0 && p >= 0.0
    ensures s - a * (s / w) - h * ((s / w) / 2.0) - p * (s / w) < 0.0
  {
    var rate := s / w;
    assert rate * w == s;
    assert rate > 0.0;
    assert a * rate >= (w + 1.0) * rate by {
      assert a * rate - (w + 1.0) * rate == (a - (w + 1.0)) * rate;
    }
    assert h * (rate / 2.0) >= 0.0 && p * rate >= 0.0;
  }

  /** A weekend-dated record of the worker in the month is counted like any other. */
  lemma WeekendRecordCounted(worker: Worker, rs: seq<AttendanceRecord>, currentMonth: Date, x: AttendanceRecord)
    requires 1 <= currentMonth.month <= 12
    requires x in rs && x.workerId == worker.id && InMonth(x.date, currentMonth.year, currentMonth.month)
    ensures x in WorkerAttendanceForMonth(rs, worker.id, currentMonth.year, currentMonth.month)
  {
  }
}
