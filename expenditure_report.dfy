/** The `monthlyExpenditureData` of `src/components/reports/ExpenditureReport.tsx`:
    a calendar-day rate, credit only for present and half-day records logged on
    the worker's employment days, net pay as gross pay less cash taken, and four
    running totals over all workers. */
module ExpenditureReport {
  import opened Options
  import opened Seqs
  import opened Types
  import opened DateUtils
  import opened Records

  datatype CalculatedWageData = CalculatedWageData(
    workerId: string,
    workerName: string,
    assignedSalary: real,
    effectiveWorkingDaysInMonth: nat,
    totalPresents: real,
    calculatedGrossSalary: real,
    totalMoneyTaken: real,
    netPayableSalary: real)

  datatype MonthlyExpenditureData = MonthlyExpenditureData(
    totalAssignedSalaries: real,
    totalCalculatedGrossSalaries: real,
    totalMoneyTaken: real,
    totalNetPayableSalaries: real,
    workerDetails: seq<CalculatedWageData>)

  const NoExpenditure := MonthlyExpenditureData(0.0, 0.0, 0.0, 0.0, [])

  // ---------------------------------------------------------------------------
  // Specification

  /** `record.workerId === worker.id && effectiveDatesISO.has(record.date)`. */
  function InEffectivePeriod(workerId: string, effectiveIso: seq<string>): AttendanceRecord -> bool {
    (r: AttendanceRecord) => r.workerId == workerId && r.date in effectiveIso
  }

  /** The worker's employment days in the month. */
  function EffectiveDays(worker: Worker, currentMonth: Date): seq<Date>
    requires 1 <= currentMonth.month <= 12
  {
    EffectiveDaysForWorkerInMonth(currentMonth, worker.joinDate, worker.leftDate)
  }

  /** `workerAttendanceInEffectivePeriod`. */
  function RecordsInEffectivePeriod(worker: Worker, rs: seq<AttendanceRecord>, currentMonth: Date)
    : seq<AttendanceRecord>
    requires 1 <= currentMonth.month <= 12
  {
    Filter(rs, InEffectivePeriod(worker.id, IsoStrings(EffectiveDays(worker, currentMonth))))
  }

  /** What one record adds to `totalPresents`. */
  function PresentCredit(s: AttendanceStatus): real {
    if s == Present then 1.0 else if s == HalfDay then 0.5 else 0.0
  }

  /** `totalPresents` after the `forEach` over `rs`. */
  function TotalPresents(rs: seq<AttendanceRecord>): (p: real)
    ensures 0.0 <= p <= |rs| as real
  {
    if rs == [] then 0.0 else TotalPresents(rs[..|rs| - 1]) + PresentCredit(rs[|rs| - 1].status)
  }

  /** `dailyWage`. */
  function DailyWage(assignedSalary: real, calendarDays: nat): real {
    if calendarDays > 0 then assignedSalary / calendarDays as real else 0.0
  }

  /** A worker's figures from the considered records and the number of
      employment days. */
  function WageFigures(worker: Worker, considered: seq<AttendanceRecord>, effectiveDays: nat, calendarDays: nat)
    : CalculatedWageData
  {
    var totalPresents := TotalPresents(considered);
    var moneyTaken := MoneyTakenSum(considered);
    var gross := totalPresents * DailyWage(worker.assignedSalary, calendarDays);
    CalculatedWageData(worker.id, worker.name, worker.assignedSalary, effectiveDays,
      totalPresents, gross, moneyTaken, gross - moneyTaken)
  }

  /** The entry of `workerDetails` for one worker. */
  function WageData(worker: Worker, rs: seq<AttendanceRecord>, currentMonth: Date, calendarDays: nat)
    : CalculatedWageData
    requires 1 <= currentMonth.month <= 12
  {
    WageFigures(worker, RecordsInEffectivePeriod(worker, rs, currentMonth),
      |EffectiveDays(worker, currentMonth)|, calendarDays)
  }

  /** `workers.map(...)`. */
  function WorkerDetails(ws: seq<Worker>, rs: seq<AttendanceRecord>, currentMonth: Date, calendarDays: nat)
    : (r: seq<CalculatedWageData>)
    requires 1 <= currentMonth.month <= 12
    ensures |r| == |ws|
    ensures forall i :: 0 <= i < |ws| ==>
      r[i].workerId == ws[i].id && r[i].workerName == ws[i].name && r[i].assignedSalary == ws[i].assignedSalary &&
      r[i].netPayableSalary == r[i].calculatedGrossSalary - r[i].totalMoneyTaken
  {
    if ws == [] then [] else
      WorkerDetails(ws[..|ws| - 1], rs, currentMonth, calendarDays) + [WageData(ws[|ws| - 1], rs, currentMonth, calendarDays)]
  }

  function SumAssigned(ws: seq<Worker>): real {
    if ws == [] then 0.0 else SumAssigned(ws[..|ws| - 1]) + ws[|ws| - 1].assignedSalary
  }

  function SumGross(ds: seq<CalculatedWageData>): real {
    if ds == [] then 0.0 else SumGross(ds[..|ds| - 1]) + ds[|ds| - 1].calculatedGrossSalary
  }

  function SumTaken(ds: seq<CalculatedWageData>): real {
    if ds == [] then 0.0 else SumTaken(ds[..|ds| - 1]) + ds[|ds| - 1].totalMoneyTaken
  }

  function SumNet(ds: seq<CalculatedWageData>): real {
    if ds == [] then 0.0 else SumNet(ds[..|ds| - 1]) + ds[|ds| - 1].netPayableSalary
  }

  /** The four totals over the workers and their entries. */
  function Totals(ws: seq<Worker>, details: seq<CalculatedWageData>): MonthlyExpenditureData {
    MonthlyExpenditureData(SumAssigned(ws), SumGross(details), SumTaken(details), SumNet(details), details)
  }

  /** `monthlyExpenditureData` once the month's calendar-day count is known. */
  function Expenditure(ws: seq<Worker>, rs: seq<AttendanceRecord>, currentMonth: Date, calendarDays: nat)
    : MonthlyExpenditureData
    requires 1 <= currentMonth.month <= 12
  {
    if calendarDays == 0 then NoExpenditure
    else
      Totals(ws, WorkerDetails(ws, rs, currentMonth, calendarDays))
  }

  /** `getDatesForMonth(...).length` for the month of `currentMonth`. */
  function CalendarDays(currentMonth: Date): nat
    requires 1 <= currentMonth.month <= 12
  {
    |DatesForMonth(currentMonth.year, currentMonth.month - 1)|
  }

  // ---------------------------------------------------------------------------
  // The computation, as the source runs it

  /** The callback of `workers.map`: one worker's figures. */
  method ComputeWageData(worker: Worker, attendanceRecords: seq<AttendanceRecord>, currentMonth: Date,
                         totalCalendarDaysInMonth: nat) returns (d: CalculatedWageData)
    requires 1 <= currentMonth.month <= 12
    ensures d == WageData(worker, attendanceRecords, currentMonth, totalCalendarDaysInMonth)
  {
    var effectiveDaysList := EffectiveDaysForWorkerInMonth(currentMonth, worker.joinDate, worker.leftDate);
    var effectiveDatesIso := IsoStrings(effectiveDaysList);
    var inPeriod := Filter(attendanceRecords, InEffectivePeriod(worker.id, effectiveDatesIso));
    d := ComputeFigures(worker, inPeriod, |effectiveDaysList|, totalCalendarDaysInMonth);
  }

  /** The `forEach` that adds up `totalPresents`. */
  method CountPresents(inPeriod: seq<AttendanceRecord>) returns (totalPresents: real)
    ensures totalPresents == TotalPresents(inPeriod)
  {
    totalPresents := 0.0;
    for j := 0 to |inPeriod|
      invariant totalPresents == TotalPresents(inPeriod[..j])
    {
      assert inPeriod[..j + 1][..j] == inPeriod[..j];
      var record := inPeriod[j];
      if record.status == Present {
        totalPresents := totalPresents + 1.0;
      } else if record.status == HalfDay {
        totalPresents := totalPresents + 0.5;
      }
    }
    assert inPeriod[..|inPeriod|] == inPeriod;
  }

  /** The rest of the callback, once the considered records are known. */
  method ComputeFigures(worker: Worker, inPeriod: seq<AttendanceRecord>, effectiveDays: nat,
                        totalCalendarDaysInMonth: nat) returns (d: CalculatedWageData)
    ensures d == WageFigures(worker, inPeriod, effectiveDays, totalCalendarDaysInMonth)
  {
    var totalPresents := CountPresents(inPeriod);
    var currentWorkerMoneyTaken := MoneyTakenSum(inPeriod);
    var dailyWage := if totalCalendarDaysInMonth > 0 then worker.assignedSalary / totalCalendarDaysInMonth as real else 0.0;
    var calculatedGrossSalary := totalPresents * dailyWage;
    var netPayableSalary := calculatedGrossSalary - currentWorkerMoneyTaken;
    d := CalculatedWageData(worker.id, worker.name, worker.assignedSalary, effectiveDays,
      totalPresents, calculatedGrossSalary, currentWorkerMoneyTaken, netPayableSalary);
  }

  /** `monthlyExpenditureData`: the per-worker figures and the running totals. */
  method MonthlyExpenditure(workers: seq<Worker>, attendanceRecords: seq<AttendanceRecord>, currentMonth: Date)
    returns (data: MonthlyExpenditureData)
    requires 1 <= currentMonth.month <= 12
    ensures data == Expenditure(workers, attendanceRecords, currentMonth, CalendarDays(currentMonth))
  {
    var totalCalendarDaysInMonth := CalendarDays(currentMonth);
    if totalCalendarDaysInMonth == 0 {
      return NoExpenditure;
    }
    data := AccumulateWorkers(workers, attendanceRecords, currentMonth, totalCalendarDaysInMonth);
    DetailsFromEntries(workers, data.workerDetails, attendanceRecords, currentMonth, totalCalendarDaysInMonth);
  }

  /** The loop over the workers with the four running totals. */
  method AccumulateWorkers(workers: seq<Worker>, attendanceRecords: seq<AttendanceRecord>, currentMonth: Date,
                           totalCalendarDaysInMonth: nat) returns (data: MonthlyExpenditureData)
    requires 1 <= currentMonth.month <= 12
    ensures data == Totals(workers, data.workerDetails)
    ensures EntriesOf(workers, data.workerDetails, attendanceRecords, currentMonth, totalCalendarDaysInMonth)
  {
    var totalAssigned, totalGross, totalTaken, totalNet := 0.0, 0.0, 0.0, 0.0;
    var workerDetails: seq<CalculatedWageData> := [];
    for i := 0 to |workers|
      invariant EntriesOf(workers[..i], workerDetails, attendanceRecords, currentMonth, totalCalendarDaysInMonth)
      invariant MonthlyExpenditureData(totalAssigned, totalGross, totalTaken, totalNet, workerDetails)
        == Totals(workers[..i], workerDetails)
    {
      var worker := workers[i];
      var d := ComputeWageData(worker, attendanceRecords, currentMonth, totalCalendarDaysInMonth);
      totalAssigned := totalAssigned + worker.assignedSalary;
      totalGross := totalGross + d.calculatedGrossSalary;
      totalTaken := totalTaken + d.totalMoneyTaken;
      totalNet := totalNet + d.netPayableSalary;
      assert workers[..i + 1] == workers[..i] + [worker];
      TotalsSnoc(workers[..i], worker, workerDetails, d);
      EntriesSnoc(workers[..i], worker, workerDetails, d, attendanceRecords, currentMonth, totalCalendarDaysInMonth);
      workerDetails := workerDetails + [d];
    }
    assert workers[..|workers|] == workers;
    data := MonthlyExpenditureData(totalAssigned, totalGross, totalTaken, totalNet, workerDetails);
  }

  // ---------------------------------------------------------------------------
  // Properties

  /** One more worker adds one entry at the end. */
  lemma WorkerDetailsSnoc(ws: seq<Worker>, w: Worker, rs: seq<AttendanceRecord>, currentMonth: Date, calendarDays: nat)
    requires 1 <= currentMonth.month <= 12
    ensures WorkerDetails(ws + [w], rs, currentMonth, calendarDays)
      == WorkerDetails(ws, rs, currentMonth, calendarDays) + [WageData(w, rs, currentMonth, calendarDays)]
  {
    assert (ws + [w])[..|ws|] == ws;
  }

  /** The entries are the workers' figures, in worker order. */
  lemma {:induction false} WorkerDetailsEntries(ws: seq<Worker>, rs: seq<AttendanceRecord>, currentMonth: Date,
                                                calendarDays: nat)
    requires 1 <= currentMonth.month <= 12
    ensures forall i :: 0 <= i < |ws| ==>
      WorkerDetails(ws, rs, currentMonth, calendarDays)[i] == WageData(ws[i], rs, currentMonth, calendarDays)
  {
    if ws != [] {
      WorkerDetailsEntries(ws[..|ws| - 1], rs, currentMonth, calendarDays);
    }
  }

  /** One more worker and entry add the worker's salary and the entry's figures
      to the totals. */
  lemma TotalsSnoc(ws: seq<Worker>, w: Worker, ds: seq<CalculatedWageData>, d: CalculatedWageData)
    ensures var e := Totals(ws, ds);
      Totals(ws + [w], ds + [d]) == MonthlyExpenditureData(
        e.totalAssignedSalaries + w.assignedSalary, e.totalCalculatedGrossSalaries + d.calculatedGrossSalary,
        e.totalMoneyTaken + d.totalMoneyTaken, e.totalNetPayableSalaries + d.netPayableSalary, ds + [d])
  {
    assert (ws + [w])[..|ws|] == ws;
    assert (ds + [d])[..|ds|] == ds;
  }

  /** The entries are the workers' figures, in worker order. */
  predicate EntriesOf(ws: seq<Worker>, ds: seq<CalculatedWageData>, rs: seq<AttendanceRecord>,
                      currentMonth: Date, calendarDays: nat)
    requires 1 <= currentMonth.month <= 12
  {
    |ds| == |ws| && forall k :: 0 <= k < |ws| ==> ds[k] == WageData(ws[k], rs, currentMonth, calendarDays)
  }

  /** One more worker's figures extend the entries. */
  lemma EntriesSnoc(ws: seq<Worker>, w: Worker, ds: seq<CalculatedWageData>, d: CalculatedWageData,
                    rs: seq<AttendanceRecord>, currentMonth: Date, calendarDays: nat)
    requires 1 <= currentMonth.month <= 12
    requires EntriesOf(ws, ds, rs, currentMonth, calendarDays) && d == WageData(w, rs, currentMonth, calendarDays)
    ensures EntriesOf(ws + [w], ds + [d], rs, currentMonth, calendarDays)
  {
  }

  /** Entries that are the workers' figures, in worker order, are the details. */
  lemma DetailsFromEntries(ws: seq<Worker>, ds: seq<CalculatedWageData>, rs: seq<AttendanceRecord>,
                           currentMonth: Date, calendarDays: nat)
    requires 1 <= currentMonth.month <= 12
    requires EntriesOf(ws, ds, rs, currentMonth, calendarDays)
    ensures ds == WorkerDetails(ws, rs, currentMonth, calendarDays)
  {
    WorkerDetailsEntries(ws, rs, currentMonth, calendarDays);
  }

  /** Records the filter drops, appended on either side, change nothing. */
  lemma ConsideredIgnoresOther(rs: seq<AttendanceRecord>, other: seq<AttendanceRecord>, workerId: string, iso: seq<string>)
    requires forall x :: x in other ==> x.workerId != workerId || x.date !in iso
    ensures Filter(rs + other, InEffectivePeriod(workerId, iso)) == Filter(rs, InEffectivePeriod(workerId, iso))
    ensures Filter(other + rs, InEffectivePeriod(workerId, iso)) == Filter(rs, InEffectivePeriod(workerId, iso))
  {
    var p := InEffectivePeriod(workerId, iso);
    FilterNone(other, p);
    FilterAppend(rs, other, p);
    FilterAppend(other, rs, p);
    assert Filter(rs, p) + [] == Filter(rs, p);
    assert [] + Filter(rs, p) == Filter(rs, p);
  }

  /** A month always has calendar days, so the all-zero branch is not taken; when
      the count is zero every total is 0 and there are no details. */
  lemma CalendarDaysBranch(ws: seq<Worker>, rs: seq<AttendanceRecord>, currentMonth: Date)
    requires 1 <= currentMonth.month <= 12
    ensures 28 <= CalendarDays(currentMonth) <= 31
    ensures Expenditure(ws, rs, currentMonth, 0) == MonthlyExpenditureData(0.0, 0.0, 0.0, 0.0, [])
  {
  }

  /** A present record counts one day, a half day half a day, the others nothing. */
  lemma {:induction false} TotalPresentsCounts(rs: seq<AttendanceRecord>)
    ensures TotalPresents(rs) == CountStatus(rs, Present) as real + 0.5 * CountStatus(rs, HalfDay) as real
  {
    if rs != [] {
      var rs', x := rs[..|rs| - 1], rs[|rs| - 1];
      assert rs == rs' + [x];
      TotalPresentsCounts(rs');
      CountStatusSnoc(rs', x, Present);
      CountStatusSnoc(rs', x, HalfDay);
    }
  }

  /** The net may be negative: with no present or half-day record, any money
      taken is owed back. */
  lemma NetNegativeWhenNothingEarned(worker: Worker, considered: seq<AttendanceRecord>,
    effectiveDays: nat, calendarDays: nat)
    requires CountStatus(considered, Present) == 0 && CountStatus(considered, HalfDay) == 0
    requires MoneyTakenSum(considered) > 0.0
    ensures WageFigures(worker, considered, effectiveDays, calendarDays).netPayableSalary < 0.0
  {
    TotalPresentsCounts(considered);
  }

  /** A worker's figures count only the worker's records dated on one of the
      worker's employment days: the considered records are exactly those. */
  lemma ConsideredRecords(worker: Worker, rs: seq<AttendanceRecord>, currentMonth: Date, x: AttendanceRecord)
    requires 1 <= currentMonth.month <= 12
    ensures var days := EffectiveDays(worker, currentMonth);
      x in RecordsInEffectivePeriod(worker, rs, currentMonth) <==>
        x in rs && x.workerId == worker.id && exists i :: 0 <= i < |days| && FormatIsoDate(days[i]) == x.date
  {
    var days := EffectiveDays(worker, currentMonth);
    FilterMembers(rs, InEffectivePeriod(worker.id, IsoStrings(days)));
    IsoStringsMembers(days, x.date);
  }

  /** Records of other workers, or dated outside the worker's employment days,
      leave the worker's figures as they are, wherever they are stored. */
  lemma OtherRecordsIgnored(worker: Worker, rs: seq<AttendanceRecord>, other: seq<AttendanceRecord>,
                            currentMonth: Date, calendarDays: nat)
    requires 1 <= currentMonth.month <= 12
    requires forall x :: x in other ==>
      x.workerId != worker.id || x.date !in IsoStrings(EffectiveDays(worker, currentMonth))
    ensures WageData(worker, rs + other, currentMonth, calendarDays) == WageData(worker, rs, currentMonth, calendarDays)
    ensures WageData(worker, other + rs, currentMonth, calendarDays) == WageData(worker, rs, currentMonth, calendarDays)
  {
    ConsideredIgnoresOther(rs, other, worker.id, IsoStrings(EffectiveDays(worker, currentMonth)));
  }

  /** Every entry's net pay is its gross pay less the cash taken, not clamped. */
  lemma {:induction false} NetTotalIsGrossLessTaken(ds: seq<CalculatedWageData>)
    requires forall i :: 0 <= i < |ds| ==>
      ds[i].netPayableSalary == ds[i].calculatedGrossSalary - ds[i].totalMoneyTaken
    ensures SumNet(ds) == SumGross(ds) - SumTaken(ds)
  {
    if ds != [] {
      NetTotalIsGrossLessTaken(ds[..|ds| - 1]);
    }
  }

  /** The four totals: assigned salaries summed over all workers whatever the
      records; net total = gross total - cash taken; one detail per worker, in
      worker order. */
  lemma ExpenditureTotals(ws: seq<Worker>, rs: seq<AttendanceRecord>, currentMonth: Date, calendarDays: nat)
    requires 1 <= currentMonth.month <= 12 && calendarDays > 0
    ensures var e := Expenditure(ws, rs, currentMonth, calendarDays);
      e.totalAssignedSalaries == SumAssigned(ws) &&
      e.totalNetPayableSalaries == e.totalCalculatedGrossSalaries - e.totalMoneyTaken &&
      |e.workerDetails| == |ws| &&
      forall i :: 0 <= i < |ws| ==>
        e.workerDetails[i].workerId == ws[i].id && e.workerDetails[i].workerName == ws[i].name &&
        e.workerDetails[i].assignedSalary == ws[i].assignedSalary
  {
    NetTotalIsGrossLessTaken(WorkerDetails(ws, rs, currentMonth, calendarDays));
  }

  /** With at most one record per worker and day, a worker is credited with at
      most one day per employment day, so the gross pay never exceeds the
      assigned salary. */
  lemma GrossAtMostSalary(worker: Worker, rs: seq<AttendanceRecord>, currentMonth: Date)
    requires 1 <= currentMonth.month <= 12
    requires UniqueBy(rs, RecordKey) && worker.assignedSalary >= 0.0
    ensures var d := WageData(worker, rs, currentMonth, CalendarDays(currentMonth));
      d.totalPresents <= d.effectiveWorkingDaysInMonth as real &&
      d.calculatedGrossSalary <= worker.assignedSalary
  {
    var days := EffectiveDays(worker, currentMonth);
    var iso := IsoStrings(days);
    var c := CalendarDays(currentMonth);
    assert |days| <= c;
    ConsideredDaysDistinct(rs, worker.id, iso);
    FiguresBounded(worker, Filter(rs, InEffectivePeriod(worker.id, iso)), iso, |days|, c);
  }

  /** With records unique per worker and day, at most one record counts per
      listed day, so the credit is at most the number of days and the gross
      pay at most the salary. */
  lemma FiguresBounded(worker: Worker, considered: seq<AttendanceRecord>, iso: seq<string>,
                       effectiveDays: nat, calendarDays: nat)
    requires UniqueBy(considered, RecordDate) && forall i :: 0 <= i < |considered| ==> RecordDate(considered[i]) in iso
    requires worker.assignedSalary >= 0.0
    requires |iso| == effectiveDays <= calendarDays && calendarDays > 0
    ensures var d := WageFigures(worker, considered, effectiveDays, calendarDays);
      d.totalPresents <= effectiveDays as real &&
      d.calculatedGrossSalary <= worker.assignedSalary
  {
    UniqueKeysBound(considered, RecordDate, iso);
    ScaledShareAtMostWhole(TotalPresents(considered), effectiveDays, calendarDays, worker.assignedSalary);
  }

  /** The records of one worker on listed days carry distinct listed dates. */
  lemma ConsideredDaysDistinct(rs: seq<AttendanceRecord>, workerId: string, iso: seq<string>)
    requires UniqueBy(rs, RecordKey)
    ensures var considered := Filter(rs, InEffectivePeriod(workerId, iso));
      UniqueBy(considered, RecordDate) &&
      forall i :: 0 <= i < |considered| ==> RecordDate(considered[i]) in iso
  {
    var p := InEffectivePeriod(workerId, iso);
    var considered := Filter(rs, p);
    FilterMembers(rs, p);
    FilterUniqueBy(rs, p, RecordKey);
    forall i, j | 0 <= i < j < |considered| ensures RecordDate(considered[i]) != RecordDate(considered[j]) {
      assert considered[i] in considered && considered[j] in considered;
      assert RecordKey(considered[i]) != RecordKey(considered[j]);
    }
    forall i | 0 <= i < |considered| ensures RecordDate(considered[i]) in iso {
      assert considered[i] in considered;
    }
  }

  /** `k` daily wages with `k <= n <= c` days are at most the salary. */
  lemma ScaledShareAtMostWhole(k: real, n: nat, c: nat, s: real)
    requires 0.0 <= k <= n as real && n <= c && c > 0 && s >= 0.0
    ensures k * DailyWage(s, c) <= s
  {
    var rate := DailyWage(s, c);
    assert rate * c as real == s;
    assert rate >= 0.0;
    assert k * rate <= c as real * rate by {
      assert c as real * rate - k * rate == (c as real - k) * rate;
    }
  }
}
