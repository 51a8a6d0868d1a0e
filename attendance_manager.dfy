/** The daily attendance screen of `src/components/attendance/AttendanceManager.tsx`:
    its React state (selected worker, shown month, typed money amounts) as a class
    over the shared store. "Today" is fixed when the screen opens. */
module AttendanceManager {
  import opened Options
  import opened Seqs
  import opened Types
  import opened DateUtils
  import opened Records
  import opened AppContext

  /** A typed money amount: nothing (`undefined`, or blank text), text that
      `parseFloat` cannot read (`NaN`), or a number. */
  datatype MoneyInput = Blank | NotANumber | Amount(value: real)

  /** The amount the handlers save: blank and unreadable input become 0. */
  function AmountToSave(m: MoneyInput): (a: real)
    ensures m.Amount? ==> a == m.value
    ensures !m.Amount? ==> a == 0.0
  {
    if m.Amount? then m.value else 0.0
  }

  /** A stored `moneyTakenAmount` shown in the money input. */
  function FromStored(amount: Option<real>): MoneyInput {
    if amount.Some? then Amount(amount.value) else Blank
  }

  /** `moneyTakenAmounts[isoDate]`: a missing key reads as `undefined`. */
  function Lookup(amounts: map<string, MoneyInput>, isoDate: string): MoneyInput {
    if isoDate in amounts then amounts[isoDate] else Blank
  }

  /** `isAfter(parseISO(s), today)`: a string that is not a valid day is an
      invalid date, which is after nothing. */
  predicate IsFutureIso(s: string, today: Date) {
    ParseIsoDate(s).Some? && IsAfter(ParseIsoDate(s).value, today)
  }

  // ---------------------------------------------------------------------------
  // Purge of future records

  /** `record.workerId === selectedWorkerId && isAfter(parseISO(record.date), today)`. */
  function FutureOf(workerId: string, today: Date): AttendanceRecord -> bool {
    (r: AttendanceRecord) => r.workerId == workerId && IsFutureIso(r.date, today)
  }

  function NotFutureOf(workerId: string, today: Date): AttendanceRecord -> bool {
    (r: AttendanceRecord) => !(r.workerId == workerId && IsFutureIso(r.date, today))
  }

  function IdNotIn(ids: seq<string>): AttendanceRecord -> bool {
    (r: AttendanceRecord) => r.id !in ids
  }

  /** The records the purge leaves. */
  function Purged(rs: seq<AttendanceRecord>, workerId: string, today: Date): seq<AttendanceRecord> {
    Filter(rs, NotFutureOf(workerId, today))
  }

  /** After the purge the worker has no record after today; every other record,
      and the worker's records up to today, stay, in their order. */
  lemma PurgedSpec(rs: seq<AttendanceRecord>, workerId: string, today: Date)
    ensures forall x :: x in Purged(rs, workerId, today) <==>
      x in rs && (x.workerId != workerId || !IsFutureIso(x.date, today))
    ensures SubsequenceOf(Purged(rs, workerId, today), rs)
  {
    FilterMembers(rs, NotFutureOf(workerId, today));
    FilterSubsequence(rs, NotFutureOf(workerId, today));
  }

  /** Running the purge again removes nothing more. */
  lemma PurgeIdempotent(rs: seq<AttendanceRecord>, workerId: string, today: Date)
    ensures Purged(Purged(rs, workerId, today), workerId, today) == Purged(rs, workerId, today)
  {
    FilterMembers(rs, NotFutureOf(workerId, today));
    FilterAll(Purged(rs, workerId, today), NotFutureOf(workerId, today));
  }

  /** Deleting one more id from what is left. */
  lemma DeleteStep(rs: seq<AttendanceRecord>, ids: seq<string>, id: string)
    ensures Filter(Filter(rs, IdNotIn(ids)), OtherRecord(id)) == Filter(rs, IdNotIn(ids + [id]))
  {
    FilterConj(rs, IdNotIn(ids), OtherRecord(id), IdNotIn(ids + [id]));
  }

  /** Deleting the future records one id at a time removes exactly the future
      records, because ids are unique. */
  lemma PurgeByIds(rs: seq<AttendanceRecord>, workerId: string, today: Date, ids: seq<string>)
    requires UniqueBy(rs, RecordId)
    requires ids == RecordIds(Filter(rs, FutureOf(workerId, today)))
    ensures Filter(rs, IdNotIn(ids)) == Purged(rs, workerId, today)
  {
    var future := Filter(rs, FutureOf(workerId, today));
    FilterMembers(rs, FutureOf(workerId, today));
    forall x | x in rs ensures IdNotIn(ids)(x) == NotFutureOf(workerId, today)(x) {
      if x.id in ids {
        var j :| 0 <= j < |ids| && ids[j] == x.id;
        assert future[j] in future;
        var a :| 0 <= a < |rs| && rs[a] == x;
        var b :| 0 <= b < |rs| && rs[b] == future[j];
        assert !(a < b) && !(b < a);
      }
      if FutureOf(workerId, today)(x) {
        var j :| 0 <= j < |future| && future[j] == x;
        assert ids[j] == x.id;
      }
    }
    FilterCongruence(rs, IdNotIn(ids), NotFutureOf(workerId, today));
  }

  lemma RecordIdsSnoc(rs: seq<AttendanceRecord>, i: nat)
    requires i < |rs|
    ensures RecordIds(rs[..i + 1]) == RecordIds(rs[..i]) + [rs[i].id]
  {
    assert rs[..i + 1][..i] == rs[..i];
  }

  /** `toDelete.forEach(record => deleteAttendanceRecord(record.id))`. */
  method DeleteRecords(store: AppStore, toDelete: seq<AttendanceRecord>)
    requires store.Valid()
    modifies store
    ensures store.Valid()
    ensures store.attendanceRecords == Filter(old(store.attendanceRecords), IdNotIn(RecordIds(toDelete)))
    ensures store.workers == old(store.workers) && store.anomalyReports == old(store.anomalyReports)
  {
    ghost var records := store.attendanceRecords;
    FilterAll(records, IdNotIn([]));
    for i := 0 to |toDelete|
      invariant store.Valid()
      invariant store.attendanceRecords == Filter(records, IdNotIn(RecordIds(toDelete[..i])))
      invariant store.workers == old(store.workers) && store.anomalyReports == old(store.anomalyReports)
    {
      var record := toDelete[i];
      store.DeleteAttendanceRecord(record.id);
      RecordIdsSnoc(toDelete, i);
      DeleteStep(records, RecordIds(toDelete[..i]), record.id);
    }
    assert toDelete[..|toDelete|] == toDelete;
  }

  // ---------------------------------------------------------------------------
  // Initial money map

  /** The value the effect stores for one day: the record's amount for a day up
      to today that has a record, `undefined` otherwise. */
  function InitialAmount(rs: seq<AttendanceRecord>, workerId: string, isoDate: string, today: Date): MoneyInput {
    var record := FindRecord(rs, workerId, isoDate);
    if record.Some? && !IsFutureIso(isoDate, today) then FromStored(record.value.moneyTakenAmount) else Blank
  }

  /** For a calendar day: a day after today is blank; a day up to today shows its
      record's amount, or blank when there is no record. */
  lemma InitialAmountOfDay(rs: seq<AttendanceRecord>, workerId: string, d: Date, today: Date)
    requires ValidDate(d) && 1 <= d.year <= 9999
    ensures var record := FindRecord(rs, workerId, FormatIsoDate(d));
      InitialAmount(rs, workerId, FormatIsoDate(d), today) ==
        if IsAfter(d, today) || record.None? then Blank else FromStored(record.value.moneyTakenAmount)
  {
    ParseFormatIsoDate(d);
  }

  // ---------------------------------------------------------------------------
  // Handlers

  /** `existingRecord?.status || 'present'`. */
  function StatusToSet(rs: seq<AttendanceRecord>, workerId: string, isoDate: string): (s: AttendanceStatus)
    ensures FindRecord(rs, workerId, isoDate).None? ==> s == Present
  {
    match FindRecord(rs, workerId, isoDate)
    case Some(existing) => existing.status
    case None => Present
  }

  /** A money edit on a day that already has a record rewrites the record with
      its own status, so the store does not change: the new amount lives only in
      the screen's map. */
  lemma MoneyEditOnExistingRecord(rs: seq<AttendanceRecord>, workerId: string, isoDate: string, amount: real)
    requires UniqueBy(rs, RecordId)
    requires FindRecord(rs, workerId, isoDate).Some?
    ensures Upsert(rs, RecordData(workerId, isoDate, StatusToSet(rs, workerId, isoDate), Some(amount))) == rs
  {
    var existing := FindRecord(rs, workerId, isoDate).value;
    var i :| 0 <= i < |rs| && rs[i] == existing && IsRecordFor(rs[i], workerId, isoDate);
    var r := ReplaceRecord(rs, existing.(status := existing.status));
    forall j | 0 <= j < |rs| && rs[j].id == existing.id ensures j == i {
      assert !(j < i) && !(i < j);
    }
    assert forall j :: 0 <= j < |rs| ==> r[j] == rs[j];
  }

  /** A money edit on a day without a record adds a `present` record holding the
      amount. */
  lemma MoneyEditOnNewDay(rs: seq<AttendanceRecord>, workerId: string, isoDate: string, amount: real)
    requires FindRecord(rs, workerId, isoDate).None?
    ensures var r := Upsert(rs, RecordData(workerId, isoDate, StatusToSet(rs, workerId, isoDate), Some(amount)));
      |r| == |rs| + 1 && r[..|rs|] == rs && r[|rs|].workerId == workerId && r[|rs|].date == isoDate &&
      r[|rs|].status == Present && r[|rs|].moneyTakenAmount == Some(amount)
  {
    UpsertNewRecord(rs, RecordData(workerId, isoDate, Present, Some(amount)));
  }

  // ---------------------------------------------------------------------------
  // Money stats

  datatype MoneyStats = MoneyStats(
    totalMoneyTakenThisMonth: real,
    dailyRate: real,
    remainingSalary: real,
    assignedSalary: real,
    baseEarnableSalarySoFar: real,
    daysCountedForEarnable: nat)

  /** The stats once the three counts are known. */
  function StatsFromCounts(assignedSalary: real, calendarDays: nat, daysSoFar: nat, taken: real): MoneyStats {
    var dailyRate := if calendarDays > 0 then assignedSalary / calendarDays as real else 0.0;
    var base := dailyRate * daysSoFar as real;
    MoneyStats(taken, dailyRate, base - taken, assignedSalary, base, daysSoFar)
  }

  /** The records summed into `totalMoneyTakenThisMonth`. */
  function TakenThisMonthOf(workerId: string, year: nat, month: nat, today: Date): AttendanceRecord -> bool {
    (r: AttendanceRecord) => r.workerId == workerId && InMonth(r.date, year, month) && !IsFutureIso(r.date, today)
  }

  function NotAfter(today: Date): Date -> bool {
    (d: Date) => !IsAfter(d, today)
  }

  /** `effectiveDaysForWorkerInMonthSoFar`. */
  function EffectiveDaysSoFar(worker: Worker, currentMonth: Date, today: Date): seq<Date>
    requires 1 <= currentMonth.month <= 12
  {
    Filter(EffectiveDaysForWorkerInMonth(currentMonth, worker.joinDate, worker.leftDate), NotAfter(today))
  }

  function TakenThisMonth(worker: Worker, rs: seq<AttendanceRecord>, currentMonth: Date, today: Date): real {
    MoneyTakenSum(Filter(rs, TakenThisMonthOf(worker.id, currentMonth.year, currentMonth.month, today)))
  }

  /** `getMoneyTakenStats` for a selected worker. */
  function Stats(worker: Worker, rs: seq<AttendanceRecord>, currentMonth: Date, today: Date): MoneyStats
    requires 1 <= currentMonth.month <= 12
  {
    StatsFromCounts(worker.assignedSalary, |DatesForMonth(currentMonth.year, currentMonth.month - 1)|,
      |EffectiveDaysSoFar(worker, currentMonth, today)|, TakenThisMonth(worker, rs, currentMonth, today))
  }

  /** What remains is what was earnable less what was taken; with a non-negative
      salary and no more counted days than calendar days, the earnable part is at
      most the salary, and all of it once every calendar day is counted. */
  lemma StatsFromCountsBounds(assignedSalary: real, calendarDays: nat, daysSoFar: nat, taken: real)
    requires 0.0 <= assignedSalary && daysSoFar <= calendarDays
    ensures var s := StatsFromCounts(assignedSalary, calendarDays, daysSoFar, taken);
      s.remainingSalary == s.baseEarnableSalarySoFar - taken &&
      0.0 <= s.baseEarnableSalarySoFar <= assignedSalary &&
      (daysSoFar == calendarDays > 0 ==> s.baseEarnableSalarySoFar == assignedSalary)
  {
    if calendarDays > 0 {
      var rate := assignedSalary / calendarDays as real;
      assert rate * calendarDays as real == assignedSalary;
      assert rate >= 0.0;
      assert rate * daysSoFar as real <= rate * calendarDays as real;
    }
  }

  /** The earnable amount never exceeds a non-negative salary. */
  lemma EarnableAtMostSalary(worker: Worker, rs: seq<AttendanceRecord>, currentMonth: Date, today: Date)
    requires 1 <= currentMonth.month <= 12 && worker.assignedSalary >= 0.0
    ensures 0.0 <= Stats(worker, rs, currentMonth, today).baseEarnableSalarySoFar <= worker.assignedSalary
  {
    var days := EffectiveDaysForWorkerInMonth(currentMonth, worker.joinDate, worker.leftDate);
    assert |EffectiveDaysSoFar(worker, currentMonth, today)| <= |days|;
    StatsFromCountsBounds(worker.assignedSalary, |DatesForMonth(currentMonth.year, currentMonth.month - 1)|,
      |EffectiveDaysSoFar(worker, currentMonth, today)|, TakenThisMonth(worker, rs, currentMonth, today));
  }

  /** A day list all of whose days are employment days is kept whole. */
  lemma {:induction false} EmployedDaysAll(days: seq<Date>, joinDate: Option<string>, leftDate: Option<string>)
    requires forall i :: 0 <= i < |days| ==> IsEffectiveDay(days[i], joinDate, leftDate)
    ensures EmployedDays(days, joinDate, leftDate) == days
  {
    if days != [] {
      var s', last := days[..|days| - 1], days[|days| - 1];
      assert days == s' + [last];
      EmployedDaysAll(s', joinDate, leftDate);
    }
  }

  /** For a month that is over and in which the worker was employed every day,
      the whole salary is earnable. */
  lemma FullMonthEarnable(worker: Worker, rs: seq<AttendanceRecord>, currentMonth: Date, today: Date)
    requires 1 <= currentMonth.month <= 12 && worker.assignedSalary >= 0.0
    requires var days := DatesForMonth(currentMonth.year, currentMonth.month - 1);
      forall i :: 0 <= i < |days| ==> !IsAfter(days[i], today) && IsEffectiveDay(days[i], worker.joinDate, worker.leftDate)
    ensures Stats(worker, rs, currentMonth, today).baseEarnableSalarySoFar == worker.assignedSalary
  {
    var days := DatesForMonth(currentMonth.year, currentMonth.month - 1);
    EmployedDaysAll(days, worker.joinDate, worker.leftDate);
    FilterAll(days, NotAfter(today));
    StatsFromCountsBounds(worker.assignedSalary, |days|, |days|, TakenThisMonth(worker, rs, currentMonth, today));
  }

  /** Statuses play no part in the amount taken: records that differ only in
      status give the same sum. */
  lemma {:induction false} TakenIgnoresStatus(rs: seq<AttendanceRecord>, rs': seq<AttendanceRecord>, p: AttendanceRecord -> bool)
    requires |rs| == |rs'| && forall i :: 0 <= i < |rs| ==> rs'[i] == rs[i].(status := rs'[i].status)
    requires forall x: AttendanceRecord, s: AttendanceStatus :: p(x.(status := s)) == p(x)
    ensures MoneyTakenSum(Filter(rs', p)) == MoneyTakenSum(Filter(rs, p))
  {
    if rs != [] {
      var n := |rs| - 1;
      var a, a' := rs[..n], rs'[..n];
      var x, x' := rs[n], rs'[n];
      assert rs == a + [x] && rs' == a' + [x'];
      TakenIgnoresStatus(a, a', p);
      assert x' == x.(status := x'.status);
      assert p(x') == p(x) && MoneyTaken(x') == MoneyTaken(x);
      var kept, kept' := if p(x) then [x] else [], if p(x') then [x'] else [];
      assert MoneyTakenSum(kept') == MoneyTakenSum(kept);
      FilterSnoc(a, x, p);
      FilterSnoc(a', x', p);
      MoneyTakenSumAppend(Filter(a, p), kept);
      MoneyTakenSumAppend(Filter(a', p), kept');
    }
  }

  /** The stats do not depend on any record's status. */
  lemma StatsIgnoreStatus(worker: Worker, rs: seq<AttendanceRecord>, rs': seq<AttendanceRecord>, currentMonth: Date, today: Date)
    requires 1 <= currentMonth.month <= 12
    requires |rs| == |rs'| && forall i :: 0 <= i < |rs| ==> rs'[i] == rs[i].(status := rs'[i].status)
    ensures Stats(worker, rs', currentMonth, today) == Stats(worker, rs, currentMonth, today)
  {
    TakenIgnoresStatus(rs, rs', TakenThisMonthOf(worker.id, currentMonth.year, currentMonth.month, today));
  }

  /** Records of other workers, of other months or dated after today add nothing
      to the amount taken. */
  lemma TakenIgnoresOther(worker: Worker, rs: seq<AttendanceRecord>, other: seq<AttendanceRecord>, currentMonth: Date, today: Date)
    requires forall x :: x in other ==>
      x.workerId != worker.id || !InMonth(x.date, currentMonth.year, currentMonth.month) || IsFutureIso(x.date, today)
    ensures TakenThisMonth(worker, rs + other, currentMonth, today) == TakenThisMonth(worker, rs, currentMonth, today)
  {
    var p := TakenThisMonthOf(worker.id, currentMonth.year, currentMonth.month, today);
    FilterNone(other, p);
    FilterAppend(rs, other, p);
    assert Filter(rs, p) + [] == Filter(rs, p);
  }

  // ---------------------------------------------------------------------------
  // The disabled-row rule

  datatype RowState = RowState(isDateDisabled: bool, disabledReasonText: string)

  /** A row is disabled for a day after today, or else for a day before the
      worker's join date; an unreadable or missing join date disables nothing. */
  function RowStateOf(date: Date, today: Date, joinDate: Option<string>): RowState {
    var join := ParseOptionalDate(joinDate);
    if IsAfter(date, today) then RowState(true, "(Future Date)")
    else if join.Some? && Before(date, join.value) then RowState(true, "(Before Join Date)")
    else RowState(false, "")
  }

  /** The row is disabled exactly for days after today or before the join date,
      and a future day always gives the future reason. */
  lemma RowStateSpec(date: Date, today: Date, joinDate: Option<string>)
    ensures var r := RowStateOf(date, today, joinDate);
      (r.isDateDisabled <==>
         (IsAfter(date, today) || (ParseOptionalDate(joinDate).Some? && Before(date, ParseOptionalDate(joinDate).value)))) &&
      (IsAfter(date, today) ==> r.disabledReasonText == "(Future Date)") &&
      (r.isDateDisabled <==> r.disabledReasonText != "")
  {
  }

  /** A day up to today on which the worker is employed is never disabled; the
      rule does not look at the leaving date, so days after it stay enabled. */
  lemma EmployedDayEnabled(date: Date, today: Date, joinDate: Option<string>, leftDate: Option<string>)
    requires !IsAfter(date, today)
    requires IsEffectiveDay(date, joinDate, leftDate) || ParseOptionalDate(joinDate).None?
    ensures !RowStateOf(date, today, joinDate).isDateDisabled
  {
  }

  /** An enabled row of a readable day is not a future day for the money
      handler either: its ISO string parses back to the day itself. */
  lemma EnabledRowNotFuture(date: Date, today: Date, joinDate: Option<string>)
    requires ValidDate(date) && 1 <= date.year <= 9999
    requires !RowStateOf(date, today, joinDate).isDateDisabled
    ensures !IsFutureIso(FormatIsoDate(date), today)
  {
    ParseFormatIsoDate(date);
  }

  /** The loop of that effect over the days of the month. */
  method InitialAmounts(store: AppStore, workerId: string, datesInMonth: seq<Date>, today: Date)
    returns (initialAmounts: map<string, MoneyInput>)
    ensures forall k :: k in initialAmounts <==> k in IsoStrings(datesInMonth)
    ensures forall k :: k in initialAmounts ==>
      initialAmounts[k] == InitialAmount(store.attendanceRecords, workerId, k, today)
  {
    initialAmounts := map[];
    ghost var isoDates := IsoStrings(datesInMonth);
    for i := 0 to |datesInMonth|
      invariant forall k :: k in initialAmounts <==> k in isoDates[..i]
      invariant forall k :: k in initialAmounts ==>
        initialAmounts[k] == InitialAmount(store.attendanceRecords, workerId, k, today)
    {
      var isoDate := FormatIsoDate(datesInMonth[i]);
      assert isoDates[..i + 1] == isoDates[..i] + [isoDate];
      var record := store.GetAttendanceForWorker(workerId, isoDate);
      if record.Some? && !IsFutureIso(isoDate, today) {
        initialAmounts := initialAmounts[isoDate := FromStored(record.value.moneyTakenAmount)];
      } else {
        initialAmounts := initialAmounts[isoDate := Blank];
      }
    }
    assert isoDates[..|datesInMonth|] == isoDates;
  }

  // ---------------------------------------------------------------------------
  // The screen

  class AttendanceScreen {
    const store: AppStore
    const today: Date
    var selectedWorkerId: Option<string>
    var currentMonth: Date
    var moneyTakenAmounts: map<string, MoneyInput>

    predicate Valid()
      reads this`currentMonth, store
    {
      store.Valid() && 1 <= currentMonth.month <= 12
    }

    /** No worker selected, the month of today shown, no amounts typed. */
    constructor (store: AppStore, now: Date)
      requires store.Valid() && 1 <= now.month <= 12
      ensures Valid()
      ensures this.store == store && today == now && currentMonth == now
      ensures selectedWorkerId == None && moneyTakenAmounts == map[]
    {
      this.store := store;
      today := now;
      currentMonth := now;
      selectedWorkerId := None;
      moneyTakenAmounts := map[];
    }

    /** `if (selectedWorkerId)`: an empty id counts as no selection. */
    predicate Selected()
      reads this`selectedWorkerId
    {
      selectedWorkerId.Some? && selectedWorkerId.value != ""
    }

    /** `workers.find(w => w.id === selectedWorkerId)`. */
    function SelectedWorker(): (r: Option<Worker>)
      reads this`selectedWorkerId, store
      ensures r.Some? ==> r.value in store.workers && selectedWorkerId == Some(r.value.id)
    {
      if selectedWorkerId.Some? then FindWorker(store.workers, selectedWorkerId.value) else None
    }

    /** The handlers act only with a selected worker and never on a future day. */
    predicate CanEdit(isFuture: bool)
      reads this`selectedWorkerId, store
    {
      Selected() && SelectedWorker().Some? && !isFuture
    }

    /** The effect that deletes the selected worker's records dated after today. */
    method PurgeFutureRecords()
      requires Valid()
      modifies store
      ensures Valid()
      ensures store.attendanceRecords ==
        if Selected() then Purged(old(store.attendanceRecords), selectedWorkerId.value, today)
        else old(store.attendanceRecords)
      ensures store.workers == old(store.workers) && store.anomalyReports == old(store.anomalyReports)
    {
      if Selected() {
        var workerId := selectedWorkerId.value;
        var records := store.attendanceRecords;
        var futureRecordsForWorker := Filter(records, FutureOf(workerId, today));
        if |futureRecordsForWorker| > 0 {
          DeleteRecords(store, futureRecordsForWorker);
          PurgeByIds(records, workerId, today, RecordIds(futureRecordsForWorker));
        } else {
          FilterMembers(records, FutureOf(workerId, today));
          FilterAll(records, NotFutureOf(workerId, today));
        }
      }
    }

    /** The effect that fills `moneyTakenAmounts` for the shown month: one entry
      per day of the month, or nothing without a selected worker. */
    method InitializeMoneyAmounts()
      requires Valid()
      modifies this`moneyTakenAmounts
      ensures var dates := DatesForMonth(currentMonth.year, currentMonth.month - 1);
        if Selected() && |dates| > 0 then
          (forall k :: k in moneyTakenAmounts <==> k in IsoStrings(dates)) &&
          (forall k :: k in moneyTakenAmounts ==>
             moneyTakenAmounts[k] == InitialAmount(store.attendanceRecords, selectedWorkerId.value, k, today))
        else moneyTakenAmounts == map[]
    {
      var datesInMonth := DatesForMonth(currentMonth.year, currentMonth.month - 1);
      if Selected() && |datesInMonth| > 0 {
        moneyTakenAmounts := InitialAmounts(store, selectedWorkerId.value, datesInMonth, today);
      } else {
        moneyTakenAmounts := map[];
      }
    }

    /** `handleStatusUpdate(date, newStatus)`: upserts the status with the typed
      amount of that day. */
    method HandleStatusUpdate(date: Date, newStatus: AttendanceStatus)
      requires Valid()
      modifies store
      ensures Valid()
      ensures store.attendanceRecords ==
        if old(CanEdit(IsAfter(date, today))) then
          Upsert(old(store.attendanceRecords), RecordData(selectedWorkerId.value, FormatIsoDate(date), newStatus,
            Some(AmountToSave(Lookup(moneyTakenAmounts, FormatIsoDate(date))))))
        else old(store.attendanceRecords)
      ensures store.workers == old(store.workers) && store.anomalyReports == old(store.anomalyReports)
    {
      if !Selected() || SelectedWorker().None? || IsAfter(date, today) {
        return;
      }
      var isoDate := FormatIsoDate(date);
      var currentMoneyRaw := Lookup(moneyTakenAmounts, isoDate);
      var moneyToSave := AmountToSave(currentMoneyRaw);
      store.AddAttendanceRecord(RecordData(selectedWorkerId.value, isoDate, newStatus, Some(moneyToSave)));
    }

    /** `handleMoneyUpdateOnBlur(isoDate, value)`: saves the amount under the
      existing status, or `present`, and shows it in the map. */
    method HandleMoneyUpdateOnBlur(isoDate: string, value: MoneyInput)
      requires Valid()
      modifies this`moneyTakenAmounts, store
      ensures Valid()
      ensures if old(CanEdit(IsFutureIso(isoDate, today))) then
          store.attendanceRecords == Upsert(old(store.attendanceRecords), RecordData(selectedWorkerId.value, isoDate,
            StatusToSet(old(store.attendanceRecords), selectedWorkerId.value, isoDate), Some(AmountToSave(value)))) &&
          moneyTakenAmounts == old(moneyTakenAmounts)[isoDate := Amount(AmountToSave(value))]
        else
          store.attendanceRecords == old(store.attendanceRecords) && moneyTakenAmounts == old(moneyTakenAmounts)
      ensures store.workers == old(store.workers) && store.anomalyReports == old(store.anomalyReports)
    {
      if !Selected() || SelectedWorker().None? || IsFutureIso(isoDate, today) {
        return;
      }
      var newAmountToSave := AmountToSave(value);
      var existingRecord := store.GetAttendanceForWorker(selectedWorkerId.value, isoDate);
      var statusToSet := if existingRecord.Some? then existingRecord.value.status else Present;
      store.AddAttendanceRecord(RecordData(selectedWorkerId.value, isoDate, statusToSet, Some(newAmountToSave)));
      moneyTakenAmounts := moneyTakenAmounts[isoDate := Amount(newAmountToSave)];
    }

    /** `getMoneyTakenStats`: nothing without a selected worker. */
    function MoneyTakenStats(): (r: Option<MoneyStats>)
      reads this, store
      requires Valid()
      ensures r.None? <==> SelectedWorker().None?
    {
      match SelectedWorker()
      case None => None
      case Some(worker) => Some(Stats(worker, store.attendanceRecords, currentMonth, today))
    }

    /** The row's status radio group: a change on a disabled row is ignored. */
    method RowStatusChange(date: Date, newStatus: AttendanceStatus)
      requires Valid() && Selected() && SelectedWorker().Some?
      modifies store
      ensures Valid()
      ensures store.attendanceRecords ==
        if old(RowStateOf(date, today, SelectedWorker().value.joinDate)).isDateDisabled then old(store.attendanceRecords)
        else Upsert(old(store.attendanceRecords), RecordData(selectedWorkerId.value, FormatIsoDate(date), newStatus,
          Some(AmountToSave(Lookup(moneyTakenAmounts, FormatIsoDate(date))))))
      ensures store.workers == old(store.workers) && store.anomalyReports == old(store.anomalyReports)
    {
      var row := RowStateOf(date, today, SelectedWorker().value.joinDate);
      if !row.isDateDisabled {
        HandleStatusUpdate(date, newStatus);
      }
    }

    /** The row's money input: a blur on a disabled row saves nothing; on an
        enabled row it goes to `HandleMoneyUpdateOnBlur` with the day's ISO
        string, which saves it unless that string reads as a future day. */
    method RowMoneyBlur(date: Date, value: MoneyInput)
      requires Valid() && Selected() && SelectedWorker().Some?
      modifies this`moneyTakenAmounts, store
      ensures Valid()
      ensures (old(RowStateOf(date, today, SelectedWorker().value.joinDate)).isDateDisabled ||
               IsFutureIso(FormatIsoDate(date), today)) ==>
        store.attendanceRecords == old(store.attendanceRecords) && moneyTakenAmounts == old(moneyTakenAmounts)
      ensures (!old(RowStateOf(date, today, SelectedWorker().value.joinDate)).isDateDisabled &&
               !IsFutureIso(FormatIsoDate(date), today)) ==>
        store.attendanceRecords == Upsert(old(store.attendanceRecords), RecordData(selectedWorkerId.value,
          FormatIsoDate(date), StatusToSet(old(store.attendanceRecords), selectedWorkerId.value, FormatIsoDate(date)),
          Some(AmountToSave(value)))) &&
        moneyTakenAmounts == old(moneyTakenAmounts)[FormatIsoDate(date) := Amount(AmountToSave(value))]
      ensures store.workers == old(store.workers) && store.anomalyReports == old(store.anomalyReports)
    {
      var row := RowStateOf(date, today, SelectedWorker().value.joinDate);
      if !row.isDateDisabled {
        HandleMoneyUpdateOnBlur(FormatIsoDate(date), value);
      }
    }
  }
}
