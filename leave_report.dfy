/** The leave summary of `src/components/reports/LeaveReport.tsx`: the selected
    worker's records in the selected month, weighted with half days, and the
    calendar highlights built from them. No employment window is applied. */
module LeaveReport {
  import opened Options
  import opened Seqs
  import opened Types
  import opened DateUtils
  import opened Records

  datatype LeaveData = LeaveData(
    totalLeaves: real,
    halfDayLeaves: nat,
    fullDayAbsences: nat,
    presentDays: real,
    calendarDaysInMonth: nat)

  /** The `absent` and `halfDay` day lists handed to the calendar. */
  datatype CalendarModifiers = CalendarModifiers(absent: seq<Option<Date>>, halfDay: seq<Option<Date>>)

  /** `workerAttendanceForMonth`: nothing while no worker is selected (`null` or
      the empty id); otherwise every record of that worker dated in the month,
      whether or not the worker was employed on that day. */
  function ConsideredRecords(rs: seq<AttendanceRecord>, selectedWorkerId: Option<string>, year: nat, month: nat)
    : (r: seq<AttendanceRecord>)
    ensures selectedWorkerId.None? || selectedWorkerId.value == "" ==> r == []
    ensures selectedWorkerId.Some? && selectedWorkerId.value != "" ==>
      forall x :: x in r <==> x in rs && x.workerId == selectedWorkerId.value && InMonth(x.date, year, month)
  {
    if selectedWorkerId.None? || selectedWorkerId.value == "" then []
    else WorkerAttendanceForMonth(rs, selectedWorkerId.value, year, month)
  }

  /** The `reduce` step of `totalLeaves`. */
  function AddLeave(acc: real, r: AttendanceRecord): real {
    if r.status == Absent then acc + 1.0
    else if r.status == HalfDay then acc + 0.5
    else acc
  }

  /** `totalLeaves`: the left fold of `AddLeave` from 0. */
  function TotalLeaves(rs: seq<AttendanceRecord>): real {
    if rs == [] then 0.0 else AddLeave(TotalLeaves(rs[..|rs| - 1]), rs[|rs| - 1])
  }

  /** `leaveData` for the considered records of a month (`month` 1-based). */
  function LeaveDataFor(rs: seq<AttendanceRecord>, year: nat, month: nat): LeaveData
    requires 1 <= month <= 12
  {
    LeaveData(
      TotalLeaves(rs),
      CountStatus(rs, HalfDay),
      CountStatus(rs, Absent),
      CountStatus(rs, Present) as real + CountStatus(rs, HalfDay) as real * 0.5,
      |DatesForMonth(year, month - 1)|)
  }

  /** `new Date(r.date)` for each record. */
  function RecordDates(rs: seq<AttendanceRecord>): (r: seq<Option<Date>>)
    ensures |r| == |rs| && forall i :: 0 <= i < |rs| ==> r[i] == ParseIsoDate(rs[i].date)
  {
    if rs == [] then [] else RecordDates(rs[..|rs| - 1]) + [ParseIsoDate(rs[|rs| - 1].date)]
  }

  /** `calendarModifiers`. */
  function Modifiers(rs: seq<AttendanceRecord>): CalendarModifiers {
    CalendarModifiers(
      RecordDates(Filter(rs, HasStatus(Absent))),
      RecordDates(Filter(rs, HasStatus(HalfDay))))
  }

  /** A full-day absence weighs one leave, a half day half a leave. */
  lemma {:induction false} TotalLeavesCounts(rs: seq<AttendanceRecord>)
    ensures TotalLeaves(rs) == CountStatus(rs, Absent) as real + 0.5 * CountStatus(rs, HalfDay) as real
  {
    if rs != [] {
      var rs', x := rs[..|rs| - 1], rs[|rs| - 1];
      assert rs == rs' + [x];
      TotalLeavesCounts(rs');
      CountStatusSnoc(rs', x, Absent);
      CountStatusSnoc(rs', x, HalfDay);
    }
  }

  /** Leaves and present days split the absent, present and half-day records
      between them; per-day-wage-taken records count in neither. */
  lemma LeavesPlusPresent(rs: seq<AttendanceRecord>, year: nat, month: nat)
    requires 1 <= month <= 12
    ensures var d := LeaveDataFor(rs, year, month);
      d.totalLeaves == d.fullDayAbsences as real + 0.5 * d.halfDayLeaves as real &&
      d.totalLeaves + d.presentDays
        == (CountStatus(rs, Absent) + CountStatus(rs, Present) + CountStatus(rs, HalfDay)) as real &&
      d.totalLeaves + d.presentDays == (|rs| - CountStatus(rs, PerDayWageTaken)) as real
  {
    TotalLeavesCounts(rs);
    StatusCountsPartition(rs);
  }

  /** The calendar day count is the month's length, whatever the records. */
  lemma CalendarDaysOfMonth(rs: seq<AttendanceRecord>, year: nat, month: nat)
    requires 1 <= month <= 12
    ensures LeaveDataFor(rs, year, month).calendarDaysInMonth == DaysInMonth(year, month)
    ensures 28 <= LeaveDataFor(rs, year, month).calendarDaysInMonth <= 31
  {
  }

  /** The calendar highlights one day per absent and per half-day record. */
  lemma ModifierLengths(rs: seq<AttendanceRecord>, year: nat, month: nat)
    requires 1 <= month <= 12
    ensures |Modifiers(rs).absent| == LeaveDataFor(rs, year, month).fullDayAbsences
    ensures |Modifiers(rs).halfDay| == LeaveDataFor(rs, year, month).halfDayLeaves
  {
  }
}
