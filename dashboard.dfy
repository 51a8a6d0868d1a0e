/** The two "today" counts of the dashboard page (`src/app/page.tsx`). `todayIso`
    is `formatIsoDate(today)`; `isClientMounted` is false on the server render. */
module Dashboard {
  import opened Seqs
  import opened Types
  import opened Records

  function DatedOn(todayIso: string): AttendanceRecord -> bool {
    (r: AttendanceRecord) => r.date == todayIso
  }

  function PresentOn(todayIso: string): AttendanceRecord -> bool {
    (r: AttendanceRecord) => r.date == todayIso && r.status == Present
  }

  function AbsentOrHalfDayOn(todayIso: string): AttendanceRecord -> bool {
    (r: AttendanceRecord) => r.date == todayIso && (r.status == Absent || r.status == HalfDay)
  }

  /** `presentTodayCount`. */
  function PresentTodayCount(rs: seq<AttendanceRecord>, todayIso: string, isClientMounted: bool): (n: nat)
    ensures !isClientMounted ==> n == 0
  {
    if !isClientMounted then 0 else |Filter(rs, PresentOn(todayIso))|
  }

  /** `absentOrHalfDayTodayCount`. */
  function AbsentOrHalfDayTodayCount(rs: seq<AttendanceRecord>, todayIso: string, isClientMounted: bool): (n: nat)
    ensures !isClientMounted ==> n == 0
  {
    if !isClientMounted then 0 else |Filter(rs, AbsentOrHalfDayOn(todayIso))|
  }

  /** Once mounted, the counts are the status counts among today's records:
      present for the first, absent plus half-day for the second. */
  lemma {:induction false} TodayCounts(rs: seq<AttendanceRecord>, todayIso: string)
    ensures var today := Filter(rs, DatedOn(todayIso));
      PresentTodayCount(rs, todayIso, true) == CountStatus(today, Present) &&
      AbsentOrHalfDayTodayCount(rs, todayIso, true) == CountStatus(today, Absent) + CountStatus(today, HalfDay)
  {
    if rs != [] {
      var rs', x := rs[..|rs| - 1], rs[|rs| - 1];
      assert rs == rs' + [x];
      TodayCounts(rs', todayIso);
      FilterSnoc(rs', x, PresentOn(todayIso));
      FilterSnoc(rs', x, AbsentOrHalfDayOn(todayIso));
      FilterSnoc(rs', x, DatedOn(todayIso));
      var today' := Filter(rs', DatedOn(todayIso));
      if x.date == todayIso {
        assert Filter(rs, DatedOn(todayIso)) == today' + [x];
        CountStatusSnoc(today', x, Present);
        CountStatusSnoc(today', x, Absent);
        CountStatusSnoc(today', x, HalfDay);
      } else {
        assert Filter(rs, DatedOn(todayIso)) == today';
        assert Filter(rs, PresentOn(todayIso)) == Filter(rs', PresentOn(todayIso));
        assert Filter(rs, AbsentOrHalfDayOn(todayIso)) == Filter(rs', AbsentOrHalfDayOn(todayIso));
      }
    }
  }

  /** The two counts never exceed the number of records dated today: they fall
      short of it by exactly the per-day-wage-taken records, counted in neither. */
  lemma TodayCountsBound(rs: seq<AttendanceRecord>, todayIso: string, isClientMounted: bool)
    ensures var today := Filter(rs, DatedOn(todayIso));
      PresentTodayCount(rs, todayIso, isClientMounted) + AbsentOrHalfDayTodayCount(rs, todayIso, isClientMounted)
        <= |today|
    ensures var today := Filter(rs, DatedOn(todayIso));
      isClientMounted ==>
        PresentTodayCount(rs, todayIso, isClientMounted) + AbsentOrHalfDayTodayCount(rs, todayIso, isClientMounted)
          == |today| - CountStatus(today, PerDayWageTaken)
  {
    TodayCounts(rs, todayIso);
    StatusCountsPartition(Filter(rs, DatedOn(todayIso)));
  }

  /** Records dated on any other day change neither count. */
  lemma OtherDaysIgnored(rs: seq<AttendanceRecord>, other: seq<AttendanceRecord>, todayIso: string, isClientMounted: bool)
    requires forall x :: x in other ==> x.date != todayIso
    ensures PresentTodayCount(rs + other, todayIso, isClientMounted) == PresentTodayCount(rs, todayIso, isClientMounted)
    ensures AbsentOrHalfDayTodayCount(rs + other, todayIso, isClientMounted)
      == AbsentOrHalfDayTodayCount(rs, todayIso, isClientMounted)
  {
    FilterNone(other, PresentOn(todayIso));
    FilterNone(other, AbsentOrHalfDayOn(todayIso));
    FilterAppend(rs, other, PresentOn(todayIso));
    FilterAppend(rs, other, AbsentOrHalfDayOn(todayIso));
  }
}
