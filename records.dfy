/** Queries over attendance records that several screens share: status counts
    (`filter(r => r.status === s).length`), the money-taken sum, and the
    "this worker, this month" test. */
module Records {
  import opened Options
  import opened Seqs
  import opened Types
  import opened DateUtils

  function HasStatus(s: AttendanceStatus): AttendanceRecord -> bool {
    (r: AttendanceRecord) => r.status == s
  }

  /** `records.filter(r => r.status === s).length`. */
  function CountStatus(rs: seq<AttendanceRecord>, s: AttendanceStatus): (n: nat)
    ensures n <= |rs|
  {
    |Filter(rs, HasStatus(s))|
  }

  /** One more record adds one to the count of its own status only. */
  lemma CountStatusSnoc(rs: seq<AttendanceRecord>, x: AttendanceRecord, s: AttendanceStatus)
    ensures CountStatus(rs + [x], s) == CountStatus(rs, s) + (if x.status == s then 1 else 0)
  {
    FilterSnoc(rs, x, HasStatus(s));
  }

  /** Every record has exactly one of the four statuses. */
  lemma {:induction false} StatusCountsPartition(rs: seq<AttendanceRecord>)
    ensures CountStatus(rs, Present) + CountStatus(rs, Absent) + CountStatus(rs, HalfDay)
      + CountStatus(rs, PerDayWageTaken) == |rs|
  {
    if rs != [] {
      var rs', x := rs[..|rs| - 1], rs[|rs| - 1];
      assert rs == rs' + [x];
      StatusCountsPartition(rs');
      CountStatusSnoc(rs', x, Present);
      CountStatusSnoc(rs', x, Absent);
      CountStatusSnoc(rs', x, HalfDay);
      CountStatusSnoc(rs', x, PerDayWageTaken);
    }
  }

  /** `records.reduce((sum, r) => sum + (r.moneyTakenAmount || 0), 0)`. */
  function MoneyTakenSum(rs: seq<AttendanceRecord>): (m: real)
    ensures (forall i :: 0 <= i < |rs| ==> MoneyTaken(rs[i]) >= 0.0) ==> m >= 0.0
  {
    if rs == [] then 0.0 else MoneyTakenSum(rs[..|rs| - 1]) + MoneyTaken(rs[|rs| - 1])
  }

  /** The sum over a concatenation is the sum of the sums. */
  lemma {:induction false} MoneyTakenSumAppend(a: seq<AttendanceRecord>, b: seq<AttendanceRecord>)
    ensures MoneyTakenSum(a + b) == MoneyTakenSum(a) + MoneyTakenSum(b)
    decreases |b|
  {
    if b == [] {
      assert a + b == a;
    } else {
      var b' := b[..|b| - 1];
      assert (a + b)[..|a + b| - 1] == a + b';
      MoneyTakenSumAppend(a, b');
    }
  }

  /** `new Date(date).getFullYear() === year && new Date(date).getMonth() === month - 1`,
      read from the `yyyy-MM-dd` string itself; a string that is not a valid day
      belongs to no month. */
  predicate InMonth(date: string, year: nat, month: nat) {
    var d := ParseIsoDate(date);
    d.Some? && d.value.year == year && d.value.month == month
  }

  /** `record.workerId === workerId && <date in the month>`. */
  function OfWorkerInMonth(workerId: string, year: nat, month: nat): AttendanceRecord -> bool {
    (r: AttendanceRecord) => r.workerId == workerId && InMonth(r.date, year, month)
  }

  /** The worker's records in the month, in store order. */
  function WorkerAttendanceForMonth(rs: seq<AttendanceRecord>, workerId: string, year: nat, month: nat)
    : (r: seq<AttendanceRecord>)
    ensures forall x :: x in r <==> x in rs && x.workerId == workerId && InMonth(x.date, year, month)
    ensures SubsequenceOf(r, rs)
  {
    FilterSubsequence(rs, OfWorkerInMonth(workerId, year, month));
    FilterMembers(rs, OfWorkerInMonth(workerId, year, month));
    Filter(rs, OfWorkerInMonth(workerId, year, month))
  }

  /** `workers.find(w => w.id === id)`. */
  function FindWorker(ws: seq<Worker>, id: string): (r: Option<Worker>)
    ensures r.None? <==> forall i :: 0 <= i < |ws| ==> ws[i].id != id
    ensures r.Some? ==> r.value in ws && r.value.id == id
  {
    if ws == [] then None
    else if ws[0].id == id then Some(ws[0])
    else
      var r := FindWorker(ws[1..], id);
      assert forall i :: 1 <= i < |ws| ==> ws[i] == ws[1..][i - 1];
      r
  }
}
