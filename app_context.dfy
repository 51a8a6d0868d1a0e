/** The in-memory store of `src/contexts/AppContext.tsx`: workers, attendance
    records and anomaly reports, each replaced through its setter by an add,
    update or delete. The setters' `prev => ...` functions are the pure
    functions below; `AppStore` holds the three collections and applies them. */
module AppContext {
  import opened Options
  import opened Seqs
  import opened Types

  /** `.slice(0, 20)`: the most anomaly reports kept. */
  const MaxAnomalyReports: nat := 20

  // ---------------------------------------------------------------------------
  // Identifiers

  function WorkerIds(ws: seq<Worker>): seq<string> {
    Ids(ws, (w: Worker) => w.id)
  }

  function RecordIds(rs: seq<AttendanceRecord>): seq<string> {
    Ids(rs, (r: AttendanceRecord) => r.id)
  }

  /** The longest length among `ids`. */
  function MaxLength(ids: seq<string>): (m: nat)
    ensures forall i :: 0 <= i < |ids| ==> |ids[i]| <= m
  {
    if ids == [] then 0
    else
      var m' := MaxLength(ids[..|ids| - 1]);
      var last := |ids[|ids| - 1]|;
      if last > m' then last else m'
  }

  function Repeat(c: char, n: nat): (s: string)
    ensures |s| == n
  {
    if n == 0 then "" else Repeat(c, n - 1) + [c]
  }

  /** Stands for `crypto.randomUUID()`: an identifier none of `used` has (it is
      longer than all of them). */
  function FreshId(used: seq<string>): (id: string)
    ensures id !in used
  {
    Repeat('x', MaxLength(used) + 1)
  }

  // ---------------------------------------------------------------------------
  // Workers

  /** `typeof leftDate === 'string' && leftDate.length > 0 ? leftDate : null`. */
  function NormalizeLeftDate(leftDate: Option<string>): (r: Option<string>)
    ensures r.Some? <==> leftDate.Some? && |leftDate.value| > 0
    ensures r.Some? ==> r == leftDate
  {
    match leftDate
    case Some(s) => if |s| > 0 then leftDate else None
    case None => None
  }

  /** `{ ...workerData, id, leftDate }` of `addWorker`. */
  function NewWorker(data: WorkerData, id: string): Worker {
    Worker(id, data.name, data.assignedSalary, data.joinDate, NormalizeLeftDate(data.leftDate))
  }

  /** `{ ...updatedWorker, leftDate }` of `updateWorker`. */
  function NormalizeWorker(w: Worker): Worker {
    w.(leftDate := NormalizeLeftDate(w.leftDate))
  }

  /** The `setWorkers` argument of `addWorker`. */
  function AppendWorker(ws: seq<Worker>, data: WorkerData): (r: seq<Worker>)
  {
    ws + [NewWorker(data, FreshId(WorkerIds(ws)))]
  }

  /** `addWorker` appends one worker, built from `data` with its `leftDate`
      normalised, under an id no earlier worker has; earlier workers stay. */
  lemma AppendWorkerSpec(ws: seq<Worker>, data: WorkerData)
    ensures var r := AppendWorker(ws, data);
      |r| == |ws| + 1 && r[..|ws|] == ws &&
      (forall i :: 0 <= i < |ws| ==> ws[i].id != r[|ws|].id) &&
      r[|ws|].name == data.name && r[|ws|].assignedSalary == data.assignedSalary &&
      r[|ws|].joinDate == data.joinDate &&
      (r[|ws|].leftDate.Some? <==> data.leftDate.Some? && data.leftDate.value != "") &&
      (r[|ws|].leftDate.Some? ==> r[|ws|].leftDate == data.leftDate)
  {
    var r := AppendWorker(ws, data);
    assert r[..|ws|] == ws;
    forall i | 0 <= i < |ws| ensures ws[i].id != r[|ws|].id {
      assert WorkerIds(ws)[i] == ws[i].id;
    }
  }

  /** The `setWorkers` argument of `updateWorker`: `prev.map(...)`. */
  function ReplaceWorker(ws: seq<Worker>, u: Worker): (r: seq<Worker>)
    ensures |r| == |ws|
    ensures forall i :: 0 <= i < |ws| && ws[i].id != u.id ==> r[i] == ws[i]
    ensures forall i :: 0 <= i < |ws| && ws[i].id == u.id ==> r[i] == NormalizeWorker(u)
  {
    if ws == [] then []
    else
      var last := ws[|ws| - 1];
      ReplaceWorker(ws[..|ws| - 1], u) + [if last.id == u.id then NormalizeWorker(u) else last]
  }

  /** `updateWorker` keeps every id in place, and an unknown id changes nothing. */
  lemma ReplaceWorkerIds(ws: seq<Worker>, u: Worker)
    ensures WorkerIds(ReplaceWorker(ws, u)) == WorkerIds(ws)
    ensures (forall i :: 0 <= i < |ws| ==> ws[i].id != u.id) ==> ReplaceWorker(ws, u) == ws
  {
    var r := ReplaceWorker(ws, u);
    assert forall i :: 0 <= i < |ws| ==> r[i].id == ws[i].id;
  }

  function OtherWorker(workerId: string): Worker -> bool {
    (w: Worker) => w.id != workerId
  }

  function NotOfWorker(workerId: string): AttendanceRecord -> bool {
    (r: AttendanceRecord) => r.workerId != workerId
  }

  /** `deleteWorker` drops that worker and all of the worker's records, keeping
      the order of what remains. */
  lemma DeleteWorkerSpec(ws: seq<Worker>, rs: seq<AttendanceRecord>, workerId: string)
    ensures forall w :: w in Filter(ws, OtherWorker(workerId)) <==> w in ws && w.id != workerId
    ensures forall r :: r in Filter(rs, NotOfWorker(workerId)) <==> r in rs && r.workerId != workerId
    ensures SubsequenceOf(Filter(ws, OtherWorker(workerId)), ws)
    ensures SubsequenceOf(Filter(rs, NotOfWorker(workerId)), rs)
  {
    FilterMembers(ws, OtherWorker(workerId));
    FilterMembers(rs, NotOfWorker(workerId));
    FilterSubsequence(ws, OtherWorker(workerId));
    FilterSubsequence(rs, NotOfWorker(workerId));
  }

  // ---------------------------------------------------------------------------
  // Attendance records

  predicate IsRecordFor(r: AttendanceRecord, workerId: string, date: string) {
    r.workerId == workerId && r.date == date
  }

  /** `attendanceRecords.find(ar => ar.workerId === workerId && ar.date === date)`:
      the first record of that worker on that day. */
  function FindRecord(rs: seq<AttendanceRecord>, workerId: string, date: string): (r: Option<AttendanceRecord>)
    ensures r.None? <==> forall i :: 0 <= i < |rs| ==> !IsRecordFor(rs[i], workerId, date)
    ensures r.Some? ==> exists i :: 0 <= i < |rs| && rs[i] == r.value && IsRecordFor(rs[i], workerId, date) &&
                                    forall j :: 0 <= j < i ==> !IsRecordFor(rs[j], workerId, date)
  {
    if rs == [] then None
    else if IsRecordFor(rs[0], workerId, date) then Some(rs[0])
    else
      var r := FindRecord(rs[1..], workerId, date);
      assert forall i :: 1 <= i < |rs| ==> rs[i] == rs[1..][i - 1];
      r
  }

  /** With one record per worker and day, the found record is that one. */
  lemma FindRecordUnique(rs: seq<AttendanceRecord>, i: nat)
    requires UniqueBy(rs, RecordKey) && i < |rs|
    ensures FindRecord(rs, rs[i].workerId, rs[i].date) == Some(rs[i])
  {
    var r := FindRecord(rs, rs[i].workerId, rs[i].date);
    var k :| 0 <= k < |rs| && rs[k] == r.value && IsRecordFor(rs[k], rs[i].workerId, rs[i].date);
    assert RecordKey(rs[k]) == RecordKey(rs[i]);
  }

  /** The `setAttendanceRecords` argument of `updateAttendanceRecord`. */
  function ReplaceRecord(rs: seq<AttendanceRecord>, u: AttendanceRecord): (r: seq<AttendanceRecord>)
    ensures |r| == |rs|
    ensures forall i :: 0 <= i < |rs| && rs[i].id != u.id ==> r[i] == rs[i]
    ensures forall i :: 0 <= i < |rs| && rs[i].id == u.id ==> r[i] == u
  {
    if rs == [] then []
    else
      var last := rs[|rs| - 1];
      ReplaceRecord(rs[..|rs| - 1], u) + [if last.id == u.id then u else last]
  }

  /** A record built from `data` under an id no record has. */
  function NewRecord(rs: seq<AttendanceRecord>, data: RecordData): AttendanceRecord {
    AttendanceRecord(FreshId(RecordIds(rs)), data.workerId, data.date, data.status, data.moneyTakenAmount)
  }

  /** The records after `addAttendanceRecord(data)`: an existing record of that
      worker and day gets only the new status; otherwise a new record is added. */
  function Upsert(rs: seq<AttendanceRecord>, data: RecordData): seq<AttendanceRecord> {
    match FindRecord(rs, data.workerId, data.date)
    case Some(existing) => ReplaceRecord(rs, existing.(status := data.status))
    case None => rs + [NewRecord(rs, data)]
  }

  /** A new worker and day appends exactly one record, with a fresh id and the
      given status and amount. */
  lemma UpsertNewRecord(rs: seq<AttendanceRecord>, data: RecordData)
    requires forall i :: 0 <= i < |rs| ==> !IsRecordFor(rs[i], data.workerId, data.date)
    ensures var r := Upsert(rs, data);
      |r| == |rs| + 1 && r[..|rs|] == rs &&
      r[|rs|].workerId == data.workerId && r[|rs|].date == data.date &&
      r[|rs|].status == data.status && r[|rs|].moneyTakenAmount == data.moneyTakenAmount &&
      forall i :: 0 <= i < |rs| ==> rs[i].id != r[|rs|].id
  {
    var r := Upsert(rs, data);
    assert r == rs + [NewRecord(rs, data)];
    assert r[..|rs|] == rs;
    forall i | 0 <= i < |rs| ensures rs[i].id != r[|rs|].id {
      assert RecordIds(rs)[i] == rs[i].id;
    }
  }

  /** An existing worker and day changes only that record's status: its id and
      its amount stay, and so does every other record. */
  lemma UpsertExistingRecord(rs: seq<AttendanceRecord>, data: RecordData, i: nat)
    requires UniqueBy(rs, RecordId) && UniqueBy(rs, RecordKey)
    requires i < |rs| && IsRecordFor(rs[i], data.workerId, data.date)
    ensures var r := Upsert(rs, data);
      |r| == |rs| && r[i] == rs[i].(status := data.status) &&
      forall j :: 0 <= j < |rs| && j != i ==> r[j] == rs[j]
  {
    FindRecordUnique(rs, i);
    forall j | 0 <= j < |rs| && j != i ensures rs[j].id != rs[i].id {
      assert RecordId(rs[j]) != RecordId(rs[i]);
    }
  }

  /** `addAttendanceRecord` keeps "at most one record per worker and day" and
      "ids are unique". */
  lemma UpsertKeepsUnique(rs: seq<AttendanceRecord>, data: RecordData)
    requires UniqueBy(rs, RecordId) && UniqueBy(rs, RecordKey)
    ensures UniqueBy(Upsert(rs, data), RecordId) && UniqueBy(Upsert(rs, data), RecordKey)
  {
    var r := Upsert(rs, data);
    if k :| 0 <= k < |rs| && IsRecordFor(rs[k], data.workerId, data.date) {
      UpsertExistingRecord(rs, data, k);
      assert forall j :: 0 <= j < |rs| ==> RecordId(r[j]) == RecordId(rs[j]) && RecordKey(r[j]) == RecordKey(rs[j]);
    } else {
      UpsertNewRecord(rs, data);
      assert r == rs + [r[|rs|]];
      UniqueBySnoc(rs, r[|rs|], RecordId);
      UniqueBySnoc(rs, r[|rs|], RecordKey);
    }
  }

  /** `updateAttendanceRecord` keeps every id in place. */
  lemma ReplaceRecordKeepsIds(rs: seq<AttendanceRecord>, u: AttendanceRecord)
    requires UniqueBy(rs, RecordId)
    ensures UniqueBy(ReplaceRecord(rs, u), RecordId)
  {
    var r := ReplaceRecord(rs, u);
    assert forall j :: 0 <= j < |rs| ==> RecordId(r[j]) == RecordId(rs[j]);
  }

  function OtherRecord(recordId: string): AttendanceRecord -> bool {
    (r: AttendanceRecord) => r.id != recordId
  }

  // ---------------------------------------------------------------------------
  // Anomaly reports

  function OtherReport(report: AnomalyReport): AnomalyReport -> bool {
    (r: AnomalyReport) => !(r.workerId == report.workerId && r.monthYear == report.monthYear)
  }

  /** The `setAnomalyReports` argument of `addAnomalyReport`. */
  function InsertReport(rs: seq<AnomalyReport>, report: AnomalyReport): (r: seq<AnomalyReport>)
    ensures 1 <= |r| <= MaxAnomalyReports && r[0] == report
  {
    var all := [report] + Filter(rs, OtherReport(report));
    if |all| <= MaxAnomalyReports then all else all[..MaxAnomalyReports]
  }

  /** After the new report come the kept reports, cut to fit the cap. */
  lemma InsertReportTail(rs: seq<AnomalyReport>, report: AnomalyReport)
    ensures var r := InsertReport(rs, report);
      var kept := Filter(rs, OtherReport(report));
      |r| - 1 <= |kept| && r[1..] == kept[..|r| - 1] &&
      |r| == (if |kept| < MaxAnomalyReports then |kept| + 1 else MaxAnomalyReports) &&
      (|kept| < MaxAnomalyReports ==> r[1..] == kept)
  {
  }

  /** `addAnomalyReport` puts the new report first (`InsertReport`), drops the
      earlier one of the same worker and month, keeps the others in order, and
      keeps at most 20: every other report survives while fewer than 20 are
      stored. */
  lemma InsertReportSpec(rs: seq<AnomalyReport>, report: AnomalyReport)
    ensures forall x :: x in InsertReport(rs, report)[1..] ==> x in rs && ReportKey(x) != ReportKey(report)
    ensures SubsequenceOf(InsertReport(rs, report)[1..], rs)
    ensures |rs| < MaxAnomalyReports ==>
      forall x :: x in rs && ReportKey(x) != ReportKey(report) ==> x in InsertReport(rs, report)[1..]
  {
    var r := InsertReport(rs, report);
    var kept := Filter(rs, OtherReport(report));
    FilterMembers(rs, OtherReport(report));
    assert forall x :: x in kept <==> x in rs && ReportKey(x) != ReportKey(report);
    InsertReportTail(rs, report);
    FilterSubsequence(rs, OtherReport(report));
    SubsequencePrefix(kept, rs, |r| - 1);
    assert forall x :: x in r[1..] ==> x in kept;
  }

  /** `addAnomalyReport` keeps one report per worker and month. */
  lemma InsertReportKeepsUnique(rs: seq<AnomalyReport>, report: AnomalyReport)
    requires UniqueBy(rs, ReportKey)
    ensures UniqueBy(InsertReport(rs, report), ReportKey)
  {
    var r := InsertReport(rs, report);
    var kept := Filter(rs, OtherReport(report));
    InsertReportTail(rs, report);
    FilterMembers(rs, OtherReport(report));
    FilterUniqueBy(rs, OtherReport(report), ReportKey);
    forall i, j | 0 <= i < j < |r| ensures ReportKey(r[i]) != ReportKey(r[j]) {
      assert r[j] == kept[j - 1];
      if i > 0 {
        assert r[i] == kept[i - 1];
      } else {
        assert kept[j - 1] in kept;
      }
    }
  }

  // ---------------------------------------------------------------------------
  // The store

  class AppStore {
    var workers: seq<Worker>
    var attendanceRecords: seq<AttendanceRecord>
    var anomalyReports: seq<AnomalyReport>

    /** Ids are unique, and reports are unique per worker and month and capped. */
    predicate Valid()
      reads this
    {
      UniqueBy(workers, WorkerId) && UniqueBy(attendanceRecords, RecordId) &&
      UniqueBy(anomalyReports, ReportKey) && |anomalyReports| <= MaxAnomalyReports
    }

    /** The three collections start empty. */
    constructor ()
      ensures Valid()
      ensures workers == [] && attendanceRecords == [] && anomalyReports == []
    {
      workers := [];
      attendanceRecords := [];
      anomalyReports := [];
    }

    method AddWorker(data: WorkerData)
      requires Valid()
      modifies this
      ensures Valid()
      ensures workers == AppendWorker(old(workers), data)
      ensures attendanceRecords == old(attendanceRecords) && anomalyReports == old(anomalyReports)
    {
      var newWorker := NewWorker(data, FreshId(WorkerIds(workers)));
      AppendWorkerSpec(workers, data);
      UniqueBySnoc(workers, newWorker, WorkerId);
      workers := workers + [newWorker];
    }

    method UpdateWorker(updatedWorker: Worker)
      requires Valid()
      modifies this
      ensures Valid()
      ensures workers == ReplaceWorker(old(workers), updatedWorker)
      ensures attendanceRecords == old(attendanceRecords) && anomalyReports == old(anomalyReports)
    {
      var r := ReplaceWorker(workers, updatedWorker);
      assert forall j :: 0 <= j < |workers| ==> WorkerId(r[j]) == WorkerId(workers[j]);
      workers := r;
    }

    /** Removes the worker and, with it, the worker's attendance records. */
    method DeleteWorker(workerId: string)
      requires Valid()
      modifies this
      ensures Valid()
      ensures workers == Filter(old(workers), OtherWorker(workerId))
      ensures attendanceRecords == Filter(old(attendanceRecords), NotOfWorker(workerId))
      ensures anomalyReports == old(anomalyReports)
    {
      FilterUniqueBy(workers, OtherWorker(workerId), WorkerId);
      FilterUniqueBy(attendanceRecords, NotOfWorker(workerId), RecordId);
      workers := Filter(workers, OtherWorker(workerId));
      attendanceRecords := Filter(attendanceRecords, NotOfWorker(workerId));
    }

    /** Upsert by worker and day: an existing record only takes the new status. */
    method AddAttendanceRecord(recordData: RecordData)
      requires Valid()
      modifies this
      ensures Valid()
      ensures attendanceRecords == Upsert(old(attendanceRecords), recordData)
      ensures UniqueBy(old(attendanceRecords), RecordKey) ==> UniqueBy(attendanceRecords, RecordKey)
      ensures workers == old(workers) && anomalyReports == old(anomalyReports)
    {
      if UniqueBy(attendanceRecords, RecordKey) {
        UpsertKeepsUnique(attendanceRecords, recordData);
      }
      var existingRecord := FindRecord(attendanceRecords, recordData.workerId, recordData.date);
      if existingRecord.Some? {
        UpdateAttendanceRecord(existingRecord.value.(status := recordData.status));
      } else {
        var newRecord := NewRecord(attendanceRecords, recordData);
        forall i | 0 <= i < |attendanceRecords| ensures RecordId(attendanceRecords[i]) != RecordId(newRecord) {
          assert RecordIds(attendanceRecords)[i] == attendanceRecords[i].id;
        }
        UniqueBySnoc(attendanceRecords, newRecord, RecordId);
        attendanceRecords := attendanceRecords + [newRecord];
      }
    }

    method UpdateAttendanceRecord(updatedRecord: AttendanceRecord)
      requires Valid()
      modifies this
      ensures Valid()
      ensures attendanceRecords == ReplaceRecord(old(attendanceRecords), updatedRecord)
      ensures workers == old(workers) && anomalyReports == old(anomalyReports)
    {
      ReplaceRecordKeepsIds(attendanceRecords, updatedRecord);
      attendanceRecords := ReplaceRecord(attendanceRecords, updatedRecord);
    }

    method DeleteAttendanceRecord(recordId: string)
      requires Valid()
      modifies this
      ensures Valid()
      ensures attendanceRecords == Filter(old(attendanceRecords), OtherRecord(recordId))
      ensures workers == old(workers) && anomalyReports == old(anomalyReports)
    {
      FilterUniqueBy(attendanceRecords, OtherRecord(recordId), RecordId);
      attendanceRecords := Filter(attendanceRecords, OtherRecord(recordId));
    }

    /** The stored record of that worker on that day, if there is one. */
    function GetAttendanceForWorker(workerId: string, date: string): (r: Option<AttendanceRecord>)
      reads this
      ensures r.None? <==> forall i :: 0 <= i < |attendanceRecords| ==> !IsRecordFor(attendanceRecords[i], workerId, date)
      ensures r.Some? ==> r.value in attendanceRecords && IsRecordFor(r.value, workerId, date)
    {
      FindRecord(attendanceRecords, workerId, date)
    }

    method AddAnomalyReport(report: AnomalyReport)
      requires Valid()
      modifies this
      ensures Valid()
      ensures anomalyReports == InsertReport(old(anomalyReports), report)
      ensures workers == old(workers) && attendanceRecords == old(attendanceRecords)
    {
      InsertReportKeepsUnique(anomalyReports, report);
      anomalyReports := InsertReport(anomalyReports, report);
    }
  }
}
