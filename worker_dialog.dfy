/** The add/edit worker dialog (`src/components/workers/WorkerDialog.tsx`): the
    `workerSchema` check, the values the form is reset to, and what a submitted
    form asks of the store. */
module WorkerDialog {
  import opened Options
  import opened Types
  import opened AppContext

  /** `z.infer<typeof workerSchema>`, after `z.coerce.number()`. */
  datatype WorkerFormData = WorkerFormData(name: string, assignedSalary: real)

  const NameTooShort: string := "Name must be at least 2 characters."
  const SalaryNotPositive: string := "Salary must be a positive number."

  /** The messages `workerSchema` reports, field by field. */
  function SchemaErrors(data: WorkerFormData): (errors: seq<string>)
    ensures errors == [] <==> |data.name| >= 2 && data.assignedSalary > 0.0
    ensures NameTooShort in errors <==> |data.name| < 2
    ensures SalaryNotPositive in errors <==> data.assignedSalary <= 0.0
  {
    (if |data.name| < 2 then [NameTooShort] else [])
      + (if data.assignedSalary > 0.0 then [] else [SalaryNotPositive])
  }

  predicate Accepted(data: WorkerFormData) {
    SchemaErrors(data) == []
  }

  /** The `form.reset` values of the open effect: the edited worker's name and
      salary, or an empty name and a zero salary when adding. */
  function ResetValues(worker: Option<Worker>): (r: WorkerFormData)
    ensures worker.None? ==> r == WorkerFormData("", 0.0)
    ensures worker.Some? ==> r.name == worker.value.name && r.assignedSalary == worker.value.assignedSalary
  {
    match worker
    case None => WorkerFormData("", 0.0)
    case Some(w) => WorkerFormData(w.name, w.assignedSalary)
  }

  /** The blank add form fails both checks until it is edited. */
  lemma BlankFormRejected()
    ensures SchemaErrors(ResetValues(None)) == [NameTooShort, SalaryNotPositive]
  {
  }

  /** `{ ...worker, ...data }`: the form overrides the name and the salary only. */
  function MergeEdit(worker: Worker, data: WorkerFormData): (r: Worker)
    ensures r.id == worker.id && r.joinDate == worker.joinDate && r.leftDate == worker.leftDate
    ensures r.name == data.name && r.assignedSalary == data.assignedSalary
  {
    worker.(name := data.name, assignedSalary := data.assignedSalary)
  }

  /** Submitting the edit form as it was reset gives back the worker itself. */
  lemma MergeResetValues(worker: Worker)
    ensures MergeEdit(worker, ResetValues(Some(worker))) == worker
  {
  }

  /** `addWorker(data)`: only a name and a salary; no join or leave date. */
  function AddData(data: WorkerFormData): (d: WorkerData)
    ensures d.name == data.name && d.assignedSalary == data.assignedSalary
    ensures d.joinDate.None? && d.leftDate.None?
  {
    WorkerData(data.name, data.assignedSalary, None, None)
  }

  /** The form's submit: `handleSubmit` validates, then `onSubmit` updates the
      edited worker or adds a new one. A rejected form changes nothing. */
  method SubmitForm(store: AppStore, worker: Option<Worker>, data: WorkerFormData)
    requires store.Valid()
    modifies store
    ensures store.Valid()
    ensures !Accepted(data) ==> store.workers == old(store.workers)
    ensures Accepted(data) && worker.Some? ==>
      store.workers == ReplaceWorker(old(store.workers), MergeEdit(worker.value, data))
    ensures Accepted(data) && worker.None? ==> store.workers == AppendWorker(old(store.workers), AddData(data))
    ensures store.attendanceRecords == old(store.attendanceRecords)
    ensures store.anomalyReports == old(store.anomalyReports)
  {
    if SchemaErrors(data) != [] {
      return;
    }
    match worker {
      case Some(w) => store.UpdateWorker(MergeEdit(w, data));
      case None => store.AddWorker(AddData(data));
    }
  }

  /** An edit leaves the worker's id, join date and (normalised) leave date in
      place and takes the form's name and salary. */
  lemma EditKeepsIdentity(ws: seq<Worker>, worker: Worker, data: WorkerFormData, i: nat)
    requires i < |ws| && ws[i].id == worker.id
    ensures var r := ReplaceWorker(ws, MergeEdit(worker, data));
      r[i].id == worker.id && r[i].joinDate == worker.joinDate &&
      r[i].leftDate == NormalizeLeftDate(worker.leftDate) &&
      r[i].name == data.name && r[i].assignedSalary == data.assignedSalary
  {
  }

  /** A worker added from the dialog is stored with no join date and no leave
      date, under a fresh id. */
  lemma AddedWorkerHasNoDates(ws: seq<Worker>, data: WorkerFormData)
    ensures var r := AppendWorker(ws, AddData(data));
      |r| == |ws| + 1 && r[|ws|].joinDate.None? && r[|ws|].leftDate.None? &&
      r[|ws|].name == data.name && r[|ws|].assignedSalary == data.assignedSalary &&
      forall i :: 0 <= i < |ws| ==> ws[i].id != r[|ws|].id
  {
    AppendWorkerSpec(ws, AddData(data));
  }
}
