/** The workers page (`src/app/workers/page.tsx`): the case-insensitive name
    search and the confirmation-gated delete. */
module WorkersPage {
  import opened Seqs
  import opened Types
  import opened AppContext

  /** `toLowerCase` on one character, for the ASCII letters. */
  function LowerChar(c: char): (r: char)
    ensures 'A' <= c <= 'Z' ==> r as int == c as int + 32
    ensures !('A' <= c <= 'Z') ==> r == c
    ensures !('A' <= r <= 'Z')
  {
    if 'A' <= c <= 'Z' then (c as int + 32) as char else c
  }

  /** `s.toLowerCase()`. */
  function LowerCase(s: string): (r: string)
    ensures |r| == |s|
    ensures forall i :: 0 <= i < |s| ==> r[i] == LowerChar(s[i])
  {
    if s == [] then [] else LowerCase(s[..|s| - 1]) + [LowerChar(s[|s| - 1])]
  }

  /** Lower-casing twice is lower-casing once. */
  lemma LowerCaseIdempotent(s: string)
    ensures LowerCase(LowerCase(s)) == LowerCase(s)
  {
    var l := LowerCase(s);
    assert forall i :: 0 <= i < |s| ==> LowerChar(l[i]) == l[i];
  }

  /** `t` occurs in `s` starting at index `i`. */
  predicate OccursAt(s: string, t: string, i: int) {
    0 <= i && i + |t| <= |s| && s[i..i + |t|] == t
  }

  /** An occurrence at a later index is an occurrence in the tail. */
  lemma OccursShift(s: string, t: string, i: int)
    requires 1 <= i && 1 <= |s|
    ensures OccursAt(s, t, i) <==> OccursAt(s[1..], t, i - 1)
  {
    if i + |t| <= |s| {
      assert s[1..][i - 1..i - 1 + |t|] == s[i..i + |t|];
    }
  }

  /** Without an occurrence at 0, the occurrences are those of the tail. */
  lemma OccursInTail(s: string, t: string)
    requires 1 <= |s| && !OccursAt(s, t, 0)
    ensures (exists i :: OccursAt(s, t, i)) <==> (exists j :: OccursAt(s[1..], t, j))
  {
    forall i | OccursAt(s, t, i) ensures OccursAt(s[1..], t, i - 1) {
      OccursShift(s, t, i);
    }
    forall j | OccursAt(s[1..], t, j) ensures OccursAt(s, t, j + 1) {
      OccursShift(s, t, j + 1);
    }
  }

  /** `s.includes(t)`: some index of `s` starts an occurrence of `t`. */
  function Includes(s: string, t: string): (b: bool)
    ensures b <==> exists i :: OccursAt(s, t, i)
    decreases |s|
  {
    if |t| > |s| then false
    else if s[..|t|] == t then
      assert OccursAt(s, t, 0);
      true
    else
      assert s[0..|t|] == s[..|t|];
      OccursInTail(s, t);
      Includes(s[1..], t)
  }

  function NameMatches(searchTerm: string): Worker -> bool {
    (w: Worker) => Includes(LowerCase(w.name), LowerCase(searchTerm))
  }

  /** `filteredWorkers`. */
  function FilteredWorkers(workers: seq<Worker>, searchTerm: string): seq<Worker> {
    Filter(workers, NameMatches(searchTerm))
  }

  /** The search keeps exactly the workers whose lower-cased name contains the
      lower-cased term, in their original order. */
  lemma FilteredWorkersSpec(workers: seq<Worker>, searchTerm: string)
    ensures forall w :: w in FilteredWorkers(workers, searchTerm) <==>
      w in workers && Includes(LowerCase(w.name), LowerCase(searchTerm))
    ensures SubsequenceOf(FilteredWorkers(workers, searchTerm), workers)
  {
    FilterMembers(workers, NameMatches(searchTerm));
    FilterSubsequence(workers, NameMatches(searchTerm));
  }

  /** An empty search term keeps every worker. */
  lemma EmptySearchKeepsAll(workers: seq<Worker>)
    ensures FilteredWorkers(workers, "") == workers
  {
    forall w | w in workers ensures NameMatches("")(w) {
      assert OccursAt(LowerCase(w.name), "", 0);
    }
    FilterAll(workers, NameMatches(""));
  }

  /** Terms that differ only in letter case give the same list. */
  lemma SearchIgnoresCase(workers: seq<Worker>, term: string, term': string)
    requires LowerCase(term) == LowerCase(term')
    ensures FilteredWorkers(workers, term) == FilteredWorkers(workers, term')
  {
    FilterCongruence(workers, NameMatches(term), NameMatches(term'));
  }

  /** In particular, searching for the lower-cased term changes nothing. */
  lemma SearchLowerCasedTerm(workers: seq<Worker>, term: string)
    ensures FilteredWorkers(workers, LowerCase(term)) == FilteredWorkers(workers, term)
  {
    LowerCaseIdempotent(term);
    SearchIgnoresCase(workers, LowerCase(term), term);
  }

  /** `handleDeleteWorker`: the store deletes the worker, and the worker's
      records, only when `window.confirm` (here `confirmed`) returns true. */
  method HandleDeleteWorker(store: AppStore, workerId: string, confirmed: bool)
    requires store.Valid()
    modifies store
    ensures store.Valid()
    ensures !confirmed ==> store.workers == old(store.workers) && store.attendanceRecords == old(store.attendanceRecords)
    ensures confirmed ==> store.workers == Filter(old(store.workers), OtherWorker(workerId))
    ensures confirmed ==> store.attendanceRecords == Filter(old(store.attendanceRecords), NotOfWorker(workerId))
    ensures store.anomalyReports == old(store.anomalyReports)
  {
    if confirmed {
      store.DeleteWorker(workerId);
    }
  }
}
