/** When a job under review can still be finished: exactly while some review pass has yet to come to it. */
module IngestionProgress {
  import opened Basics
  import opened IngestionLifecycle

  lemma FirstStep(s: State, step: Step, rest: seq<Step>, end: State)
    requires Enabled(s, step) && Runs(After(s, step), rest, end)
    ensures Runs(s, [step] + rest, end)
  {
    assert ([step] + rest)[1..] == rest;
  }

  lemma {:induction false} Listing<T>(s: set<T>) returns (q: seq<T>)
    ensures forall x :: x in q <==> x in s
  {
    q := [];
    if s != {} {
      var x := Pick(s);
      var rest := Listing(s - {x});
      q := [x] + rest;
    }
  }

  ghost predicate Left(s: State, j: JobId) {
    j in s.jobs && !s.jobs[j].Reviewing?
  }

  ghost predicate Has(s: State, j: JobId, status: JobStatus) {
    j in s.jobs && s.jobs[j] == status
  }

  /** A write-back that has the job ahead of it finishes it. */
  lemma {:induction false} Closes(s: State, t: nat, j: JobId) returns (steps: seq<Step>, end: State)
    requires t < |s.tasks| && s.tasks[t].Closing? && j in Ahead(s.tasks[t].todo, s.tasks[t].next)
    requires j in s.jobs && s.jobs[j].Reviewing?
    ensures Runs(s, steps, end) && Has(end, j, JobStatus.Done)
    decreases |s.tasks[t].todo| - s.tasks[t].next
  {
    var task, later := s.tasks[t], After(s, CloseJob(t));
    if task.todo[task.next] == j {
      steps, end := [], later;
    } else {
      assert j in Ahead(task.todo, task.next + 1) by {
        assert task.todo[task.next..] == [task.todo[task.next]] + task.todo[task.next + 1..];
      }
      steps, end := Closes(later, t, j);
    }
    FirstStep(s, CloseJob(t), steps, end);
    steps := [CloseJob(t)] + steps;
  }

  /** So does a failure path, by failing it. */
  lemma {:induction false} Rejects(s: State, t: nat, j: JobId) returns (steps: seq<Step>, end: State)
    requires t < |s.tasks| && s.tasks[t].Rejecting? && j in Ahead(s.tasks[t].todo, s.tasks[t].next)
    requires j in s.jobs && s.jobs[j].Reviewing?
    ensures Runs(s, steps, end) && Has(end, j, JobStatus.Failed)
    decreases |s.tasks[t].todo| - s.tasks[t].next
  {
    var task, later := s.tasks[t], After(s, RejectJob(t));
    if task.todo[task.next] == j {
      steps, end := [], later;
    } else {
      assert j in Ahead(task.todo, task.next + 1) by {
        assert task.todo[task.next..] == [task.todo[task.next]] + task.todo[task.next + 1..];
      }
      steps, end := Rejects(later, t, j);
    }
    FirstStep(s, RejectJob(t), steps, end);
    steps := [RejectJob(t)] + steps;
  }

  lemma NamedIsSource(records: map<RecordId, Record>, ids: set<RecordId>, id: RecordId, j: JobId)
    requires id in ids && Names(records, id, j)
    ensures j in SourceJobs(records, ids)
  {
  }

  /** After its updates, a review pass on one of the job's records lists the job as finished. */
  lemma Lists(s: State, t: nat, id: RecordId, j: JobId) returns (steps: seq<Step>, end: State)
    requires t < |s.tasks| && s.tasks[t].Updated? && id in s.tasks[t].records && Names(s.records, id, j)
    requires UnderReviewAndSettled(s, j)
    ensures Runs(s, steps, end) && Has(end, j, JobStatus.Done)
  {
    var ids := set r | r in s.tasks[t].records;
    var todo := Listing(set k | k in SourceJobs(s.records, ids) && AllSettled(s.records, k));
    NamedIsSource(s.records, ids, id, j);
    assert AllSettled(s.records, j);
    var later := After(s, ListQueue(t, todo));
    steps, end := Closes(later, t, j);
    FirstStep(s, ListQueue(t, todo), steps, end);
    steps := [ListQueue(t, todo)] + steps;
  }

  lemma Reports(s: State, t: nat, id: RecordId, j: JobId) returns (steps: seq<Step>, end: State)
    requires t < |s.tasks| && s.tasks[t].Judging? && id in s.tasks[t].records && Names(s.records, id, j)
    requires UnderReviewAndSettled(s, j)
    ensures Runs(s, steps, end) && Has(end, j, JobStatus.Done)
  {
    var step := ReportRecords(t, map r | r in s.tasks[t].records :: RecordStatus.Committed);
    var later := After(s, step);
    AdvanceKeepsNames(s.records, later.records);
    steps, end := Lists(later, t, id, j);
    FirstStep(s, step, steps, end);
    steps := [step] + steps;
  }

  /** A review pass may raise at any point, and then fails the jobs of its exhausted records. */
  lemma Raises(s: State, t: nat, id: RecordId, j: JobId) returns (steps: seq<Step>, end: State)
    requires t < |s.tasks| && (s.tasks[t].Judging? || s.tasks[t].Updated? || s.tasks[t].Closing?)
    requires id in s.tasks[t].records && Names(s.records, id, j) && UnderReviewAndSettled(s, j)
    ensures Runs(s, steps, end) && Has(end, j, JobStatus.Failed)
  {
    var updates := map r | r in s.tasks[t].records :: RecordStatus.Failed;
    var ids := set r | r in updates && updates[r].Failed?;
    var todo := Listing(SourceJobs(s.records, ids));
    NamedIsSource(s.records, ids, id, j);
    var step := RaiseInReview(t, updates, todo);
    steps, end := Rejects(After(s, step), t, j);
    FirstStep(s, step, steps, end);
    steps := [step] + steps;
  }

  lemma ConcernedTaskActs(s: State, t: nat, j: JobId) returns (steps: seq<Step>, end: State)
    requires t < |s.tasks| && Concerns(s.records, s.tasks[t], j) && UnderReviewAndSettled(s, j)
    ensures Runs(s, steps, end) && Left(end, j)
  {
    match s.tasks[t]
    case Judging(ids) =>
      var id :| id in ids && Names(s.records, id, j);
      steps, end := Reports(s, t, id, j);
    case Updated(ids) =>
      var id :| id in ids && Names(s.records, id, j);
      steps, end := Lists(s, t, id, j);
    case Closing(ids, todo, next) =>
      if j in Ahead(todo, next) {
        steps, end := Closes(s, t, j);
      } else {
        var id :| id in ids && Names(s.records, id, j);
        steps, end := Raises(s, t, id, j);
      }
    case Rejecting(_, _) => steps, end := Rejects(s, t, j);
  }

  ghost predicate CanLeave(s: State, j: JobId) {
    exists steps, end :: Runs(s, steps, end) && Left(end, j)
  }

  predicate SomeTaskConcerns(s: State, j: JobId) {
    exists t :: 0 <= t < |s.tasks| && Concerns(s.records, s.tasks[t], j)
  }

  lemma ConcernedCanLeave(s: State, t: nat, j: JobId)
    requires t < |s.tasks| && Concerns(s.records, s.tasks[t], j) && UnderReviewAndSettled(s, j)
    ensures CanLeave(s, j)
  {
    var steps, end := ConcernedTaskActs(s, t, j);
  }

  lemma StrandedCannotLeave(s: State, j: JobId)
    requires Inv(s) && Stranded(s, j)
    ensures !CanLeave(s, j)
  {
    forall steps, end | Runs(s, steps, end) ensures !Left(end, j) {
      StrandedForever(s, steps, end, j);
    }
  }

  /**
   A job under review whose records are all settled leaves REVIEWING in some continuation exactly when some review pass
   has yet to come to it.
   */
  lemma LeavesExactlyWhenConcerned(s: State, j: JobId)
    requires Inv(s) && UnderReviewAndSettled(s, j)
    ensures CanLeave(s, j) <==> SomeTaskConcerns(s, j)
  {
    if SomeTaskConcerns(s, j) {
      var t :| 0 <= t < |s.tasks| && Concerns(s.records, s.tasks[t], j);
      ConcernedCanLeave(s, t, j);
    } else {
      StrandedCannotLeave(s, j);
    }
  }
}
