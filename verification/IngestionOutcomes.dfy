/** How ingestion jobs end: what makes a job DONE, what makes it FAILED, and runs that show both. */
module IngestionOutcomes {
  import opened Basics
  import opened IngestionLifecycle
  import opened IngestionProgress

  // --- under review: DONE and FAILED are each in reach exactly while some task leads there ---

  /** The review pass may still finish the job. */
  predicate Finishes(records: map<RecordId, Record>, task: Task, j: JobId) {
    match task
    case Judging(ids) => exists id :: id in ids && Names(records, id, j)
    case Updated(ids) => exists id :: id in ids && Names(records, id, j)
    case Closing(_, todo, next) => j in Ahead(todo, next)
    case Rejecting(_, _) => false
    case Ended => false
  }

  /** The review pass may still fail the job. */
  predicate Fails(records: map<RecordId, Record>, task: Task, j: JobId) {
    match task
    case Judging(ids) => exists id :: id in ids && Names(records, id, j)
    case Updated(ids) => exists id :: id in ids && Names(records, id, j)
    case Closing(ids, _, _) => exists id :: id in ids && Names(records, id, j)
    case Rejecting(todo, next) => j in Ahead(todo, next)
    case Ended => false
  }

  predicate LeadsTo(records: map<RecordId, Record>, task: Task, j: JobId, status: JobStatus) {
    if status.Done? then Finishes(records, task, j) else Fails(records, task, j)
  }

  /** The job is past extraction and has not the status, its records are settled, and no task leads to the status. */
  ghost predicate OutOfReach(s: State, j: JobId, status: JobStatus) {
    && j in s.jobs && s.jobs[j] != status && (s.jobs[j].Reviewing? || s.jobs[j].Done? || s.jobs[j].Failed?)
    && Queued(s.groups, j) && (forall id :: Names(s.records, id, j) ==> Settled(s.records[id]))
    && (forall t :: 0 <= t < |s.tasks| ==> !LeadsTo(s.records, s.tasks[t], j, status))
  }

  lemma GroupStepKeepsOut(s: State, step: Step, j: JobId, status: JobStatus)
    requires Inv(s) && OutOfReach(s, j, status) && Enabled(s, step) && (status.Done? || status.Failed?)
    requires step.ClaimJobs? || step.MoveJob? || step.RaiseInGroup? || step.FailJob? || step.FinishGroup?
    ensures OutOfReach(After(s, step), j, status)
  {
    QueuedStays(s.groups, After(s, step).groups);
  }

  lemma QueueingKeepsOut(s: State, step: Step, j: JobId, status: JobStatus)
    requires Inv(s) && OutOfReach(s, j, status) && Enabled(s, step) && (status.Done? || status.Failed?)
    requires step.QueueRecords?
    ensures OutOfReach(After(s, step), j, status)
  {
    var later := After(s, step);
    QueuedStays(s.groups, later.groups);
    NewNames(s, step.group, step.ids, later.records);
    assert forall id :: Names(later.records, id, j) <==> Names(s.records, id, j);
  }

  lemma ClaimKeepsOut(s: State, step: Step, j: JobId, status: JobStatus)
    requires Inv(s) && OutOfReach(s, j, status) && Enabled(s, step) && (status.Done? || status.Failed?)
    requires step.ClaimRecords?
    ensures OutOfReach(After(s, step), j, status)
  {
    var later := After(s, step);
    AdvanceKeepsNames(s.records, later.records);
    forall t | 0 <= t < |later.tasks| ensures !LeadsTo(later.records, later.tasks[t], j, status) {
      if t < |s.tasks| {
        assert !LeadsTo(s.records, s.tasks[t], j, status);
      } else {
        assert later.tasks[t] == Judging(step.claimed[t - |s.tasks|]);
      }
    }
  }

  lemma ReviewKeepsOut(s: State, step: Step, j: JobId, status: JobStatus)
    requires Inv(s) && OutOfReach(s, j, status) && Enabled(s, step) && (status.Done? || status.Failed?)
    requires step.ReportRecords? || step.RaiseInReview? || step.Manual?
    ensures OutOfReach(After(s, step), j, status)
  {
    var later := After(s, step);
    AdvanceKeepsNames(s.records, later.records);
    forall t | 0 <= t < |later.tasks| ensures !LeadsTo(later.records, later.tasks[t], j, status) {
      assert !LeadsTo(s.records, s.tasks[t], j, status);
    }
  }

  lemma WriteBackKeepsOut(s: State, step: Step, j: JobId, status: JobStatus)
    requires Inv(s) && OutOfReach(s, j, status) && Enabled(s, step) && (status.Done? || status.Failed?)
    requires step.ListQueue? || step.CloseJob? || step.RejectJob? || step.EndTask?
    ensures OutOfReach(After(s, step), j, status)
  {
    var later := After(s, step);
    assert !LeadsTo(s.records, s.tasks[step.task], j, status);
    forall t | 0 <= t < |later.tasks| ensures !LeadsTo(later.records, later.tasks[t], j, status) {
      assert !LeadsTo(s.records, s.tasks[t], j, status);
    }
  }

  lemma {:induction false} OutOfReachForever(s: State, steps: seq<Step>, end: State, j: JobId, status: JobStatus)
    requires Inv(s) && OutOfReach(s, j, status) && Runs(s, steps, end) && (status.Done? || status.Failed?)
    ensures OutOfReach(end, j, status)
    decreases |steps|
  {
    if steps != [] {
      var step := steps[0];
      if step.ClaimJobs? || step.MoveJob? || step.RaiseInGroup? || step.FailJob? || step.FinishGroup? {
        GroupStepKeepsOut(s, step, j, status);
      } else if step.QueueRecords? {
        QueueingKeepsOut(s, step, j, status);
      } else if step.ClaimRecords? {
        ClaimKeepsOut(s, step, j, status);
      } else if step.ReportRecords? || step.RaiseInReview? || step.Manual? {
        ReviewKeepsOut(s, step, j, status);
      } else if step.ListQueue? || step.CloseJob? || step.RejectJob? || step.EndTask? {
        WriteBackKeepsOut(s, step, j, status);
      }
      StepKeeps(s, step);
      OutOfReachForever(After(s, step), steps[1..], end, j, status);
    }
  }

  ghost predicate CanBecome(s: State, j: JobId, status: JobStatus) {
    exists steps, end :: Runs(s, steps, end) && Has(end, j, status)
  }

  predicate SomeTaskLeadsTo(s: State, j: JobId, status: JobStatus) {
    exists t :: 0 <= t < |s.tasks| && LeadsTo(s.records, s.tasks[t], j, status)
  }

  lemma LeadingTaskFinishes(s: State, t: nat, j: JobId)
    requires t < |s.tasks| && Finishes(s.records, s.tasks[t], j) && UnderReviewAndSettled(s, j)
    ensures CanBecome(s, j, JobStatus.Done)
  {
    var steps, end;
    match s.tasks[t]
    case Judging(ids) =>
      var id :| id in ids && Names(s.records, id, j);
      steps, end := Reports(s, t, id, j);
    case Updated(ids) =>
      var id :| id in ids && Names(s.records, id, j);
      steps, end := Lists(s, t, id, j);
    case Closing(_, _, _) => steps, end := Closes(s, t, j);
  }

  lemma LeadingTaskFails(s: State, t: nat, j: JobId)
    requires t < |s.tasks| && Fails(s.records, s.tasks[t], j) && UnderReviewAndSettled(s, j)
    ensures CanBecome(s, j, JobStatus.Failed)
  {
    if s.tasks[t].Rejecting? {
      var steps, end := Rejects(s, t, j);
    } else {
      var id :| id in s.tasks[t].records && Names(s.records, id, j);
      var steps, end := Raises(s, t, id, j);
    }
  }

  lemma NeverOutOfReach(s: State, j: JobId, status: JobStatus)
    requires Inv(s) && OutOfReach(s, j, status) && (status.Done? || status.Failed?)
    ensures !CanBecome(s, j, status)
  {
    forall steps, end | Runs(s, steps, end) ensures !Has(end, j, status) {
      OutOfReachForever(s, steps, end, j, status);
    }
  }

  /**
   A job under review whose records are all settled can become DONE exactly while some review pass may finish it, and
   FAILED exactly while some review pass may fail it.
   */
  lemma OutcomesExactly(s: State, j: JobId, status: JobStatus)
    requires Inv(s) && UnderReviewAndSettled(s, j) && (status.Done? || status.Failed?)
    ensures CanBecome(s, j, status) <==> SomeTaskLeadsTo(s, j, status)
  {
    if SomeTaskLeadsTo(s, j, status) {
      var t :| 0 <= t < |s.tasks| && LeadsTo(s.records, s.tasks[t], j, status);
      if status.Done? {
        LeadingTaskFinishes(s, t, j);
      } else {
        LeadingTaskFails(s, t, j);
      }
    } else {
      NeverOutOfReach(s, j, status);
    }
  }

  // --- FAILED needs a raise ---

  /** A step of the run raises in the job's group, or in a review pass that then rejects the job. */
  ghost predicate RaisedFor(s: State, steps: seq<Step>, j: JobId)
    decreases |steps|
  {
    && steps != [] && Enabled(s, steps[0])
    && (Raising(s, steps[0], j) || RaisedFor(After(s, steps[0]), steps[1..], j))
  }

  /** Nothing has failed the job, or is about to. */
  ghost predicate Sound(s: State, j: JobId) {
    && !Has(s, j, JobStatus.Failed)
    && (forall g :: 0 <= g < |s.groups| && s.groups[g].Failing? ==> j !in s.groups[g].jobs)
    && (forall t :: 0 <= t < |s.tasks| && s.tasks[t].Rejecting? ==> j !in s.tasks[t].todo)
  }

  predicate Raising(s: State, step: Step, j: JobId)
    requires step.RaiseInGroup? ==> step.group < |s.groups|
  {
    (step.RaiseInGroup? && j in s.groups[step.group].jobs) || (step.RaiseInReview? && j in step.todo)
  }

  lemma SoundJob(s: State, step: Step, j: JobId)
    requires Inv(s) && Sound(s, j) && Enabled(s, step)
    ensures !Has(After(s, step), j, JobStatus.Failed)
  {
    if step.MoveJob? {
      assert Consistent(s.jobs, s.records, s.groups[step.group]);
    }
  }

  lemma SoundGroups(s: State, step: Step, j: JobId)
    requires Sound(s, j) && Enabled(s, step) && !Raising(s, step, j)
    ensures var later := After(s, step).groups;
      forall g :: 0 <= g < |later| && later[g].Failing? ==> j !in later[g].jobs
  {
    var later := After(s, step).groups;
    forall g | 0 <= g < |later| && later[g].Failing? ensures j !in later[g].jobs {
    }
  }

  lemma SoundTasks(s: State, step: Step, j: JobId)
    requires Sound(s, j) && Enabled(s, step) && !Raising(s, step, j)
    ensures var later := After(s, step).tasks;
      forall t :: 0 <= t < |later| && later[t].Rejecting? ==> j !in later[t].todo
  {
    var later := After(s, step).tasks;
    forall t | 0 <= t < |later| && later[t].Rejecting? ensures j !in later[t].todo {
    }
  }

  lemma {:induction false} SoundRun(s: State, steps: seq<Step>, end: State, j: JobId)
    requires Inv(s) && Sound(s, j) && Runs(s, steps, end) && !RaisedFor(s, steps, j)
    ensures Sound(end, j)
    decreases |steps|
  {
    if steps != [] {
      SoundJob(s, steps[0], j);
      SoundGroups(s, steps[0], j);
      SoundTasks(s, steps[0], j);
      StepKeeps(s, steps[0]);
      SoundRun(After(s, steps[0]), steps[1..], end, j);
    }
  }

  /** In every interleaving, a FAILED job had a raise in its group or in a review pass that rejected it. */
  lemma FailedNeedsARaise(steps: seq<Step>, end: State, j: JobId)
    requires Runs(EMPTY, steps, end) && Has(end, j, JobStatus.Failed)
    ensures RaisedFor(EMPTY, steps, j)
  {
    if !RaisedFor(EMPTY, steps, j) {
      SoundRun(EMPTY, steps, end, j);
    }
  }

  // --- what a group leaves behind ---

  predicate Named(records: map<RecordId, Record>, j: JobId) {
    exists id :: id in records && Names(records, id, j)
  }

  /** A group that moves its jobs to REVIEWING has queued records naming each of them. */
  ghost predicate MovingIsNamed(s: State) {
    forall g, j :: 0 <= g < |s.groups| && s.groups[g].Moving? && s.groups[g].status.Reviewing? && j in s.groups[g].jobs
      ==> Named(s.records, j)
  }

  lemma NamesStay(before: map<RecordId, Record>, later: map<RecordId, Record>, j: JobId)
    requires forall id :: id in before ==> id in later && later[id].sources == before[id].sources
    requires Named(before, j)
    ensures Named(later, j)
  {
    var id :| id in before && Names(before, id, j);
    assert Names(later, id, j);
  }

  lemma RecordsStay(s: State, step: Step)
    requires Enabled(s, step)
    ensures forall id :: id in s.records ==>
      id in After(s, step).records && After(s, step).records[id].sources == s.records[id].sources
  {
  }

  lemma MovingStep(s: State, step: Step)
    requires MovingIsNamed(s) && Enabled(s, step)
    ensures MovingIsNamed(After(s, step))
  {
    var later := After(s, step);
    RecordsStay(s, step);
    forall g, j
      | 0 <= g < |later.groups| && later.groups[g].Moving? && later.groups[g].status.Reviewing?
        && j in later.groups[g].jobs
      ensures Named(later.records, j)
    {
      if step.QueueRecords? && step.group == g {
        assert Names(later.records, step.ids[0], j);
      } else {
        NamesStay(s.records, later.records, j);
      }
    }
  }

  lemma {:induction false} MovingRun(s: State, steps: seq<Step>, end: State)
    requires MovingIsNamed(s) && Runs(s, steps, end)
    ensures MovingIsNamed(end)
    decreases |steps|
  {
    if steps != [] {
      MovingStep(s, steps[0]);
      MovingRun(After(s, steps[0]), steps[1..], end);
    }
  }

  /**
   In every interleaving, when a group moves a job that is still EXTRACTING, the job becomes DONE exactly when no record
   names it, and REVIEWING otherwise.
   */
  lemma MovedByItsRecords(steps: seq<Step>, s: State, g: nat)
    requires Runs(EMPTY, steps, s) && Enabled(s, MoveJob(g))
    ensures var j, later := s.groups[g].jobs[s.groups[g].next], After(s, MoveJob(g));
      j in s.jobs && s.jobs[j].Extracting? ==>
        && (Has(later, j, JobStatus.Done) <==> !Named(s.records, j))
        && (Has(later, j, JobStatus.Reviewing) <==> Named(s.records, j))
  {
    RunKeeps(EMPTY, steps, s);
    MovingRun(EMPTY, steps, s);
    assert Consistent(s.jobs, s.records, s.groups[g]);
  }

  // --- runs that show each outcome ---

  lemma ThenStep(steps: seq<Step>, s: State, step: Step, next: State) returns (longer: seq<Step>)
    requires Runs(EMPTY, steps, s) && Enabled(s, step) && After(s, step) == next
    ensures Runs(EMPTY, longer, next)
  {
    AppendStep(EMPTY, steps, s, step);
    longer := steps + [step];
  }

  /** A claimed job whose one record is under review. */
  function JudgedState(j: JobId, r: RecordId): State {
    State(map[j := JobStatus.Reviewing], map[r := Record(RecordStatus.Reviewing, [j])],
          [Moving([j], JobStatus.Reviewing, 1)], [Judging([r])])
  }

  function MovedState(j: JobId, r: RecordId): State {
    JudgedState(j, r).(records := map[r := Record(RecordStatus.Pending, [j])], tasks := [])
  }

  lemma MovedRun(j: JobId, r: RecordId) returns (steps: seq<Step>)
    ensures Runs(EMPTY, steps, MovedState(j, r))
  {
    steps := QueuedRun(j, r);
    assert After(QueuedState(j, r), MoveJob(0)) == MovedState(j, r);
    steps := ThenStep(steps, QueuedState(j, r), MoveJob(0), MovedState(j, r));
  }

  lemma JudgedRun(j: JobId, r: RecordId) returns (steps: seq<Step>)
    ensures Runs(EMPTY, steps, JudgedState(j, r))
  {
    steps := MovedRun(j, r);
    assert [[r]][0] == [r];
    assert After(MovedState(j, r), ClaimRecords([[r]])) == JudgedState(j, r);
    steps := ThenStep(steps, MovedState(j, r), ClaimRecords([[r]]), JudgedState(j, r));
  }

  /** The records of the one review pass have been reported. */
  function ReportedState(j: JobId, r: RecordId, status: RecordStatus, task: Task): State {
    State(map[j := JobStatus.Reviewing], map[r := Record(status, [j])], [Moving([j], JobStatus.Reviewing, 1)], [task])
  }

  lemma ReportedRun(j: JobId, r: RecordId, status: RecordStatus) returns (steps: seq<Step>)
    requires status.Committed? || status.Resolved? || status.Pending?
    ensures Runs(EMPTY, steps, ReportedState(j, r, status, Updated([r])))
  {
    var report := ReportRecords(0, map[r := status]);
    steps := JudgedRun(j, r);
    assert After(JudgedState(j, r), report) == ReportedState(j, r, status, Updated([r]));
    steps := ThenStep(steps, JudgedState(j, r), report, ReportedState(j, r, status, Updated([r])));
  }

  lemma ListedRun(j: JobId, r: RecordId, status: RecordStatus) returns (steps: seq<Step>)
    requires status.Committed? || status.Resolved?
    ensures Runs(EMPTY, steps, ReportedState(j, r, status, Closing([r], [j], 0)))
  {
    var s := ReportedState(j, r, status, Updated([r]));
    steps := ReportedRun(j, r, status);
    assert Names(s.records, r, j) && AllSettled(s.records, j);
    assert After(s, ListQueue(0, [j])) == ReportedState(j, r, status, Closing([r], [j], 0));
    steps := ThenStep(steps, s, ListQueue(0, [j]), ReportedState(j, r, status, Closing([r], [j], 0)));
  }

  /** The review settles the record, and its write-back makes the job DONE. */
  lemma ReviewedRun(j: JobId, r: RecordId, status: RecordStatus) returns (steps: seq<Step>, end: State)
    requires status.Committed? || status.Resolved?
    ensures Runs(EMPTY, steps, end) && Has(end, j, JobStatus.Done)
    ensures r in end.records && end.records[r].status == status
  {
    var s := ReportedState(j, r, status, Closing([r], [j], 0));
    steps := ListedRun(j, r, status);
    end := After(s, CloseJob(0));
    steps := ThenStep(steps, s, CloseJob(0), end);
  }

  /** The review leaves the record for another pass: it is PENDING again, and the job stays under review. */
  lemma RetriedRun(j: JobId, r: RecordId) returns (steps: seq<Step>, end: State)
    ensures Runs(EMPTY, steps, end) && Has(end, j, JobStatus.Reviewing)
    ensures r in end.records && end.records[r].status.Pending?
  {
    steps := ReportedRun(j, r, RecordStatus.Pending);
    end := ReportedState(j, r, RecordStatus.Pending, Updated([r]));
  }

  lemma RejectingRun(j: JobId, r: RecordId) returns (steps: seq<Step>)
    ensures Runs(EMPTY, steps, ReportedState(j, r, RecordStatus.Failed, Rejecting([j], 0)))
  {
    var s, updates := JudgedState(j, r), map[r := RecordStatus.Failed];
    var raise := RaiseInReview(0, updates, [j]);
    steps := JudgedRun(j, r);
    var ids := set id | id in updates && updates[id].Failed?;
    assert r in ids && Names(s.records, r, j);
    assert After(s, raise) == ReportedState(j, r, RecordStatus.Failed, Rejecting([j], 0));
    steps := ThenStep(steps, s, raise, ReportedState(j, r, RecordStatus.Failed, Rejecting([j], 0)));
  }

  /** The review raises with the record exhausted, and the record and the job are FAILED. */
  lemma FailedReviewRun(j: JobId, r: RecordId) returns (steps: seq<Step>, end: State)
    ensures Runs(EMPTY, steps, end) && Has(end, j, JobStatus.Failed)
    ensures r in end.records && end.records[r].status.Failed?
  {
    var s := ReportedState(j, r, RecordStatus.Failed, Rejecting([j], 0));
    steps := RejectingRun(j, r);
    end := After(s, RejectJob(0));
    steps := ThenStep(steps, s, RejectJob(0), end);
  }

  lemma ClaimedRun(j: JobId) returns (steps: seq<Step>, s: State)
    ensures s == State(map[j := JobStatus.Extracting], map[], [Working([j])], []) && Runs(EMPTY, steps, s)
  {
    var s1 := State(map[j := JobStatus.Pending], map[], [], []);
    s := State(map[j := JobStatus.Extracting], map[], [Working([j])], []);
    assert After(EMPTY, EnqueueJob(j)) == s1;
    steps := ThenStep([], EMPTY, EnqueueJob(j), s1);
    assert [[j]][0] == [j];
    assert After(s1, ClaimJobs([[j]])) == s;
    steps := ThenStep(steps, s1, ClaimJobs([[j]]), s);
  }

  /** A group that extracted nothing makes its job DONE. */
  lemma NothingExtractedRun(j: JobId) returns (steps: seq<Step>, end: State)
    ensures Runs(EMPTY, steps, end) && Has(end, j, JobStatus.Done)
  {
    var s;
    steps, s := ClaimedRun(j);
    var moving := s.(groups := [Moving([j], JobStatus.Done, 0)]);
    assert After(s, QueueRecords(0, [])) == moving;
    steps := ThenStep(steps, s, QueueRecords(0, []), moving);
    end := After(moving, MoveJob(0));
    steps := ThenStep(steps, moving, MoveJob(0), end);
  }

  /** A group that raises makes its job FAILED. */
  lemma FailedGroupRun(j: JobId) returns (steps: seq<Step>, end: State)
    ensures Runs(EMPTY, steps, end) && Has(end, j, JobStatus.Failed)
  {
    var s;
    steps, s := ClaimedRun(j);
    var failing := s.(groups := [Group.Failing([j], 0)]);
    assert After(s, RaiseInGroup(0)) == failing;
    steps := ThenStep(steps, s, RaiseInGroup(0), failing);
    end := After(failing, FailJob(0));
    steps := ThenStep(steps, failing, FailJob(0), end);
  }
}
