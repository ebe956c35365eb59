/**
 Ingestion jobs and review records shared by concurrent ingest workers, review workers and manual commits, as
 interleaved atomic store steps. A worker that crashes simply takes no further step.
 */
module IngestionLifecycle {
  import opened Basics

  type JobId = string
  type RecordId = string

  datatype JobStatus = Pending | Extracting | Reviewing | Done | Failed
  datatype RecordStatus = Pending | Reviewing | Committed | Resolved | Failed

  /** A review record and the jobs it was extracted from. */
  datatype Record = Record(status: RecordStatus, sources: seq<JobId>)

  predicate Settled(r: Record) {
    r.status.Committed? || r.status.Resolved?
  }

  /** One pass of an ingest worker over a group of claimed jobs. */
  datatype Group =
    | Working(jobs: seq<JobId>)
    | Moving(jobs: seq<JobId>, status: JobStatus, next: nat)
    | Failing(jobs: seq<JobId>, next: nat)
    | Finished(jobs: seq<JobId>)

  /** One pass of a review worker over a group of claimed records. */
  datatype Task =
    | Judging(records: seq<RecordId>)
    | Updated(records: seq<RecordId>)
    | Closing(records: seq<RecordId>, todo: seq<JobId>, next: nat)
    | Rejecting(todo: seq<JobId>, next: nat)
    | Ended

  datatype State = State(
    jobs: map<JobId, JobStatus>, records: map<RecordId, Record>, groups: seq<Group>, tasks: seq<Task>)

  // --- store operations ---

  /** `update_ingestion_job_status` with an expected status. */
  function CasJob(jobs: map<JobId, JobStatus>, j: JobId, expected: JobStatus, status: JobStatus)
    : map<JobId, JobStatus>
  {
    if j in jobs && jobs[j] == expected then jobs[j := status] else jobs
  }

  /** `update_review_queue_records` expecting REVIEWING. */
  function CasRecords(records: map<RecordId, Record>, updates: map<RecordId, RecordStatus>): map<RecordId, Record> {
    map id | id in records ::
      if id in updates && records[id].status.Reviewing? then records[id].(status := updates[id]) else records[id]
  }

  /** `mark_review_queue_committed` and `resolve_review_queue`: no status is expected. */
  function Overwrite(records: map<RecordId, Record>, ids: set<RecordId>, status: RecordStatus): map<RecordId, Record> {
    map id | id in records :: if id in ids then records[id].(status := status) else records[id]
  }

  predicate Names(records: map<RecordId, Record>, id: RecordId, j: JobId) {
    id in records && j in records[id].sources
  }

  // --- the write-back decision ---

  /** Some record names the job, and every record naming it is settled. */
  ghost predicate AllSettled(records: map<RecordId, Record>, j: JobId) {
    && (exists id :: Names(records, id, j))
    && (forall id :: Names(records, id, j) ==> Settled(records[id]))
  }

  /** The jobs the records name. */
  function SourceJobs(records: map<RecordId, Record>, ids: set<RecordId>): set<JobId> {
    set id, j | id in ids && id in records && j in records[id].sources :: j
  }

  // --- steps ---

  datatype Step =
    | EnqueueJob(job: JobId)
    | DropPending(dropped: set<JobId>)
    | ClaimJobs(batches: seq<seq<JobId>>)
    | QueueRecords(group: nat, ids: seq<RecordId>)
    | MoveJob(group: nat)
    | RaiseInGroup(group: nat)
    | FailJob(group: nat)
    | FinishGroup(group: nat)
    | ClaimRecords(claimed: seq<seq<RecordId>>)
    | ReportRecords(task: nat, updates: map<RecordId, RecordStatus>)
    | ListQueue(task: nat, todo: seq<JobId>)
    | CloseJob(task: nat)
    | RaiseInReview(task: nat, updates: map<RecordId, RecordStatus>, todo: seq<JobId>)
    | RejectJob(task: nat)
    | EndTask(task: nat)
    | Manual(chosen: set<RecordId>, status: RecordStatus)

  predicate AllDistinct(ss: seq<seq<JobId>>) {
    && (forall a, i, k :: 0 <= a < |ss| && 0 <= i < k < |ss[a]| ==> ss[a][i] != ss[a][k])
    && (forall a, b, x :: 0 <= a < b < |ss| && x in ss[a] ==> x !in ss[b])
  }

  predicate Claimed(ss: seq<seq<JobId>>, x: JobId) {
    exists a :: 0 <= a < |ss| && x in ss[a]
  }

  ghost predicate Enabled(s: State, step: Step) {
    match step
    case EnqueueJob(j) => j !in s.jobs
    case DropPending(dropped) => forall j :: j in dropped ==> j in s.jobs && s.jobs[j].Pending?
    case ClaimJobs(batches) =>
      AllDistinct(batches) && forall j :: Claimed(batches, j) ==> j in s.jobs && s.jobs[j].Pending?
    case QueueRecords(g, ids) =>
      g < |s.groups| && s.groups[g].Working? && forall id :: id in ids ==> id !in s.records
    case MoveJob(g) => g < |s.groups| && s.groups[g].Moving? && s.groups[g].next < |s.groups[g].jobs|
    case RaiseInGroup(g) => g < |s.groups| && (s.groups[g].Working? || s.groups[g].Moving?)
    case FailJob(g) => g < |s.groups| && s.groups[g].Failing? && s.groups[g].next < |s.groups[g].jobs|
    case FinishGroup(g) =>
      g < |s.groups| && (s.groups[g].Moving? || s.groups[g].Failing?) && s.groups[g].next == |s.groups[g].jobs|
    case ClaimRecords(claimed) =>
      forall id :: Claimed(claimed, id) ==> id in s.records && s.records[id].status.Pending?
    case ReportRecords(t, updates) =>
      && t < |s.tasks| && s.tasks[t].Judging? && (forall id :: id in updates <==> id in s.tasks[t].records)
      && forall id :: id in updates ==> updates[id].Committed? || updates[id].Resolved? || updates[id].Pending?
    case ListQueue(t, todo) =>
      && t < |s.tasks| && s.tasks[t].Updated?
      && forall j ::
           j in todo <==> j in SourceJobs(s.records, set id | id in s.tasks[t].records) && AllSettled(s.records, j)
    case CloseJob(t) => t < |s.tasks| && s.tasks[t].Closing? && s.tasks[t].next < |s.tasks[t].todo|
    case RaiseInReview(t, updates, todo) =>
      && t < |s.tasks| && (s.tasks[t].Judging? || s.tasks[t].Updated? || s.tasks[t].Closing?)
      && (forall id :: id in updates <==> id in s.tasks[t].records)
      && (forall id :: id in updates ==> updates[id].Failed? || updates[id].Pending?)
      && forall j :: j in todo <==> j in SourceJobs(s.records, set id | id in updates && updates[id].Failed?)
    case RejectJob(t) => t < |s.tasks| && s.tasks[t].Rejecting? && s.tasks[t].next < |s.tasks[t].todo|
    case EndTask(t) => t < |s.tasks| && (s.tasks[t].Closing? || s.tasks[t].Rejecting?)
                       && s.tasks[t].next == |s.tasks[t].todo|
    case Manual(chosen, status) => status.Committed? || status.Resolved?
  }

  function NewRecords(ids: seq<RecordId>, sources: seq<JobId>): map<RecordId, Record> {
    map id | id in ids :: Record(RecordStatus.Pending, sources)
  }

  function SetJobs(jobs: map<JobId, JobStatus>, batches: seq<seq<JobId>>): map<JobId, JobStatus> {
    map j | j in jobs :: if Claimed(batches, j) then JobStatus.Extracting else jobs[j]
  }

  function StartGroups(batches: seq<seq<JobId>>): seq<Group> {
    seq(|batches|, i requires 0 <= i < |batches| => Working(batches[i]))
  }

  function StartTasks(claimed: seq<seq<RecordId>>): seq<Task> {
    seq(|claimed|, i requires 0 <= i < |claimed| => Judging(claimed[i]))
  }

  ghost function After(s: State, step: Step): State
    requires Enabled(s, step)
  {
    match step
    case EnqueueJob(j) => s.(jobs := s.jobs[j := JobStatus.Pending])
    case DropPending(dropped) => s.(jobs := s.jobs - dropped)
    case ClaimJobs(batches) => s.(jobs := SetJobs(s.jobs, batches), groups := s.groups + StartGroups(batches))
    case QueueRecords(g, ids) =>
      var jobs := s.groups[g].jobs;
      s.(records := s.records + NewRecords(ids, jobs),
         groups := s.groups[g := Moving(jobs, if ids == [] then JobStatus.Done else JobStatus.Reviewing, 0)])
    case MoveJob(g) =>
      var group := s.groups[g];
      s.(jobs := CasJob(s.jobs, group.jobs[group.next], JobStatus.Extracting, group.status),
         groups := s.groups[g := Moving(group.jobs, group.status, group.next + 1)])
    case RaiseInGroup(g) => s.(groups := s.groups[g := Group.Failing(s.groups[g].jobs, 0)])
    case FailJob(g) =>
      var group := s.groups[g];
      s.(jobs := CasJob(s.jobs, group.jobs[group.next], JobStatus.Extracting, JobStatus.Failed),
         groups := s.groups[g := Group.Failing(group.jobs, group.next + 1)])
    case FinishGroup(g) => s.(groups := s.groups[g := Finished(s.groups[g].jobs)])
    case ClaimRecords(claimed) =>
      s.(records := map id | id in s.records ::
           if Claimed(claimed, id) then s.records[id].(status := RecordStatus.Reviewing) else s.records[id],
         tasks := s.tasks + StartTasks(claimed))
    case ReportRecords(t, updates) =>
      s.(records := CasRecords(s.records, updates), tasks := s.tasks[t := Updated(s.tasks[t].records)])
    case ListQueue(t, todo) => s.(tasks := s.tasks[t := Closing(s.tasks[t].records, todo, 0)])
    case CloseJob(t) =>
      var task := s.tasks[t];
      s.(jobs := CasJob(s.jobs, task.todo[task.next], JobStatus.Reviewing, JobStatus.Done),
         tasks := s.tasks[t := Closing(task.records, task.todo, task.next + 1)])
    case RaiseInReview(t, updates, todo) =>
      s.(records := CasRecords(s.records, updates), tasks := s.tasks[t := Rejecting(todo, 0)])
    case RejectJob(t) =>
      var task := s.tasks[t];
      s.(jobs := CasJob(s.jobs, task.todo[task.next], JobStatus.Reviewing, JobStatus.Failed),
         tasks := s.tasks[t := Rejecting(task.todo, task.next + 1)])
    case EndTask(t) => s.(tasks := s.tasks[t := Ended])
    case Manual(chosen, status) => s.(records := Overwrite(s.records, chosen, status))
  }

  // --- the invariant ---

  /** Claimed jobs stay in the store, no longer pending, and each belongs to one group. */
  ghost predicate Ownership(jobs: map<JobId, JobStatus>, groups: seq<Group>) {
    && (forall g, j :: 0 <= g < |groups| && j in groups[g].jobs ==> j in jobs && !jobs[j].Pending?)
    && (forall g, h, j :: 0 <= g < h < |groups| && j in groups[g].jobs ==> j !in groups[h].jobs)
  }

  /** The job's group has queued its records or given up; it will queue no more. */
  ghost predicate Queued(groups: seq<Group>, j: JobId) {
    exists g :: 0 <= g < |groups| && j in groups[g].jobs && !groups[g].Working?
  }

  ghost predicate RecordsAreOwned(records: map<RecordId, Record>, groups: seq<Group>) {
    forall id, j :: Names(records, id, j) ==> Queued(groups, j)
  }

  ghost predicate Past(jobs: map<JobId, JobStatus>, ids: seq<JobId>, next: nat) {
    next <= |ids| && forall i :: 0 <= i < next ==> ids[i] in jobs && !jobs[ids[i]].Extracting?
  }

  /** What a group's progress says about its jobs. */
  ghost predicate Consistent(jobs: map<JobId, JobStatus>, records: map<RecordId, Record>, g: Group) {
    match g
    case Working(ids) => forall j :: j in ids ==> j in jobs && jobs[j].Extracting?
    case Moving(ids, status, next) =>
      && Past(jobs, ids, next) && (status.Reviewing? || status.Done?)
      && (status.Done? ==> forall id, j :: j in ids ==> !Names(records, id, j))
    case Failing(ids, next) => Past(jobs, ids, next)
    case Finished(ids) => Past(jobs, ids, |ids|)
  }

  ghost predicate GroupsAreConsistent(jobs: map<JobId, JobStatus>, records: map<RecordId, Record>, groups: seq<Group>) {
    forall g :: 0 <= g < |groups| ==> Consistent(jobs, records, groups[g])
  }

  /** A finished job was claimed, and every record naming it is settled. */
  ghost predicate DoneIsSettled(jobs: map<JobId, JobStatus>, records: map<RecordId, Record>, groups: seq<Group>) {
    forall j :: j in jobs && jobs[j].Done? ==>
      Queued(groups, j) && forall id :: Names(records, id, j) ==> Settled(records[id])
  }

  /** A job under review was queued by its group. */
  ghost predicate ReviewingIsQueued(jobs: map<JobId, JobStatus>, groups: seq<Group>) {
    forall j :: j in jobs && jobs[j].Reviewing? ==> Queued(groups, j)
  }

  /** The jobs a review worker is about to finish still qualify. */
  ghost predicate TodoIsSettled(records: map<RecordId, Record>, tasks: seq<Task>) {
    forall t, j :: 0 <= t < |tasks| && tasks[t].Closing? && j in tasks[t].todo ==> AllSettled(records, j)
  }

  ghost predicate Inv(s: State) {
    && Ownership(s.jobs, s.groups) && RecordsAreOwned(s.records, s.groups)
    && GroupsAreConsistent(s.jobs, s.records, s.groups) && DoneIsSettled(s.jobs, s.records, s.groups)
    && TodoIsSettled(s.records, s.tasks) && ReviewingIsQueued(s.jobs, s.groups)
  }

  // --- how the parts change ---

  /** Records keep their sources, and settled ones stay settled. */
  ghost predicate Advances(before: map<RecordId, Record>, later: map<RecordId, Record>) {
    && before.Keys == later.Keys
    && forall id :: id in before ==>
         later[id].sources == before[id].sources && (Settled(before[id]) ==> Settled(later[id]))
  }

  lemma AdvanceKeepsNames(before: map<RecordId, Record>, later: map<RecordId, Record>)
    requires Advances(before, later)
    ensures forall id, j :: Names(before, id, j) <==> Names(later, id, j)
    ensures forall j :: AllSettled(before, j) ==> AllSettled(later, j)
  {
    forall j | AllSettled(before, j) ensures AllSettled(later, j) {
      var id :| Names(before, id, j);
      assert Names(later, id, j);
    }
  }

  lemma AdvanceKeeps(s: State, later: map<RecordId, Record>)
    requires Inv(s) && Advances(s.records, later)
    ensures Inv(s.(records := later))
  {
    AdvanceKeepsNames(s.records, later);
    forall g | 0 <= g < |s.groups| ensures Consistent(s.jobs, later, s.groups[g]) {
      assert Consistent(s.jobs, s.records, s.groups[g]);
    }
  }

  /** One job leaves EXTRACTING or REVIEWING. */
  ghost predicate Leaves(jobs: map<JobId, JobStatus>, x: JobId, status: JobStatus) {
    x in jobs && (jobs[x].Extracting? || jobs[x].Reviewing?) && !status.Pending? && !status.Extracting?
  }

  lemma LeavingKeepsGroups(s: State, x: JobId, status: JobStatus)
    requires Inv(s) && Leaves(s.jobs, x, status)
    requires forall g :: 0 <= g < |s.groups| && s.groups[g].Working? ==> x !in s.groups[g].jobs
    ensures Ownership(s.jobs[x := status], s.groups)
    ensures GroupsAreConsistent(s.jobs[x := status], s.records, s.groups)
  {
    forall g | 0 <= g < |s.groups| ensures Consistent(s.jobs[x := status], s.records, s.groups[g]) {
      assert Consistent(s.jobs, s.records, s.groups[g]);
    }
  }

  /** Finishing needs settled records; anything else does not. */
  lemma LeavingKeeps(s: State, x: JobId, status: JobStatus)
    requires Inv(s) && Leaves(s.jobs, x, status)
    requires forall g :: 0 <= g < |s.groups| && s.groups[g].Working? ==> x !in s.groups[g].jobs
    requires status.Done? || status.Reviewing? ==> Queued(s.groups, x)
    requires status.Done? ==> forall id :: Names(s.records, id, x) ==> Settled(s.records[id])
    ensures Inv(s.(jobs := s.jobs[x := status]))
  {
    LeavingKeepsGroups(s, x, status);
  }

  /** A group moves on within its own jobs. */
  lemma TurnKeeps(s: State, g: nat, turned: Group)
    requires Inv(s) && g < |s.groups| && turned.jobs == s.groups[g].jobs && !turned.Working?
    requires Consistent(s.jobs, s.records, turned)
    ensures Inv(s.(groups := s.groups[g := turned]))
  {
    var groups := s.groups[g := turned];
    QueuedStays(s.groups, groups);
    forall h | 0 <= h < |groups| ensures Consistent(s.jobs, s.records, groups[h]) {
      assert Consistent(s.jobs, s.records, s.groups[h]);
    }
  }

  lemma QueuedStays(before: seq<Group>, later: seq<Group>)
    requires |before| <= |later|
    requires forall g :: 0 <= g < |before| ==>
      later[g].jobs == before[g].jobs && (!before[g].Working? ==> !later[g].Working?)
    ensures forall j :: Queued(before, j) ==> Queued(later, j)
  {
    forall j | Queued(before, j) ensures Queued(later, j) {
      var g :| 0 <= g < |before| && j in before[g].jobs && !before[g].Working?;
      assert j in later[g].jobs;
    }
  }

  /** A queued job is in no working group. */
  lemma QueuedIsNotWorking(s: State, x: JobId)
    requires Inv(s) && Queued(s.groups, x)
    ensures forall g :: 0 <= g < |s.groups| && s.groups[g].Working? ==> x !in s.groups[g].jobs
  {
    var h :| 0 <= h < |s.groups| && x in s.groups[h].jobs && !s.groups[h].Working?;
    forall g | 0 <= g < |s.groups| && s.groups[g].Working? ensures x !in s.groups[g].jobs {
      assert g != h;
    }
  }

  // --- every step keeps the invariant ---

  lemma PendingStepKeeps(s: State, step: Step)
    requires Inv(s) && Enabled(s, step) && (step.EnqueueJob? || step.DropPending?)
    ensures Inv(After(s, step))
  {
    forall g | 0 <= g < |s.groups| ensures Consistent(After(s, step).jobs, s.records, s.groups[g]) {
      assert Consistent(s.jobs, s.records, s.groups[g]);
    }
  }

  lemma ClaimJobsKeepsOwnership(s: State, step: Step)
    requires Inv(s) && Enabled(s, step) && step.ClaimJobs?
    ensures Ownership(After(s, step).jobs, After(s, step).groups)
  {
    var later := After(s, step);
    forall g | |s.groups| <= g < |later.groups| ensures later.groups[g] == Working(step.batches[g - |s.groups|]) {
    }
  }

  lemma ClaimJobsKeepsGroups(s: State, step: Step)
    requires Inv(s) && Enabled(s, step) && step.ClaimJobs?
    ensures GroupsAreConsistent(After(s, step).jobs, s.records, After(s, step).groups)
  {
    var later := After(s, step);
    forall g | 0 <= g < |later.groups| ensures Consistent(later.jobs, s.records, later.groups[g]) {
      if g < |s.groups| {
        assert Consistent(s.jobs, s.records, s.groups[g]);
      } else {
        assert later.groups[g] == Working(step.batches[g - |s.groups|]);
      }
    }
  }

  lemma ClaimJobsKeeps(s: State, step: Step)
    requires Inv(s) && Enabled(s, step) && step.ClaimJobs?
    ensures Inv(After(s, step))
  {
    ClaimJobsKeepsOwnership(s, step);
    ClaimJobsKeepsGroups(s, step);
    QueuedStays(s.groups, After(s, step).groups);
  }

  /** New records name only the jobs of their own group, which nothing named before. */
  lemma NewNames(s: State, g: nat, ids: seq<RecordId>, later: map<RecordId, Record>)
    requires Inv(s) && g < |s.groups| && s.groups[g].Working? && forall id :: id in ids ==> id !in s.records
    requires later == s.records + NewRecords(ids, s.groups[g].jobs)
    ensures forall id, j :: Names(later, id, j) <==> Names(s.records, id, j) || (id in ids && j in s.groups[g].jobs)
    ensures forall j :: j in s.groups[g].jobs ==> !Queued(s.groups, j)
    ensures forall j :: AllSettled(s.records, j) ==> AllSettled(later, j)
  {
    forall j | j in s.groups[g].jobs ensures !Queued(s.groups, j) {
      if Queued(s.groups, j) {
        QueuedIsNotWorking(s, j);
      }
    }
    forall j | AllSettled(s.records, j) ensures AllSettled(later, j) {
      var id :| Names(s.records, id, j);
      assert Queued(s.groups, j) && Names(later, id, j);
    }
  }

  lemma QueueRecordsKeeps(s: State, step: Step)
    requires Inv(s) && Enabled(s, step) && step.QueueRecords?
    ensures Inv(After(s, step))
  {
    var later, jobs := After(s, step), s.groups[step.group].jobs;
    NewNames(s, step.group, step.ids, later.records);
    QueuedStays(s.groups, later.groups);
    assert !later.groups[step.group].Working?;
    assert forall j :: j in jobs ==> Queued(later.groups, j);
    forall h | 0 <= h < |later.groups| ensures Consistent(later.jobs, later.records, later.groups[h]) {
      assert Consistent(s.jobs, s.records, s.groups[h]);
      forall j | j in s.groups[h].jobs && h != step.group ensures j !in jobs {
      }
    }
    forall j | j in s.jobs && s.jobs[j].Done?
      ensures forall id :: Names(later.records, id, j) ==> Settled(later.records[id])
    {
      assert Queued(s.groups, j);
    }
  }

  lemma MoveJobKeeps(s: State, step: Step)
    requires Inv(s) && Enabled(s, step) && (step.MoveJob? || step.FailJob?)
    ensures Inv(After(s, step))
  {
    var g := s.groups[step.group];
    var x, status := g.jobs[g.next], if step.MoveJob? then g.status else JobStatus.Failed;
    assert Consistent(s.jobs, s.records, g);
    assert Queued(s.groups, x);
    QueuedIsNotWorking(s, x);
    var moved := s.(jobs := CasJob(s.jobs, x, JobStatus.Extracting, status));
    if s.jobs[x].Extracting? {
      LeavingKeeps(s, x, status);
    }
    assert Consistent(moved.jobs, moved.records, g);
    TurnKeeps(moved, step.group, After(s, step).groups[step.group]);
  }

  lemma GroupTurnKeeps(s: State, step: Step)
    requires Inv(s) && Enabled(s, step) && (step.RaiseInGroup? || step.FinishGroup?)
    ensures Inv(After(s, step))
  {
    assert Consistent(s.jobs, s.records, s.groups[step.group]);
    TurnKeeps(s, step.group, After(s, step).groups[step.group]);
  }

  lemma RecordStepKeeps(s: State, step: Step)
    requires Inv(s) && Enabled(s, step)
    requires step.ClaimRecords? || step.ReportRecords? || step.RaiseInReview? || step.Manual?
    ensures Inv(After(s, step))
  {
    AdvanceKeeps(s, After(s, step).records);
  }

  lemma WriteBackKeeps(s: State, step: Step)
    requires Inv(s) && Enabled(s, step) && (step.ListQueue? || step.EndTask?)
    ensures Inv(After(s, step))
  {
  }

  lemma CloseJobKeeps(s: State, step: Step)
    requires Inv(s) && Enabled(s, step) && (step.CloseJob? || step.RejectJob?)
    ensures Inv(After(s, step))
  {
    var task := s.tasks[step.task];
    var x, status := task.todo[task.next], if step.CloseJob? then JobStatus.Done else JobStatus.Failed;
    if x in s.jobs && s.jobs[x].Reviewing? {
      forall g | 0 <= g < |s.groups| && s.groups[g].Working? ensures x !in s.groups[g].jobs {
        assert Consistent(s.jobs, s.records, s.groups[g]);
      }
      if step.CloseJob? {
        assert AllSettled(s.records, x);
      }
      LeavingKeeps(s, x, status);
    }
  }

  lemma StepKeeps(s: State, step: Step)
    requires Inv(s) && Enabled(s, step)
    ensures Inv(After(s, step))
  {
    match step
    case EnqueueJob(_) => PendingStepKeeps(s, step);
    case DropPending(_) => PendingStepKeeps(s, step);
    case ClaimJobs(_) => ClaimJobsKeeps(s, step);
    case QueueRecords(_, _) => QueueRecordsKeeps(s, step);
    case MoveJob(_) => MoveJobKeeps(s, step);
    case RaiseInGroup(_) => GroupTurnKeeps(s, step);
    case FailJob(_) => MoveJobKeeps(s, step);
    case FinishGroup(_) => GroupTurnKeeps(s, step);
    case ClaimRecords(_) => RecordStepKeeps(s, step);
    case ReportRecords(_, _) => RecordStepKeeps(s, step);
    case ListQueue(_, _) => WriteBackKeeps(s, step);
    case CloseJob(_) => CloseJobKeeps(s, step);
    case RaiseInReview(_, _, _) => RecordStepKeeps(s, step);
    case RejectJob(_) => CloseJobKeeps(s, step);
    case EndTask(_) => WriteBackKeeps(s, step);
    case Manual(_, _) => RecordStepKeeps(s, step);
  }

  // --- whole runs ---

  /** The steps lead from one state to another. */
  ghost predicate Runs(s: State, steps: seq<Step>, end: State)
    decreases |steps|
  {
    if steps == [] then s == end
    else Enabled(s, steps[0]) && Runs(After(s, steps[0]), steps[1..], end)
  }

  const EMPTY := State(map[], map[], [], [])

  lemma {:induction false} RunKeeps(s: State, steps: seq<Step>, end: State)
    requires Inv(s) && Runs(s, steps, end)
    ensures Inv(end)
    decreases |steps|
  {
    if steps != [] {
      StepKeeps(s, steps[0]);
      RunKeeps(After(s, steps[0]), steps[1..], end);
    }
  }

  /** In every interleaving, a DONE job's records are all settled, and a finished group leaves no job EXTRACTING. */
  lemma EveryRunIsSafe(steps: seq<Step>, end: State)
    requires Runs(EMPTY, steps, end)
    ensures forall id, j :: j in end.jobs && end.jobs[j].Done? && Names(end.records, id, j) ==> Settled(end.records[id])
    ensures forall g, j :: 0 <= g < |end.groups| && end.groups[g].Finished? && j in end.groups[g].jobs ==>
      j in end.jobs && !end.jobs[j].Extracting? && !end.jobs[j].Pending?
  {
    RunKeeps(EMPTY, steps, end);
    forall g, j | 0 <= g < |end.groups| && end.groups[g].Finished? && j in end.groups[g].jobs
      ensures j in end.jobs && !end.jobs[j].Extracting?
    {
      assert Consistent(end.jobs, end.records, end.groups[g]);
    }
  }

  function Rank(status: JobStatus): nat {
    match status
    case Pending => 0
    case Extracting => 1
    case Reviewing => 2
    case Done => 3
    case Failed => 3
  }

  /** A claimed job is never dropped, no job goes back, and DONE and FAILED are final. */
  ghost predicate Onward(before: map<JobId, JobStatus>, later: map<JobId, JobStatus>, j: JobId) {
    j in before ==>
      && (!before[j].Pending? ==> j in later)
      && (j in later ==> Rank(before[j]) <= Rank(later[j]))
      && (before[j].Done? || before[j].Failed? ==> j in later && later[j] == before[j])
  }

  lemma StepIsOnward(s: State, step: Step, j: JobId)
    requires Inv(s) && Enabled(s, step)
    ensures Onward(s.jobs, After(s, step).jobs, j)
  {
    if step.MoveJob? {
      assert Consistent(s.jobs, s.records, s.groups[step.group]);
    }
  }

  lemma {:induction false} JobsOnlyAdvance(s: State, steps: seq<Step>, end: State, j: JobId)
    requires Inv(s) && Runs(s, steps, end)
    ensures Onward(s.jobs, end.jobs, j)
    decreases |steps|
  {
    if steps != [] {
      StepIsOnward(s, steps[0], j);
      StepKeeps(s, steps[0]);
      JobsOnlyAdvance(After(s, steps[0]), steps[1..], end, j);
    }
  }

  lemma StepAdvancesRecords(s: State, step: Step)
    requires Enabled(s, step)
    ensures forall id :: id in s.records ==> id in After(s, step).records
    ensures forall id :: id in s.records && Settled(s.records[id]) ==> Settled(After(s, step).records[id])
  {
  }

  /** A committed or resolved record is never reviewed again. */
  lemma {:induction false} SettledStays(s: State, steps: seq<Step>, end: State, id: RecordId)
    requires Runs(s, steps, end) && id in s.records && Settled(s.records[id])
    ensures id in end.records && Settled(end.records[id])
    decreases |steps|
  {
    if steps != [] {
      StepAdvancesRecords(s, steps[0]);
      SettledStays(After(s, steps[0]), steps[1..], end, id);
    }
  }

  // --- what is not promised: progress ---

  /** The jobs of a write-back that it has not come to yet. */
  function Ahead(todo: seq<JobId>, next: nat): seq<JobId> {
    if next <= |todo| then todo[next..] else []
  }

  /** The review pass may still write the job back. */
  predicate Concerns(records: map<RecordId, Record>, task: Task, j: JobId) {
    match task
    case Judging(ids) => exists id :: id in ids && Names(records, id, j)
    case Updated(ids) => exists id :: id in ids && Names(records, id, j)
    case Closing(ids, todo, next) => j in Ahead(todo, next) || exists id :: id in ids && Names(records, id, j)
    case Rejecting(todo, next) => j in Ahead(todo, next)
    case Ended => false
  }

  /** REVIEWING, although every record naming the job is settled. */
  ghost predicate UnderReviewAndSettled(s: State, j: JobId) {
    j in s.jobs && s.jobs[j].Reviewing? && forall id :: Names(s.records, id, j) ==> Settled(s.records[id])
  }

  /** REVIEWING with every record settled and no review pass left that would write the job back. */
  ghost predicate Stranded(s: State, j: JobId) {
    && UnderReviewAndSettled(s, j)
    && (forall t :: 0 <= t < |s.tasks| ==> !Concerns(s.records, s.tasks[t], j))
  }

  lemma StrandedByGroups(s: State, step: Step, j: JobId)
    requires Inv(s) && Stranded(s, j) && Enabled(s, step)
    requires step.ClaimJobs? || step.MoveJob? || step.RaiseInGroup? || step.FailJob? || step.FinishGroup?
    ensures Stranded(After(s, step), j)
  {
    QueuedStays(s.groups, After(s, step).groups);
  }

  lemma StrandedByQueueing(s: State, step: Step, j: JobId)
    requires Inv(s) && Stranded(s, j) && Enabled(s, step) && step.QueueRecords?
    ensures Stranded(After(s, step), j)
  {
    var later := After(s, step);
    QueuedStays(s.groups, later.groups);
    NewNames(s, step.group, step.ids, later.records);
    assert forall id :: Names(later.records, id, j) <==> Names(s.records, id, j);
  }

  lemma StrandedByClaims(s: State, step: Step, j: JobId)
    requires Inv(s) && Stranded(s, j) && Enabled(s, step) && step.ClaimRecords?
    ensures Stranded(After(s, step), j)
  {
    var later := After(s, step);
    AdvanceKeepsNames(s.records, later.records);
    forall t | 0 <= t < |later.tasks| ensures !Concerns(later.records, later.tasks[t], j) {
      if t < |s.tasks| {
        assert !Concerns(s.records, s.tasks[t], j);
      } else {
        assert later.tasks[t] == Judging(step.claimed[t - |s.tasks|]);
      }
    }
  }

  lemma StrandedByReviews(s: State, step: Step, j: JobId)
    requires Inv(s) && Stranded(s, j) && Enabled(s, step)
    requires step.ReportRecords? || step.RaiseInReview? || step.Manual?
    ensures Stranded(After(s, step), j)
  {
    var later := After(s, step);
    AdvanceKeepsNames(s.records, later.records);
    forall t | 0 <= t < |later.tasks| ensures !Concerns(later.records, later.tasks[t], j) {
      assert !Concerns(s.records, s.tasks[t], j);
    }
  }

  lemma StrandedByWriteBacks(s: State, step: Step, j: JobId)
    requires Inv(s) && Stranded(s, j) && Enabled(s, step)
    requires step.ListQueue? || step.CloseJob? || step.RejectJob? || step.EndTask?
    ensures Stranded(After(s, step), j)
  {
    var later := After(s, step);
    assert !Concerns(s.records, s.tasks[step.task], j);
    forall t | 0 <= t < |later.tasks| ensures !Concerns(later.records, later.tasks[t], j) {
      assert !Concerns(s.records, s.tasks[t], j);
    }
  }

  /** A stranded job stays REVIEWING through every further run. */
  lemma {:induction false} StrandedForever(s: State, steps: seq<Step>, end: State, j: JobId)
    requires Inv(s) && Stranded(s, j) && Runs(s, steps, end)
    ensures Stranded(end, j)
    decreases |steps|
  {
    if steps != [] {
      var step := steps[0];
      if step.ClaimJobs? || step.MoveJob? || step.RaiseInGroup? || step.FailJob? || step.FinishGroup? {
        StrandedByGroups(s, step, j);
      } else if step.QueueRecords? {
        StrandedByQueueing(s, step, j);
      } else if step.ClaimRecords? {
        StrandedByClaims(s, step, j);
      } else if step.ReportRecords? || step.RaiseInReview? || step.Manual? {
        StrandedByReviews(s, step, j);
      } else if step.ListQueue? || step.CloseJob? || step.RejectJob? || step.EndTask? {
        StrandedByWriteBacks(s, step, j);
      }
      StepKeeps(s, step);
      StrandedForever(After(s, step), steps[1..], end, j);
    }
  }

  lemma {:induction false} AppendStep(s: State, steps: seq<Step>, middle: State, step: Step)
    requires Runs(s, steps, middle) && Enabled(middle, step)
    ensures Runs(s, steps + [step], After(middle, step))
    decreases |steps|
  {
    if steps != [] {
      AppendStep(After(s, steps[0]), steps[1..], middle, step);
      assert (steps + [step])[1..] == steps[1..] + [step];
    } else {
      assert ([] + [step])[1..] == [];
    }
  }

  /** A claimed job whose only record is queued. */
  lemma QueuedRun(j: JobId, r: RecordId) returns (steps: seq<Step>)
    ensures Runs(EMPTY, steps, QueuedState(j, r))
  {
    var enqueue, claim, queue := EnqueueJob(j), ClaimJobs([[j]]), QueueRecords(0, [r]);
    var s1 := State(map[j := JobStatus.Pending], map[], [], []);
    var s2 := State(map[j := JobStatus.Extracting], map[], [Working([j])], []);
    assert After(EMPTY, enqueue) == s1;
    assert [[j]][0] == [j];
    assert After(s1, claim) == s2;
    assert After(s2, queue) == QueuedState(j, r);
    AppendStep(EMPTY, [], EMPTY, enqueue);
    AppendStep(EMPTY, [] + [enqueue], s1, claim);
    AppendStep(EMPTY, [] + [enqueue] + [claim], s2, queue);
    steps := [] + [enqueue] + [claim] + [queue];
  }

  function QueuedState(j: JobId, r: RecordId): State {
    State(map[j := JobStatus.Extracting], map[r := Record(RecordStatus.Pending, [j])],
          [Moving([j], JobStatus.Reviewing, 0)], [])
  }

  function CommittedState(j: JobId, r: RecordId): State {
    QueuedState(j, r).(records := map[r := Record(RecordStatus.Committed, [j])])
  }

  lemma CommittedRun(j: JobId, r: RecordId) returns (steps: seq<Step>)
    ensures Runs(EMPTY, steps, CommittedState(j, r))
  {
    var front := QueuedRun(j, r);
    var commit := Manual({r}, RecordStatus.Committed);
    assert After(QueuedState(j, r), commit) == CommittedState(j, r);
    AppendStep(EMPTY, front, QueuedState(j, r), commit);
    steps := front + [commit];
  }

  /** Committing the record by hand writes nothing back, so the job is stranded once its worker has moved it. */
  lemma JobsCanBeStranded(j: JobId, r: RecordId) returns (steps: seq<Step>, end: State)
    ensures Runs(EMPTY, steps, end) && Stranded(end, j)
  {
    var front := CommittedRun(j, r);
    var move := MoveJob(0);
    AppendStep(EMPTY, front, CommittedState(j, r), move);
    steps, end := front + [move], After(CommittedState(j, r), move);
    assert end.groups[0] == Moving([j], JobStatus.Reviewing, 1) && j in end.groups[0].jobs;
  }
}
