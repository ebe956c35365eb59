/** Scheduled ingestion runs: claiming a job, its final state write, and the retry ladder. */
module ScheduledRuns {
  import opened Basics
  import opened Calendar
  import opened CronFields
  import opened CronSearch
  import opened CronCoverage

  type JobId = string
  /** A run's position in the run log. */
  type RunId = nat

  datatype Status = Active | Disabled | Running | Failed

  datatype Progress = Progress(retries: nat, nextRun: Option<int>, current: Option<RunId>)

  datatype Job = Job(status: Status, progress: Progress)

  /** A job's fixed configuration; `blocked` when its write settings raise an error diagnostic. */
  datatype Policy = Policy(fields: Fields, offset: int, maxRetries: nat, backoffSeconds: int, blocked: bool)

  datatype Outcome = Success | Failure

  const MICROS_PER_SECOND := 1_000_000

  predicate ValidPolicy(p: Policy) {
    WellFormed(p.fields) && 1 <= p.backoffSeconds
  }

  // --- next states; none means the cron search raised ---

  ghost function NextCron(p: Policy, after: int): Option<int> {
    NextFiring(Schedule(p.fields), p.offset, after)
  }

  /** The new state, given the answer of the cron search at the finish. */
  function NextJob(p: Policy, job: Job, outcome: Outcome, finish: int, cron: Option<int>): Option<Job> {
    var retries := job.progress.retries;
    if outcome.Success? then
      if cron.None? then None
      else Some(Job(if job.status.Disabled? then Disabled else Active, Progress(0, cron, None)))
    else if retries < p.maxRetries then
      Some(Job(if job.status.Disabled? then Disabled else Active,
               Progress(retries + 1, Some(finish + p.backoffSeconds * MICROS_PER_SECOND), None)))
    else if cron.None? then None
    else Some(Job(if job.status.Disabled? then Disabled else Failed, Progress(retries + 1, cron, None)))
  }

  /** `next_state_for_success` and `next_state_for_failure`, with the status the caller writes. */
  ghost function StateAfter(p: Policy, job: Job, outcome: Outcome, finish: int): Option<Job> {
    NextJob(p, job, outcome, finish, NextCron(p, finish))
  }

  /** `next_state_for_skip`, written with FAILED when the write settings block the job. */
  ghost function StateAfterSkip(p: Policy, job: Job, finish: int): Option<Job> {
    var cron := NextCron(p, finish);
    if cron.None? then None else Some(Job(Failed, Progress(job.progress.retries, cron, None)))
  }

  lemma NextCronIsLater(p: Policy, after: int)
    ensures NextCron(p, after).Some? ==> after < NextCron(p, after).value
  {
    NextFiringIsLeast(p.fields, p.offset, after);
  }

  /** Whatever a run leaves behind, its next due time lies strictly after the run's finish. */
  lemma NextRunIsLater(p: Policy, job: Job, outcome: Outcome, finish: int)
    requires ValidPolicy(p)
    ensures var next := StateAfter(p, job, outcome, finish);
      next.Some? ==> next.value.progress.nextRun.Some? && finish < next.value.progress.nextRun.value
    ensures var next := StateAfterSkip(p, job, finish);
      next.Some? ==> next.value.progress.nextRun.Some? && finish < next.value.progress.nextRun.value
  {
    NextCronIsLater(p, finish);
  }

  /**
   What is written after a run: a disabled job stays disabled; otherwise a success or a failure with retries left makes
   it ACTIVE, the last failure FAILED. A success clears the retry count, a failure adds one, and no run is current.
   */
  lemma StateAfterExactly(p: Policy, job: Job, outcome: Outcome, finish: int)
    ensures var next, last := StateAfter(p, job, outcome, finish), p.maxRetries <= job.progress.retries;
      && (next.None? <==> NextCron(p, finish).None? && (outcome == Success || last))
      && (next.Some? ==>
            && (next.value.status == Disabled <==> job.status == Disabled)
            && (next.value.status == Failed <==> job.status != Disabled && outcome == Failure && last)
            && next.value.status != Running && next.value.progress.current.None?
            && next.value.progress.retries == if outcome == Success then 0 else job.progress.retries + 1)
  {
  }

  /** A refused run makes the job FAILED, due at the next firing, with its retry count unchanged. */
  lemma StateAfterSkipExactly(p: Policy, job: Job, finish: int)
    ensures var next := StateAfterSkip(p, job, finish);
      && (next.None? <==> NextCron(p, finish).None?)
      && (next.Some? ==>
            && next.value.status == Failed && next.value.progress.retries == job.progress.retries
            && next.value.progress.current.None? && next.value.progress.nextRun.Some?
            && FirstFiringAfter(p, finish, next.value.progress.nextRun.value))
  {
    NextFiringIsLeast(p.fields, p.offset, finish);
  }

  /** No firing instant lies between. */
  ghost predicate FirstFiringAfter(p: Policy, after: int, t: int) {
    && after < t && FiresAtInstant(p.fields, p.offset, t)
    && forall u :: after < u < t ==> !FiresAtInstant(p.fields, p.offset, u)
  }

  /** After a success or a last failure the job is due at the first firing after the finish, else at the backoff. */
  lemma NextRunIsFirstFiring(p: Policy, job: Job, outcome: Outcome, finish: int)
    ensures var next := StateAfter(p, job, outcome, finish);
      next.Some? ==>
        if outcome.Success? || p.maxRetries <= job.progress.retries
        then next.value.progress.nextRun.Some? && FirstFiringAfter(p, finish, next.value.progress.nextRun.value)
        else next.value.progress.nextRun == Some(finish + p.backoffSeconds * MICROS_PER_SECOND)
  {
    NextFiringIsLeast(p.fields, p.offset, finish);
  }

  // --- concurrent workers ---

  /** A run holds the snapshot it was started from until it is over. */
  datatype Run = Taken(job: JobId, snapshot: Job) | Live(job: JobId, snapshot: Job) | Over

  datatype State = State(jobs: map<JobId, Job>, runs: seq<Run>)

  datatype Step =
    | Take(job: JobId)
    | Pass(run: RunId)
    | Refuse(run: RunId, at: int)
    | Claim(run: RunId)
    | Finish(run: RunId, outcome: Outcome, at: int)
    | Administer(job: JobId, written: Job)

  predicate LiveOn(s: State, r: RunId, j: JobId) {
    r < |s.runs| && s.runs[r].Live? && s.runs[r].job == j
  }

  ghost predicate Idle(s: State, j: JobId) {
    forall r: RunId :: !LiveOn(s, r, j)
  }

  /** Administration (add, enable, disable) is only assumed not to happen during a run. */
  ghost predicate Enabled(policies: JobId -> Policy, s: State, step: Step) {
    match step
    case Take(j) => j in s.jobs
    case Pass(r) => r < |s.runs| && s.runs[r].Taken? && s.runs[r].snapshot.status.Running?
    case Refuse(r, _) => Startable(s, r) && policies(s.runs[r].job).blocked
    case Claim(r) => Startable(s, r) && !policies(s.runs[r].job).blocked
    case Finish(r, _, _) => r < |s.runs| && s.runs[r].Live?
    case Administer(j, _) => Idle(s, j)
  }

  predicate Startable(s: State, r: RunId) {
    r < |s.runs| && s.runs[r].Taken? && !s.runs[r].snapshot.status.Running?
  }

  function Written(jobs: map<JobId, Job>, j: JobId, next: Option<Job>): map<JobId, Job> {
    if next.Some? && j in jobs then jobs[j := next.value] else jobs
  }

  ghost function After(policies: JobId -> Policy, s: State, step: Step): State
    requires Enabled(policies, s, step)
  {
    match step
    case Take(j) => s.(runs := s.runs + [Taken(j, s.jobs[j])])
    case Pass(r) => s.(runs := s.runs[r := Over])
    case Refuse(r, at) =>
      var run := s.runs[r];
      State(Written(s.jobs, run.job, StateAfterSkip(policies(run.job), run.snapshot, at)), s.runs[r := Over])
    case Claim(r) =>
      var run := s.runs[r];
      if run.job in s.jobs && s.jobs[run.job].status == run.snapshot.status then
        State(s.jobs[run.job := Job(Running, run.snapshot.progress.(current := Some(r)))],
              s.runs[r := Live(run.job, run.snapshot)])
      else s.(runs := s.runs[r := Over])
    case Finish(r, outcome, at) =>
      var run := s.runs[r];
      State(Written(s.jobs, run.job, StateAfter(policies(run.job), run.snapshot, outcome, at)), s.runs[r := Over])
    case Administer(j, written) => s.(jobs := s.jobs[j := written])
  }

  /** A live run's job is RUNNING under that run's id, and its settings do not block it. */
  ghost predicate Inv(policies: JobId -> Policy, s: State) {
    forall r: RunId, j: JobId :: LiveOn(s, r, j) ==>
      j in s.jobs && s.jobs[j].status.Running? && s.jobs[j].progress.current == Some(r) && !policies(j).blocked
  }

  lemma StepKeeps(policies: JobId -> Policy, s: State, step: Step)
    requires Inv(policies, s) && Enabled(policies, s, step)
    ensures Inv(policies, After(policies, s, step))
  {
    var later := After(policies, s, step);
    if step.Finish? {
      assert LiveOn(s, step.run, s.runs[step.run].job);
    }
    forall r: RunId, j: JobId | LiveOn(later, r, j)
      ensures j in later.jobs && later.jobs[j].status.Running? && later.jobs[j].progress.current == Some(r)
      ensures !policies(j).blocked
    {
      assert LiveOn(s, r, j) || (step.Claim? && step.run == r);
    }
  }

  ghost predicate Runs(policies: JobId -> Policy, s: State, steps: seq<Step>, end: State)
    decreases |steps|
  {
    if steps == [] then s == end
    else Enabled(policies, s, steps[0]) && Runs(policies, After(policies, s, steps[0]), steps[1..], end)
  }

  const NO_RUNS := State(map[], [])

  lemma {:induction false} RunKeeps(policies: JobId -> Policy, s: State, steps: seq<Step>, end: State)
    requires Inv(policies, s) && Runs(policies, s, steps, end)
    ensures Inv(policies, end)
    decreases |steps|
  {
    if steps != [] {
      StepKeeps(policies, s, steps[0]);
      RunKeeps(policies, After(policies, s, steps[0]), steps[1..], end);
    }
  }

  /** In every interleaving a job has at most one live run, and it is RUNNING under that run's id. */
  lemma AtMostOneRun(policies: JobId -> Policy, steps: seq<Step>, end: State, j: JobId, a: RunId, b: RunId)
    requires Runs(policies, NO_RUNS, steps, end) && LiveOn(end, a, j) && LiveOn(end, b, j)
    ensures a == b && j in end.jobs && end.jobs[j].status.Running? && end.jobs[j].progress.current == Some(a)
  {
    RunKeeps(policies, NO_RUNS, steps, end);
  }

  /** Only its own final write ends a live run. */
  lemma LiveUntilFinished(policies: JobId -> Policy, s: State, step: Step, r: RunId, j: JobId)
    requires Inv(policies, s) && Enabled(policies, s, step) && LiveOn(s, r, j)
    ensures LiveOn(After(policies, s, step), r, j) <==> !(step.Finish? && step.run == r)
  {
  }

  /** A final write is skipped, and the job left RUNNING with no run, exactly when the cron search it needs raises. */
  lemma FinishSticksExactly(policies: JobId -> Policy, s: State, r: RunId, j: JobId, outcome: Outcome, at: int)
    requires Inv(policies, s) && LiveOn(s, r, j)
    ensures var later := After(policies, s, Finish(r, outcome, at));
            var p, retries := policies(j), s.runs[r].snapshot.progress.retries;
      && Idle(later, j) && j in later.jobs
      && (later.jobs[j].status.Running?
          <==> NextCron(p, at).None? && (outcome.Success? || p.maxRetries <= retries))
  {
    var later := After(policies, s, Finish(r, outcome, at));
    forall q: RunId ensures !LiveOn(later, q, j) {
      assert LiveOn(later, q, j) ==> LiveOn(s, q, j);
    }
  }

  /** RUNNING, although no run of the job is live. */
  ghost predicate Stuck(policies: JobId -> Policy, s: State, j: JobId) {
    j in s.jobs && s.jobs[j].status.Running? && Idle(s, j) && !policies(j).blocked
  }

  lemma StuckStep(policies: JobId -> Policy, s: State, step: Step, j: JobId)
    requires Inv(policies, s) && Enabled(policies, s, step) && !(step.Administer? && step.job == j)
    requires Stuck(policies, s, j)
    ensures var later := After(policies, s, step); Stuck(policies, later, j) && later.jobs[j] == s.jobs[j]
  {
    var later := After(policies, s, step);
    forall r: RunId ensures !LiveOn(later, r, j) {
      assert !LiveOn(s, r, j);
    }
    if step.Finish? {
      assert !LiveOn(s, step.run, j);
    }
  }

  ghost predicate Unadministered(steps: seq<Step>, j: JobId) {
    forall step :: step in steps && step.Administer? ==> step.job != j
  }

  /** A stuck job is never changed again by any run that does not administer it. */
  lemma {:induction false} StuckForever(policies: JobId -> Policy, s: State, steps: seq<Step>, end: State, j: JobId)
    requires Inv(policies, s) && Runs(policies, s, steps, end) && Unadministered(steps, j) && Stuck(policies, s, j)
    ensures Stuck(policies, end, j) && end.jobs[j] == s.jobs[j]
    decreases |steps|
  {
    if steps != [] {
      assert steps[0] in steps && forall step :: step in steps[1..] ==> step in steps;
      StuckStep(policies, s, steps[0], j);
      StepKeeps(policies, s, steps[0]);
      StuckForever(policies, After(policies, s, steps[0]), steps[1..], end, j);
    }
  }

  /** A refused run is over, and its job FAILED and due at the first firing, unless the cron search raises. */
  lemma RefusedJobFails(policies: JobId -> Policy, s: State, r: RunId, at: int)
    requires Enabled(policies, s, Refuse(r, at)) && s.runs[r].job in s.jobs
    ensures var j, later := s.runs[r].job, After(policies, s, Refuse(r, at));
      && later.runs[r].Over? && j in later.jobs
      && (NextCron(policies(j), at).None? ==> later.jobs[j] == s.jobs[j])
      && (NextCron(policies(j), at).Some? ==>
            later.jobs[j].status.Failed? && later.jobs[j].progress.nextRun == NextCron(policies(j), at))
  {
  }

  /** Administration releases a stuck job: once it is written anew, a worker can take and claim it. */
  lemma StuckIsReleased(policies: JobId -> Policy, s: State, j: JobId, written: Job)
    requires Inv(policies, s) && Stuck(policies, s, j) && !written.status.Running?
    ensures Enabled(policies, s, Administer(j, written))
    ensures var s1, r := After(policies, s, Administer(j, written)), |s.runs|;
      && Enabled(policies, s1, Take(j))
      && (var s2 := After(policies, s1, Take(j));
          && Enabled(policies, s2, Claim(r))
          && LiveOn(After(policies, s2, Claim(r)), r, j)
          && After(policies, s2, Claim(r)).jobs[j].progress == written.progress.(current := Some(r)))
  {
  }

  /** An administrative write keeps the invariant exactly when no run of the job is live. */
  lemma AdministeringIsSafeWhenIdle(policies: JobId -> Policy, s: State, j: JobId, written: Job)
    requires Inv(policies, s) && !written.status.Running?
    ensures Inv(policies, s.(jobs := s.jobs[j := written])) <==> Idle(s, j)
  {
    var later := s.(jobs := s.jobs[j := written]);
    assert forall r: RunId, k: JobId :: LiveOn(later, r, k) <==> LiveOn(s, r, k);
    if !Idle(s, j) {
      var r: RunId :| LiveOn(s, r, j);
      assert LiveOn(later, r, j);
    }
  }

  /** Enabling or disabling a job during its run lets a second run of it go live, a manual one if it was disabled. */
  lemma AdministeringDuringARunBreaksExclusion(policies: JobId -> Policy, s: State, r: RunId, j: JobId, written: Job)
    requires Inv(policies, s) && LiveOn(s, r, j) && !written.status.Running?
    ensures var s1 := s.(jobs := s.jobs[j := written]);
            var s2 := s1.(runs := s1.runs + [Taken(j, written)]);
            var second := |s.runs|;
      && Enabled(policies, s1, Take(j)) && After(policies, s1, Take(j)) == s2
      && Enabled(policies, s2, Claim(second))
      && LiveOn(After(policies, s2, Claim(second)), r, j) && LiveOn(After(policies, s2, Claim(second)), second, j)
      && r != second
  {
  }

  // --- the retry ladder ---

  datatype Finished = Finished(outcome: Outcome, at: int)

  /** The length of the streak of failures at the end. */
  function Streak(log: seq<Finished>): nat {
    if log == [] || log[|log| - 1].outcome.Success? then 0 else 1 + Streak(log[..|log| - 1])
  }

  /** Some run ended the `n`-th failure in a row. */
  ghost predicate HadStreak(log: seq<Finished>, n: nat) {
    exists k :: 0 <= k <= |log| && Streak(log[..k]) == n
  }

  /** A run needed the cron search and it raised. */
  ghost predicate Raised(p: Policy, log: seq<Finished>) {
    exists k :: 0 <= k < |log| && RaisedAt(p, log, k)
  }

  ghost predicate RaisedAt(p: Policy, log: seq<Finished>, k: nat)
    requires k < |log|
  {
    NextCron(p, log[k].at).None? && (log[k].outcome.Success? || p.maxRetries <= Streak(log[..k]))
  }

  lemma StreakNext(log: seq<Finished>, f: Finished)
    ensures Streak(log + [f]) == if f.outcome.Success? then 0 else 1 + Streak(log)
  {
    assert (log + [f])[..|log|] == log;
  }

  lemma HadStreakNext(log: seq<Finished>, f: Finished, n: nat)
    ensures HadStreak(log + [f], n) <==> HadStreak(log, n) || Streak(log + [f]) == n
  {
    var all := log + [f];
    assert all[..|all|] == all;
    assert forall k :: 0 <= k <= |log| ==> all[..k] == log[..k];
  }

  lemma RaisedNext(p: Policy, log: seq<Finished>, f: Finished)
    ensures Raised(p, log + [f]) <==>
      Raised(p, log) || (NextCron(p, f.at).None? && (f.outcome.Success? || p.maxRetries <= Streak(log)))
  {
    var all := log + [f];
    assert all[..|log|] == log;
    forall k | 0 <= k < |log| ensures RaisedAt(p, all, k) <==> RaisedAt(p, log, k) {
      assert all[..k] == log[..k];
    }
    assert RaisedAt(p, all, |log|) <==> NextCron(p, f.at).None? && (f.outcome.Success? || p.maxRetries <= Streak(log));
    if Raised(p, log) {
      var k :| 0 <= k < |log| && RaisedAt(p, log, k);
      assert RaisedAt(p, all, k);
    }
  }

  /** What a step adds to the log of the job's finished runs. */
  function Noted(s: State, step: Step, j: JobId): seq<Finished> {
    if step.Finish? && LiveOn(s, step.run, j) then [Finished(step.outcome, step.at)] else []
  }

  ghost function Log(policies: JobId -> Policy, s: State, steps: seq<Step>, j: JobId): seq<Finished>
    decreases |steps|
  {
    if steps == [] || !Enabled(policies, s, steps[0]) then []
    else Noted(s, steps[0], j) + Log(policies, After(policies, s, steps[0]), steps[1..], j)
  }

  /** The claim's compare-and-swap on the job would succeed. */
  predicate Claims(s: State, step: Step, j: JobId) {
    && step.Claim? && step.run < |s.runs| && s.runs[step.run].Taken? && s.runs[step.run].job == j
    && j in s.jobs && s.jobs[j].status == s.runs[step.run].snapshot.status
  }

  /** An automatic run took the job while ACTIVE, and its snapshot's retry count is still the stored one. */
  predicate Fresh(s: State, r: RunId, j: JobId)
    requires r < |s.runs| && !s.runs[r].Over? && j in s.jobs
  {
    s.runs[r].snapshot.status.Active? && s.runs[r].snapshot.progress.retries == s.jobs[j].progress.retries
  }

  /** Every successful claim of the job is fresh, and nobody administers it. */
  ghost predicate Automatic(policies: JobId -> Policy, s: State, steps: seq<Step>, j: JobId)
    decreases |steps|
  {
    steps == [] || !Enabled(policies, s, steps[0]) ||
    (&& !(steps[0].Administer? && steps[0].job == j)
     && (Claims(s, steps[0], j) ==> Fresh(s, steps[0].run, j))
     && Automatic(policies, After(policies, s, steps[0]), steps[1..], j))
  }

  /**
   Where a job stands after the runs of its log. With no run live it is RUNNING if a cron search raised, else FAILED if
   some streak reached limit plus one, else ACTIVE with the current streak as its retry count. A live run carries that
   count.
   */
  ghost predicate Ladder(policies: JobId -> Policy, s: State, j: JobId, log: seq<Finished>) {
    var p := policies(j);
    && j in s.jobs && !p.blocked
    && (forall r: RunId :: LiveOn(s, r, j) ==>
          && s.runs[r].snapshot.status.Active? && s.runs[r].snapshot.progress.retries == Streak(log) <= p.maxRetries
          && !HadStreak(log, p.maxRetries + 1) && !Raised(p, log))
    && (Idle(s, j) ==> Standing(p, s.jobs[j], log))
  }

  ghost predicate Standing(p: Policy, job: Job, log: seq<Finished>) {
    StandsAt(p.maxRetries, job, Streak(log), HadStreak(log, p.maxRetries + 1), Raised(p, log))
  }

  predicate StandsAt(maxRetries: nat, job: Job, streak: nat, exhausted: bool, raised: bool) {
    && (job.status.Running? <==> raised)
    && (job.status.Failed? <==> exhausted && !raised)
    && (job.status.Active? <==> !exhausted && !raised)
    && (job.status.Active? ==> job.progress.retries == streak <= maxRetries)
    && (job.status.Failed? ==> job.progress.retries == maxRetries + 1)
  }

  lemma StandsAfterFinish(p: Policy, job: Job, snapshot: Job, f: Finished, cron: Option<int>, streak: nat, next: nat)
    requires snapshot.status.Active? && snapshot.progress.retries == streak <= p.maxRetries
    requires next == if f.outcome.Success? then 0 else streak + 1
    requires var written := NextJob(p, snapshot, f.outcome, f.at, cron);
      if written.Some? then job == written.value else job.status.Running?
    ensures StandsAt(p.maxRetries, job, next, next == p.maxRetries + 1,
                     cron.None? && (f.outcome.Success? || p.maxRetries <= streak))
  {
  }

  lemma StandingAfterFinish(p: Policy, job: Job, snapshot: Job, log: seq<Finished>, f: Finished)
    requires snapshot.status.Active? && snapshot.progress.retries == Streak(log) <= p.maxRetries
    requires !HadStreak(log, p.maxRetries + 1) && !Raised(p, log)
    requires var next := StateAfter(p, snapshot, f.outcome, f.at);
      if next.Some? then job == next.value else job.status.Running?
    ensures Standing(p, job, log + [f])
  {
    HadStreakNext(log, f, p.maxRetries + 1);
    RaisedNext(p, log, f);
    StreakNext(log, f);
    StandsAfterFinish(p, job, snapshot, f, NextCron(p, f.at), Streak(log), Streak(log + [f]));
  }

  lemma LadderStep(policies: JobId -> Policy, s: State, step: Step, j: JobId, log: seq<Finished>)
    requires Inv(policies, s) && Enabled(policies, s, step) && Ladder(policies, s, j, log)
    requires !(step.Administer? && step.job == j) && (Claims(s, step, j) ==> Fresh(s, step.run, j))
    ensures Ladder(policies, After(policies, s, step), j, log + Noted(s, step, j))
  {
    var later := After(policies, s, step);
    if Noted(s, step, j) != [] {
      var f := Finished(step.outcome, step.at);
      StandingAfterFinish(policies(j), later.jobs[j], s.runs[step.run].snapshot, log, f);
      forall r: RunId ensures !LiveOn(later, r, j) {
        assert LiveOn(later, r, j) ==> LiveOn(s, r, j);
      }
    } else {
      assert log + [] == log;
      LadderElsewhere(policies, s, step, j, log);
    }
  }

  lemma LadderElsewhere(policies: JobId -> Policy, s: State, step: Step, j: JobId, log: seq<Finished>)
    requires Inv(policies, s) && Enabled(policies, s, step) && Ladder(policies, s, j, log)
    requires !(step.Administer? && step.job == j) && (Claims(s, step, j) ==> Fresh(s, step.run, j))
    requires !(step.Finish? && LiveOn(s, step.run, j))
    ensures Ladder(policies, After(policies, s, step), j, log)
  {
    var later := After(policies, s, step);
    if Claims(s, step, j) {
      assert LiveOn(later, step.run, j);
      forall r: RunId ensures !LiveOn(s, r, j) {
      }
    } else {
      forall r: RunId ensures LiveOn(later, r, j) <==> LiveOn(s, r, j) {
      }
      assert Idle(later, j) <==> Idle(s, j);
    }
  }

  lemma {:induction false} LadderRuns(
    policies: JobId -> Policy, s: State, steps: seq<Step>, end: State, j: JobId, log: seq<Finished>)
    requires Inv(policies, s) && Ladder(policies, s, j, log)
    requires Runs(policies, s, steps, end) && Automatic(policies, s, steps, j)
    ensures Ladder(policies, end, j, log + Log(policies, s, steps, j))
    decreases |steps|
  {
    if steps == [] {
      assert log + [] == log;
    } else {
      LadderStep(policies, s, steps[0], j, log);
      StepKeeps(policies, s, steps[0]);
      var noted, later := Noted(s, steps[0], j), After(policies, s, steps[0]);
      LadderRuns(policies, later, steps[1..], end, j, log + noted);
      var rest := Log(policies, later, steps[1..], j);
      assert (log + noted) + rest == log + (noted + rest);
    }
  }

  /** ACTIVE, unblocked, with no retries and no live run. */
  ghost predicate Ready(policies: JobId -> Policy, s: State, j: JobId) {
    j in s.jobs && s.jobs[j].status.Active? && s.jobs[j].progress.retries == 0 && !policies(j).blocked && Idle(s, j)
  }

  /** The ladder in every interleaving of workers whose claims of the job are fresh. */
  lemma RetryLadder(policies: JobId -> Policy, s: State, steps: seq<Step>, end: State, j: JobId)
    requires Inv(policies, s) && Ready(policies, s, j)
    requires Runs(policies, s, steps, end) && Automatic(policies, s, steps, j)
    ensures Ladder(policies, end, j, Log(policies, s, steps, j))
  {
    assert !HadStreak([], policies(j).maxRetries + 1) && !Raised(policies(j), []);
    LadderRuns(policies, s, steps, end, j, []);
    assert [] + Log(policies, s, steps, j) == Log(policies, s, steps, j);
  }

  /** With no run live and no cron search raised, the job is FAILED exactly when some streak passed the limit. */
  lemma FailedExactlyOnLastRetry(policies: JobId -> Policy, s: State, steps: seq<Step>, end: State, j: JobId)
    requires Inv(policies, s) && Ready(policies, s, j)
    requires Runs(policies, s, steps, end) && Automatic(policies, s, steps, j)
    requires Idle(end, j) && !Raised(policies(j), Log(policies, s, steps, j))
    ensures j in end.jobs
    ensures end.jobs[j].status.Failed? <==> HadStreak(Log(policies, s, steps, j), policies(j).maxRetries + 1)
    ensures end.jobs[j].status.Active? <==> !HadStreak(Log(policies, s, steps, j), policies(j).maxRetries + 1)
  {
    RetryLadder(policies, s, steps, end, j);
  }

  /**
   Freshness is what the ladder needs: after a claim of a job on the ladder and a failed run, the job is on the ladder
   again exactly when the claim was fresh.
   */
  lemma LadderNeedsFreshClaims(
    policies: JobId -> Policy, s: State, r: RunId, j: JobId, log: seq<Finished>, at: int)
    requires Inv(policies, s) && Ladder(policies, s, j, log) && Idle(s, j)
    requires Enabled(policies, s, Claim(r)) && Claims(s, Claim(r), j) && s.jobs[j].status.Active?
    requires NextCron(policies(j), at).Some?
    ensures var claimed := After(policies, s, Claim(r));
      && LiveOn(claimed, r, j)
      && (Fresh(s, r, j) <==>
            Ladder(policies, After(policies, claimed, Finish(r, Failure, at)), j, log + [Finished(Failure, at)]))
  {
    var p, f, claimed := policies(j), Finished(Failure, at), After(policies, s, Claim(r));
    var later := After(policies, claimed, Finish(r, Failure, at));
    StepKeeps(policies, s, Claim(r));
    HadStreakNext(log, f, p.maxRetries + 1);
    RaisedNext(p, log, f);
    assert (log + [f])[..|log|] == log;
    forall q: RunId ensures !LiveOn(later, q, j) {
      assert LiveOn(later, q, j) ==> LiveOn(claimed, q, j);
    }
    if Fresh(s, r, j) {
      LadderStep(policies, s, Claim(r), j, log);
      assert log + [] == log;
      LadderStep(policies, claimed, Finish(r, Failure, at), j, log);
    }
  }

  // --- witnesses ---

  lemma FirstStep(policies: JobId -> Policy, s: State, step: Step, rest: seq<Step>, end: State, j: JobId)
    requires Enabled(policies, s, step) && Runs(policies, After(policies, s, step), rest, end)
    ensures Runs(policies, s, [step] + rest, end)
    ensures Log(policies, s, [step] + rest, j) == Noted(s, step, j) + Log(policies, After(policies, s, step), rest, j)
  {
    assert ([step] + rest)[1..] == rest;
  }

  function ActiveJob(retries: nat, due: Option<int>): Job {
    Job(Active, Progress(retries, due, None))
  }

  function Alone(j: JobId, job: Job, runs: seq<Run>): State {
    State(map[j := job], runs)
  }

  /** The first worker's claim and failed run, with a second worker holding the old snapshot. */
  lemma FirstWorkerFails(policies: JobId -> Policy, j: JobId, due: Option<int>, at: int) returns (steps: seq<Step>)
    requires !policies(j).blocked && policies(j).maxRetries == 1
    ensures var taken := Taken(j, ActiveJob(0, due));
            var retry := Some(at + policies(j).backoffSeconds * MICROS_PER_SECOND);
            var s := Alone(j, ActiveJob(0, due), [taken, taken]);
      && Runs(policies, s, steps, Alone(j, ActiveJob(1, retry), [Over, taken]))
      && Log(policies, s, steps, j) == [Finished(Failure, at)] && Unadministered(steps, j)
  {
    var snapshot, taken := ActiveJob(0, due), Taken(j, ActiveJob(0, due));
    var retry := Some(at + policies(j).backoffSeconds * MICROS_PER_SECOND);
    var s := Alone(j, snapshot, [taken, taken]);
    var live := Alone(j, Job(Running, snapshot.progress.(current := Some(0))), [Live(j, snapshot), taken]);
    var end := Alone(j, ActiveJob(1, retry), [Over, taken]);
    assert After(policies, s, Claim(0)) == live;
    assert After(policies, live, Finish(0, Failure, at)) == end;
    FirstStep(policies, live, Finish(0, Failure, at), [], end, j);
    FirstStep(policies, s, Claim(0), [Finish(0, Failure, at)] + [], end, j);
    steps := [Claim(0)] + ([Finish(0, Failure, at)] + []);
  }

  /** The second worker's stale claim succeeds, and its failed run counts as a first one. */
  lemma SecondWorkerFails(
    policies: JobId -> Policy, j: JobId, due: Option<int>, retry: Option<int>, at: int) returns (steps: seq<Step>)
    requires !policies(j).blocked && policies(j).maxRetries == 1
    ensures var later := Some(at + policies(j).backoffSeconds * MICROS_PER_SECOND);
            var s := Alone(j, ActiveJob(1, retry), [Over, Taken(j, ActiveJob(0, due))]);
      && Runs(policies, s, steps, Alone(j, ActiveJob(1, later), [Over, Over]))
      && Log(policies, s, steps, j) == [Finished(Failure, at)] && Unadministered(steps, j)
  {
    var snapshot := ActiveJob(0, due);
    var s := Alone(j, ActiveJob(1, retry), [Over, Taken(j, snapshot)]);
    var live := Alone(j, Job(Running, snapshot.progress.(current := Some(1))), [Over, Live(j, snapshot)]);
    var end := Alone(j, ActiveJob(1, Some(at + policies(j).backoffSeconds * MICROS_PER_SECOND)), [Over, Over]);
    assert After(policies, s, Claim(1)) == live;
    assert After(policies, live, Finish(1, Failure, at)) == end;
    FirstStep(policies, live, Finish(1, Failure, at), [], end, j);
    FirstStep(policies, s, Claim(1), [Finish(1, Failure, at)] + [], end, j);
    steps := [Claim(1)] + ([Finish(1, Failure, at)] + []);
  }

  lemma {:induction false} Continue(
    policies: JobId -> Policy, s: State, front: seq<Step>, middle: State, back: seq<Step>, end: State, j: JobId)
    requires Runs(policies, s, front, middle) && Runs(policies, middle, back, end)
    ensures Runs(policies, s, front + back, end)
    ensures Log(policies, s, front + back, j) == Log(policies, s, front, j) + Log(policies, middle, back, j)
    decreases |front|
  {
    if front == [] {
      assert front + back == back;
    } else {
      Continue(policies, After(policies, s, front[0]), front[1..], middle, back, end, j);
      assert (front + back)[1..] == front[1..] + back;
    }
  }

  lemma TakenTwice(policies: JobId -> Policy, j: JobId, job: Job) returns (steps: seq<Step>)
    ensures Runs(policies, Alone(j, job, []), steps, Alone(j, job, [Taken(j, job), Taken(j, job)]))
    ensures Log(policies, Alone(j, job, []), steps, j) == [] && Unadministered(steps, j)
  {
    var taken, s := Taken(j, job), Alone(j, job, []);
    var once, twice := Alone(j, job, [taken]), Alone(j, job, [taken, taken]);
    assert After(policies, s, Take(j)) == once && After(policies, once, Take(j)) == twice;
    FirstStep(policies, once, Take(j), [], twice, j);
    FirstStep(policies, s, Take(j), [Take(j)] + [], twice, j);
    steps := [Take(j)] + ([Take(j)] + []);
  }

  /**
   Two workers that took the job before either claimed it: with one retry allowed, the second stale claim forgets the
   first failure, and the job is still ACTIVE after two failures in a row.
   */
  lemma StaleClaimsOutrunTheLadder(policies: JobId -> Policy, j: JobId, due: Option<int>, first: int, second: int)
    returns (steps: seq<Step>, end: State)
    requires !policies(j).blocked && policies(j).maxRetries == 1
    ensures var s, log := Alone(j, ActiveJob(0, due), []), Log(policies, Alone(j, ActiveJob(0, due), []), steps, j);
      && Inv(policies, s) && Ready(policies, s, j) && Runs(policies, s, steps, end)
      && Unadministered(steps, j)
      && log == [Finished(Failure, first), Finished(Failure, second)] && HadStreak(log, policies(j).maxRetries + 1)
      && j in end.jobs && end.jobs[j].status.Active? && Idle(end, j) && !Ladder(policies, end, j, log)
  {
    var s, taken := Alone(j, ActiveJob(0, due), []), Taken(j, ActiveJob(0, due));
    var retry := Some(first + policies(j).backoffSeconds * MICROS_PER_SECOND);
    var both, failed := Alone(j, ActiveJob(0, due), [taken, taken]), Alone(j, ActiveJob(1, retry), [Over, taken]);
    end := Alone(j, ActiveJob(1, Some(second + policies(j).backoffSeconds * MICROS_PER_SECOND)), [Over, Over]);
    var takes := TakenTwice(policies, j, ActiveJob(0, due));
    var a := FirstWorkerFails(policies, j, due, first);
    var b := SecondWorkerFails(policies, j, due, retry, second);
    Continue(policies, both, a, failed, b, end, j);
    Continue(policies, s, takes, both, a + b, end, j);
    steps := takes + (a + b);
    TwoFailures(first, second);
  }

  lemma TwoFailures(first: int, second: int)
    ensures var log := [Finished(Failure, first), Finished(Failure, second)]; Streak(log) == 2 && HadStreak(log, 2)
  {
    var one := [Finished(Failure, first)];
    StreakNext([], Finished(Failure, first));
    assert [] + [Finished(Failure, first)] == one;
    StreakNext(one, Finished(Failure, second));
    HadStreakNext(one, Finished(Failure, second), 2);
    assert one + [Finished(Failure, second)] == [Finished(Failure, first), Finished(Failure, second)];
  }

  /** A job due on 29 February only, claimed and finished on one after midnight, is stuck. */
  lemma LeapDayJobSticks(policies: JobId -> Policy, j: JobId, due: Option<int>, year: int, at: int)
    returns (steps: seq<Step>, end: State)
    requires !policies(j).blocked && LeapDayOnly(policies(j).fields) && 1 <= year && IsLeap(year)
    requires var day := Ordinal(CivilDate(year, 2, 29));
      day * MINUTES_PER_DAY < StartMinute(policies(j).offset, at) <= (day + 1) * MINUTES_PER_DAY
    ensures Runs(policies, Alone(j, ActiveJob(0, due), []), steps, end) && Inv(policies, end) && Stuck(policies, end, j)
  {
    var snapshot, s := ActiveJob(0, due), Alone(j, ActiveJob(0, due), []);
    var running := Job(Running, snapshot.progress.(current := Some(0)));
    var taken, live := Alone(j, snapshot, [Taken(j, snapshot)]), Alone(j, running, [Live(j, snapshot)]);
    end := Alone(j, running, [Over]);
    LeapDayRunsDry(policies(j).fields, policies(j).offset, at, year);
    assert After(policies, s, Take(j)) == taken && After(policies, taken, Claim(0)) == live;
    assert After(policies, live, Finish(0, Success, at)) == end;
    FirstStep(policies, live, Finish(0, Success, at), [], end, j);
    FirstStep(policies, taken, Claim(0), [Finish(0, Success, at)] + [], end, j);
    FirstStep(policies, s, Take(j), [Claim(0)] + ([Finish(0, Success, at)] + []), end, j);
    steps := [Take(j)] + ([Claim(0)] + ([Finish(0, Success, at)] + []));
  }
}
