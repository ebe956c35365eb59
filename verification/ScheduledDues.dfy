/** The due times that runs of a scheduled job are started for. */
module ScheduledDues {
  import opened Basics
  import opened CronFields
  import opened ScheduledRuns

  /** The due time a step claims: that of the snapshot of a run that goes live. */
  function Claimed(s: State, step: Step, j: JobId): seq<int> {
    if Claims(s, step, j) && s.runs[step.run].snapshot.progress.nextRun.Some?
    then [s.runs[step.run].snapshot.progress.nextRun.value] else []
  }

  /** The due times claimed over a run, in order. */
  ghost function Dues(policies: JobId -> Policy, s: State, steps: seq<Step>, j: JobId): seq<int>
    decreases |steps|
  {
    if steps == [] || !Enabled(policies, s, steps[0]) then []
    else Claimed(s, steps[0], j) + Dues(policies, After(policies, s, steps[0]), steps[1..], j)
  }

  /** The snapshot of a claiming run still has the stored due time. */
  predicate Current(s: State, r: RunId, j: JobId)
    requires r < |s.runs| && !s.runs[r].Over? && j in s.jobs
  {
    s.runs[r].snapshot.progress.nextRun.Some? && s.runs[r].snapshot.progress.nextRun == s.jobs[j].progress.nextRun
  }

  /** Claims are current, no run finishes before the time it was due, and nobody administers the job. */
  predicate PromptStep(s: State, step: Step, j: JobId) {
    && !(step.Administer? && step.job == j) && (Claims(s, step, j) ==> Current(s, step.run, j))
    && (step.Finish? && LiveOn(s, step.run, j) && s.runs[step.run].snapshot.progress.nextRun.Some?
        ==> s.runs[step.run].snapshot.progress.nextRun.value <= step.at)
  }

  ghost predicate Prompt(policies: JobId -> Policy, s: State, steps: seq<Step>, j: JobId)
    decreases |steps|
  {
    steps == [] || !Enabled(policies, s, steps[0]) ||
    (PromptStep(s, steps[0], j) && Prompt(policies, After(policies, s, steps[0]), steps[1..], j))
  }

  predicate Ascending(dues: seq<int>) {
    forall i, k :: 0 <= i < k < |dues| ==> dues[i] < dues[k]
  }

  predicate AllAfter(last: Option<int>, dues: seq<int>) {
    last.Some? ==> forall d :: d in dues ==> last.value < d
  }

  /** A live run was claimed for the last due time; otherwise the job waits for a later one, or is stuck. */
  ghost predicate Waits(policies: JobId -> Policy, s: State, j: JobId, last: Option<int>) {
    && j in s.jobs && !policies(j).blocked && ValidPolicy(policies(j))
    && (forall r: RunId :: LiveOn(s, r, j) ==> last.Some? && s.runs[r].snapshot.progress.nextRun == last)
    && (Idle(s, j) && !s.jobs[j].status.Running? && last.Some? && s.jobs[j].progress.nextRun.Some?
        ==> last.value < s.jobs[j].progress.nextRun.value)
  }

  function Latest(last: Option<int>, dues: seq<int>): Option<int> {
    if dues == [] then last else Some(dues[|dues| - 1])
  }

  lemma ClaimWaits(policies: JobId -> Policy, s: State, step: Step, j: JobId, last: Option<int>)
    requires Inv(policies, s) && Enabled(policies, s, step) && Waits(policies, s, j, last)
    requires Claims(s, step, j) && PromptStep(s, step, j)
    ensures Waits(policies, After(policies, s, step), j, Latest(last, Claimed(s, step, j)))
    ensures AllAfter(last, Claimed(s, step, j))
  {
    var later := After(policies, s, step);
    assert LiveOn(later, step.run, j);
    forall r: RunId ensures !LiveOn(s, r, j) {
    }
    forall r: RunId | LiveOn(later, r, j) ensures r == step.run {
      assert r != step.run ==> LiveOn(s, r, j);
    }
  }

  lemma FinishWaits(policies: JobId -> Policy, s: State, step: Step, j: JobId, last: Option<int>)
    requires Inv(policies, s) && Enabled(policies, s, step) && Waits(policies, s, j, last)
    requires step.Finish? && LiveOn(s, step.run, j) && PromptStep(s, step, j)
    ensures Waits(policies, After(policies, s, step), j, last)
  {
    var later := After(policies, s, step);
    NextRunIsLater(policies(j), s.runs[step.run].snapshot, step.outcome, step.at);
    forall r: RunId ensures !LiveOn(later, r, j) {
      assert LiveOn(later, r, j) ==> LiveOn(s, r, j);
    }
  }

  lemma OtherStepWaits(policies: JobId -> Policy, s: State, step: Step, j: JobId, last: Option<int>)
    requires Inv(policies, s) && Enabled(policies, s, step) && Waits(policies, s, j, last)
    requires !Claims(s, step, j) && !(step.Finish? && LiveOn(s, step.run, j)) && PromptStep(s, step, j)
    ensures Waits(policies, After(policies, s, step), j, last)
  {
    var later := After(policies, s, step);
    forall r: RunId ensures LiveOn(later, r, j) <==> LiveOn(s, r, j) {
    }
    assert Idle(later, j) <==> Idle(s, j);
  }

  lemma JoinAscending(last: Option<int>, first: seq<int>, rest: seq<int>)
    requires |first| <= 1 && AllAfter(last, first) && Ascending(rest) && AllAfter(Latest(last, first), rest)
    ensures Ascending(first + rest) && AllAfter(last, first + rest)
  {
    if first == [] {
      assert first + rest == rest;
    } else {
      forall i | 0 <= i < |rest| ensures first[0] < rest[i] {
        assert rest[i] in rest;
      }
      assert first[0] in first;
    }
  }

  lemma {:induction false} DuesAfter(
    policies: JobId -> Policy, s: State, steps: seq<Step>, end: State, j: JobId, last: Option<int>)
    requires Inv(policies, s) && Waits(policies, s, j, last)
    requires Runs(policies, s, steps, end) && Prompt(policies, s, steps, j)
    ensures Ascending(Dues(policies, s, steps, j)) && AllAfter(last, Dues(policies, s, steps, j))
    decreases |steps|
  {
    if steps != [] {
      var step, later := steps[0], After(policies, s, steps[0]);
      if Claims(s, step, j) {
        ClaimWaits(policies, s, step, j, last);
      } else if step.Finish? && LiveOn(s, step.run, j) {
        FinishWaits(policies, s, step, j, last);
      } else {
        OtherStepWaits(policies, s, step, j, last);
      }
      StepKeeps(policies, s, step);
      DuesAfter(policies, later, steps[1..], end, j, Latest(last, Claimed(s, step, j)));
      JoinAscending(last, Claimed(s, step, j), Dues(policies, later, steps[1..], j));
    }
  }

  /**
   In every interleaving whose claims find the due time of their snapshot still stored, and whose runs do not finish
   before they were due, due times strictly increase from claim to claim: none is run twice.
   */
  lemma NoDueTimeTwice(policies: JobId -> Policy, s: State, steps: seq<Step>, end: State, j: JobId)
    requires Inv(policies, s) && j in s.jobs && Idle(s, j) && !policies(j).blocked && ValidPolicy(policies(j))
    requires Runs(policies, s, steps, end) && Prompt(policies, s, steps, j)
    ensures Ascending(Dues(policies, s, steps, j))
  {
    DuesAfter(policies, s, steps, end, j, None);
  }

  lemma ThenStep(
    policies: JobId -> Policy, s: State, step: Step, next: State, rest: seq<Step>, end: State, j: JobId)
    requires Enabled(policies, s, step) && After(policies, s, step) == next && Runs(policies, next, rest, end)
    ensures Runs(policies, s, [step] + rest, end)
    ensures Dues(policies, s, [step] + rest, j) == Claimed(s, step, j) + Dues(policies, next, rest, j)
  {
    assert ([step] + rest)[1..] == rest;
  }

  /** The job claimed by the run, with both runs taken from the same snapshot. */
  function Claiming(j: JobId, job: Job, r: RunId, runs: seq<Run>): State {
    Alone(j, Job(Running, job.progress.(current := Some(r))), runs)
  }

  lemma SecondClaim(policies: JobId -> Policy, j: JobId, due: int, retry: Option<int>)
    requires !policies(j).blocked
    ensures var s := Alone(j, ActiveJob(1, retry), [Over, Taken(j, ActiveJob(0, Some(due)))]);
            var end := Claiming(j, ActiveJob(0, Some(due)), 1, [Over, Live(j, ActiveJob(0, Some(due)))]);
      Runs(policies, s, [Claim(1)] + [], end) && Dues(policies, s, [Claim(1)] + [], j) == [due]
  {
    var job := ActiveJob(0, Some(due));
    var s := Alone(j, ActiveJob(1, retry), [Over, Taken(j, job)]);
    var end := Claiming(j, job, 1, [Over, Live(j, job)]);
    assert After(policies, s, Claim(1)) == end;
    ThenStep(policies, s, Claim(1), end, [], end, j);
  }

  lemma BothClaims(policies: JobId -> Policy, j: JobId, due: int, at: int) returns (steps: seq<Step>)
    requires !policies(j).blocked && 1 <= policies(j).maxRetries
    ensures var job := ActiveJob(0, Some(due));
            var s, end := Alone(j, job, [Taken(j, job), Taken(j, job)]), Claiming(j, job, 1, [Over, Live(j, job)]);
      Runs(policies, s, steps, end) && Dues(policies, s, steps, j) == [due, due]
  {
    var job, retry := ActiveJob(0, Some(due)), Some(at + policies(j).backoffSeconds * MICROS_PER_SECOND);
    var taken, end := Taken(j, job), Claiming(j, job, 1, [Over, Live(j, job)]);
    var s := Alone(j, job, [taken, taken]);
    var live, failed := Claiming(j, job, 0, [Live(j, job), taken]), Alone(j, ActiveJob(1, retry), [Over, taken]);
    SecondClaim(policies, j, due, retry);
    assert After(policies, live, Finish(0, Failure, at)) == failed;
    ThenStep(policies, live, Finish(0, Failure, at), failed, [Claim(1)] + [], end, j);
    assert After(policies, s, Claim(0)) == live;
    ThenStep(policies, s, Claim(0), live, [Finish(0, Failure, at)] + ([Claim(1)] + []), end, j);
    steps := [Claim(0)] + ([Finish(0, Failure, at)] + ([Claim(1)] + []));
  }

  /** Two workers that listed the job before either ran it: the second, stale claim runs the same due time again. */
  lemma StaleClaimRunsADueTimeTwice(policies: JobId -> Policy, j: JobId, due: int, at: int)
    returns (steps: seq<Step>, end: State)
    requires !policies(j).blocked && 1 <= policies(j).maxRetries
    ensures var s := Alone(j, ActiveJob(0, Some(due)), []);
      Inv(policies, s) && Runs(policies, s, steps, end) && Dues(policies, s, steps, j) == [due, due]
  {
    var job := ActiveJob(0, Some(due));
    var taken, s := Taken(j, job), Alone(j, job, []);
    var once, twice := Alone(j, job, [taken]), Alone(j, job, [taken, taken]);
    var rest := BothClaims(policies, j, due, at);
    end := Claiming(j, job, 1, [Over, Live(j, job)]);
    assert After(policies, once, Take(j)) == twice;
    ThenStep(policies, once, Take(j), twice, rest, end, j);
    assert After(policies, s, Take(j)) == once;
    ThenStep(policies, s, Take(j), once, [Take(j)] + rest, end, j);
    steps := [Take(j)] + ([Take(j)] + rest);
  }
}
