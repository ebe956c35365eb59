/** Merging claimed jobs into groups of consecutive turns, and the write-back decision over a queue listing. */
module JobMerging {
  import opened Basics
  import opened IngestionLifecycle

  datatype Job = Job(id: JobId, session: string, transcript: string, skipExtraction: bool, turn: Option<int>)

  /** `_can_merge` looks at the last job of the group only. */
  predicate CanMerge(group: seq<Job>, job: Job, maxJobs: int)
    requires group != []
  {
    |group| < maxJobs && Follows(group[|group| - 1], job)
  }

  predicate Follows(previous: Job, job: Job) {
    && previous.session == job.session && previous.transcript == job.transcript
    && previous.skipExtraction == job.skipExtraction
    && ((previous.turn.None? && job.turn.None?)
        || (previous.turn.Some? && job.turn.Some? && job.turn.value == previous.turn.value + 1))
  }

  function Flatten(groups: seq<seq<Job>>): seq<Job> {
    if groups == [] then [] else Flatten(groups[..|groups| - 1]) + groups[|groups| - 1]
  }

  /** Each job follows the one before it. */
  ghost predicate IsGroup(group: seq<Job>, maxJobs: int) {
    && 1 <= |group| && (|group| <= maxJobs || |group| == 1)
    && forall i :: 0 <= i < |group| - 1 ==> Follows(group[i], group[i + 1])
  }

  ghost predicate AreGroups(groups: seq<seq<Job>>, maxJobs: int) {
    forall g :: 0 <= g < |groups| ==> IsGroup(groups[g], maxJobs)
  }

  /** A group ends only where the next job cannot join it. */
  ghost predicate IsGreedy(groups: seq<seq<Job>>, maxJobs: int) {
    && AreGroups(groups, maxJobs)
    && (forall g :: 0 < g < |groups| ==> !CanMerge(groups[g - 1], groups[g][0], maxJobs))
  }

  /** `_merge_claimed_jobs`: the greedy grouping, which loses, repeats and reorders nothing. */
  method MergeClaimedJobs(jobs: seq<Job>, maxJobs: int) returns (groups: seq<seq<Job>>)
    ensures Flatten(groups) == jobs && IsGreedy(groups, maxJobs)
  {
    groups := [];
    for k := 0 to |jobs|
      invariant Flatten(groups) == jobs[..k] && IsGreedy(groups, maxJobs)
    {
      assert jobs[..k + 1] == jobs[..k] + [jobs[k]];
      if groups == [] || !CanMerge(groups[|groups| - 1], jobs[k], maxJobs) {
        assert (groups + [[jobs[k]]])[..|groups|] == groups;
        groups := groups + [[jobs[k]]];
      } else {
        var last := |groups| - 1;
        assert groups[last := groups[last] + [jobs[k]]][..last] == groups[..last];
        groups := groups[last := groups[last] + [jobs[k]]];
      }
    }
    assert jobs[..|jobs|] == jobs;
  }

  /** The jobs of a group share session, transcript and mode, and their turns are all absent or count up by one. */
  lemma {:induction false} GroupIsOneStretch(group: seq<Job>, maxJobs: int, i: nat)
    requires IsGroup(group, maxJobs) && i < |group|
    ensures group[i].session == group[0].session && group[i].transcript == group[0].transcript
    ensures group[i].skipExtraction == group[0].skipExtraction
    ensures if group[0].turn.Some? then group[i].turn == Some(group[0].turn.value + i) else group[i].turn == None
  {
    if i > 0 {
      GroupIsOneStretch(group, maxJobs, i - 1);
      assert Follows(group[i - 1], group[i - 1 + 1]);
    }
  }

  lemma {:induction false} FlattenFront(groups: seq<seq<Job>>)
    requires groups != []
    ensures Flatten(groups) == groups[0] + Flatten(groups[1..])
  {
    if |groups| == 1 {
      assert groups[..0] == [] && groups[1..] == [];
    } else {
      FlattenFront(groups[..|groups| - 1]);
      assert groups[..|groups| - 1][1..] == groups[1..][..|groups| - 2];
    }
  }

  /** A first group shorter than another grouping's could have taken the next job. */
  lemma NextJoins(a: seq<seq<Job>>, b: seq<seq<Job>>, maxJobs: int)
    requires AreGroups(a, maxJobs) && AreGroups(b, maxJobs) && Flatten(a) == Flatten(b)
    requires a != [] && b != [] && |a[0]| < |b[0]|
    ensures |a| > 1 && a[1] != [] && CanMerge(a[1 - 1], a[1][0], maxJobs)
  {
    FlattenFront(a);
    FlattenFront(b);
    var jobs, n := Flatten(a), |a[0]|;
    assert jobs[n] == b[0][n] && jobs[n - 1] == a[0][n - 1] == b[0][n - 1];
    FlattenFront(a[1..]);
    assert a[1..][0] == a[1] && IsGroup(a[1], maxJobs);
    assert jobs[n] == a[1][0];
    assert Follows(b[0][n - 1], b[0][n - 1 + 1]);
  }

  lemma FirstGroupsAgree(a: seq<seq<Job>>, b: seq<seq<Job>>, maxJobs: int)
    requires IsGreedy(a, maxJobs) && IsGreedy(b, maxJobs) && Flatten(a) == Flatten(b) && a != [] && b != []
    ensures |b[0]| <= |a[0]|
  {
    if |a[0]| < |b[0]| {
      NextJoins(a, b, maxJobs);
    }
  }

  /** Only one grouping of the jobs is greedy. */
  lemma {:induction false} GreedyIsUnique(a: seq<seq<Job>>, b: seq<seq<Job>>, maxJobs: int)
    requires IsGreedy(a, maxJobs) && IsGreedy(b, maxJobs) && Flatten(a) == Flatten(b)
    ensures a == b
    decreases |a|
  {
    if a != [] {
      FlattenFront(a);
    }
    if b != [] {
      FlattenFront(b);
    }
    if a != [] && b != [] {
      FirstGroupsAgree(a, b, maxJobs);
      FirstGroupsAgree(b, a, maxJobs);
      assert a[0] == Flatten(a)[..|a[0]|] && b[0] == Flatten(b)[..|b[0]|];
      assert Flatten(a[1..]) == Flatten(a)[|a[0]|..] && Flatten(b[1..]) == Flatten(b)[|b[0]|..];
      GreedyIsUnique(a[1..], b[1..], maxJobs);
      assert a == [a[0]] + a[1..] && b == [b[0]] + b[1..];
    }
  }

  /** Two jobs continue one stretch: same session, transcript and mode, and turns both absent or one apart. */
  predicate Continues(a: Job, b: Job) {
    && a.session == b.session && a.transcript == b.transcript && a.skipExtraction == b.skipExtraction
    && match (a.turn, b.turn)
       case (None, None) => true
       case (Some(m), Some(n)) => n == m + 1
       case _ => false
  }

  /** One stretch within the size limit is merged into one group. */
  lemma StretchIsMerged(jobs: seq<Job>, maxJobs: int, groups: seq<seq<Job>>)
    requires 1 <= |jobs| <= maxJobs && forall i :: 0 <= i < |jobs| - 1 ==> Continues(jobs[i], jobs[i + 1])
    requires Flatten(groups) == jobs && IsGreedy(groups, maxJobs)
    ensures groups == [jobs]
  {
    forall i | 0 <= i < |jobs| - 1 ensures Follows(jobs[i], jobs[i + 1]) {
      assert Continues(jobs[i], jobs[i + 1]);
    }
    assert [jobs][..0] == [] && Flatten([jobs]) == [] + jobs;
    GreedyIsUnique(groups, [jobs], maxJobs);
  }

  /** Where a group ends, the stretch ends or the group is full. */
  lemma GroupEnds(groups: seq<seq<Job>>, maxJobs: int, g: nat)
    requires IsGreedy(groups, maxJobs) && 0 < g < |groups|
    ensures groups[g - 1] != [] && groups[g] != []
    ensures maxJobs <= |groups[g - 1]| || !Continues(groups[g - 1][|groups[g - 1]| - 1], groups[g][0])
  {
    assert IsGroup(groups[g - 1], maxJobs) && IsGroup(groups[g], maxJobs);
    assert !CanMerge(groups[g - 1], groups[g][0], maxJobs);
  }

  // --- write-back ---

  /** A listing of the review queue: every stored record once. */
  ghost predicate Lists(listing: seq<RecordId>, records: map<RecordId, Record>) {
    && (forall i, k :: 0 <= i < k < |listing| ==> listing[i] != listing[k])
    && (forall id :: id in listing <==> id in records)
  }

  /** `_writeback_source_jobs_for_records` without failure: the source jobs whose related records are all settled. */
  method JobsToFinish(records: map<RecordId, Record>, listing: seq<RecordId>, sources: seq<JobId>)
    returns (todo: seq<JobId>)
    requires Lists(listing, records)
    ensures forall j :: j in todo <==> j in sources && AllSettled(records, j)
  {
    var related: map<JobId, seq<RecordId>> := map j | j in sources :: [];
    for i := 0 to |listing|
      invariant related.Keys == set j | j in sources
      invariant forall j, id :: j in related ==> (id in related[j] <==> id in listing[..i] && Names(records, id, j))
    {
      assert listing[..i + 1] == listing[..i] + [listing[i]];
      related := map j | j in related ::
        if Names(records, listing[i], j) then related[j] + [listing[i]] else related[j];
    }
    assert listing[..|listing|] == listing;
    todo := [];
    for k := 0 to |sources|
      invariant forall j :: j in todo <==> j in sources[..k] && AllSettled(records, j)
    {
      var j := sources[k];
      assert sources[..k + 1] == sources[..k] + [j];
      if related[j] != [] && forall id :: id in related[j] ==> Settled(records[id]) {
        assert Names(records, related[j][0], j);
        todo := todo + [j];
      }
    }
    assert sources[..|sources|] == sources;
  }
}
