/** `aggregate_review_decisions`: sorting votes by candidate, standing in for absent reviewers, and voting. */
module ReviewAggregation {
  import opened Basics
  import opened Implication
  import opened Voting

  /** `dedupe_non_empty_text` on stripped names. */
  function Dedupe(names: seq<string>): (kept: seq<string>)
    ensures forall m :: m in kept <==> m in names && m != ""
    ensures forall i, j :: 0 <= i < j < |kept| ==> kept[i] != kept[j]
  {
    if names == [] then []
    else
      var last, front := names[|names| - 1], names[..|names| - 1];
      assert names == front + [last];
      var rest := Dedupe(front);
      if last == "" || last in rest then rest else rest + [last]
  }

  /** Names keep the order in which they are first met. */
  lemma DedupeNext(names: seq<string>, name: string)
    ensures Dedupe(names + [name]) == Dedupe(names) + if name == "" || name in names then [] else [name]
  {
    assert (names + [name])[..|names|] == names;
  }

  /** The votes cast on a candidate. */
  function Cast(reviews: seq<Review>, candidate: string): seq<Review> {
    Filter(reviews, (r: Review) => r.candidate == candidate)
  }

  function StandIn(candidate: string, model: string): Review {
    Review(candidate, NeedsHuman, None, None, None, Some(model))
  }

  /** `_missing_reviewer_votes`: one NEEDS_HUMAN vote for each listed model that did not vote. */
  function MissingVotes(candidate: string, cast: seq<Review>, models: seq<string>): (votes: seq<Review>)
    ensures forall v :: v in votes <==> exists m :: m in models && !Present(cast, m) && v == StandIn(candidate, m)
  {
    if models == [] then []
    else
      var last, front := models[|models| - 1], models[..|models| - 1];
      assert models == front + [last];
      MissingVotes(candidate, cast, front) + if Present(cast, last) then [] else [StandIn(candidate, last)]
  }

  /** The votes counted for a candidate: those cast, then the stand-ins. */
  function Votes(candidate: string, reviews: seq<Review>, expected: seq<string>, high: seq<string>): seq<Review> {
    var cast := Cast(reviews, candidate);
    cast + MissingVotes(candidate, cast, Dedupe(expected + high))
  }

  /**
   The votes counted are the reviews of the candidate and, for each listed model among them without one, a vote that
   asks for a human and says nothing else.
   */
  lemma VotesExactly(candidate: string, reviews: seq<Review>, expected: seq<string>, high: seq<string>, v: Review)
    ensures v in Votes(candidate, reviews, expected, high) <==>
      || (v in reviews && v.candidate == candidate)
      || (exists m :: m != "" && (m in expected || m in high)
            && (forall r :: r in reviews && r.candidate == candidate ==> r.model != Some(m))
            && v == Review(candidate, NeedsHuman, None, None, None, Some(m)))
  {
    var cast, models := Cast(reviews, candidate), Dedupe(expected + high);
    FilterMembers(reviews, (r: Review) => r.candidate == candidate);
    assert forall m :: m in models <==> m != "" && (m in expected || m in high);
    forall m ensures Present(cast, m) <==> exists r :: r in reviews && r.candidate == candidate && r.model == Some(m) {
      if r :| r in reviews && r.candidate == candidate && r.model == Some(m) {
        assert r in cast;
      }
    }
    assert forall m :: StandIn(candidate, m) == Review(candidate, NeedsHuman, None, None, None, Some(m));
  }

  /** What the votes on a candidate amount to. */
  function VerdictOn(reviews: seq<Review>, policy: VotingPolicy, high: seq<string>, expected: seq<string>)
    : string -> Option<Review>
  {
    id => Verdict(id, Votes(id, reviews, expected, high), policy, high)
  }

  /** The verdicts reached, in candidate order. */
  function Reached(candidates: seq<string>, verdict: string -> Option<Review>): (reached: seq<Review>)
    ensures forall r :: r in reached <==> exists id :: id in candidates && verdict(id) == Some(r)
  {
    if candidates == [] then []
    else
      var last, front := candidates[|candidates| - 1], candidates[..|candidates| - 1];
      assert candidates == front + [last];
      Reached(front, verdict) + if verdict(last).Some? then [verdict(last).value] else []
  }

  method JudgeCandidate(
    id: string, cast: seq<Review>, policy: VotingPolicy, high: seq<string>, expected: seq<string>,
    ghost reviews: seq<Review>)
    returns (verdict: Option<Review>)
    requires cast == Cast(reviews, id)
    ensures verdict == VerdictOn(reviews, policy, high, expected)(id)
  {
    verdict := Verdict(id, cast + MissingVotes(id, cast, Dedupe(expected + high)), policy, high);
  }

  function Unknown(candidates: seq<string>, reviews: seq<Review>): seq<string> {
    if reviews == [] then []
    else
      var last, front := reviews[|reviews| - 1], reviews[..|reviews| - 1];
      Unknown(candidates, front) + if last.candidate in candidates then [] else [last.candidate]
  }

  /** The unknown ids are those some vote names and no candidate has. */
  lemma {:induction false} UnknownIds(candidates: seq<string>, reviews: seq<Review>, id: string)
    ensures id in Unknown(candidates, reviews) <==> id !in candidates && exists r :: r in reviews && r.candidate == id
  {
    if reviews != [] {
      var last, front := reviews[|reviews| - 1], reviews[..|reviews| - 1];
      assert reviews == front + [last];
      UnknownIds(candidates, front, id);
    }
  }

  /** `aggregate_review_decisions`: the verdicts for the gate, and the unknown candidates that votes name. */
  method Aggregate(
    candidates: seq<string>, reviews: seq<Review>, policy: VotingPolicy, highModels: seq<string>,
    expectedModels: seq<string>)
    returns (verdicts: seq<Review>, unknown: seq<string>)
    ensures verdicts == Reached(candidates, VerdictOn(reviews, policy, Dedupe(highModels), Dedupe(expectedModels)))
    ensures unknown == Unknown(candidates, reviews)
    ensures forall id :: id in unknown <==> id !in candidates && exists r :: r in reviews && r.candidate == id
  {
    forall id ensures id in Unknown(candidates, reviews)
                      <==> id !in candidates && exists r :: r in reviews && r.candidate == id {
      UnknownIds(candidates, reviews, id);
    }
    var high, expected := Dedupe(highModels), Dedupe(expectedModels);
    var byCandidate: map<string, seq<Review>>;
    byCandidate, unknown := SortVotes(candidates, reviews);
    verdicts := [];
    ghost var verdictOn := VerdictOn(reviews, policy, high, expected);
    for i := 0 to |candidates|
      invariant verdicts == Reached(candidates[..i], verdictOn)
    {
      var id := candidates[i];
      assert candidates[..i + 1][..i] == candidates[..i];
      var verdict := JudgeCandidate(id, Recorded(byCandidate, id), policy, high, expected, reviews);
      assert verdict == verdictOn(id);
      if verdict.Some? {
        verdicts := verdicts + [verdict.value];
      }
    }
    assert candidates[..|candidates|] == candidates;
  }

  function Recorded(byCandidate: map<string, seq<Review>>, id: string): seq<Review> {
    if id in byCandidate then byCandidate[id] else []
  }

  /** The table holds each known candidate's votes, in order. */
  ghost predicate Sorts(byCandidate: map<string, seq<Review>>, candidates: seq<string>, reviews: seq<Review>) {
    forall id :: id in candidates ==> Recorded(byCandidate, id) == Cast(reviews, id)
  }

  lemma SortsNext(byCandidate: map<string, seq<Review>>, candidates: seq<string>, reviews: seq<Review>, i: nat)
    requires i < |reviews| && Sorts(byCandidate, candidates, reviews[..i])
    ensures var r := reviews[i];
      if r.candidate in candidates
      then Sorts(byCandidate[r.candidate := Recorded(byCandidate, r.candidate) + [r]], candidates, reviews[..i + 1])
      else Sorts(byCandidate, candidates, reviews[..i + 1])
  {
    var r := reviews[i];
    assert reviews[..i + 1] == reviews[..i] + [r];
    forall id ensures Cast(reviews[..i + 1], id) == Cast(reviews[..i], id) + if r.candidate == id then [r] else [] {
      CastSnoc(reviews[..i], r, id);
    }
  }

  /** The first loop: votes by candidate, in order. */
  method SortVotes(candidates: seq<string>, reviews: seq<Review>)
    returns (byCandidate: map<string, seq<Review>>, unknown: seq<string>)
    ensures Sorts(byCandidate, candidates, reviews) && unknown == Unknown(candidates, reviews)
  {
    byCandidate, unknown := map[], [];
    for i := 0 to |reviews|
      invariant Sorts(byCandidate, candidates, reviews[..i]) && unknown == Unknown(candidates, reviews[..i])
    {
      var r := reviews[i];
      SortsNext(byCandidate, candidates, reviews, i);
      assert reviews[..i + 1][..i] == reviews[..i];
      if r.candidate !in candidates {
        unknown := unknown + [r.candidate];
      } else {
        byCandidate := byCandidate[r.candidate := Recorded(byCandidate, r.candidate) + [r]];
      }
    }
    assert reviews[..|reviews|] == reviews;
  }

  lemma {:induction false} CastSnoc(reviews: seq<Review>, r: Review, id: string)
    ensures Cast(reviews + [r], id) == Cast(reviews, id) + if r.candidate == id then [r] else []
  {
    if reviews == [] {
      assert [] + [r] == [r];
    } else {
      assert (reviews + [r])[1..] == reviews[1..] + [r];
      CastSnoc(reviews[1..], r, id);
    }
  }

  // --- what an approval rests on ---

  /** Every listed model has a vote, cast or stood in, so a high-priority vote is never missing from the count. */
  lemma NoMissingVotes(candidate: string, reviews: seq<Review>, expected: seq<string>, high: seq<string>)
    requires forall m :: m in high ==> m != ""
    ensures !MissesHighPriority(Votes(candidate, reviews, expected, high), high)
  {
    var cast := Cast(reviews, candidate);
    var models := Dedupe(expected + high);
    forall m | m in high ensures Present(Votes(candidate, reviews, expected, high), m) {
      assert m in models;
      if Present(cast, m) {
        var r :| r in cast && r.model == Some(m);
        assert r in Votes(candidate, reviews, expected, high);
      } else {
        assert StandIn(candidate, m) in MissingVotes(candidate, cast, models);
        assert StandIn(candidate, m) in Votes(candidate, reviews, expected, high);
      }
    }
  }

  /** The model voted on the candidate, and only to approve. */
  ghost predicate ApprovedBy(reviews: seq<Review>, candidate: string, model: string) {
    && (exists r :: r in reviews && r.candidate == candidate && r.model == Some(model))
    && (forall r :: r in reviews && r.candidate == candidate && r.model == Some(model) ==> r.decision.Approve?)
  }

  lemma PriorityVotesApprove(candidate: string, votes: seq<Review>, high: seq<string>, r: Review)
    requires Approved(Verdict(candidate, votes, RiskTiered, high)) && r in votes && IsPriority(high)(r)
    ensures r.decision.Approve?
  {
    if |votes| == 1 && !MissesHighPriority(votes, high) {
      assert r == votes[0];
    } else {
      assert Verdict(candidate, votes, RiskTiered, high) == Some(RiskTieredVerdict(candidate, votes, high));
      assert !PriorityVote(votes, high, (d: Decision) => d.Reject?);
      assert !PriorityVote(votes, high, (d: Decision) => d.Downgrade? || d.NeedsHuman?);
    }
  }

  /** A risk-tiered approval needs every high-priority model to have voted, and each of its votes to approve. */
  lemma ApprovalNeedsHighPriority(
    candidate: string, reviews: seq<Review>, expected: seq<string>, high: seq<string>, model: string)
    requires Approved(Verdict(candidate, Votes(candidate, reviews, expected, high), RiskTiered, high))
    requires model in high && model != ""
    ensures ApprovedBy(reviews, candidate, model)
  {
    var cast, models := Cast(reviews, candidate), Dedupe(expected + high);
    var votes := Votes(candidate, reviews, expected, high);
    FilterMembers(reviews, (r: Review) => r.candidate == candidate);
    if !Present(cast, model) {
      assert model in models;
      assert StandIn(candidate, model) in MissingVotes(candidate, cast, models);
      PriorityVotesApprove(candidate, votes, high, StandIn(candidate, model));
    }
    forall r | r in reviews && r.candidate == candidate && r.model == Some(model) ensures r.decision.Approve? {
      assert r in cast && r in votes;
      PriorityVotesApprove(candidate, votes, high, r);
    }
  }

  lemma TieredApprovalKind(candidate: string, votes: seq<Review>, high: seq<string>) returns (kind: RelationType)
    requires RiskTieredVerdict(candidate, votes, high).decision.Approve?
    ensures RiskTieredVerdict(candidate, votes, high) == ApprovalAs(candidate, kind, votes, RiskTiered)
    ensures |votes| < 2 * Tally(votes, ApprovesAs(Some(kind)))
  {
    var majority := MajorityKind(Filter(votes, Approves()), |votes| / 2 + 1);
    assert majority.Some?;
    kind := majority.value;
    MajorityKindIsQuota(votes, |votes| / 2 + 1, kind);
  }

  lemma ApprovalCarriesSupport(candidate: string, kind: RelationType, selected: seq<Review>, policy: VotingPolicy)
    requires Approval(candidate, kind, selected, policy).decision.Approve?
    ensures var verdict := Approval(candidate, kind, selected, policy);
      && verdict.kind == Some(kind) && verdict.supported == Some(true) && verdict.confidence.Some?
      && (forall r :: r in selected ==> r.supported == Some(true))
      && (forall r :: r in selected && r.confidence.Some? ==> verdict.confidence.value <= r.confidence.value)
  {
  }

  /** With two votes or more, an approval rests on a strict majority for its type, all with confirmed support. */
  lemma ApprovalNeedsMajority(candidate: string, votes: seq<Review>, high: seq<string>)
    requires Approved(Verdict(candidate, votes, RiskTiered, high)) && |votes| > 1
    ensures var verdict := Verdict(candidate, votes, RiskTiered, high).value;
      && verdict.kind.Some? && verdict.supported == Some(true) && verdict.confidence.Some?
      && |votes| < 2 * Tally(votes, ApprovesAs(verdict.kind))
      && (forall r :: r in votes && ApprovesAs(verdict.kind)(r) ==> r.supported == Some(true))
      && (forall r :: r in votes && ApprovesAs(verdict.kind)(r) && r.confidence.Some?
            ==> verdict.confidence.value <= r.confidence.value)
  {
    var kind := TieredApprovalKind(candidate, votes, high);
    FilterTwice(votes, Some(kind));
    FilterMembers(votes, ApprovesAs(Some(kind)));
    ApprovalCarriesSupport(candidate, kind, Filter(votes, ApprovesAs(Some(kind))), RiskTiered);
  }

  /** A verdict on the candidate; an approval carries its own confidence. */
  predicate Shaped(id: string, verdict: Review) {
    verdict.candidate == id && (verdict.decision.Approve? ==> verdict.confidence.Some?)
  }

  lemma ApprovalShape(id: string, kind: RelationType, reviews: seq<Review>, policy: VotingPolicy)
    ensures Shaped(id, ApprovalAs(id, kind, reviews, policy))
  {
  }

  lemma UnanimousVerdictShape(id: string, votes: seq<Review>)
    ensures Shaped(id, UnanimousVerdict(id, votes))
  {
    var kind := MajorityKind(Filter(votes, Approves()), |votes|);
    if kind.Some? {
      ApprovalShape(id, kind.value, votes, Unanimous);
    }
  }

  lemma MajorityVerdictShape(id: string, votes: seq<Review>)
    ensures Shaped(id, MajorityVerdict(id, votes))
  {
    var kind := MajorityKind(Filter(votes, Approves()), |votes| / 2 + 1);
    if kind.Some? {
      ApprovalShape(id, kind.value, votes, Majority);
    }
  }

  /** The rule answers with the approval of the majority type or with a plain verdict. */
  lemma RiskTieredRuleShape(
    id: string, rejects: bool, hesitates: bool, approves: bool, single: Option<RelationType>,
    majority: Option<RelationType>, approval: RelationType -> Review)
    requires majority.Some? ==> Shaped(id, approval(majority.value))
    ensures Shaped(id, RiskTieredRule(id, rejects, hesitates, approves, single, majority, approval))
  {
  }

  lemma RiskTieredVerdictShape(id: string, votes: seq<Review>, high: seq<string>)
    ensures Shaped(id, RiskTieredVerdict(id, votes, high))
  {
    var majority := MajorityKind(Filter(votes, Approves()), |votes| / 2 + 1);
    if majority.Some? {
      ApprovalShape(id, majority.value, votes, RiskTiered);
    }
    RiskTieredRuleShape(
      id, PriorityVote(votes, high, (d: Decision) => d.Reject?),
      PriorityVote(votes, high, (d: Decision) => d.Downgrade? || d.NeedsHuman?),
      PriorityApprovals(votes, high) != [], SingleKind(PriorityApprovals(votes, high)), majority,
      kind => ApprovalAs(id, kind, votes, RiskTiered));
  }

  lemma VerdictShape(id: string, votes: seq<Review>, policy: VotingPolicy, high: seq<string>)
    requires forall v :: v in votes ==> v.candidate == id
    ensures var verdict := Verdict(id, votes, policy, high);
      verdict.Some? ==> verdict.value.candidate == id && (AllValid(votes) ==> Shaped(id, verdict.value))
  {
    if |votes| == 1 && !MissesHighPriority(votes, high) {
      assert votes[0] in votes;
    } else if votes != [] {
      match policy
      case Unanimous => UnanimousVerdictShape(id, votes);
      case Majority => MajorityVerdictShape(id, votes);
      case RiskTiered => RiskTieredVerdictShape(id, votes, high);
    }
  }

  /** A candidate's verdict is about that candidate; on valid votes an approval carries its own confidence. */
  lemma VerdictOnKeepsCandidate(
    id: string, reviews: seq<Review>, policy: VotingPolicy, high: seq<string>, expected: seq<string>)
    ensures var verdict := VerdictOn(reviews, policy, high, expected)(id);
      verdict.Some? ==> verdict.value.candidate == id && (AllValid(reviews) ==> Shaped(id, verdict.value))
  {
    FilterMembers(reviews, (r: Review) => r.candidate == id);
    var cast := Cast(reviews, id);
    forall v | v in Votes(id, reviews, expected, high) ensures v.candidate == id && (AllValid(reviews) ==> Valid(v)) {
      assert v in cast || v in MissingVotes(id, cast, Dedupe(expected + high));
    }
    VerdictShape(id, Votes(id, reviews, expected, high), policy, high);
  }
}
