/** When each voting policy approves, rejects or asks a human, said on the votes alone. */
module VotingRules {
  import opened Basics
  import opened Implication
  import opened Voting

  /** A vote to approve as a type. */
  predicate For(r: Review, kind: RelationType) {
    r.decision.Approve? && r.kind == Some(kind)
  }

  /** Every approving vote of the type confirms its support, and some of them gives a confidence. */
  ghost predicate Supported(votes: seq<Review>, kind: RelationType) {
    && (forall r :: r in votes && For(r, kind) ==> r.supported == Some(true))
    && (exists r :: r in votes && For(r, kind) && r.confidence.Some?)
  }

  /** What an approval says: the type, confirmed support, and the least confidence among the votes for it. */
  ghost predicate IsApproval(v: Review, candidate: string, votes: seq<Review>, kind: RelationType) {
    && v.candidate == candidate && v.decision == Approve && v.kind == Some(kind) && v.supported == Some(true)
    && v.confidence.Some?
    && (exists r :: r in votes && For(r, kind) && r.confidence == v.confidence)
    && (forall r :: r in votes && For(r, kind) && r.confidence.Some? ==> v.confidence.value <= r.confidence.value)
  }

  /** A verdict without type, confidence or support. */
  predicate IsBare(v: Review, candidate: string, decision: Decision) {
    v.candidate == candidate && v.decision == decision && v.kind.None? && v.confidence.None? && v.supported.None?
  }

  lemma LeastConfidence(selected: seq<Review>)
    ensures Confidences(selected) == [] <==> forall r :: r in selected ==> r.confidence.None?
    ensures Confidences(selected) != [] ==>
      && (exists r :: r in selected && r.confidence == Some(Least(Confidences(selected))))
      && (forall r :: r in selected && r.confidence.Some? ==> Least(Confidences(selected)) <= r.confidence.value)
  {
    var cs := Confidences(selected);
    if cs != [] {
      assert cs[0] in cs && Least(cs) in cs;
    }
    forall r | r in selected && r.confidence.Some? ensures cs != [] && Least(cs) <= r.confidence.value {
      assert r.confidence.value in cs;
    }
  }

  lemma ApprovalOn(
    candidate: string, kind: RelationType, votes: seq<Review>, selected: seq<Review>, policy: VotingPolicy)
    requires forall r :: r in selected <==> r in votes && For(r, kind)
    ensures var v := Approval(candidate, kind, selected, policy);
      if Supported(votes, kind) then IsApproval(v, candidate, votes, kind) else IsBare(v, candidate, NeedsHuman)
  {
    LeastConfidence(selected);
    if Supported(votes, kind) {
      var r :| r in votes && For(r, kind) && r.confidence.Some?;
      assert r in selected;
    }
  }

  lemma ApprovalExactly(candidate: string, kind: RelationType, votes: seq<Review>, policy: VotingPolicy)
    ensures var v := ApprovalAs(candidate, kind, votes, policy);
      if Supported(votes, kind) then IsApproval(v, candidate, votes, kind) else IsBare(v, candidate, NeedsHuman)
  {
    var selected := Filter(Filter(votes, Approves()), OfKind(Some(kind)));
    FilterTwice(votes, Some(kind));
    FilterMembers(votes, ApprovesAs(Some(kind)));
    ApprovalOn(candidate, kind, votes, selected, policy);
  }

  lemma {:induction false} AllForKind(votes: seq<Review>, kind: RelationType)
    ensures Tally(votes, ApprovesAs(Some(kind))) <= |votes|
    ensures Tally(votes, ApprovesAs(Some(kind))) == |votes| <==> forall r :: r in votes ==> For(r, kind)
  {
    if votes != [] {
      var first, rest := votes[0], votes[1..];
      AllForKind(rest, kind);
      assert votes == [first] + rest && (ApprovesAs(Some(kind))(first) <==> For(first, kind));
      assert Filter(votes, ApprovesAs(Some(kind)))
          == (if For(first, kind) then [first] else []) + Filter(rest, ApprovesAs(Some(kind)));
    }
  }

  lemma {:induction false} AllApprove(votes: seq<Review>)
    ensures |Filter(votes, Approves())| == |votes| <==> forall r :: r in votes ==> r.decision.Approve?
    ensures |Filter(votes, Approves())| <= |votes|
  {
    if votes != [] {
      AllApprove(votes[1..]);
      assert votes == [votes[0]] + votes[1..];
    }
  }

  /** All votes are for the type. */
  predicate AllFor(votes: seq<Review>, kind: RelationType) {
    forall r :: r in votes ==> For(r, kind)
  }

  /**
   Unanimous: approved exactly when all votes are for one type, all supported, one with a confidence; rejected exactly
   when a vote rejects; otherwise a human decides.
   */
  lemma UnanimousExactly(candidate: string, votes: seq<Review>, kind: RelationType)
    requires votes != []
    ensures var v := UnanimousVerdict(candidate, votes);
      && (v.decision.Reject? <==> exists r :: r in votes && r.decision.Reject?)
      && (v.decision.Approve? && v.kind == Some(kind) <==> AllFor(votes, kind) && Supported(votes, kind))
      && (v.decision.Approve? ==> exists k :: AllFor(votes, k) && IsApproval(v, candidate, votes, k))
      && (v.decision.Approve? || v.decision.Reject? || IsBare(v, candidate, NeedsHuman))
  {
    var best := MajorityKind(Filter(votes, Approves()), |votes|);
    AllApprove(votes);
    forall k ensures best == Some(k) <==> AllFor(votes, k) {
      AllForKind(votes, k);
      MajorityKindIsQuota(votes, |votes|, k);
    }
    UnanimousRule(candidate, votes, best);
    ApprovalExactly(candidate, kind, votes, Unanimous);
    if best.Some? {
      ApprovalExactly(candidate, best.value, votes, Unanimous);
    }
    assert votes[0] in votes;
  }

  lemma UnanimousRule(candidate: string, votes: seq<Review>, best: Option<RelationType>)
    requires votes != [] && best == MajorityKind(Filter(votes, Approves()), |votes|)
    requires best.Some? ==> AllFor(votes, best.value)
    requires |Filter(votes, Approves())| == |votes| <==> forall r :: r in votes ==> r.decision.Approve?
    ensures var v := UnanimousVerdict(candidate, votes);
      if exists r :: r in votes && r.decision.Reject? then IsBare(v, candidate, Reject)
      else if best.Some? then v == ApprovalAs(candidate, best.value, votes, Unanimous)
      else IsBare(v, candidate, NeedsHuman)
  {
  }

  /** More than half of the votes are for the type. */
  predicate HasMajority(votes: seq<Review>, kind: RelationType) {
    |votes| < 2 * Tally(votes, ApprovesAs(Some(kind)))
  }

  /**
   Majority: approved exactly when some type has more than half of the votes and they support it; rejected exactly when
   no type has and more than half of the votes reject; otherwise a human decides.
   */
  lemma MajorityExactly(candidate: string, votes: seq<Review>, kind: RelationType)
    ensures var v := MajorityVerdict(candidate, votes);
      && (v.decision.Approve? && v.kind == Some(kind) <==> HasMajority(votes, kind) && Supported(votes, kind))
      && (v.decision.Approve? ==> exists k :: HasMajority(votes, k) && IsApproval(v, candidate, votes, k))
      && (v.decision.Reject? <==>
            (forall k :: !HasMajority(votes, k)) && |votes| < 2 * Tally(votes, Rejects()))
      && (v.decision.Approve? || v.decision.Reject? || IsBare(v, candidate, NeedsHuman))
  {
    var best := MajorityKind(Filter(votes, Approves()), |votes| / 2 + 1);
    forall k ensures best == Some(k) <==> HasMajority(votes, k) {
      MajorityKindIsQuota(votes, |votes| / 2 + 1, k);
    }
    ApprovalExactly(candidate, kind, votes, Majority);
    if best.Some? {
      ApprovalExactly(candidate, best.value, votes, Majority);
    }
  }

  /** A vote of a high-priority model. */
  predicate ByHigh(r: Review, high: seq<string>) {
    r.model.Some? && r.model.value in high
  }

  lemma PriorityApprovalsAre(votes: seq<Review>, high: seq<string>)
    ensures forall r :: r in PriorityApprovals(votes, high) <==> r in votes && ByHigh(r, high) && r.decision.Approve?
  {
    FilterMembers(votes, IsPriority(high));
    FilterMembers(Filter(votes, IsPriority(high)), Approves());
  }

  /** All approving high-priority votes are for the type. */
  predicate HighAgree(votes: seq<Review>, high: seq<string>, kind: RelationType) {
    forall r :: r in votes && ByHigh(r, high) && r.decision.Approve? ==> r.kind == Some(kind)
  }

  lemma SingleKindIs(votes: seq<Review>, high: seq<string>, kind: RelationType)
    ensures var approvals := PriorityApprovals(votes, high);
      HighAgree(votes, high, kind) <==> approvals == [] || SingleKind(approvals) == Some(kind)
  {
    var approvals := PriorityApprovals(votes, high);
    PriorityApprovalsAre(votes, high);
    if approvals != [] {
      assert approvals[0] in approvals;
      if HighAgree(votes, high, kind) {
        assert approvals[0].kind == Some(kind);
        assert forall r :: r in approvals ==> r.kind == Some(kind);
      }
    }
  }

  /** No high-priority model does anything but approve. */
  predicate HighApprove(votes: seq<Review>, high: seq<string>) {
    forall r :: r in votes && ByHigh(r, high) ==> r.decision.Approve?
  }

  lemma RuleExactly(
    candidate: string, veto: bool, concern: bool, approved: bool, single: Option<RelationType>,
    majority: Option<RelationType>, approval: RelationType -> Review)
    requires !approved ==> single.None?
    ensures var v := RiskTieredRule(candidate, veto, concern, approved, single, majority, approval);
      if veto then IsBare(v, candidate, Reject)
      else if !concern && majority.Some? && (!approved || single == majority) then v == approval(majority.value)
      else IsBare(v, candidate, NeedsHuman)
  {
  }

  /**
   Risk-tiered: rejected exactly when a high-priority vote rejects; approved exactly when all high-priority votes
   approve, some type has more than half of all votes, their support, and the agreement of all high-priority votes;
   otherwise a human decides.
   */
  lemma RiskTieredExactly(candidate: string, votes: seq<Review>, high: seq<string>, kind: RelationType)
    ensures var v := RiskTieredVerdict(candidate, votes, high);
      && (v.decision.Reject? <==> exists r :: r in votes && ByHigh(r, high) && r.decision.Reject?)
      && (v.decision.Approve? && v.kind == Some(kind) <==>
            && HighApprove(votes, high) && HasMajority(votes, kind) && Supported(votes, kind)
            && HighAgree(votes, high, kind))
      && (v.decision.Approve? ==> exists k :: HasMajority(votes, k) && IsApproval(v, candidate, votes, k))
      && (v.decision.Approve? || v.decision.Reject? || IsBare(v, candidate, NeedsHuman))
  {
    var veto := PriorityVote(votes, high, (d: Decision) => d.Reject?);
    var concern := PriorityVote(votes, high, (d: Decision) => d.Downgrade? || d.NeedsHuman?);
    var approvals := PriorityApprovals(votes, high);
    var majority := MajorityKind(Filter(votes, Approves()), |votes| / 2 + 1);
    var approval := k => ApprovalAs(candidate, k, votes, RiskTiered);
    HighDecisions(votes, high);
    forall k ensures majority == Some(k) <==> HasMajority(votes, k) {
      MajorityKindIsQuota(votes, |votes| / 2 + 1, k);
    }
    forall k ensures HighAgree(votes, high, k) <==> approvals == [] || SingleKind(approvals) == Some(k) {
      SingleKindIs(votes, high, k);
    }
    forall k ensures if Supported(votes, k) then IsApproval(approval(k), candidate, votes, k)
                     else IsBare(approval(k), candidate, NeedsHuman) {
      ApprovalExactly(candidate, k, votes, RiskTiered);
    }
    RuleExactly(candidate, veto, concern, approvals != [], SingleKind(approvals), majority, approval);
    assert RiskTieredVerdict(candidate, votes, high)
        == RiskTieredRule(candidate, veto, concern, approvals != [], SingleKind(approvals), majority, approval);
  }

  lemma HighDecisions(votes: seq<Review>, high: seq<string>)
    ensures PriorityVote(votes, high, (d: Decision) => d.Reject?)
            <==> exists r :: r in votes && ByHigh(r, high) && r.decision.Reject?
    ensures HighApprove(votes, high) <==>
      && !PriorityVote(votes, high, (d: Decision) => d.Reject?)
      && !PriorityVote(votes, high, (d: Decision) => d.Downgrade? || d.NeedsHuman?)
  {
    var reject, concern := (d: Decision) => d.Reject?, (d: Decision) => d.Downgrade? || d.NeedsHuman?;
    if PriorityVote(votes, high, reject) {
      var r :| r in votes && IsPriority(high)(r) && reject(r.decision);
      assert ByHigh(r, high);
    }
    if r :| r in votes && ByHigh(r, high) && !r.decision.Approve? {
      assert IsPriority(high)(r) && (reject(r.decision) || concern(r.decision));
    }
    if r :| r in votes && ByHigh(r, high) && r.decision.Reject? {
      assert IsPriority(high)(r) && reject(r.decision);
    }
  }

  lemma ApprovalNamesPolicy(candidate: string, kind: RelationType, votes: seq<Review>, policy: VotingPolicy)
    ensures ApprovalAs(candidate, kind, votes, policy).model == Some(PolicyName(policy))
  {
  }

  lemma RuleNamesPolicy(
    candidate: string, veto: bool, concern: bool, approved: bool, single: Option<RelationType>,
    majority: Option<RelationType>, approval: RelationType -> Review)
    requires majority.Some? ==> approval(majority.value).model == Some("aggregate:risk_tiered")
    ensures RiskTieredRule(candidate, veto, concern, approved, single, majority, approval).model
         == Some("aggregate:risk_tiered")
  {
  }

  lemma UnanimousNamesPolicy(candidate: string, votes: seq<Review>)
    ensures UnanimousVerdict(candidate, votes).model == Some("aggregate:unanimous")
  {
    var kind := MajorityKind(Filter(votes, Approves()), |votes|);
    if kind.Some? {
      ApprovalNamesPolicy(candidate, kind.value, votes, Unanimous);
    }
  }

  lemma MajorityNamesPolicy(candidate: string, votes: seq<Review>)
    ensures MajorityVerdict(candidate, votes).model == Some("aggregate:majority")
  {
    var kind := MajorityKind(Filter(votes, Approves()), |votes| / 2 + 1);
    if kind.Some? {
      ApprovalNamesPolicy(candidate, kind.value, votes, Majority);
    }
  }

  lemma RiskTieredNamesPolicy(candidate: string, votes: seq<Review>, high: seq<string>)
    ensures RiskTieredVerdict(candidate, votes, high).model == Some("aggregate:risk_tiered")
  {
    var majority := MajorityKind(Filter(votes, Approves()), |votes| / 2 + 1);
    if majority.Some? {
      ApprovalNamesPolicy(candidate, majority.value, votes, RiskTiered);
    }
    RuleNamesPolicy(
      candidate, PriorityVote(votes, high, (d: Decision) => d.Reject?),
      PriorityVote(votes, high, (d: Decision) => d.Downgrade? || d.NeedsHuman?),
      PriorityApprovals(votes, high) != [], SingleKind(PriorityApprovals(votes, high)), majority,
      kind => ApprovalAs(candidate, kind, votes, RiskTiered));
  }

  /** A policy's verdict names the policy as its reviewer. */
  lemma VerdictNamesPolicy(candidate: string, votes: seq<Review>, policy: VotingPolicy, high: seq<string>)
    requires |votes| > 1
    ensures var v := Verdict(candidate, votes, policy, high);
      v.Some? && v.value.model == Some(match policy
                                       case Unanimous => "aggregate:unanimous"
                                       case Majority => "aggregate:majority"
                                       case RiskTiered => "aggregate:risk_tiered")
  {
    UnanimousNamesPolicy(candidate, votes);
    MajorityNamesPolicy(candidate, votes);
    RiskTieredNamesPolicy(candidate, votes, high);
  }

  /** The aggregated verdict: none without votes, the vote itself when it is alone and enough, else the policy's. */
  lemma VerdictByPolicy(candidate: string, votes: seq<Review>, policy: VotingPolicy, high: seq<string>)
    ensures var v := Verdict(candidate, votes, policy, high);
      && (v.None? <==> votes == [])
      && (|votes| == 1 && (forall m :: m in high ==> votes[0].model == Some(m)) ==> v == Some(votes[0]))
      && (|votes| > 1 || (|votes| == 1 && exists m :: m in high && votes[0].model != Some(m)) ==>
            && v.Some?
            && (policy == Unanimous ==> v.value == UnanimousVerdict(candidate, votes))
            && (policy == Majority ==> v.value == MajorityVerdict(candidate, votes))
            && (policy == RiskTiered ==> v.value == RiskTieredVerdict(candidate, votes, high)))
  {
    if |votes| == 1 {
      assert forall m :: Present(votes, m) <==> votes[0].model == Some(m) by {
        forall m ensures Present(votes, m) <==> votes[0].model == Some(m) {
          if votes[0].model == Some(m) {
            assert votes[0] in votes;
          }
        }
      }
    }
  }
}
