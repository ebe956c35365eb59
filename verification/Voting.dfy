/** Aggregation of reviewer votes into one decision per candidate, under three policies. */
module Voting {
  import opened Basics
  import opened Implication

  datatype Decision = Approve | Downgrade | Reject | NeedsHuman

  /** A reviewer's vote; reasons, risk flags and metadata are not modelled. */
  datatype Review = Review(
    candidate: string, decision: Decision, kind: Option<RelationType>, confidence: Option<real>,
    supported: Option<bool>, model: Option<string>)

  datatype VotingPolicy = RiskTiered | Unanimous | Majority

  /** Positive decisions carry their final type and a confidence in the unit interval. */
  predicate Valid(r: Review) {
    && (r.decision.Approve? || r.decision.Downgrade? ==> r.kind.Some? && r.confidence.Some?)
    && (r.confidence.Some? ==> 0.0 <= r.confidence.value <= 1.0)
  }

  predicate AllValid(reviews: seq<Review>) {
    forall r :: r in reviews ==> Valid(r)
  }

  // --- tallies ---

  function Filter(reviews: seq<Review>, test: Review -> bool): seq<Review> {
    if reviews == [] then []
    else (if test(reviews[0]) then [reviews[0]] else []) + Filter(reviews[1..], test)
  }

  lemma {:induction false} FilterMembers(reviews: seq<Review>, test: Review -> bool)
    ensures forall r :: r in Filter(reviews, test) <==> r in reviews && test(r)
    ensures |Filter(reviews, test)| <= |reviews|
  {
    if reviews != [] {
      FilterMembers(reviews[1..], test);
      assert reviews == [reviews[0]] + reviews[1..];
    }
  }

  function Tally(reviews: seq<Review>, test: Review -> bool): nat {
    |Filter(reviews, test)|
  }

  function Approves(): Review -> bool {
    (r: Review) => r.decision.Approve?
  }

  function Rejects(): Review -> bool {
    (r: Review) => r.decision.Reject?
  }

  function ApprovesAs(kind: Option<RelationType>): Review -> bool {
    (r: Review) => r.decision.Approve? && r.kind == kind
  }

  function Kinds(reviews: seq<Review>): (kinds: seq<Option<RelationType>>)
    ensures |kinds| == |reviews|
    ensures forall i :: 0 <= i < |reviews| ==> kinds[i] == reviews[i].kind
  {
    if reviews == [] then [] else [reviews[0].kind] + Kinds(reviews[1..])
  }

  /** `Counter.most_common(1)`: the most frequent key; on ties the one met first. */
  function MostCommon<K>(keys: seq<K>, count: K -> nat): (best: K)
    requires keys != []
    ensures best in keys && forall k :: k in keys ==> count(k) <= count(best)
  {
    var last, front := keys[|keys| - 1], keys[..|keys| - 1];
    assert keys == front + [last];
    if front == [] then last
    else
      var best := MostCommon(front, count);
      if count(best) < count(last) then last else best
  }

  /** No key met before the chosen one is as frequent. */
  lemma {:induction false} FirstOfMostCommon<K>(keys: seq<K>, count: K -> nat) returns (i: nat)
    requires keys != []
    ensures i < |keys| && MostCommon(keys, count) == keys[i]
    ensures forall j :: 0 <= j < i ==> count(keys[j]) < count(keys[i])
  {
    var n := |keys| - 1;
    assert keys == keys[..n] + [keys[n]];
    if n == 0 || count(MostCommon(keys[..n], count)) < count(keys[n]) {
      i := n;
      forall j | 0 <= j < n ensures count(keys[j]) < count(keys[n]) {
        assert keys[j] in keys[..n];
      }
    } else {
      i := FirstOfMostCommon(keys[..n], count);
    }
  }

  function OfKind(kind: Option<RelationType>): Review -> bool {
    (r: Review) => r.kind == kind
  }

  /** `_single_majority_relation_type` */
  function MajorityKind(approvals: seq<Review>, required: nat): Option<RelationType> {
    if approvals == [] then None
    else
      var best := MostCommon(Kinds(approvals), (k: Option<RelationType>) => Tally(approvals, OfKind(k)));
      if best.None? || Tally(approvals, OfKind(best)) < required then None else best
  }

  function Least(confidences: seq<real>): (r: real)
    requires confidences != []
    ensures r in confidences && forall c :: c in confidences ==> r <= c
  {
    if |confidences| == 1 then confidences[0]
    else
      var rest := Least(confidences[1..]);
      assert confidences == [confidences[0]] + confidences[1..];
      if confidences[0] <= rest then confidences[0] else rest
  }

  function Confidences(reviews: seq<Review>): (cs: seq<real>)
    ensures forall c :: c in cs <==> exists r :: r in reviews && r.confidence == Some(c)
  {
    if reviews == [] then []
    else
      assert reviews == [reviews[0]] + reviews[1..];
      var rest := Confidences(reviews[1..]);
      if reviews[0].confidence.Some? then [reviews[0].confidence.value] + rest else rest
  }

  // --- policies ---

  function PolicyName(policy: VotingPolicy): string {
    match policy
    case RiskTiered => "aggregate:risk_tiered"
    case Unanimous => "aggregate:unanimous"
    case Majority => "aggregate:majority"
  }

  function Plain(candidate: string, decision: Decision, policy: VotingPolicy): Review
  {
    Review(candidate, decision, None, None, None, Some(PolicyName(policy)))
  }

  /** `_aggregate_review` for an approval: downgraded to NEEDS_HUMAN unless every selected vote carries its support. */
  function Approval(candidate: string, kind: RelationType, selected: seq<Review>, policy: VotingPolicy): Review {
    var confidences := Confidences(selected);
    if confidences == [] || !forall r :: r in selected ==> r.supported == Some(true)
    then Plain(candidate, NeedsHuman, policy)
    else Review(candidate, Approve, Some(kind), Some(Least(confidences)), Some(true), Some(PolicyName(policy)))
  }

  /** The approvals of one type, put together. */
  function ApprovalAs(candidate: string, kind: RelationType, reviews: seq<Review>, policy: VotingPolicy): Review {
    Approval(candidate, kind, Filter(Filter(reviews, Approves()), OfKind(Some(kind))), policy)
  }

  function UnanimousVerdict(candidate: string, reviews: seq<Review>): Review {
    var approvals := Filter(reviews, Approves());
    var kind := MajorityKind(approvals, |reviews|);
    if exists r :: r in reviews && r.decision.Reject? then Plain(candidate, Reject, Unanimous)
    else if |approvals| == |reviews| && kind.Some? then
      ApprovalAs(candidate, kind.value, reviews, Unanimous)
    else Plain(candidate, NeedsHuman, Unanimous)
  }

  function MajorityVerdict(candidate: string, reviews: seq<Review>): Review {
    var approvals := Filter(reviews, Approves());
    var kind := MajorityKind(approvals, |reviews| / 2 + 1);
    if kind.Some? then ApprovalAs(candidate, kind.value, reviews, Majority)
    else if 2 * Tally(reviews, Rejects()) > |reviews| then Plain(candidate, Reject, Majority)
    else Plain(candidate, NeedsHuman, Majority)
  }

  function IsPriority(high: seq<string>): Review -> bool {
    (r: Review) => r.model.Some? && r.model.value in high
  }

  /** `_single_relation_type` */
  function SingleKind(reviews: seq<Review>): Option<RelationType> {
    if reviews == [] || exists r :: r in reviews && r.kind != reviews[0].kind then None else reviews[0].kind
  }

  /** A high-priority vote of a kind the test picks. */
  predicate PriorityVote(reviews: seq<Review>, high: seq<string>, test: Decision -> bool) {
    exists r :: r in reviews && IsPriority(high)(r) && test(r.decision)
  }

  function PriorityApprovals(reviews: seq<Review>, high: seq<string>): seq<Review> {
    Filter(Filter(reviews, IsPriority(high)), Approves())
  }

  function RiskTieredRule(
    candidate: string, veto: bool, concern: bool, approved: bool, priorityKind: Option<RelationType>,
    kind: Option<RelationType>, approval: RelationType -> Review): Review
  {
    if veto then Plain(candidate, Reject, RiskTiered)
    else if concern then Plain(candidate, NeedsHuman, RiskTiered)
    else if approved && priorityKind.None? then Plain(candidate, NeedsHuman, RiskTiered)
    else if kind.Some? && (priorityKind.None? || kind == priorityKind) then approval(kind.value)
    else Plain(candidate, NeedsHuman, RiskTiered)
  }

  function RiskTieredVerdict(candidate: string, reviews: seq<Review>, high: seq<string>): Review {
    RiskTieredRule(
      candidate, PriorityVote(reviews, high, (d: Decision) => d.Reject?),
      PriorityVote(reviews, high, (d: Decision) => d.Downgrade? || d.NeedsHuman?),
      PriorityApprovals(reviews, high) != [], SingleKind(PriorityApprovals(reviews, high)),
      MajorityKind(Filter(reviews, Approves()), |reviews| / 2 + 1),
      kind => ApprovalAs(candidate, kind, reviews, RiskTiered))
  }

  predicate Present(reviews: seq<Review>, model: string) {
    exists r :: r in reviews && r.model == Some(model)
  }

  /** `_has_missing_high_priority_vote` */
  predicate MissesHighPriority(reviews: seq<Review>, high: seq<string>) {
    exists m :: m in high && !Present(reviews, m)
  }

  /** `_aggregate_candidate_reviews`; a lone vote stands for itself. */
  function Verdict(candidate: string, reviews: seq<Review>, policy: VotingPolicy, high: seq<string>): Option<Review> {
    if reviews == [] then None
    else if |reviews| == 1 && !MissesHighPriority(reviews, high) then Some(reviews[0])
    else match policy
      case Unanimous => Some(UnanimousVerdict(candidate, reviews))
      case Majority => Some(MajorityVerdict(candidate, reviews))
      case RiskTiered => Some(RiskTieredVerdict(candidate, reviews, high))
  }

  // --- the majority type ---

  lemma {:induction false} TallySplits(reviews: seq<Review>, a: Review -> bool, b: Review -> bool)
    requires forall r :: r in reviews ==> !(a(r) && b(r))
    ensures Tally(reviews, a) + Tally(reviews, b) <= |reviews|
  {
    if reviews != [] {
      assert reviews == [reviews[0]] + reviews[1..];
      TallySplits(reviews[1..], a, b);
    }
  }

  lemma {:induction false} FilterTwice(reviews: seq<Review>, kind: Option<RelationType>)
    ensures Filter(Filter(reviews, Approves()), OfKind(kind)) == Filter(reviews, ApprovesAs(kind))
  {
    if reviews != [] {
      FilterTwice(reviews[1..], kind);
      var rest := Filter(reviews[1..], Approves());
      if reviews[0].decision.Approve? {
        assert ([reviews[0]] + rest)[1..] == rest;
      } else {
        assert [] + rest == rest;
      }
    }
  }

  lemma QuotaAmongApprovals(approvals: seq<Review>, required: nat, kind: RelationType)
    requires |approvals| < 2 * required
    ensures MajorityKind(approvals, required) == Some(kind) <==> required <= Tally(approvals, OfKind(Some(kind)))
  {
    if approvals != [] {
      var count := (k: Option<RelationType>) => Tally(approvals, OfKind(k));
      var best := MostCommon(Kinds(approvals), count);
      assert count(best) == Tally(approvals, OfKind(best));
      if best != Some(kind) {
        TallySplits(approvals, OfKind(best), OfKind(Some(kind)));
      }
      if required <= Tally(approvals, OfKind(Some(kind))) {
        var i: nat := WitnessOfKind(approvals, Some(kind));
        assert Kinds(approvals)[i] == Some(kind) && count(Some(kind)) <= count(best);
      }
    }
  }

  /** With a quota above half, the tie-break is irrelevant: a type is chosen exactly when it meets the quota. */
  lemma MajorityKindIsQuota(reviews: seq<Review>, required: nat, kind: RelationType)
    requires |reviews| < 2 * required
    ensures MajorityKind(Filter(reviews, Approves()), required) == Some(kind)
            <==> required <= Tally(reviews, ApprovesAs(Some(kind)))
  {
    FilterMembers(reviews, Approves());
    QuotaAmongApprovals(Filter(reviews, Approves()), required, kind);
    FilterTwice(reviews, Some(kind));
  }

  lemma {:induction false} WitnessOfKind(reviews: seq<Review>, kind: Option<RelationType>) returns (i: nat)
    requires 0 < Tally(reviews, OfKind(kind))
    ensures i < |reviews| && reviews[i].kind == kind
  {
    if reviews[0].kind == kind {
      i := 0;
    } else {
      i := WitnessOfKind(reviews[1..], kind);
      i := i + 1;
    }
  }

  // --- order of the votes ---

  lemma {:induction false} FilterCount(reviews: seq<Review>, test: Review -> bool, r: Review)
    ensures multiset(Filter(reviews, test))[r] == if test(r) then multiset(reviews)[r] else 0
  {
    if reviews != [] {
      FilterCount(reviews[1..], test, r);
      assert reviews == [reviews[0]] + reviews[1..];
    }
  }

  ghost predicate SameMembers(a: seq<Review>, b: seq<Review>) {
    forall r :: r in a <==> r in b
  }

  lemma ReorderedMembers(a: seq<Review>, b: seq<Review>)
    requires multiset(a) == multiset(b)
    ensures SameMembers(a, b) && |a| == |b|
  {
    assert |a| == |multiset(a)| == |multiset(b)| == |b|;
    forall r ensures r in a <==> r in b {
      assert r in a <==> r in multiset(a);
    }
  }

  lemma FilterReordered(a: seq<Review>, b: seq<Review>, test: Review -> bool)
    requires multiset(a) == multiset(b)
    ensures multiset(Filter(a, test)) == multiset(Filter(b, test))
    ensures SameMembers(Filter(a, test), Filter(b, test)) && Tally(a, test) == Tally(b, test)
  {
    forall r ensures multiset(Filter(a, test))[r] == multiset(Filter(b, test))[r] {
      FilterCount(a, test, r);
      FilterCount(b, test, r);
    }
    ReorderedMembers(Filter(a, test), Filter(b, test));
  }

  lemma MajorityKindReordered(a: seq<Review>, b: seq<Review>, required: nat)
    requires multiset(a) == multiset(b) && |a| < 2 * required && |b| < 2 * required
    ensures MajorityKind(Filter(a, Approves()), required) == MajorityKind(Filter(b, Approves()), required)
  {
    forall k: RelationType
      ensures MajorityKind(Filter(a, Approves()), required) == Some(k)
              <==> MajorityKind(Filter(b, Approves()), required) == Some(k)
    {
      MajorityKindIsQuota(a, required, k);
      MajorityKindIsQuota(b, required, k);
      FilterReordered(a, b, ApprovesAs(Some(k)));
    }
  }

  lemma EmptyTogether<T>(a: seq<T>, b: seq<T>)
    requires forall x :: x in a <==> x in b
    ensures a == [] <==> b == []
  {
    if a != [] {
      assert a[0] in b;
    }
    if b != [] {
      assert b[0] in a;
    }
  }

  lemma ApprovalReordered(candidate: string, kind: RelationType, a: seq<Review>, b: seq<Review>, policy: VotingPolicy)
    requires SameMembers(a, b)
    ensures Approval(candidate, kind, a, policy) == Approval(candidate, kind, b, policy)
  {
    var ca, cb := Confidences(a), Confidences(b);
    EmptyTogether(ca, cb);
    if ca != [] {
      assert Least(ca) == Least(cb);
    }
  }

  lemma SingleKindReordered(a: seq<Review>, b: seq<Review>)
    requires SameMembers(a, b)
    ensures SingleKind(a) == SingleKind(b) && (a == [] <==> b == [])
  {
    EmptyTogether(a, b);
    if a != [] {
      assert a[0] in b && b[0] in a;
    }
  }

  lemma ApprovalAsReordered(candidate: string, a: seq<Review>, b: seq<Review>, kind: RelationType, policy: VotingPolicy)
    requires multiset(a) == multiset(b)
    ensures ApprovalAs(candidate, kind, a, policy) == ApprovalAs(candidate, kind, b, policy)
  {
    FilterReordered(a, b, Approves());
    FilterReordered(Filter(a, Approves()), Filter(b, Approves()), OfKind(Some(kind)));
    ApprovalReordered(candidate, kind, Filter(Filter(a, Approves()), OfKind(Some(kind))),
                      Filter(Filter(b, Approves()), OfKind(Some(kind))), policy);
  }

  lemma UnanimousReordered(candidate: string, a: seq<Review>, b: seq<Review>)
    requires multiset(a) == multiset(b) && a != []
    ensures UnanimousVerdict(candidate, a) == UnanimousVerdict(candidate, b)
  {
    ReorderedMembers(a, b);
    FilterReordered(a, b, Approves());
    MajorityKindReordered(a, b, |a|);
    var kind := MajorityKind(Filter(a, Approves()), |a|);
    if kind.Some? {
      ApprovalAsReordered(candidate, a, b, kind.value, Unanimous);
    }
  }

  lemma MajorityReordered(candidate: string, a: seq<Review>, b: seq<Review>)
    requires multiset(a) == multiset(b)
    ensures MajorityVerdict(candidate, a) == MajorityVerdict(candidate, b)
  {
    ReorderedMembers(a, b);
    FilterReordered(a, b, Rejects());
    MajorityKindReordered(a, b, |a| / 2 + 1);
    var kind := MajorityKind(Filter(a, Approves()), |a| / 2 + 1);
    if kind.Some? {
      ApprovalAsReordered(candidate, a, b, kind.value, Majority);
    }
  }

  lemma PriorityReordered(a: seq<Review>, b: seq<Review>, high: seq<string>)
    requires multiset(a) == multiset(b)
    ensures SingleKind(PriorityApprovals(a, high)) == SingleKind(PriorityApprovals(b, high))
    ensures PriorityApprovals(a, high) == [] <==> PriorityApprovals(b, high) == []
  {
    FilterReordered(a, b, IsPriority(high));
    FilterReordered(Filter(a, IsPriority(high)), Filter(b, IsPriority(high)), Approves());
    SingleKindReordered(PriorityApprovals(a, high), PriorityApprovals(b, high));
  }

  lemma RiskTieredReordered(candidate: string, a: seq<Review>, b: seq<Review>, high: seq<string>)
    requires multiset(a) == multiset(b)
    ensures RiskTieredVerdict(candidate, a, high) == RiskTieredVerdict(candidate, b, high)
  {
    ReorderedMembers(a, b);
    PriorityReordered(a, b, high);
    MajorityKindReordered(a, b, |a| / 2 + 1);
    forall kind: RelationType
      ensures ApprovalAs(candidate, kind, a, RiskTiered) == ApprovalAs(candidate, kind, b, RiskTiered)
    {
      ApprovalAsReordered(candidate, a, b, kind, RiskTiered);
    }
    assert PriorityVote(a, high, (d: Decision) => d.Reject?) == PriorityVote(b, high, (d: Decision) => d.Reject?);
  }

  /** The order of the votes never changes the verdict, whatever the policy and despite the counter's tie-breaking. */
  lemma VerdictIgnoresOrder(candidate: string, a: seq<Review>, b: seq<Review>, policy: VotingPolicy, high: seq<string>)
    requires multiset(a) == multiset(b)
    ensures Verdict(candidate, a, policy, high) == Verdict(candidate, b, policy, high)
  {
    ReorderedMembers(a, b);
    if |a| == 1 && !MissesHighPriority(a, high) {
      assert a[0] in b;
    } else if a != [] {
      match policy
      case Unanimous => UnanimousReordered(candidate, a, b);
      case Majority => MajorityReordered(candidate, a, b);
      case RiskTiered => RiskTieredReordered(candidate, a, b, high);
    }
  }

  // --- how the policies compare ---

  lemma {:induction false} FullFilter(reviews: seq<Review>, test: Review -> bool)
    requires Tally(reviews, test) == |reviews|
    ensures forall r :: r in reviews ==> test(r)
  {
    if reviews != [] {
      FilterMembers(reviews[1..], test);
      FullFilter(reviews[1..], test);
      assert reviews == [reviews[0]] + reviews[1..];
    }
  }

  /** Same decision, type, confidence and support; only the recorded policy may differ. */
  predicate SameVerdict(a: Review, b: Review) {
    a.decision == b.decision && a.kind == b.kind && a.confidence == b.confidence && a.supported == b.supported
  }

  lemma UnanimousApprovesAll(candidate: string, reviews: seq<Review>) returns (kind: RelationType)
    requires reviews != [] && UnanimousVerdict(candidate, reviews).decision.Approve?
    ensures UnanimousVerdict(candidate, reviews) == ApprovalAs(candidate, kind, reviews, Unanimous)
    ensures forall r :: r in reviews ==> ApprovesAs(Some(kind))(r)
  {
    var majority := MajorityKind(Filter(reviews, Approves()), |reviews|);
    assert majority.Some?;
    kind := majority.value;
    MajorityKindIsQuota(reviews, |reviews|, kind);
    FilterMembers(reviews, ApprovesAs(Some(kind)));
    FullFilter(reviews, ApprovesAs(Some(kind)));
  }

  lemma {:induction false} AllPass(reviews: seq<Review>, test: Review -> bool)
    requires forall r :: r in reviews ==> test(r)
    ensures Filter(reviews, test) == reviews
  {
    if reviews != [] {
      AllPass(reviews[1..], test);
    }
  }

  lemma AgreedPriority(reviews: seq<Review>, high: seq<string>, kind: RelationType)
    requires forall r :: r in reviews ==> ApprovesAs(Some(kind))(r)
    ensures PriorityApprovals(reviews, high) == [] || SingleKind(PriorityApprovals(reviews, high)) == Some(kind)
  {
    FilterMembers(reviews, IsPriority(high));
    FilterMembers(Filter(reviews, IsPriority(high)), Approves());
    var approvals := PriorityApprovals(reviews, high);
    if approvals != [] {
      assert approvals[0] in reviews;
    }
  }

  lemma NoComplaints(reviews: seq<Review>, high: seq<string>)
    requires forall r :: r in reviews ==> r.decision.Approve?
    ensures !PriorityVote(reviews, high, (d: Decision) => d.Reject?)
    ensures !PriorityVote(reviews, high, (d: Decision) => d.Downgrade? || d.NeedsHuman?)
  {
  }

  lemma AgreementIsApproved(candidate: string, reviews: seq<Review>, high: seq<string>, kind: RelationType)
    requires reviews != [] && forall r :: r in reviews ==> ApprovesAs(Some(kind))(r)
    ensures RiskTieredVerdict(candidate, reviews, high) == ApprovalAs(candidate, kind, reviews, RiskTiered)
  {
    AgreedPriority(reviews, high, kind);
    NoComplaints(reviews, high);
    assert MajorityKind(Filter(reviews, Approves()), |reviews| / 2 + 1) == Some(kind) by {
      AllPass(reviews, ApprovesAs(Some(kind)));
      MajorityKindIsQuota(reviews, |reviews| / 2 + 1, kind);
    }
  }

  /** What unanimous voting approves, risk-tiered voting approves identically. */
  lemma UnanimousImpliesRiskTiered(candidate: string, reviews: seq<Review>, high: seq<string>)
    requires reviews != [] && UnanimousVerdict(candidate, reviews).decision.Approve?
    ensures SameVerdict(UnanimousVerdict(candidate, reviews), RiskTieredVerdict(candidate, reviews, high))
  {
    var kind := UnanimousApprovesAll(candidate, reviews);
    AgreementIsApproved(candidate, reviews, high, kind);
    SamePolicyName(candidate, kind, reviews, Unanimous, RiskTiered);
  }

  lemma SamePolicyName(candidate: string, kind: RelationType, reviews: seq<Review>, p: VotingPolicy, q: VotingPolicy)
    ensures SameVerdict(ApprovalAs(candidate, kind, reviews, p), ApprovalAs(candidate, kind, reviews, q))
  {
  }

  /** What risk-tiered voting approves, majority voting approves identically. */
  lemma RiskTieredImpliesMajority(candidate: string, reviews: seq<Review>, high: seq<string>)
    requires RiskTieredVerdict(candidate, reviews, high).decision.Approve?
    ensures SameVerdict(RiskTieredVerdict(candidate, reviews, high), MajorityVerdict(candidate, reviews))
  {
    var kind := MajorityKind(Filter(reviews, Approves()), |reviews| / 2 + 1);
    assert kind.Some?;
    SamePolicyName(candidate, kind.value, reviews, RiskTiered, Majority);
  }

  /** On the same votes unanimous approval implies risk-tiered approval, and that majority approval, equal in result. */
  lemma PoliciesAreNested(candidate: string, reviews: seq<Review>, high: seq<string>)
    requires reviews != []
    ensures Approved(Verdict(candidate, reviews, Unanimous, high))
            ==> SameVerdict(Verdict(candidate, reviews, Unanimous, high).value,
                            Verdict(candidate, reviews, RiskTiered, high).value)
    ensures Approved(Verdict(candidate, reviews, RiskTiered, high))
            ==> SameVerdict(Verdict(candidate, reviews, RiskTiered, high).value,
                            Verdict(candidate, reviews, Majority, high).value)
  {
    if |reviews| > 1 || MissesHighPriority(reviews, high) {
      if Approved(Verdict(candidate, reviews, Unanimous, high)) {
        UnanimousImpliesRiskTiered(candidate, reviews, high);
      }
      if Approved(Verdict(candidate, reviews, RiskTiered, high)) {
        RiskTieredImpliesMajority(candidate, reviews, high);
      }
    }
  }

  predicate Approved(verdict: Option<Review>) {
    verdict.Some? && verdict.value.decision.Approve?
  }
}
