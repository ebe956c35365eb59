/** The write gate: which reviewed candidates may be written, and the relations that go with them. */
module Gate {
  import opened Basics
  import opened Implication
  import opened Voting
  import opened Writer

  datatype Candidate = Candidate(
    id: string, source: string, sourceId: Option<string>, target: string, targetId: Option<string>, kind: RelationType,
    confidence: real, contextId: string, storeId: string)

  datatype Action = AutoWrite | Queue | Discard

  datatype GateResult = GateResult(candidate: string, action: Action)

  /** A candidate that passed its review. */
  datatype Item = Item(candidate: Candidate, review: Review)

  /** The dry-run reasoning answer: an error status, and the severities found, hard or not. */
  datatype Reasoning = Reasoning(failed: bool, hasContradictions: bool, hard: seq<bool>)

  predicate HardContradiction(r: Reasoning) {
    r.hasContradictions && true in r.hard
  }

  predicate Blocks(r: Reasoning) {
    r.failed || HardContradiction(r)
  }

  /** The review table built from the list: the last review of a candidate wins. */
  function ReviewOf(reviews: seq<Review>, id: string): (r: Option<Review>)
    ensures r.Some? ==> r.value in reviews && r.value.candidate == id
    ensures r.None? <==> forall v :: v in reviews ==> v.candidate != id
  {
    if reviews == [] then None
    else
      var last, front := reviews[|reviews| - 1], reviews[..|reviews| - 1];
      assert reviews == front + [last];
      if last.candidate == id then Some(last) else ReviewOf(front, id)
  }

  /** A candidate's last review is the one found: later ones replace earlier ones. */
  lemma {:induction false} LastReviewWins(reviews: seq<Review>, i: nat)
    requires i < |reviews| && forall k :: i < k < |reviews| ==> reviews[k].candidate != reviews[i].candidate
    ensures ReviewOf(reviews, reviews[i].candidate) == Some(reviews[i])
  {
    if i < |reviews| - 1 {
      LastReviewWins(reviews[..|reviews| - 1], i);
    }
  }

  function FinalConfidence(c: Candidate, r: Review): real {
    if r.confidence.Some? then r.confidence.value else c.confidence
  }

  /** The first loop's ladder of checks; no action means the candidate goes on to the contradiction check. */
  function Screen(c: Candidate, review: Option<Review>, threshold: real): Option<Action> {
    if review.None? then Some(Queue)
    else
      var r := review.value;
      if r.decision.Reject? then Some(Discard)
      else if (r.decision.Approve? || r.decision.Downgrade?) && r.supported != Some(true) then Some(Queue)
      else if r.decision.Downgrade? || r.decision.NeedsHuman? then Some(Queue)
      else if FinalConfidence(c, r) < threshold then Some(Queue)
      else None
  }

  /**
   A candidate passes exactly when its review approves it with confirmed support and enough confidence, and is
   discarded exactly when its review rejects it; anything else waits for a human.
   */
  lemma ScreenPasses(c: Candidate, review: Option<Review>, threshold: real)
    ensures Screen(c, review, threshold).None? <==>
      review.Some? && review.value.decision.Approve? && review.value.supported == Some(true)
      && threshold <= if review.value.confidence.Some? then review.value.confidence.value else c.confidence
    ensures Screen(c, review, threshold) == Some(Discard) <==> review.Some? && review.value.decision.Reject?
    ensures Screen(c, review, threshold) != Some(AutoWrite)
  {
  }

  /** `_relation_from_review` */
  function RelationFrom(item: Item): Entry {
    var c, r := item.candidate, item.review;
    Entry(c.source, c.sourceId, c.target, c.targetId, if r.kind.Some? then r.kind.value else c.kind,
          FinalConfidence(c, r), c.contextId, c.storeId, c.id)
  }

  /** The entry says what the candidate says, with the reviewed type and confidence where the review gives them. */
  predicate Asserts(e: Entry, c: Candidate, r: Review) {
    && e.source == c.source && e.sourceId == c.sourceId && e.target == c.target && e.targetId == c.targetId
    && (match r.kind case Some(k) => e.kind == k case None => e.kind == c.kind)
    && (match r.confidence case Some(x) => e.confidence == x case None => e.confidence == c.confidence)
    && e.contextId == c.contextId && e.storeId == c.storeId && e.candidate == c.id
  }

  /** The relation made from an item, and no other, says that. */
  lemma RelationAsserts(item: Item, e: Entry)
    ensures Asserts(e, item.candidate, item.review) <==> e == RelationFrom(item)
  {
  }

  function Relations(items: seq<Item>): (entries: seq<Entry>)
    ensures |entries| == |items|
  {
    seq(|items|, i requires 0 <= i < |items| => RelationFrom(items[i]))
  }

  function Stopped(candidates: seq<Candidate>, reviews: seq<Review>, threshold: real): seq<GateResult> {
    if candidates == [] then []
    else
      var c := candidates[|candidates| - 1];
      var action := Screen(c, ReviewOf(reviews, c.id), threshold);
      Stopped(candidates[..|candidates| - 1], reviews, threshold)
      + if action.Some? then [GateResult(c.id, action.value)] else []
  }

  function Passed(candidates: seq<Candidate>, reviews: seq<Review>, threshold: real): (items: seq<Item>)
    ensures forall item :: item in items ==>
      item.candidate in candidates && ReviewOf(reviews, item.candidate.id) == Some(item.review)
      && Screen(item.candidate, Some(item.review), threshold).None?
  {
    if candidates == [] then []
    else
      var c := candidates[|candidates| - 1];
      var review := ReviewOf(reviews, c.id);
      Passed(candidates[..|candidates| - 1], reviews, threshold)
      + if Screen(c, review, threshold).None? then [Item(c, review.value)] else []
  }

  /** The first loop. */
  method ScreenAll(candidates: seq<Candidate>, reviews: seq<Review>, threshold: real)
    returns (results: seq<GateResult>, items: seq<Item>)
    ensures results == Stopped(candidates, reviews, threshold) && items == Passed(candidates, reviews, threshold)
  {
    results, items := [], [];
    for i := 0 to |candidates|
      invariant results == Stopped(candidates[..i], reviews, threshold)
      invariant items == Passed(candidates[..i], reviews, threshold)
    {
      var c := candidates[i];
      assert candidates[..i + 1][..i] == candidates[..i];
      var review := ReviewOf(reviews, c.id);
      var action := Screen(c, review, threshold);
      if action.Some? {
        results := results + [GateResult(c.id, action.value)];
      } else {
        items := items + [Item(c, review.value)];
      }
    }
    assert candidates[..|candidates|] == candidates;
  }

  /** The candidate ids flagged as likely semantic duplicates. */
  function Flagged(items: seq<Item>, concerns: seq<bool>): (ids: set<string>)
    requires |concerns| == |items|
  {
    set i | 0 <= i < |items| && concerns[i] :: items[i].candidate.id
  }

  /** The second loop, over the candidates that passed. */
  function Decided(items: seq<Item>, blocked: bool, flagged: set<string>): (results: seq<GateResult>)
    ensures |results| == |items|
    ensures forall i :: 0 <= i < |items| ==> results[i].candidate == items[i].candidate.id
    ensures forall i :: 0 <= i < |items| ==>
      (results[i].action.AutoWrite? <==> !blocked && items[i].candidate.id !in flagged)
  {
    seq(|items|, i requires 0 <= i < |items| =>
      GateResult(items[i].candidate.id, if blocked || items[i].candidate.id in flagged then Queue else AutoWrite))
  }

  function Durable(items: seq<Item>, blocked: bool, flagged: set<string>): seq<Entry> {
    if blocked || items == [] then []
    else
      var last := items[|items| - 1];
      Durable(items[..|items| - 1], blocked, flagged)
      + if last.candidate.id in flagged then [] else [RelationFrom(last)]
  }

  method DecideAll(items: seq<Item>, blocked: bool, flagged: set<string>)
    returns (results: seq<GateResult>, durable: seq<Entry>)
    ensures results == Decided(items, blocked, flagged) && durable == Durable(items, blocked, flagged)
  {
    results, durable := [], [];
    for i := 0 to |items|
      invariant results == Decided(items[..i], blocked, flagged) && durable == Durable(items[..i], blocked, flagged)
    {
      assert items[..i + 1][..i] == items[..i];
      var id := items[i].candidate.id;
      if blocked || id in flagged {
        results := results + [GateResult(id, Queue)];
      } else {
        results := results + [GateResult(id, AutoWrite)];
        durable := durable + [RelationFrom(items[i])];
      }
    }
    assert items[..|items|] == items;
  }

  /** What the reasoning check, asked about the passing relations, allows. */
  predicate Blocked(items: seq<Item>, reason: seq<Entry> -> Reasoning) {
    items != [] && Blocks(reason(Relations(items)))
  }

  /** Duplicates are only looked for when writing is enabled and reasoning allows it. */
  function FlaggedBy(items: seq<Item>, blocked: bool, writing: bool, concerns: seq<Entry> -> seq<bool>): set<string>
    requires forall rs :: |concerns(rs)| == |rs|
  {
    if writing && !blocked && items != [] then Flagged(items, concerns(Relations(items))) else {}
  }

  /** The batch is held back exactly when something passed and reasoning failed on it or found a hard contradiction. */
  lemma BlockedExactly(items: seq<Item>, reason: seq<Entry> -> Reasoning)
    ensures Blocked(items, reason) <==>
      items != [] && (var r := reason(Relations(items)); r.failed || (r.hasContradictions && true in r.hard))
    ensures |Relations(items)| == |items|
    ensures forall i :: 0 <= i < |items| ==> Asserts(Relations(items)[i], items[i].candidate, items[i].review)
  {
    forall i | 0 <= i < |items| ensures Asserts(Relations(items)[i], items[i].candidate, items[i].review) {
      RelationAsserts(items[i], Relations(items)[i]);
    }
  }

  /** A candidate is flagged exactly when duplicates are looked for and its relation is one. */
  lemma FlaggedExactly(
    items: seq<Item>, blocked: bool, writing: bool, concerns: seq<Entry> -> seq<bool>, id: string)
    requires forall rs :: |concerns(rs)| == |rs|
    ensures id in FlaggedBy(items, blocked, writing, concerns) <==>
      writing && !blocked
      && exists i :: 0 <= i < |items| && concerns(Relations(items))[i] && items[i].candidate.id == id
  {
    if items == [] {
      assert FlaggedBy(items, blocked, writing, concerns) == {};
    }
  }

  /** The entry says what some candidate of the batch says whose own review passes. */
  ghost predicate FromPassing(e: Entry, candidates: seq<Candidate>, reviews: seq<Review>, threshold: real) {
    exists c, r ::
      && c in candidates && ReviewOf(reviews, c.id) == Some(r) && Screen(c, Some(r), threshold).None?
      && Asserts(e, c, r)
  }

  lemma DurableIsFromPassing(
    candidates: seq<Candidate>, reviews: seq<Review>, threshold: real, blocked: bool, flagged: set<string>, e: Entry)
    requires e in Durable(Passed(candidates, reviews, threshold), blocked, flagged)
    ensures FromPassing(e, candidates, reviews, threshold)
  {
    var items := Passed(candidates, reviews, threshold);
    DurableSources(items, blocked, flagged, e);
    var item :| item in items && e == RelationFrom(item);
    RelationAsserts(item, e);
  }

  /** `run_dry_run_gate`; `reason` and `concerns` answer for the reasoning tool and the duplicate finder. */
  method RunGate(
    candidates: seq<Candidate>, reviews: seq<Review>, threshold: real, writing: bool,
    reason: seq<Entry> -> Reasoning, concerns: seq<Entry> -> seq<bool>)
    returns (results: seq<GateResult>, durable: seq<Entry>)
    requires forall rs :: |concerns(rs)| == |rs|
    ensures var items := Passed(candidates, reviews, threshold);
            var flagged := FlaggedBy(items, Blocked(items, reason), writing, concerns);
      && results == Stopped(candidates, reviews, threshold) + Decided(items, Blocked(items, reason), flagged)
      && durable == Durable(items, Blocked(items, reason), flagged)
    ensures forall e :: e in durable ==> FromPassing(e, candidates, reviews, threshold)
  {
    var stopped, items := ScreenAll(candidates, reviews, threshold);
    var blocked := false;
    if items != [] {
      blocked := Blocks(reason(Relations(items)));
    }
    var flagged := FlaggedBy(items, blocked, writing, concerns);
    var decided;
    decided, durable := DecideAll(items, blocked, flagged);
    results := stopped + decided;
    forall e | e in durable ensures FromPassing(e, candidates, reviews, threshold) {
      DurableIsFromPassing(candidates, reviews, threshold, blocked, flagged, e);
    }
  }

  // --- what the gate guarantees ---

  function Subjects(results: seq<GateResult>): (ids: seq<string>) {
    seq(|results|, i requires 0 <= i < |results| => results[i].candidate)
  }

  function CandidateIds(candidates: seq<Candidate>): (ids: seq<string>) {
    seq(|candidates|, i requires 0 <= i < |candidates| => candidates[i].id)
  }

  function Origins(entries: seq<Entry>): (ids: seq<string>) {
    seq(|entries|, i requires 0 <= i < |entries| => entries[i].candidate)
  }

  lemma SubjectsNext(results: seq<GateResult>, r: GateResult)
    ensures Subjects(results + [r]) == Subjects(results) + [r.candidate]
  {
  }

  lemma OriginsNext(items: seq<Item>, item: Item)
    ensures Origins(Relations(items + [item])) == Origins(Relations(items)) + [item.candidate.id]
  {
  }

  lemma {:induction false} ScreenedOnce(candidates: seq<Candidate>, reviews: seq<Review>, threshold: real)
    ensures multiset(Subjects(Stopped(candidates, reviews, threshold)))
          + multiset(Origins(Relations(Passed(candidates, reviews, threshold)))) == multiset(CandidateIds(candidates))
  {
    if candidates != [] {
      var c, front := candidates[|candidates| - 1], candidates[..|candidates| - 1];
      ScreenedOnce(front, reviews, threshold);
      assert CandidateIds(candidates) == CandidateIds(front) + [c.id];
      var stopped, passed := Stopped(front, reviews, threshold), Passed(front, reviews, threshold);
      var action := Screen(c, ReviewOf(reviews, c.id), threshold);
      if action.Some? {
        SubjectsNext(stopped, GateResult(c.id, action.value));
        assert passed + [] == passed;
      } else {
        var item := Item(c, ReviewOf(reviews, c.id).value);
        OriginsNext(passed, item);
        assert stopped + [] == stopped;
      }
    }
  }

  /** Exactly one result per candidate, repeated ids included. */
  lemma OneResultEach(
    candidates: seq<Candidate>, reviews: seq<Review>, threshold: real, blocked: bool, flagged: set<string>)
    ensures var items := Passed(candidates, reviews, threshold);
      multiset(Subjects(Stopped(candidates, reviews, threshold) + Decided(items, blocked, flagged)))
      == multiset(CandidateIds(candidates))
  {
    var stopped, items := Stopped(candidates, reviews, threshold), Passed(candidates, reviews, threshold);
    ScreenedOnce(candidates, reviews, threshold);
    assert Subjects(Decided(items, blocked, flagged)) == Origins(Relations(items));
    assert Subjects(stopped + Decided(items, blocked, flagged)) == Subjects(stopped) + Origins(Relations(items));
  }

  function Writable(results: seq<GateResult>): (ids: seq<string>)
    ensures forall id :: id in ids <==> exists r :: r in results && r.candidate == id && r.action.AutoWrite?
  {
    if results == [] then []
    else
      var last, front := results[|results| - 1], results[..|results| - 1];
      assert results == front + [last];
      Writable(front) + if last.action.AutoWrite? then [last.candidate] else []
  }

  lemma {:induction false} NothingStoppedIsWritable(candidates: seq<Candidate>, reviews: seq<Review>, threshold: real)
    ensures forall r :: r in Stopped(candidates, reviews, threshold) ==> !r.action.AutoWrite?
  {
    if candidates != [] {
      NothingStoppedIsWritable(candidates[..|candidates| - 1], reviews, threshold);
    }
  }

  lemma {:induction false} NoneWritable(results: seq<GateResult>)
    requires forall r :: r in results ==> !r.action.AutoWrite?
    ensures Writable(results) == []
  {
    if results != [] {
      NoneWritable(results[..|results| - 1]);
    }
  }

  lemma {:induction false} WritableOfConcat(a: seq<GateResult>, b: seq<GateResult>)
    ensures Writable(a + b) == Writable(a) + Writable(b)
  {
    if b == [] {
      assert a + b == a;
    } else {
      WritableOfConcat(a, b[..|b| - 1]);
      assert (a + b)[..|a + b| - 1] == a + b[..|b| - 1];
    }
  }

  lemma {:induction false} DurableOrigins(items: seq<Item>, blocked: bool, flagged: set<string>)
    ensures Origins(Durable(items, blocked, flagged)) == Writable(Decided(items, blocked, flagged))
  {
    if items != [] {
      var last, front := items[|items| - 1], items[..|items| - 1];
      DurableOrigins(front, blocked, flagged);
      var results := Decided(items, blocked, flagged);
      assert results[..|results| - 1] == Decided(front, blocked, flagged);
      if !blocked && last.candidate.id !in flagged {
        var before := Durable(front, blocked, flagged);
        assert Origins(before + [RelationFrom(last)]) == Origins(before) + [last.candidate.id];
      }
    }
  }

  lemma {:induction false} StoppedSources(
    candidates: seq<Candidate>, reviews: seq<Review>, threshold: real, r: GateResult)
    requires r in Stopped(candidates, reviews, threshold)
    ensures exists c :: c in candidates && c.id == r.candidate
                        && Screen(c, ReviewOf(reviews, c.id), threshold) == Some(r.action)
  {
    var c, front := candidates[|candidates| - 1], candidates[..|candidates| - 1];
    if r in Stopped(front, reviews, threshold) {
      StoppedSources(front, reviews, threshold, r);
      var d :| d in front && d.id == r.candidate && Screen(d, ReviewOf(reviews, d.id), threshold) == Some(r.action);
      assert d in candidates;
    } else {
      assert c in candidates;
    }
  }

  /** The approved relations are those of the AUTO_WRITE results, in the same order. */
  lemma DurableMatchesResults(
    candidates: seq<Candidate>, reviews: seq<Review>, threshold: real, blocked: bool, flagged: set<string>)
    ensures var stopped, items := Stopped(candidates, reviews, threshold), Passed(candidates, reviews, threshold);
      Origins(Durable(items, blocked, flagged)) == Writable(stopped + Decided(items, blocked, flagged))
  {
    var stopped, items := Stopped(candidates, reviews, threshold), Passed(candidates, reviews, threshold);
    NothingStoppedIsWritable(candidates, reviews, threshold);
    WritableOfConcat(stopped, Decided(items, blocked, flagged));
    DurableOrigins(items, blocked, flagged);
    NoneWritable(stopped);
  }

  /** A failed check or a hard contradiction stops every write. */
  lemma NothingWrittenWhenBlocked(
    candidates: seq<Candidate>, reviews: seq<Review>, threshold: real, flagged: set<string>, r: GateResult)
    requires r in Stopped(candidates, reviews, threshold)
                  + Decided(Passed(candidates, reviews, threshold), true, flagged)
    ensures !r.action.AutoWrite?
  {
    NothingStoppedIsWritable(candidates, reviews, threshold);
  }

  lemma {:induction false} DurableSources(items: seq<Item>, blocked: bool, flagged: set<string>, e: Entry)
    requires e in Durable(items, blocked, flagged)
    ensures !blocked && exists item ::
      && item in items && item.candidate.id !in flagged
      && e == RelationFrom(item) && Asserts(e, item.candidate, item.review)
  {
    var last, front := items[|items| - 1], items[..|items| - 1];
    if e in Durable(front, blocked, flagged) {
      DurableSources(front, blocked, flagged, e);
      var item :| item in front && e == RelationFrom(item) && item.candidate.id !in flagged;
      assert item in items;
    }
  }
}
