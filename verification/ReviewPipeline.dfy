/** From votes to committed records: voting, gate, write and record updates, kept aligned end to end. */
module ReviewPipeline {
  import opened Basics
  import opened Voting
  import opened ReviewAggregation
  import opened Writer
  import opened Gate
  import L = IngestionLifecycle

  /** A claimed queue record; `action` is the gate result it was queued with. */
  datatype QueueRecord = QueueRecord(
    id: string, candidate: Candidate, action: Action, status: L.RecordStatus, relationIds: seq<string>)

  // --- written ids by candidate ---

  /** The ids paired with a candidate's relations, in order. */
  function IdsFor(approved: seq<Entry>, written: seq<string>, candidate: string): seq<string> {
    if approved == [] || written == [] then []
    else
      (if approved[0].candidate == candidate then [written[0]] else [])
      + IdsFor(approved[1..], written[1..], candidate)
  }

  function At(byCandidate: map<string, seq<string>>, candidate: string): seq<string> {
    if candidate in byCandidate then byCandidate[candidate] else []
  }

  /** The first `i` pairs are recorded. */
  ghost predicate Records(byCandidate: map<string, seq<string>>, approved: seq<Entry>, written: seq<string>, i: nat) {
    && i <= |approved| && i <= |written|
    && forall c :: c != "" ==>
         At(byCandidate, c) + IdsFor(approved[i..], written[i..], c) == IdsFor(approved, written, c)
  }

  /** `setdefault` and append; a relation that names no candidate is skipped. */
  function WithPair(byCandidate: map<string, seq<string>>, name: string, id: string): map<string, seq<string>> {
    if name == "" then byCandidate else byCandidate[name := At(byCandidate, name) + [id]]
  }

  lemma RecordsStart(approved: seq<Entry>, written: seq<string>)
    ensures Records(map[], approved, written, 0)
  {
    assert approved[0..] == approved && written[0..] == written;
  }

  lemma RecordsNext(byCandidate: map<string, seq<string>>, approved: seq<Entry>, written: seq<string>, i: nat)
    requires Records(byCandidate, approved, written, i) && i < |approved| && i < |written|
    ensures Records(WithPair(byCandidate, approved[i].candidate, written[i]), approved, written, i + 1)
  {
    var name := approved[i].candidate;
    var next := WithPair(byCandidate, name, written[i]);
    forall c | c != ""
      ensures At(next, c) + IdsFor(approved[i + 1..], written[i + 1..], c) == IdsFor(approved, written, c)
    {
      IdsNext(approved, written, i, c);
      assert At(byCandidate, c) + IdsFor(approved[i..], written[i..], c) == IdsFor(approved, written, c);
      assert At(next, c) == if c == name then At(byCandidate, c) + [written[i]] else At(byCandidate, c);
      Regroup(At(byCandidate, c), written[i], IdsFor(approved[i + 1..], written[i + 1..], c));
    }
  }

  lemma Regroup(a: seq<string>, x: string, b: seq<string>)
    ensures (a + [x]) + b == a + ([x] + b) && [] + b == b
  {
  }

  /** `_written_relation_ids_by_candidate` */
  method WrittenByCandidate(approved: seq<Entry>, written: seq<string>) returns (byCandidate: map<string, seq<string>>)
    ensures forall c :: c != "" ==> At(byCandidate, c) == IdsFor(approved, written, c)
  {
    byCandidate := map[];
    RecordsStart(approved, written);
    var i := 0;
    while i < |approved| && i < |written|
      invariant Records(byCandidate, approved, written, i)
    {
      RecordsNext(byCandidate, approved, written, i);
      byCandidate := WithPair(byCandidate, approved[i].candidate, written[i]);
      i := i + 1;
    }
    RecordsAll(byCandidate, approved, written, i);
  }

  lemma RecordsAll(byCandidate: map<string, seq<string>>, approved: seq<Entry>, written: seq<string>, i: nat)
    requires Records(byCandidate, approved, written, i) && (i == |approved| || i == |written|)
    ensures forall c :: c != "" ==> At(byCandidate, c) == IdsFor(approved, written, c)
  {
    forall c | c != "" ensures At(byCandidate, c) == IdsFor(approved, written, c) {
      assert At(byCandidate, c) + IdsFor(approved[i..], written[i..], c) == IdsFor(approved, written, c);
    }
  }

  lemma IdsNext(approved: seq<Entry>, written: seq<string>, i: nat, c: string)
    requires i < |approved| && i < |written|
    ensures IdsFor(approved[i..], written[i..], c)
         == (if approved[i].candidate == c then [written[i]] else []) + IdsFor(approved[i + 1..], written[i + 1..], c)
  {
    assert approved[i..][1..] == approved[i + 1..] && written[i..][1..] == written[i + 1..];
  }

  predicate DistinctOrigins(approved: seq<Entry>) {
    forall i, j :: 0 <= i < j < |approved| ==> approved[i].candidate != approved[j].candidate
  }

  lemma {:induction false} NoIds(approved: seq<Entry>, written: seq<string>, candidate: string)
    requires forall e :: e in approved ==> e.candidate != candidate
    ensures IdsFor(approved, written, candidate) == []
    decreases |approved|
  {
    if approved != [] && written != [] {
      NoIds(approved[1..], written[1..], candidate);
    }
  }

  /** With one relation per candidate, a candidate's ids are the one id in its relation's position. */
  lemma {:induction false} OneIdEach(approved: seq<Entry>, written: seq<string>, k: nat)
    requires k < |approved| <= |written| && DistinctOrigins(approved)
    ensures IdsFor(approved, written, approved[k].candidate) == [written[k]]
    decreases |approved|
  {
    if k == 0 {
      NoIds(approved[1..], written[1..], approved[0].candidate);
    } else {
      OneIdEach(approved[1..], written[1..], k - 1);
    }
  }

  // --- record updates ---

  /** The gate's result table: the last result for a candidate. */
  function ActionFor(results: seq<GateResult>, candidate: string): (a: Option<Action>)
    ensures a.None? <==> forall r :: r in results ==> r.candidate != candidate
    ensures a.Some? ==> GateResult(candidate, a.value) in results
  {
    if results == [] then None
    else
      var last, front := results[|results| - 1], results[..|results| - 1];
      assert results == front + [last];
      if last.candidate == candidate then Some(last.action) else ActionFor(front, candidate)
  }

  /** A candidate's last result is the one used. */
  lemma {:induction false} LastResultWins(results: seq<GateResult>, i: nat)
    requires i < |results| && forall k :: i < k < |results| ==> results[k].candidate != results[i].candidate
    ensures ActionFor(results, results[i].candidate) == Some(results[i].action)
  {
    if i < |results| - 1 {
      LastResultWins(results[..|results| - 1], i);
    }
  }

  function UpdateFor(r: QueueRecord, results: seq<GateResult>, ids: seq<string>): QueueRecord {
    var found := ActionFor(results, r.candidate.id);
    var action := if found.Some? then found.value else r.action;
    match action
    case AutoWrite => r.(action := action, status := L.RecordStatus.Committed, relationIds := ids)
    case Discard => r.(action := action, status := L.RecordStatus.Resolved, relationIds := [])
    case Queue => r.(action := action, status := L.RecordStatus.Pending, relationIds := [])
  }

  /** Each update keeps its record's identity and follows the gate and the written ids. */
  ghost predicate Follow(
    us: seq<QueueRecord>, records: seq<QueueRecord>, results: seq<GateResult>, approved: seq<Entry>,
    written: seq<string>)
  {
    && |us| == |records|
    && forall i :: 0 <= i < |records| ==>
         us[i] == UpdateFor(records[i], results, IdsFor(approved, written, records[i].candidate.id))
  }

  lemma FollowNext(
    us: seq<QueueRecord>, records: seq<QueueRecord>, i: nat, results: seq<GateResult>, approved: seq<Entry>,
    written: seq<string>, u: QueueRecord)
    requires i < |records| && Follow(us, records[..i], results, approved, written)
    requires u == UpdateFor(records[i], results, IdsFor(approved, written, records[i].candidate.id))
    ensures Follow(us + [u], records[..i + 1], results, approved, written)
  {
    forall k | 0 <= k < i + 1
      ensures (us + [u])[k]
           == UpdateFor(records[..i + 1][k], results, IdsFor(approved, written, records[..i + 1][k].candidate.id))
    {
      if k < i {
        assert records[..i][k] == records[k];
      }
    }
  }

  /** `_updated_records_from_report` */
  method UpdatedRecords(
    records: seq<QueueRecord>, results: seq<GateResult>, approved: seq<Entry>, written: seq<string>)
    returns (updates: seq<QueueRecord>)
    requires forall r :: r in records ==> r.candidate.id != ""
    ensures Follow(updates, records, results, approved, written)
  {
    var byCandidate := WrittenByCandidate(approved, written);
    updates := [];
    for i := 0 to |records|
      invariant Follow(updates, records[..i], results, approved, written)
    {
      var u := UpdateFor(records[i], results, At(byCandidate, records[i].candidate.id));
      FollowNext(updates, records, i, results, approved, written, u);
      updates := updates + [u];
    }
    assert records[..|records|] == records;
  }

  function Candidates(records: seq<QueueRecord>): (cs: seq<Candidate>)
    ensures |cs| == |records|
  {
    seq(|records|, i requires 0 <= i < |records| => records[i].candidate)
  }

  predicate DistinctIds(candidates: seq<Candidate>) {
    forall i, j :: 0 <= i < j < |candidates| ==> candidates[i].id != candidates[j].id
  }

  /** The stored relation behind a committed record shares a key with the relation its own review approved. */
  ghost predicate Backed(u: QueueRecord, reviews: seq<Review>, index: map<string, string>, store: seq<Stored>) {
    var review := ReviewOf(reviews, u.candidate.id);
    && review.Some? && |u.relationIds| == 1
    && exists e :: Asserts(e, u.candidate, review.value) && Reports(store, u.relationIds[0], FillIdentities(index, e))
  }

  /** In the records' own fields: the one id names a stored record of the reviewed type between the candidate's ends. */
  lemma BackedMeans(u: QueueRecord, reviews: seq<Review>, index: map<string, string>, store: seq<Stored>)
    requires Backed(u, reviews, index, store)
    ensures exists s, r, e ::
      && s in store && [s.id] == u.relationIds && ReviewOf(reviews, u.candidate.id) == Some(r)
      && s.entry.contextId == u.candidate.contextId && s.entry.storeId == u.candidate.storeId
      && s.entry.kind == (match r.kind case Some(k) => k case None => u.candidate.kind)
      && Asserts(e, u.candidate, r) && SharesKey(s.entry, FillIdentities(index, e))
  {
    var r := ReviewOf(reviews, u.candidate.id).value;
    var e :| Asserts(e, u.candidate, r) && Reports(store, u.relationIds[0], FillIdentities(index, e));
    var s :| s in store && s.id == u.relationIds[0] && SharesKey(s.entry, FillIdentities(index, e));
    SharesKeyExactly(s.entry, FillIdentities(index, e));
  }

  predicate DistinctItems(items: seq<Item>) {
    forall i, j :: 0 <= i < j < |items| ==> items[i].candidate.id != items[j].candidate.id
  }

  lemma PassedNext(candidates: seq<Candidate>, reviews: seq<Review>, threshold: real)
    requires candidates != []
    ensures var front, last := candidates[..|candidates| - 1], candidates[|candidates| - 1];
            var before, all := Passed(front, reviews, threshold), Passed(candidates, reviews, threshold);
      all == before || (|all| == |before| + 1 && all[..|before|] == before && all[|before|].candidate == last)
  {
  }

  lemma {:induction false} PassedInOrder(candidates: seq<Candidate>, reviews: seq<Review>, threshold: real)
    requires DistinctIds(candidates)
    ensures DistinctItems(Passed(candidates, reviews, threshold))
  {
    if candidates != [] {
      var n := |candidates| - 1;
      var before, all := Passed(candidates[..n], reviews, threshold), Passed(candidates, reviews, threshold);
      PassedInOrder(candidates[..n], reviews, threshold);
      PassedNext(candidates, reviews, threshold);
      forall i | 0 <= i < |before| ensures before[i].candidate.id != candidates[n].id {
        assert before[i] in before;
        var k :| 0 <= k < n && candidates[..n][k] == before[i].candidate;
        assert candidates[k].id != candidates[n].id;
      }
      if all != before {
        assert all == before + [all[|before|]];
      }
    }
  }

  lemma {:induction false} DurableIsDistinct(items: seq<Item>, blocked: bool, flagged: set<string>)
    requires DistinctItems(items)
    ensures DistinctOrigins(Durable(items, blocked, flagged))
  {
    if items != [] && !blocked {
      var front := items[..|items| - 1];
      DurableIsDistinct(front, blocked, flagged);
      var durable := Durable(front, blocked, flagged);
      forall i | 0 <= i < |durable| ensures durable[i].candidate != items[|items| - 1].candidate.id {
        DurableSources(front, blocked, flagged, durable[i]);
      }
    }
  }

  lemma SameCandidate(candidates: seq<Candidate>, c: Candidate, d: Candidate)
    requires DistinctIds(candidates) && c in candidates && d in candidates && c.id == d.id
    ensures c == d
  {
  }

  lemma OwnItem(candidates: seq<Candidate>, reviews: seq<Review>, c: Candidate, item: Item)
    requires DistinctIds(candidates) && c in candidates && item.candidate in candidates && item.candidate.id == c.id
    requires ReviewOf(reviews, item.candidate.id) == Some(item.review)
    ensures ReviewOf(reviews, c.id).Some? && item == Item(c, ReviewOf(reviews, c.id).value)
  {
    SameCandidate(candidates, c, item.candidate);
  }

  lemma OwnSource(
    candidates: seq<Candidate>, reviews: seq<Review>, items: seq<Item>, blocked: bool, flagged: set<string>,
    c: Candidate, e: Entry)
    requires DistinctIds(candidates) && c in candidates && e.candidate == c.id
    requires e in Durable(items, blocked, flagged)
    requires forall item :: item in items ==>
      item.candidate in candidates && ReviewOf(reviews, item.candidate.id) == Some(item.review)
    ensures ReviewOf(reviews, c.id).Some? && e == RelationFrom(Item(c, ReviewOf(reviews, c.id).value))
  {
    DurableSources(items, blocked, flagged, e);
    var item :| item in items && e == RelationFrom(item);
    assert RelationFrom(item).candidate == item.candidate.id;
    OwnItem(candidates, reviews, c, item);
  }

  /** Each written relation comes from the candidate it names, under that candidate's own review. */
  lemma DurableIsOwn(
    candidates: seq<Candidate>, reviews: seq<Review>, threshold: real, blocked: bool, flagged: set<string>,
    c: Candidate, e: Entry)
    requires DistinctIds(candidates) && c in candidates && e.candidate == c.id
    requires e in Durable(Passed(candidates, reviews, threshold), blocked, flagged)
    ensures ReviewOf(reviews, c.id).Some? && e == RelationFrom(Item(c, ReviewOf(reviews, c.id).value))
  {
    OwnSource(candidates, reviews, Passed(candidates, reviews, threshold), blocked, flagged, c, e);
  }

  /** A candidate whose result is AUTO_WRITE has a position in the approved relations. */
  lemma WrittenPosition(
    candidates: seq<Candidate>, reviews: seq<Review>, threshold: real, blocked: bool, flagged: set<string>, id: string)
    returns (k: nat)
    requires ActionFor(Stopped(candidates, reviews, threshold)
                       + Decided(Passed(candidates, reviews, threshold), blocked, flagged), id) == Some(AutoWrite)
    ensures var durable := Durable(Passed(candidates, reviews, threshold), blocked, flagged);
      k < |durable| && durable[k].candidate == id
  {
    var durable := Durable(Passed(candidates, reviews, threshold), blocked, flagged);
    var results := Stopped(candidates, reviews, threshold)
                   + Decided(Passed(candidates, reviews, threshold), blocked, flagged);
    DurableMatchesResults(candidates, reviews, threshold, blocked, flagged);
    assert id in Writable(results);
    k :| 0 <= k < |Origins(durable)| && Origins(durable)[k] == id;
  }

  /** Every candidate finds its own result in the table. */
  lemma ResultFound(
    candidates: seq<Candidate>, reviews: seq<Review>, threshold: real, blocked: bool, flagged: set<string>,
    c: Candidate)
    requires c in candidates
    ensures ActionFor(Stopped(candidates, reviews, threshold)
                      + Decided(Passed(candidates, reviews, threshold), blocked, flagged), c.id).Some?
  {
    var results := Stopped(candidates, reviews, threshold)
                   + Decided(Passed(candidates, reviews, threshold), blocked, flagged);
    OneResultEach(candidates, reviews, threshold, blocked, flagged);
    var i :| 0 <= i < |candidates| && candidates[i] == c;
    assert CandidateIds(candidates)[i] in multiset(CandidateIds(candidates));
    assert c.id in multiset(Subjects(results));
    var k :| 0 <= k < |Subjects(results)| && Subjects(results)[k] == c.id;
    assert results[k] in results;
  }

  /** The gate's results and approved relations, for some answers of the reasoning tool and the duplicate finder. */
  ghost predicate Gated(
    candidates: seq<Candidate>, reviews: seq<Review>, threshold: real, blocked: bool, flagged: set<string>,
    results: seq<GateResult>, durable: seq<Entry>)
  {
    var items := Passed(candidates, reviews, threshold);
    && results == Stopped(candidates, reviews, threshold) + Decided(items, blocked, flagged)
    && durable == Durable(items, blocked, flagged)
  }

  /** An AUTO_WRITE result has exactly one approved relation, made from its own candidate and review. */
  lemma OwnRelation(
    candidates: seq<Candidate>, reviews: seq<Review>, threshold: real, blocked: bool, flagged: set<string>,
    results: seq<GateResult>, durable: seq<Entry>, c: Candidate)
    returns (k: nat)
    requires Gated(candidates, reviews, threshold, blocked, flagged, results, durable)
    requires DistinctIds(candidates) && c in candidates && ActionFor(results, c.id) == Some(AutoWrite)
    ensures k < |durable| && durable[k].candidate == c.id && DistinctOrigins(durable)
    ensures ReviewOf(reviews, c.id).Some? && durable[k] == RelationFrom(Item(c, ReviewOf(reviews, c.id).value))
  {
    k := WrittenPosition(candidates, reviews, threshold, blocked, flagged, c.id);
    PassedInOrder(candidates, reviews, threshold);
    DurableIsDistinct(Passed(candidates, reviews, threshold), blocked, flagged);
    DurableIsOwn(candidates, reviews, threshold, blocked, flagged, c, durable[k]);
  }

  lemma StoppedResult(
    candidates: seq<Candidate>, reviews: seq<Review>, threshold: real, c: Candidate, result: GateResult)
    requires DistinctIds(candidates) && c in candidates && result.candidate == c.id
    requires result in Stopped(candidates, reviews, threshold)
    ensures Screen(c, ReviewOf(reviews, c.id), threshold) == Some(result.action)
  {
    StoppedSources(candidates, reviews, threshold, result);
    var d :| d in candidates && d.id == c.id && Screen(d, ReviewOf(reviews, d.id), threshold) == Some(result.action);
    SameCandidate(candidates, c, d);
  }

  lemma DecidedResult(
    candidates: seq<Candidate>, reviews: seq<Review>, threshold: real, blocked: bool, flagged: set<string>,
    c: Candidate, result: GateResult)
    requires DistinctIds(candidates) && c in candidates && result.candidate == c.id
    requires result in Decided(Passed(candidates, reviews, threshold), blocked, flagged)
    ensures Screen(c, ReviewOf(reviews, c.id), threshold).None?
    ensures result.action == if !blocked && c.id !in flagged then AutoWrite else Queue
  {
    var items := Passed(candidates, reviews, threshold);
    var k :| 0 <= k < |items| && Decided(items, blocked, flagged)[k] == result;
    assert items[k] in items;
    SameCandidate(candidates, c, items[k].candidate);
  }

  /** With distinct ids, a candidate's action is its own screening's, or the batch's for one that passed. */
  lemma OwnAction(
    candidates: seq<Candidate>, reviews: seq<Review>, threshold: real, blocked: bool, flagged: set<string>,
    results: seq<GateResult>, durable: seq<Entry>, c: Candidate)
    requires Gated(candidates, reviews, threshold, blocked, flagged, results, durable)
    requires DistinctIds(candidates) && c in candidates
    ensures ActionFor(results, c.id) ==
      match Screen(c, ReviewOf(reviews, c.id), threshold)
      case Some(action) => Some(action)
      case None => Some(if !blocked && c.id !in flagged then AutoWrite else Queue)
  {
    ResultFound(candidates, reviews, threshold, blocked, flagged, c);
    var result := GateResult(c.id, ActionFor(results, c.id).value);
    if result in Stopped(candidates, reviews, threshold) {
      StoppedResult(candidates, reviews, threshold, c, result);
    } else {
      DecidedResult(candidates, reviews, threshold, blocked, flagged, c, result);
    }
  }

  /** With distinct ids, a candidate's result discards it exactly when its own review rejects it. */
  lemma DiscardedIffRejected(
    candidates: seq<Candidate>, reviews: seq<Review>, threshold: real, blocked: bool, flagged: set<string>,
    results: seq<GateResult>, durable: seq<Entry>, c: Candidate)
    requires Gated(candidates, reviews, threshold, blocked, flagged, results, durable)
    requires DistinctIds(candidates) && c in candidates
    ensures ActionFor(results, c.id) == Some(Discard)
            <==> Rejected(reviews, c.id)
  {
    OwnAction(candidates, reviews, threshold, blocked, flagged, results, durable, c);
    ScreenPasses(c, ReviewOf(reviews, c.id), threshold);
  }

  /** The candidate's own review passes the gate's screen and nothing holds its write back. */
  predicate Cleared(c: Candidate, reviews: seq<Review>, threshold: real, blocked: bool, flagged: set<string>) {
    Screen(c, ReviewOf(reviews, c.id), threshold).None? && !blocked && c.id !in flagged
  }

  /** With distinct ids, a candidate's result is AUTO_WRITE exactly when the candidate is cleared. */
  lemma WrittenIffCleared(
    candidates: seq<Candidate>, reviews: seq<Review>, threshold: real, blocked: bool, flagged: set<string>,
    results: seq<GateResult>, durable: seq<Entry>, c: Candidate)
    requires Gated(candidates, reviews, threshold, blocked, flagged, results, durable)
    requires DistinctIds(candidates) && c in candidates
    ensures ActionFor(results, c.id) == Some(AutoWrite) <==> Cleared(c, reviews, threshold, blocked, flagged)
  {
    OwnAction(candidates, reviews, threshold, blocked, flagged, results, durable, c);
    ScreenPasses(c, ReviewOf(reviews, c.id), threshold);
  }

  lemma BackedFrom(
    u: QueueRecord, reviews: seq<Review>, index: map<string, string>, store: seq<Stored>, id: string, c: Candidate,
    e: Entry)
    requires u.candidate == c && u.relationIds == [id] && ReviewOf(reviews, c.id).Some?
    requires e == RelationFrom(Item(c, ReviewOf(reviews, c.id).value))
    requires Reports(store, id, FillIdentities(index, e))
    ensures Backed(u, reviews, index, store)
  {
    RelationAsserts(Item(c, ReviewOf(reviews, c.id).value), e);
  }

  /** The alignment theorem for one record. */
  lemma CommittedIsBacked(
    candidates: seq<Candidate>, reviews: seq<Review>, threshold: real, blocked: bool, flagged: set<string>,
    results: seq<GateResult>, durable: seq<Entry>,
    index: map<string, string>, ids: seq<string>, written: seq<string>, store: seq<Stored>, r: QueueRecord)
    requires Gated(candidates, reviews, threshold, blocked, flagged, results, durable)
    requires DistinctIds(candidates) && r.candidate in candidates
    requires |ids| == |durable| && AllReported(store, written, Prepare(index, ids, durable))
    ensures var u := UpdateFor(r, results, IdsFor(durable, written, r.candidate.id));
      u.status.Committed? ==> written != [] && Backed(u, reviews, index, store)
  {
    ResultFound(candidates, reviews, threshold, blocked, flagged, r.candidate);
    if ActionFor(results, r.candidate.id) == Some(AutoWrite) {
      var k := OwnRelation(candidates, reviews, threshold, blocked, flagged, results, durable, r.candidate);
      OneIdEach(durable, written, k);
      assert Prepare(index, ids, durable)[k].entry == FillIdentities(index, durable[k]);
      assert Reports(store, written[k], Prepare(index, ids, durable)[k].entry);
      var u := UpdateFor(r, results, IdsFor(durable, written, r.candidate.id));
      BackedFrom(u, reviews, index, store, written[k], r.candidate, durable[k]);
    }
  }

  // --- the review pass ---

  datatype Config = Config(threshold: real, autoWrite: bool)

  /** The write threshold only applies when writing is on. */
  function Threshold(config: Config): real {
    if config.autoWrite then config.threshold else 0.0
  }

  /** What the pass calls out to: reasoning, the duplicate finder, id generation and the assertion tool. */
  datatype World = World(
    reason: seq<Entry> -> Reasoning, concerns: seq<Entry> -> seq<bool>, newIds: seq<Entry> -> seq<string>,
    assertion: seq<Stored> -> Option<seq<string>>)

  ghost predicate Lawful(w: World, index: map<string, string>, existing: seq<Stored>) {
    && (forall rs :: |w.concerns(rs)| == |rs|)
    && (forall rs :: |w.newIds(rs)| == |rs|)
    && (forall rs :: |w.newIds(rs)| == |rs| ==> NewIds(Prepare(index, w.newIds(rs), rs), existing))
    && (forall rs :: w.assertion(rs).Some? ==> |w.assertion(rs).value| == |rs|)
  }

  predicate SameRecords(us: seq<QueueRecord>, records: seq<QueueRecord>) {
    && |us| == |records|
    && forall i :: 0 <= i < |us| ==> us[i].id == records[i].id && us[i].candidate == records[i].candidate
  }

  predicate Rejected(reviews: seq<Review>, candidate: string) {
    ReviewOf(reviews, candidate).Some? && ReviewOf(reviews, candidate).value.decision.Reject?
  }

  /** Committed when its candidate is cleared, resolved when its own review rejects it, and pending otherwise. */
  ghost predicate StatusFits(
    u: QueueRecord, reviews: seq<Review>, threshold: real, blocked: bool, flagged: set<string>)
  {
    && (u.status.Committed? <==> Cleared(u.candidate, reviews, threshold, blocked, flagged))
    && (u.status.Resolved? <==> Rejected(reviews, u.candidate.id))
    && (u.status.Committed? || u.status.Resolved? || u.status.Pending?)
    && (u.relationIds != [] ==> u.status.Committed?)
    && u.action == (if u.status.Committed? then AutoWrite else if u.status.Resolved? then Discard else Queue)
  }

  ghost predicate StatusesFit(
    us: seq<QueueRecord>, reviews: seq<Review>, threshold: real, blocked: bool, flagged: set<string>)
  {
    forall i :: 0 <= i < |us| ==> StatusFits(us[i], reviews, threshold, blocked, flagged)
  }

  lemma UpdateStatus(r: QueueRecord, results: seq<GateResult>, ids: seq<string>)
    requires ActionFor(results, r.candidate.id).Some?
    ensures var u, action := UpdateFor(r, results, ids), ActionFor(results, r.candidate.id).value;
      && u.candidate == r.candidate
      && (u.status.Committed? <==> action == AutoWrite) && (u.status.Resolved? <==> action == Discard)
      && (u.status.Pending? <==> action == Queue) && (u.relationIds != [] ==> u.status.Committed?) && u.action == action
  {
  }

  lemma UpdatesFit(
    records: seq<QueueRecord>, reviews: seq<Review>, threshold: real, blocked: bool, flagged: set<string>,
    results: seq<GateResult>, durable: seq<Entry>, written: seq<string>, us: seq<QueueRecord>)
    requires DistinctIds(Candidates(records))
    requires Gated(Candidates(records), reviews, threshold, blocked, flagged, results, durable)
    requires Follow(us, records, results, durable, written)
    ensures StatusesFit(us, reviews, threshold, blocked, flagged)
  {
    forall i | 0 <= i < |us| ensures StatusFits(us[i], reviews, threshold, blocked, flagged) {
      var c := records[i].candidate;
      assert Candidates(records)[i] == c;
      ResultFound(Candidates(records), reviews, threshold, blocked, flagged, c);
      DiscardedIffRejected(Candidates(records), reviews, threshold, blocked, flagged, results, durable, c);
      WrittenIffCleared(Candidates(records), reviews, threshold, blocked, flagged, results, durable, c);
      UpdateStatus(records[i], results, IdsFor(durable, written, c.id));
    }
  }

  lemma FollowKeepsRecords(
    us: seq<QueueRecord>, records: seq<QueueRecord>, results: seq<GateResult>, approved: seq<Entry>,
    written: seq<string>)
    requires Follow(us, records, results, approved, written)
    ensures SameRecords(us, records)
  {
  }

  /** All committed updates are backed, and there are none when nothing was written. */
  lemma UpdatesAreBacked(
    records: seq<QueueRecord>, reviews: seq<Review>, threshold: real, blocked: bool, flagged: set<string>,
    results: seq<GateResult>, durable: seq<Entry>,
    index: map<string, string>, ids: seq<string>, written: seq<string>, store: seq<Stored>, us: seq<QueueRecord>)
    requires DistinctIds(Candidates(records))
    requires Gated(Candidates(records), reviews, threshold, blocked, flagged, results, durable)
    requires |ids| == |durable| && AllReported(store, written, Prepare(index, ids, durable))
    requires Follow(us, records, results, durable, written)
    ensures forall u :: u in us && u.status.Committed? ==> written != [] && Backed(u, reviews, index, store)
  {
    forall i | 0 <= i < |us| && us[i].status.Committed? ensures written != [] && Backed(us[i], reviews, index, store) {
      assert Candidates(records)[i] == records[i].candidate;
      CommittedIsBacked(Candidates(records), reviews, threshold, blocked, flagged, results, durable, index, ids,
                        written, store, records[i]);
    }
  }

  // --- what one pass comes to ---

  function ItemsIn(records: seq<QueueRecord>, reviews: seq<Review>, config: Config): seq<Item> {
    Passed(Candidates(records), reviews, Threshold(config))
  }

  /** The reasoning check holds the whole batch back. */
  predicate HaltedIn(records: seq<QueueRecord>, reviews: seq<Review>, config: Config, w: World) {
    Blocked(ItemsIn(records, reviews, config), w.reason)
  }

  function FlaggedIn(records: seq<QueueRecord>, reviews: seq<Review>, config: Config, w: World): set<string>
    requires forall rs :: |w.concerns(rs)| == |rs|
  {
    FlaggedBy(ItemsIn(records, reviews, config), HaltedIn(records, reviews, config, w), config.autoWrite, w.concerns)
  }

  function ApprovedIn(records: seq<QueueRecord>, reviews: seq<Review>, config: Config, w: World): seq<Entry>
    requires forall rs :: |w.concerns(rs)| == |rs|
  {
    Durable(ItemsIn(records, reviews, config), HaltedIn(records, reviews, config, w),
            FlaggedIn(records, reviews, config, w))
  }

  /** The relations the write would add. */
  function PlannedAdditions(approved: seq<Entry>, w: World, index: map<string, string>, existing: seq<Stored>)
    : seq<Stored>
    requires |w.newIds(approved)| == |approved|
  {
    PlanOf(Prepare(index, w.newIds(approved), approved), existing).added
  }

  /** The assertion tool refuses the additions. */
  predicate Refused(approved: seq<Entry>, w: World, index: map<string, string>, existing: seq<Stored>)
    requires |w.newIds(approved)| == |approved|
  {
    var added := PlannedAdditions(approved, w, index, existing);
    added != [] && w.assertion(added).None?
  }

  /** What the pass adds to the store. */
  function Additions(approved: seq<Entry>, config: Config, w: World, index: map<string, string>, existing: seq<Stored>)
    : seq<Stored>
    requires Lawful(w, index, existing) && |w.newIds(approved)| == |approved|
  {
    var added := PlannedAdditions(approved, w, index, existing);
    if !config.autoWrite || added == [] || w.assertion(added).None? then []
    else StoredAs(added, w.assertion(added).value)
  }

  /** The stored entry says what a candidate of the batch says whose own review passes, with looked-up ids. */
  ghost predicate FromBatch(
    f: Entry, records: seq<QueueRecord>, reviews: seq<Review>, threshold: real, index: map<string, string>)
  {
    exists e :: FromPassing(e, Candidates(records), reviews, threshold) && Filled(e, index, f)
  }

  lemma AdditionsAreFromBatch(
    records: seq<QueueRecord>, reviews: seq<Review>, config: Config, w: World, index: map<string, string>,
    existing: seq<Stored>, s: Stored)
    requires Lawful(w, index, existing)
    requires var approved := ApprovedIn(records, reviews, config, w);
      |w.newIds(approved)| == |approved| && s in Additions(approved, config, w, index, existing)
    ensures FromBatch(s.entry, records, reviews, Threshold(config), index)
  {
    var approved := ApprovedIn(records, reviews, config, w);
    var added := PlannedAdditions(approved, w, index, existing);
    var e := AddedIsFilled(index, w.newIds(approved), approved, existing, w.assertion(added).value, s);
    ApprovedIsFromPassing(records, reviews, config, w, e);
  }

  lemma ApprovedIsFromPassing(
    records: seq<QueueRecord>, reviews: seq<Review>, config: Config, w: World, e: Entry)
    requires forall rs :: |w.concerns(rs)| == |rs|
    requires e in ApprovedIn(records, reviews, config, w)
    ensures FromPassing(e, Candidates(records), reviews, Threshold(config))
  {
    DurableIsFromPassing(Candidates(records), reviews, Threshold(config), HaltedIn(records, reviews, config, w),
                         FlaggedIn(records, reviews, config, w), e);
  }

  /** The gate on the records' candidates. */
  method GateRecords(records: seq<QueueRecord>, reviews: seq<Review>, config: Config, w: World)
    returns (results: seq<GateResult>, approved: seq<Entry>)
    requires forall rs :: |w.concerns(rs)| == |rs|
    ensures approved == ApprovedIn(records, reviews, config, w)
    ensures Gated(Candidates(records), reviews, Threshold(config), HaltedIn(records, reviews, config, w),
                  FlaggedIn(records, reviews, config, w), results, approved)
  {
    results, approved :=
      RunGate(Candidates(records), reviews, Threshold(config), config.autoWrite, w.reason, w.concerns);
  }

  /** The write when it is enabled and there is something to write; no ids means it was refused. */
  method WriteDurable(
    approved: seq<Entry>, config: Config, w: World, index: map<string, string>, existing: seq<Stored>)
    returns (written: Option<seq<string>>, store: seq<Stored>)
    requires Lawful(w, index, existing)
    ensures |w.newIds(approved)| == |approved|
    ensures written.None? <==> config.autoWrite && Refused(approved, w, index, existing)
    ensures !config.autoWrite ==> written == Some([])
    ensures written.Some? && (config.autoWrite || approved == []) ==>
      AllReported(store, written.value, Prepare(index, w.newIds(approved), approved))
    ensures store == existing + Additions(approved, config, w, index, existing)
  {
    if !config.autoWrite || approved == [] {
      assert existing + [] == existing;
      return Some([]), existing;
    }
    written, store := WriteApproved(approved, index, w.newIds(approved), existing, w.assertion);
  }

  /** No updates: the write was refused, or approved relations were left without ids because writing is off. */
  predicate Raises(approved: seq<Entry>, config: Config, w: World, index: map<string, string>, existing: seq<Stored>)
    requires |w.newIds(approved)| == |approved|
  {
    if config.autoWrite then Refused(approved, w, index, existing) else approved != []
  }

  /**
   The success path of `_process_review_group`: when it raises, what each record becomes, what backs a committed one,
   and what the store gains.
   */
  method ReviewGroup(
    records: seq<QueueRecord>, reviews: seq<Review>, config: Config, w: World, index: map<string, string>,
    existing: seq<Stored>)
    returns (updates: Option<seq<QueueRecord>>, store: seq<Stored>)
    requires Lawful(w, index, existing)
    requires DistinctIds(Candidates(records)) && forall r :: r in records ==> r.candidate.id != ""
    ensures var approved := ApprovedIn(records, reviews, config, w);
      && |w.newIds(approved)| == |approved|
      && (updates.None? <==> Raises(approved, config, w, index, existing))
      && store == existing + Additions(approved, config, w, index, existing)
    ensures forall s :: s in store ==>
      s in existing || FromBatch(s.entry, records, reviews, if config.autoWrite then config.threshold else 0.0, index)
    ensures updates.Some? ==> SameRecords(updates.value, records)
    ensures updates.Some? ==> StatusesFit(updates.value, reviews, if config.autoWrite then config.threshold else 0.0,
                                          HaltedIn(records, reviews, config, w), FlaggedIn(records, reviews, config, w))
    ensures updates.Some? ==> AllBacked(updates.value, config, reviews, index, store)
  {
    var results, approved := GateRecords(records, reviews, config, w);
    ghost var blocked, flagged := HaltedIn(records, reviews, config, w), FlaggedIn(records, reviews, config, w);
    var written;
    written, store := WriteDurable(approved, config, w, index, existing);
    forall s | s in store && s !in existing ensures FromBatch(s.entry, records, reviews, Threshold(config), index) {
      AdditionsAreFromBatch(records, reviews, config, w, index, existing, s);
    }
    if written.None? || (approved != [] && |written.value| < |approved|) {
      return None, store;
    }
    var us := UpdatedRecords(records, results, approved, written.value);
    Accept(records, reviews, config, blocked, flagged, results, approved, index, w.newIds(approved), written.value,
           store, us);
    updates := Some(us);
  }

  lemma Accept(
    records: seq<QueueRecord>, reviews: seq<Review>, config: Config, blocked: bool, flagged: set<string>,
    results: seq<GateResult>, approved: seq<Entry>, index: map<string, string>, ids: seq<string>, written: seq<string>,
    store: seq<Stored>, us: seq<QueueRecord>)
    requires DistinctIds(Candidates(records))
    requires Gated(Candidates(records), reviews, Threshold(config), blocked, flagged, results, approved)
    requires |ids| == |approved| && AllReported(store, written, Prepare(index, ids, approved))
    requires Follow(us, records, results, approved, written) && (!config.autoWrite ==> written == [])
    ensures SameRecords(us, records) && StatusesFit(us, reviews, Threshold(config), blocked, flagged)
    ensures AllBacked(us, config, reviews, index, store)
  {
    UpdatesAreBacked(records, reviews, Threshold(config), blocked, flagged, results, approved, index, ids, written,
                     store, us);
    FollowKeepsRecords(us, records, results, approved, written);
    UpdatesFit(records, reviews, Threshold(config), blocked, flagged, results, approved, written, us);
  }

  /** A record is only committed when writing is on, and then a stored relation of its own backs it. */
  ghost predicate AllBacked(
    us: seq<QueueRecord>, config: Config, reviews: seq<Review>, index: map<string, string>, store: seq<Stored>)
  {
    forall u :: u in us && u.status.Committed? ==> config.autoWrite && Backed(u, reviews, index, store)
  }

  // --- what an automatic write rests on ---

  /** The gate sees a candidate's own verdict. */
  lemma GateSeesVerdict(
    candidates: seq<string>, reviews: seq<Review>, policy: VotingPolicy, high: seq<string>, expected: seq<string>,
    id: string)
    requires id in candidates
    ensures ReviewOf(Reached(candidates, VerdictOn(reviews, policy, high, expected)), id)
         == VerdictOn(reviews, policy, high, expected)(id)
  {
    var verdict := VerdictOn(reviews, policy, high, expected);
    var reached := Reached(candidates, verdict);
    var seen := ReviewOf(reached, id);
    if verdict(id).Some? {
      VerdictOnKeepsCandidate(id, reviews, policy, high, expected);
      assert verdict(id).value in reached;
    }
    if seen.Some? {
      var other :| other in candidates && verdict(other) == Some(seen.value);
      VerdictOnKeepsCandidate(other, reviews, policy, high, expected);
    }
  }

  /**
   What an automatic write rests on: every high-priority model voted, and only to approve; with two votes or more a
   strict majority approved the final type; support is confirmed; and the final confidence reaches the threshold.
   */
  ghost predicate Evidence(
    c: Candidate, verdict: Review, reviews: seq<Review>, high: seq<string>, expected: seq<string>, threshold: real)
  {
    var votes := Votes(c.id, reviews, expected, high);
    && (forall m :: m in high && m != "" ==> ApprovedBy(reviews, c.id, m))
    && verdict.decision.Approve? && verdict.supported == Some(true) && threshold <= FinalConfidence(c, verdict)
    && (|votes| > 1 ==> |votes| < 2 * Tally(votes, ApprovesAs(verdict.kind)))
  }

  /** Under the risk-tiered policy, an AUTO_WRITE result has all that evidence, and nothing blocked the batch. */
  lemma AutoWriteEvidence(
    candidates: seq<Candidate>, reviews: seq<Review>, high: seq<string>, expected: seq<string>, threshold: real,
    blocked: bool, flagged: set<string>, c: Candidate)
    requires c in candidates && AllValid(reviews)
    requires var verdicts := Reached(CandidateIds(candidates), VerdictOn(reviews, RiskTiered, high, expected));
             ActionFor(Stopped(candidates, verdicts, threshold)
                       + Decided(Passed(candidates, verdicts, threshold), blocked, flagged), c.id) == Some(AutoWrite)
    ensures !blocked && VerdictOn(reviews, RiskTiered, high, expected)(c.id).Some?
    ensures Evidence(c, VerdictOn(reviews, RiskTiered, high, expected)(c.id).value, reviews, high, expected, threshold)
  {
    var verdicts := Reached(CandidateIds(candidates), VerdictOn(reviews, RiskTiered, high, expected));
    OwnVerdictConfident(candidates, reviews, high, expected, c);
    AutoWritePassed(candidates, verdicts, threshold, blocked, flagged, c);
    OwnVerdictPassed(candidates, reviews, high, expected, threshold, c);
    ApprovalEvidence(c.id, reviews, high, expected);
  }

  lemma OwnVerdictConfident(
    candidates: seq<Candidate>, reviews: seq<Review>, high: seq<string>, expected: seq<string>, c: Candidate)
    requires c in candidates && AllValid(reviews)
    ensures Confident(ReviewOf(Reached(CandidateIds(candidates), VerdictOn(reviews, RiskTiered, high, expected)), c.id))
  {
    var i :| 0 <= i < |candidates| && candidates[i] == c;
    assert CandidateIds(candidates)[i] == c.id;
    GateSeesVerdict(CandidateIds(candidates), reviews, RiskTiered, high, expected, c.id);
    if Approved(VerdictOn(reviews, RiskTiered, high, expected)(c.id)) {
      VerdictOnKeepsCandidate(c.id, reviews, RiskTiered, high, expected);
    }
  }

  /** An approval carries its own confidence. */
  predicate Confident(review: Option<Review>) {
    Approved(review) ==> review.value.confidence.Some?
  }

  lemma OwnVerdictPassed(
    candidates: seq<Candidate>, reviews: seq<Review>, high: seq<string>, expected: seq<string>, threshold: real,
    c: Candidate)
    requires c in candidates
    requires var verdicts := Reached(CandidateIds(candidates), VerdictOn(reviews, RiskTiered, high, expected));
             Screen(c, ReviewOf(verdicts, c.id), threshold).None?
    ensures var verdict := VerdictOn(reviews, RiskTiered, high, expected)(c.id);
      && Approved(verdict) && verdict.value.supported == Some(true) && threshold <= FinalConfidence(c, verdict.value)
  {
    var i :| 0 <= i < |candidates| && candidates[i] == c;
    assert CandidateIds(candidates)[i] == c.id;
    GateSeesVerdict(CandidateIds(candidates), reviews, RiskTiered, high, expected, c.id);
    ScreenPasses(c, VerdictOn(reviews, RiskTiered, high, expected)(c.id), threshold);
  }

  lemma AutoWritePassed(
    candidates: seq<Candidate>, verdicts: seq<Review>, threshold: real, blocked: bool, flagged: set<string>,
    c: Candidate)
    requires c in candidates && Confident(ReviewOf(verdicts, c.id))
    requires ActionFor(Stopped(candidates, verdicts, threshold)
                       + Decided(Passed(candidates, verdicts, threshold), blocked, flagged), c.id) == Some(AutoWrite)
    ensures !blocked && Screen(c, ReviewOf(verdicts, c.id), threshold).None?
  {
    var items := Passed(candidates, verdicts, threshold);
    var k := WrittenPosition(candidates, verdicts, threshold, blocked, flagged, c.id);
    DurableSources(items, blocked, flagged, Durable(items, blocked, flagged)[k]);
    var item :| item in items && Durable(items, blocked, flagged)[k] == RelationFrom(item)
                && item.candidate.id !in flagged;
    assert ReviewOf(verdicts, c.id) == Some(item.review);
    ScreenPasses(item.candidate, Some(item.review), threshold);
  }

  lemma ApprovalEvidence(id: string, reviews: seq<Review>, high: seq<string>, expected: seq<string>)
    requires Approved(VerdictOn(reviews, RiskTiered, high, expected)(id))
    ensures forall m :: m in high && m != "" ==> ApprovedBy(reviews, id, m)
    ensures var votes := Votes(id, reviews, expected, high);
            var kind := VerdictOn(reviews, RiskTiered, high, expected)(id).value.kind;
      |votes| > 1 ==> |votes| < 2 * Tally(votes, ApprovesAs(kind))
  {
    var votes := Votes(id, reviews, expected, high);
    assert VerdictOn(reviews, RiskTiered, high, expected)(id) == Verdict(id, votes, RiskTiered, high);
    forall m | m in high && m != "" ensures ApprovedBy(reviews, id, m) {
      ApprovalNeedsHighPriority(id, reviews, expected, high, m);
    }
    if |votes| > 1 {
      ApprovalNeedsMajority(id, votes, high);
    }
  }
}
