/** Writing approved relations: deduplication by two keys per record, and ids that stay aligned with the input. */
module Writer {
  import opened Basics
  import opened Implication

  /** A relation to be written; `candidate` is the candidate its provenance names. */
  datatype Entry = Entry(
    source: string, sourceId: Option<string>, target: string, targetId: Option<string>, kind: RelationType,
    confidence: real, contextId: string, storeId: string, candidate: string)

  datatype Stored = Stored(id: string, entry: Entry)

  datatype Key = Key(source: string, target: string, kind: RelationType, contextId: string, storeId: string)

  function OrElse(id: Option<string>, name: string): string {
    if id.Some? then id.value else name
  }

  /** `_dedupe_key` */
  function CanonicalKey(e: Entry): Key {
    Key(OrElse(e.sourceId, e.source), OrElse(e.targetId, e.target), e.kind, e.contextId, e.storeId)
  }

  function LabelKey(e: Entry): Key {
    Key(e.source, e.target, e.kind, e.contextId, e.storeId)
  }

  /** `_dedupe_keys`: the canonical key first. */
  function Keys(e: Entry): seq<Key> {
    if CanonicalKey(e) == LabelKey(e) then [CanonicalKey(e)] else [CanonicalKey(e), LabelKey(e)]
  }

  predicate SharesKey(a: Entry, b: Entry) {
    exists k :: k in Keys(a) && k in Keys(b)
  }

  /** The two ends as ids, where a name without an id stands for itself. */
  predicate SameEnds(a: (string, string), b: Entry) {
    || (a.0 == b.source && a.1 == b.target)
    || (a.0 == (match b.sourceId case Some(s) => s case None => b.source)
        && a.1 == (match b.targetId case Some(t) => t case None => b.target))
  }

  /** Two records share a key exactly when type, context and store agree and so do the ends, by name or by id. */
  lemma SharesKeyExactly(a: Entry, b: Entry)
    ensures SharesKey(a, b) <==>
      && a.kind == b.kind && a.contextId == b.contextId && a.storeId == b.storeId
      && (|| SameEnds((a.source, a.target), b)
          || SameEnds((match a.sourceId case Some(s) => s case None => a.source,
                       match a.targetId case Some(t) => t case None => a.target), b))
  {
    assert CanonicalKey(a) in Keys(a) && LabelKey(a) in Keys(a);
    assert CanonicalKey(b) in Keys(b) && LabelKey(b) in Keys(b);
    assert forall k :: k in Keys(a) <==> k == CanonicalKey(a) || k == LabelKey(a);
    assert forall k :: k in Keys(b) <==> k == CanonicalKey(b) || k == LabelKey(b);
  }

  // --- lookup ---

  /** The first record carrying a key. */
  function FirstWith(records: seq<Stored>, key: Key): (r: Option<Stored>)
    ensures r.Some? ==> r.value in records && key in Keys(r.value.entry)
    ensures r.None? ==> forall s :: s in records ==> key !in Keys(s.entry)
  {
    if records == [] then None
    else
      var last, front := records[|records| - 1], records[..|records| - 1];
      assert records == front + [last];
      var r := FirstWith(front, key);
      if r.None? && key in Keys(last.entry) then Some(last) else r
  }

  /** The record found under the first of the keys that has one. */
  function Lookup(records: seq<Stored>, keys: seq<Key>): (r: Option<Stored>)
    ensures r.Some? ==> r.value in records && exists k :: k in keys && k in Keys(r.value.entry)
    ensures r.None? ==> forall s, k :: s in records && k in keys ==> k !in Keys(s.entry)
  {
    if keys == [] then None
    else
      assert keys == [keys[0]] + keys[1..];
      var r := FirstWith(records, keys[0]);
      if r.Some? then r else Lookup(records, keys[1..])
  }

  /** A table with the first record under each key, as repeated `setdefault` builds it. */
  ghost predicate Indexes(table: map<Key, Stored>, records: seq<Stored>) {
    forall k :: if k in table then FirstWith(records, k) == Some(table[k]) else FirstWith(records, k) == None
  }

  method AddToIndex(table: map<Key, Stored>, ghost records: seq<Stored>, r: Stored) returns (grown: map<Key, Stored>)
    requires Indexes(table, records)
    ensures Indexes(grown, records + [r])
  {
    grown := table;
    var keys := Keys(r.entry);
    for i := 0 to |keys|
      invariant forall k :: k in grown <==> k in table || k in keys[..i]
      invariant forall k :: k in grown ==> grown[k] == if k in table then table[k] else r
    {
      assert keys[..i + 1] == keys[..i] + [keys[i]];
      if keys[i] !in grown {
        grown := grown[keys[i] := r];
      }
    }
    assert keys[..|keys|] == keys && (records + [r])[..|records|] == records;
  }

  method Find(table: map<Key, Stored>, ghost records: seq<Stored>, keys: seq<Key>) returns (r: Option<Stored>)
    requires Indexes(table, records)
    ensures r == Lookup(records, keys)
  {
    for i := 0 to |keys|
      invariant Lookup(records, keys) == Lookup(records, keys[i..])
    {
      if keys[i] in table {
        return Some(table[keys[i]]);
      }
    }
    r := None;
  }

  // --- the plan ---

  datatype Plan = Plan(added: seq<Stored>, ordered: seq<string>, duplicates: seq<string>)

  /** One prepared record: a duplicate of a stored record, of an earlier new one, or new. */
  function Place(plan: Plan, existing: seq<Stored>, r: Stored): Plan {
    var stored, earlier := Lookup(existing, Keys(r.entry)), Lookup(plan.added, Keys(r.entry));
    if stored.Some? then Plan(plan.added, plan.ordered + [stored.value.id], plan.duplicates + [stored.value.id])
    else if earlier.Some? then Plan(plan.added, plan.ordered + [earlier.value.id], plan.duplicates + [earlier.value.id])
    else Plan(plan.added + [r], plan.ordered + [r.id], plan.duplicates)
  }

  function PlanOf(prepared: seq<Stored>, existing: seq<Stored>): Plan {
    if prepared == [] then Plan([], [], [])
    else Place(PlanOf(prepared[..|prepared| - 1], existing), existing, prepared[|prepared| - 1])
  }

  /** `_dedupe_relations` */
  method DedupeRelations(prepared: seq<Stored>, existing: seq<Stored>) returns (plan: Plan)
    ensures plan == PlanOf(prepared, existing)
  {
    var byKey: map<Key, Stored> := map[];
    for i := 0 to |existing|
      invariant Indexes(byKey, existing[..i])
    {
      byKey := AddToIndex(byKey, existing[..i], existing[i]);
      assert existing[..i + 1] == existing[..i] + [existing[i]];
    }
    assert existing[..|existing|] == existing;
    var batch: map<Key, Stored> := map[];
    plan := Plan([], [], []);
    for i := 0 to |prepared|
      invariant plan == PlanOf(prepared[..i], existing) && Indexes(batch, plan.added)
    {
      var r := prepared[i];
      assert prepared[..i + 1][..i] == prepared[..i];
      var stored := Find(byKey, existing, Keys(r.entry));
      var earlier := Find(batch, plan.added, Keys(r.entry));
      if stored.Some? {
        plan := Plan(plan.added, plan.ordered + [stored.value.id], plan.duplicates + [stored.value.id]);
      } else if earlier.Some? {
        plan := Plan(plan.added, plan.ordered + [earlier.value.id], plan.duplicates + [earlier.value.id]);
      } else {
        batch := AddToIndex(batch, plan.added, r);
        plan := Plan(plan.added + [r], plan.ordered + [r.id], plan.duplicates);
      }
    }
    assert prepared[..|prepared|] == prepared;
  }

  /** Some stored or new record with the reported id shares a key with the entry. */
  ghost predicate Reports(records: seq<Stored>, id: string, e: Entry) {
    exists s :: s in records && s.id == id && SharesKey(s.entry, e)
  }

  ghost predicate KeysApart(records: seq<Stored>) {
    forall i, j :: 0 <= i < j < |records| ==> !SharesKey(records[i].entry, records[j].entry)
  }

  lemma {:induction false} PlanShape(prepared: seq<Stored>, existing: seq<Stored>)
    ensures var plan := PlanOf(prepared, existing);
      && |plan.ordered| == |prepared| && |plan.added| + |plan.duplicates| == |prepared|
      && (forall s :: s in plan.added ==> s in prepared)
  {
    if prepared != [] {
      var last, front := prepared[|prepared| - 1], prepared[..|prepared| - 1];
      assert prepared == front + [last];
      PlanShape(front, existing);
    }
  }

  /** Each input is added under its own id, or adds no relation and its reported id is listed as a duplicate. */
  lemma EachIsAddedOrDuplicate(prepared: seq<Stored>, existing: seq<Stored>, i: nat)
    requires i < |prepared|
    ensures var before, later, r := PlanOf(prepared[..i], existing), PlanOf(prepared[..i + 1], existing), prepared[i];
            var known := exists s :: s in existing + before.added && SharesKey(s.entry, r.entry);
      && (!known ==> later == Plan(before.added + [r], before.ordered + [r.id], before.duplicates))
      && (known ==> exists s ::
            && s in existing + before.added && SharesKey(s.entry, r.entry)
            && later == Plan(before.added, before.ordered + [s.id], before.duplicates + [s.id]))
  {
    var before, r := PlanOf(prepared[..i], existing), prepared[i];
    assert prepared[..i + 1][..i] == prepared[..i];
    var stored, earlier := Lookup(existing, Keys(r.entry)), Lookup(before.added, Keys(r.entry));
    if stored.Some? {
      assert stored.value in existing + before.added;
    } else if earlier.Some? {
      assert earlier.value in existing + before.added;
    }
  }

  /** No new relation shares a key with another new one or with a stored one. */
  lemma {:induction false} AddedKeysAreApart(prepared: seq<Stored>, existing: seq<Stored>)
    ensures var added := PlanOf(prepared, existing).added;
      KeysApart(added) && forall s, t :: s in added && t in existing ==> !SharesKey(s.entry, t.entry)
  {
    if prepared != [] {
      AddedKeysAreApart(prepared[..|prepared| - 1], existing);
    }
  }

  lemma SelfKey(e: Entry)
    ensures SharesKey(e, e)
  {
    assert CanonicalKey(e) in Keys(e);
  }

  lemma PlaceReports(plan: Plan, existing: seq<Stored>, r: Stored)
    ensures var next := Place(plan, existing, r);
      && plan.added <= next.added && next.ordered == plan.ordered + [next.ordered[|plan.ordered|]]
      && Reports(existing + next.added, next.ordered[|plan.ordered|], r.entry)
  {
    SelfKey(r.entry);
    var stored, earlier := Lookup(existing, Keys(r.entry)), Lookup(plan.added, Keys(r.entry));
    var s := if stored.Some? then stored.value else if earlier.Some? then earlier.value else r;
    assert s in existing + Place(plan, existing, r).added;
  }

  /** Every id belongs to a record sharing a key with the input in that position. */
  ghost predicate AllReported(records: seq<Stored>, ids: seq<string>, inputs: seq<Stored>) {
    |ids| == |inputs| && forall i :: 0 <= i < |ids| ==> Reports(records, ids[i], inputs[i].entry)
  }

  lemma AllReportedNext(
    before: seq<Stored>, later: seq<Stored>, ids: seq<string>, inputs: seq<Stored>, id: string, r: Stored)
    requires AllReported(before, ids, inputs) && Reports(later, id, r.entry) && forall s :: s in before ==> s in later
    ensures AllReported(later, ids + [id], inputs + [r])
  {
    forall i | 0 <= i < |ids| ensures Reports(later, ids[i], inputs[i].entry) {
      assert Reports(before, ids[i], inputs[i].entry);
    }
  }

  /** The planned ids are aligned with the input: each names a stored or new record sharing a key with it. */
  lemma {:induction false} PlanReportsEach(prepared: seq<Stored>, existing: seq<Stored>)
    ensures AllReported(existing + PlanOf(prepared, existing).added, PlanOf(prepared, existing).ordered, prepared)
  {
    if prepared != [] {
      var last, front := prepared[|prepared| - 1], prepared[..|prepared| - 1];
      var before := PlanOf(front, existing);
      PlanReportsEach(front, existing);
      var next := Place(before, existing, last);
      PlaceReports(before, existing, last);
      AllReportedNext(existing + before.added, existing + next.added, before.ordered, front,
                      next.ordered[|before.ordered|], last);
      assert prepared == front + [last];
    }
  }

  /** Some record shares a key with the entry. */
  ghost predicate Covers(records: seq<Stored>, e: Entry) {
    exists s :: s in records && SharesKey(s.entry, e)
  }

  lemma {:induction false} NothingLeftToAdd(again: seq<Stored>, records: seq<Stored>)
    requires forall r :: r in again ==> Covers(records, r.entry)
    ensures PlanOf(again, records).added == []
  {
    if again != [] {
      var last, front := again[|again| - 1], again[..|again| - 1];
      NothingLeftToAdd(front, records);
      assert Covers(records, last.entry) ==> Lookup(records, Keys(last.entry)).Some?;
    }
  }

  /** Planning the same relations again, over what was stored and what the first plan added, finds nothing new. */
  lemma ReplanAddsNothing(prepared: seq<Stored>, again: seq<Stored>, existing: seq<Stored>)
    requires |again| == |prepared|
    requires forall i :: 0 <= i < |again| ==> Keys(again[i].entry) == Keys(prepared[i].entry)
    ensures PlanOf(again, existing + PlanOf(prepared, existing).added).added == []
  {
    var records := existing + PlanOf(prepared, existing).added;
    PlanReportsEach(prepared, existing);
    forall r | r in again ensures Covers(records, r.entry) {
      var i :| 0 <= i < |again| && again[i] == r;
      assert Reports(records, PlanOf(prepared, existing).ordered[i], prepared[i].entry);
      assert Covers(records, prepared[i].entry);
    }
    NothingLeftToAdd(again, records);
  }

  // --- placeholder replacement ---

  function Ids(records: seq<Stored>): (ids: seq<string>)
    ensures |ids| == |records| && forall i :: 0 <= i < |ids| ==> ids[i] == records[i].id
  {
    seq(|records|, i requires 0 <= i < |records| => records[i].id)
  }

  /** The ids drawn from a list, each once, in order of first use. */
  function Firsts(ids: seq<string>, among: seq<string>): seq<string> {
    if ids == [] then []
    else NextFirsts(Firsts(ids[..|ids| - 1], among), ids[|ids| - 1], among)
  }

  function NextFirsts(firsts: seq<string>, id: string, among: seq<string>): seq<string> {
    if id in among && id !in firsts then firsts + [id] else firsts
  }

  lemma {:induction false} FirstsMembers(ids: seq<string>, among: seq<string>)
    ensures var firsts := Firsts(ids, among);
      && (forall x :: x in firsts <==> x in ids && x in among)
      && (forall i, j :: 0 <= i < j < |firsts| ==> firsts[i] != firsts[j])
  {
    if ids != [] {
      var last, front := ids[|ids| - 1], ids[..|ids| - 1];
      assert ids == front + [last];
      FirstsMembers(front, among);
    }
  }

  lemma FirstsNext(ids: seq<string>, i: nat, among: seq<string>)
    requires i < |ids|
    ensures Firsts(ids[..i + 1], among) == NextFirsts(Firsts(ids[..i], among), ids[i], among)
    ensures ids[i] in among && ids[i] !in Firsts(ids[..i], among) ==> ids[i] !in ids[..i]
  {
    assert ids[..i + 1][..i] == ids[..i];
    FirstsMembers(ids[..i], among);
  }

  /** The k-th listed name becomes the k-th new id while there is one; anything else stays. */
  function Rename(names: seq<string>, newIds: seq<string>, x: string): string {
    if names == [] then x
    else
      var n := |names| - 1;
      if names[n] == x then if n < |newIds| then newIds[n] else x
      else Rename(names[..n], newIds, x)
  }

  lemma {:induction false} RenameAt(names: seq<string>, newIds: seq<string>, k: nat)
    requires k < |names| && forall i, j :: 0 <= i < j < |names| ==> names[i] != names[j]
    ensures Rename(names, newIds, names[k]) == if k < |newIds| then newIds[k] else names[k]
  {
    if k < |names| - 1 {
      RenameAt(names[..|names| - 1], newIds, k);
    }
  }

  lemma {:induction false} RenameOther(names: seq<string>, newIds: seq<string>, x: string)
    requires x !in names
    ensures Rename(names, newIds, x) == x
  {
    if names != [] {
      RenameOther(names[..|names| - 1], newIds, x);
    }
  }

  lemma RenameNext(names: seq<string>, newIds: seq<string>, name: string, x: string)
    ensures Rename(names + [name], newIds, x)
         == if x == name then (if |names| < |newIds| then newIds[|names|] else x) else Rename(names, newIds, x)
  {
    assert (names + [name])[..|names|] == names;
  }

  ghost predicate Replaces(replaced: map<string, string>, names: seq<string>, newIds: seq<string>) {
    forall x :: (x in replaced <==> x in names) && (x in replaced ==> replaced[x] == Rename(names, newIds, x))
  }

  lemma ReplacesNext(replaced: map<string, string>, names: seq<string>, newIds: seq<string>, id: string)
    requires Replaces(replaced, names, newIds) && id !in names
    ensures Replaces(replaced[id := if |names| < |newIds| then newIds[|names|] else id], names + [id], newIds)
  {
    var next := replaced[id := if |names| < |newIds| then newIds[|names|] else id];
    forall x ensures (x in next <==> x in names + [id]) && (x in next ==> next[x] == Rename(names + [id], newIds, x)) {
      RenameNext(names, newIds, id, x);
    }
  }

  ghost predicate Renamed(ordered: seq<string>, planned: seq<string>, names: seq<string>, newIds: seq<string>) {
    |ordered| == |planned| && forall i :: 0 <= i < |ordered| ==> ordered[i] == Rename(names, newIds, planned[i])
  }

  /** A name first used later changes nothing before it. */
  lemma RenamedNext(ordered: seq<string>, planned: seq<string>, names: seq<string>, newIds: seq<string>, id: string)
    requires Renamed(ordered, planned, names, newIds) && id !in planned
    ensures Renamed(ordered, planned, names + [id], newIds)
  {
    forall i | 0 <= i < |ordered| ensures ordered[i] == Rename(names + [id], newIds, planned[i]) {
      RenameNext(names, newIds, id, planned[i]);
    }
  }

  /** `_ordered_relation_ids`: each placeholder, at its first use, takes the next new id. */
  method OrderedRelationIds(planned: seq<string>, newIds: seq<string>, placeholders: seq<string>)
    returns (ordered: seq<string>)
    ensures Renamed(ordered, planned, Firsts(planned, placeholders), newIds)
  {
    ordered := [];
    var replaced: map<string, string> := map[];
    var used := 0;
    ghost var names: seq<string> := [];
    for i := 0 to |planned|
      invariant names == Firsts(planned[..i], placeholders) && used == |names|
      invariant Replaces(replaced, names, newIds) && Renamed(ordered, planned[..i], names, newIds)
    {
      var id := planned[i];
      FirstsNext(planned, i, placeholders);
      if id in placeholders && id !in replaced {
        ReplacesNext(replaced, names, newIds, id);
        RenamedNext(ordered, planned[..i], names, newIds, id);
        replaced := replaced[id := if used < |newIds| then newIds[used] else id];
        used, names := used + 1, names + [id];
      }
      RenamedSnoc(ordered, planned, i, names, newIds);
      if id !in replaced {
        RenameOther(names, newIds, id);
      }
      ordered := ordered + [if id in replaced then replaced[id] else id];
    }
    assert planned[..|planned|] == planned;
  }

  lemma RenamedSnoc(ordered: seq<string>, planned: seq<string>, i: nat, names: seq<string>, newIds: seq<string>)
    requires i < |planned| && Renamed(ordered, planned[..i], names, newIds)
    ensures Renamed(ordered + [Rename(names, newIds, planned[i])], planned[..i + 1], names, newIds)
  {
    assert planned[..i + 1] == planned[..i] + [planned[i]];
  }

  /** Generated ids are new and pairwise distinct. */
  ghost predicate NewIds(prepared: seq<Stored>, existing: seq<Stored>) {
    && (forall i, j :: 0 <= i < j < |prepared| ==> prepared[i].id != prepared[j].id)
    && (forall r, s :: r in prepared && s in existing ==> r.id != s.id)
  }

  lemma PlaceKeepsOrder(plan: Plan, existing: seq<Stored>, r: Stored, among: seq<string>)
    requires Firsts(plan.ordered, among) == Ids(plan.added) && r.id !in Ids(plan.added)
    requires forall s :: s in Place(plan, existing, r).added ==> s.id in among
    requires forall s :: s in existing ==> s.id !in among
    ensures Firsts(Place(plan, existing, r).ordered, among) == Ids(Place(plan, existing, r).added)
  {
    var next, n := Place(plan, existing, r), |plan.ordered|;
    assert next.ordered[..n] == plan.ordered;
    var stored, earlier := Lookup(existing, Keys(r.entry)), Lookup(plan.added, Keys(r.entry));
    if stored.None? && earlier.Some? {
      var k :| 0 <= k < |plan.added| && plan.added[k] == earlier.value;
      assert Ids(plan.added)[k] == earlier.value.id;
    } else if stored.None? {
      assert Ids(plan.added + [r]) == Ids(plan.added) + [r.id];
    }
  }

  lemma AddedIsPrefix(prepared: seq<Stored>, existing: seq<Stored>)
    requires prepared != []
    ensures PlanOf(prepared[..|prepared| - 1], existing).added <= PlanOf(prepared, existing).added
  {
  }

  lemma UnusedId(added: seq<Stored>, front: seq<Stored>, id: string)
    requires forall s :: s in added ==> s in front
    requires forall r :: r in front ==> r.id != id
    ensures id !in Ids(added)
  {
    forall k | 0 <= k < |added| ensures Ids(added)[k] != id {
      assert added[k] in front;
    }
  }

  /** A plan first uses its placeholders in the order of the new relations. */
  lemma {:induction false} PlaceholdersInOrder(prepared: seq<Stored>, existing: seq<Stored>, among: seq<string>)
    requires NewIds(prepared, existing)
    requires forall s :: s in PlanOf(prepared, existing).added ==> s.id in among
    requires forall s :: s in existing ==> s.id !in among
    ensures Firsts(PlanOf(prepared, existing).ordered, among) == Ids(PlanOf(prepared, existing).added)
  {
    if prepared != [] {
      var last, front := prepared[|prepared| - 1], prepared[..|prepared| - 1];
      var before := PlanOf(front, existing);
      AddedIsPrefix(prepared, existing);
      assert forall s :: s in before.added ==> s in PlanOf(prepared, existing).added;
      PlaceholdersInOrder(front, existing, among);
      PlanShape(front, existing);
      UnusedId(before.added, front, last.id);
      PlaceKeepsOrder(before, existing, last, among);
    }
  }

  // --- the write ---

  /** `_normalize_relation_identities`: fills missing proposition ids from the alias index. */
  function FillIdentities(index: map<string, string>, e: Entry): Entry {
    e.(sourceId := if e.sourceId.None? && e.source in index then Some(index[e.source]) else e.sourceId,
       targetId := if e.targetId.None? && e.target in index then Some(index[e.target]) else e.targetId)
  }

  /** The same relation, with an end's missing id looked up by its name. */
  predicate Filled(e: Entry, index: map<string, string>, f: Entry) {
    && f.source == e.source && f.target == e.target && f.kind == e.kind && f.confidence == e.confidence
    && f.contextId == e.contextId && f.storeId == e.storeId && f.candidate == e.candidate
    && f.sourceId == (match e.sourceId
                      case Some(id) => Some(id)
                      case None => if e.source in index then Some(index[e.source]) else None)
    && f.targetId == (match e.targetId
                      case Some(id) => Some(id)
                      case None => if e.target in index then Some(index[e.target]) else None)
  }

  /** The dry-run assertion: normalized relations under generated ids. */
  function Prepare(index: map<string, string>, ids: seq<string>, relations: seq<Entry>): (prepared: seq<Stored>)
    requires |ids| == |relations|
    ensures |prepared| == |relations|
    ensures forall i :: 0 <= i < |prepared| ==>
      prepared[i].id == ids[i] && Filled(relations[i], index, prepared[i].entry)
  {
    seq(|relations|, i requires 0 <= i < |relations| => Stored(ids[i], FillIdentities(index, relations[i])))
  }

  /** The new relations as the store keeps them, under the ids it returns. */
  function StoredAs(added: seq<Stored>, newIds: seq<string>): (records: seq<Stored>)
    requires |newIds| == |added|
    ensures |records| == |added|
    ensures forall i :: 0 <= i < |records| ==> records[i].id == newIds[i] && records[i].entry == added[i].entry
  {
    seq(|added|, i requires 0 <= i < |added| => Stored(newIds[i], added[i].entry))
  }

  /** Whatever is stored is one of the relations, with looked-up ids. */
  lemma AddedIsFilled(
    index: map<string, string>, ids: seq<string>, relations: seq<Entry>, existing: seq<Stored>, newIds: seq<string>,
    s: Stored)
    returns (e: Entry)
    requires |ids| == |relations| && |newIds| == |PlanOf(Prepare(index, ids, relations), existing).added|
    requires s in StoredAs(PlanOf(Prepare(index, ids, relations), existing).added, newIds)
    ensures e in relations && Filled(e, index, s.entry)
  {
    var prepared := Prepare(index, ids, relations);
    var added := PlanOf(prepared, existing).added;
    var k :| 0 <= k < |added| && StoredAs(added, newIds)[k] == s;
    var i := AddedIsPrepared(prepared, existing, added[k]);
    e := relations[i];
  }

  lemma AddedIsPrepared(prepared: seq<Stored>, existing: seq<Stored>, r: Stored) returns (i: nat)
    requires r in PlanOf(prepared, existing).added
    ensures i < |prepared| && prepared[i] == r
  {
    PlanShape(prepared, existing);
    i :| i < |prepared| && prepared[i] == r;
  }

  lemma RenamedReport(
    existing: seq<Stored>, added: seq<Stored>, newIds: seq<string>, id: string, e: Entry)
    requires |newIds| == |added| && Reports(existing + added, id, e)
    requires forall i, j :: 0 <= i < j < |added| ==> added[i].id != added[j].id
    requires forall s, t :: s in existing && t in added ==> s.id != t.id
    ensures Reports(existing + StoredAs(added, newIds), Rename(Ids(added), newIds, id), e)
  {
    var s :| s in existing + added && s.id == id && SharesKey(s.entry, e);
    if s in existing {
      RenameOther(Ids(added), newIds, id);
      assert s in existing + StoredAs(added, newIds);
    } else {
      var k :| 0 <= k < |added| && added[k] == s;
      RenameAt(Ids(added), newIds, k);
      assert StoredAs(added, newIds)[k] in existing + StoredAs(added, newIds);
    }
  }

  lemma AddedIdsAreNew(prepared: seq<Stored>, existing: seq<Stored>)
    requires NewIds(prepared, existing)
    ensures var added := PlanOf(prepared, existing).added;
      && (forall i, j :: 0 <= i < j < |added| ==> added[i].id != added[j].id)
      && (forall s, t :: s in existing && t in added ==> s.id != t.id)
  {
    AddedIdsAreDistinct(prepared, existing);
    PlanShape(prepared, existing);
  }

  lemma {:induction false} AddedIdsAreDistinct(prepared: seq<Stored>, existing: seq<Stored>)
    requires forall i, j :: 0 <= i < j < |prepared| ==> prepared[i].id != prepared[j].id
    ensures var added := PlanOf(prepared, existing).added;
      forall i, j :: 0 <= i < j < |added| ==> added[i].id != added[j].id
  {
    if prepared != [] {
      var last, front := prepared[|prepared| - 1], prepared[..|prepared| - 1];
      AddedIdsAreDistinct(front, existing);
      PlanShape(front, existing);
      UnusedId(PlanOf(front, existing).added, front, last.id);
      assert forall k :: 0 <= k < |PlanOf(front, existing).added| ==>
        Ids(PlanOf(front, existing).added)[k] == PlanOf(front, existing).added[k].id;
    }
  }

  lemma RenamedPlanReports(prepared: seq<Stored>, existing: seq<Stored>, newIds: seq<string>, ordered: seq<string>)
    requires NewIds(prepared, existing)
    requires var plan := PlanOf(prepared, existing);
      |newIds| == |plan.added| && Renamed(ordered, plan.ordered, Firsts(plan.ordered, Ids(plan.added)), newIds)
    ensures AllReported(existing + StoredAs(PlanOf(prepared, existing).added, newIds), ordered, prepared)
  {
    var plan := PlanOf(prepared, existing);
    PlanReportsEach(prepared, existing);
    AddedIdsAreNew(prepared, existing);
    forall s | s in plan.added ensures s.id in Ids(plan.added) {
      var k :| 0 <= k < |plan.added| && plan.added[k] == s;
      assert Ids(plan.added)[k] == s.id;
    }
    forall s | s in existing ensures s.id !in Ids(plan.added) {
    }
    PlaceholdersInOrder(prepared, existing, Ids(plan.added));
    forall i | 0 <= i < |ordered|
      ensures Reports(existing + StoredAs(plan.added, newIds), ordered[i], prepared[i].entry)
    {
      RenamedReport(existing, plan.added, newIds, plan.ordered[i], prepared[i].entry);
    }
  }

  /**
   `write_approved_relations`; `assertion` is the assertion tool's answer, the stored ids or a refusal. The returned
   ids are aligned with the input even when the store renames what it writes.
   */
  method WriteApproved(
    relations: seq<Entry>, index: map<string, string>, ids: seq<string>, existing: seq<Stored>,
    assertion: seq<Stored> -> Option<seq<string>>)
    returns (written: Option<seq<string>>, store: seq<Stored>)
    requires |ids| == |relations| && NewIds(Prepare(index, ids, relations), existing)
    requires forall rs :: assertion(rs).Some? ==> |assertion(rs).value| == |rs|
    ensures written.Some? ==> AllReported(store, written.value, Prepare(index, ids, relations))
    ensures var added := PlanOf(Prepare(index, ids, relations), existing).added;
      && (written.None? <==> added != [] && assertion(added).None?)
      && store == existing + if added == [] || written.None? then [] else StoredAs(added, assertion(added).value)
  {
    if relations == [] {
      return Some([]), existing;
    }
    var prepared := Prepare(index, ids, relations);
    var plan := DedupeRelations(prepared, existing);
    PlanReportsEach(prepared, existing);
    if plan.added == [] {
      assert existing + [] == existing;
      return Some(plan.ordered), existing;
    }
    var answer := assertion(plan.added);
    if answer.None? {
      return None, existing;
    }
    var ordered := OrderedRelationIds(plan.ordered, answer.value, Ids(plan.added));
    RenamedPlanReports(prepared, existing, answer.value, ordered);
    return Some(ordered), existing + StoredAs(plan.added, answer.value);
  }
}
