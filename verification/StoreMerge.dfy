/** Merging incoming records into a stored list through position indexes. */
module StoreMerge {
  import opened Basics

  // --- upsert by key ---

  function LastIndex<T, K(==)>(records: seq<T>, key: T -> K, k: K): (i: Option<nat>)
    ensures i.Some? ==> i.value < |records| && key(records[i.value]) == k
    ensures i.Some? ==> forall j :: i.value < j < |records| ==> key(records[j]) != k
    ensures i.None? ==> forall j :: 0 <= j < |records| ==> key(records[j]) != k
  {
    if records == [] then None
    else
      var n := |records| - 1;
      if key(records[n]) == k then Some(n) else LastIndex(records[..n], key, k)
  }

  /** One incoming record: the last record with its key is replaced, or it is appended. */
  function Put<T, K(==)>(records: seq<T>, key: T -> K, r: T): seq<T> {
    var at := LastIndex(records, key, key(r));
    if at.Some? then records[at.value := r] else records + [r]
  }

  function PutAll<T, K(==)>(records: seq<T>, key: T -> K, incoming: seq<T>): seq<T> {
    if incoming == [] then records
    else Put(PutAll(records, key, incoming[..|incoming| - 1]), key, incoming[|incoming| - 1])
  }

  /** The index maps each key to its last position. */
  ghost predicate Locates<T, K(!new)>(positions: map<K, nat>, records: seq<T>, key: T -> K) {
    forall k :: LastIndex(records, key, k) == if k in positions then Some(positions[k]) else None
  }

  /** `_upsert_relations`, and `_merge_groups` after its store filter. */
  method Upsert<T, K(==, !new)>(current: seq<T>, incoming: seq<T>, key: T -> K) returns (merged: seq<T>, updated: nat)
    ensures merged == PutAll(current, key, incoming)
    ensures |merged| + updated == |current| + |incoming|
  {
    merged := current;
    var positions: map<K, nat> := map[];
    for i := 0 to |current|
      invariant Locates(positions, current[..i], key)
    {
      assert current[..i + 1][..i] == current[..i];
      positions := positions[key(current[i]) := i];
    }
    assert current[..|current|] == current;
    updated := 0;
    for i := 0 to |incoming|
      invariant merged == PutAll(current, key, incoming[..i]) && Locates(positions, merged, key)
      invariant |merged| + updated == |current| + i
    {
      var r := incoming[i];
      assert incoming[..i + 1][..i] == incoming[..i];
      if key(r) in positions {
        ReplaceKeepsLocations(positions, merged, key, r);
        merged := merged[positions[key(r)] := r];
        updated := updated + 1;
      } else {
        assert (merged + [r])[..|merged|] == merged;
        positions := positions[key(r) := |merged|];
        merged := merged + [r];
      }
    }
    assert incoming[..|incoming|] == incoming;
  }

  lemma ReplaceKeepsLocations<T, K(!new)>(positions: map<K, nat>, records: seq<T>, key: T -> K, r: T)
    requires Locates(positions, records, key) && key(r) in positions
    ensures positions[key(r)] < |records| && Locates(positions, records[positions[key(r)] := r], key)
  {
    var at := positions[key(r)];
    assert LastIndex(records, key, key(r)) == Some(at);
    forall k ensures LastIndex(records[at := r], key, k) == LastIndex(records, key, k) {
      SameKeysSameIndex(records, records[at := r], key, k);
    }
  }

  ghost predicate SameKeys<T, K>(a: seq<T>, b: seq<T>, key: T -> K) {
    |a| == |b| && forall i :: 0 <= i < |a| ==> key(a[i]) == key(b[i])
  }

  lemma {:induction false} SameKeysSameIndex<T, K>(a: seq<T>, b: seq<T>, key: T -> K, k: K)
    requires SameKeys(a, b, key)
    ensures LastIndex(a, key, k) == LastIndex(b, key, k)
  {
    if a != [] {
      SameKeysSameIndex(a[..|a| - 1], b[..|b| - 1], key, k);
    }
  }

  /** What the slot holds after the upsert: the last incoming record of its key, if it is that key's last slot. */
  function Slot<T, K(==)>(records: seq<T>, key: T -> K, incoming: seq<T>, i: nat): T
    requires i < |records|
  {
    var k := key(records[i]);
    var latest := LastIndex(incoming, key, k);
    if LastIndex(records, key, k) == Some(i) && latest.Some? then incoming[latest.value] else records[i]
  }

  /** Once every incoming key is present, an upsert keeps all keys and changes only those keys' last slots. */
  lemma {:induction false} UpsertInPlace<T, K>(records: seq<T>, key: T -> K, incoming: seq<T>)
    requires forall r :: r in incoming ==> LastIndex(records, key, key(r)).Some?
    ensures var merged := PutAll(records, key, incoming);
      SameKeys(merged, records, key) && forall i :: 0 <= i < |records| ==> merged[i] == Slot(records, key, incoming, i)
  {
    if incoming != [] {
      var last, front := incoming[|incoming| - 1], incoming[..|incoming| - 1];
      assert incoming == front + [last];
      UpsertInPlace(records, key, front);
      SameKeysSameIndex(PutAll(records, key, front), records, key, key(last));
    }
  }

  lemma AppendIndex<T, K>(records: seq<T>, key: T -> K, r: T, k: K)
    ensures LastIndex(records + [r], key, k) == if key(r) == k then Some(|records|) else LastIndex(records, key, k)
  {
    assert (records + [r])[..|records|] == records;
  }

  lemma ReplaceIndex<T, K>(records: seq<T>, key: T -> K, i: nat, r: T, k: K)
    requires i < |records| && key(records[i]) == key(r)
    ensures LastIndex(records[i := r], key, k) == LastIndex(records, key, k)
  {
    SameKeysSameIndex(records[i := r], records, key, k);
  }

  lemma PutIndex<T, K>(records: seq<T>, key: T -> K, r: T, k: K)
    ensures LastIndex(Put(records, key, r), key, k) ==
      if k == key(r) && LastIndex(records, key, k).None? then Some(|records|) else LastIndex(records, key, k)
  {
    var at := LastIndex(records, key, key(r));
    if at.Some? {
      ReplaceIndex(records, key, at.value, r, k);
    } else {
      AppendIndex(records, key, r, k);
    }
  }

  /** After an upsert, the last slot of each incoming key holds the last incoming record with that key. */
  lemma {:induction false} UpsertHolds<T, K>(records: seq<T>, key: T -> K, incoming: seq<T>, k: K)
    requires LastIndex(incoming, key, k).Some?
    ensures var merged := PutAll(records, key, incoming);
      && LastIndex(merged, key, k).Some?
      && merged[LastIndex(merged, key, k).value] == incoming[LastIndex(incoming, key, k).value]
  {
    var last, front := incoming[|incoming| - 1], incoming[..|incoming| - 1];
    var before := PutAll(records, key, front);
    PutIndex(before, key, last, k);
    if key(last) != k {
      UpsertHolds(records, key, front, k);
    }
  }

  /** Upserting the same records again changes nothing, even with repeated keys on either side. */
  lemma UpsertIsIdempotent<T, K>(records: seq<T>, key: T -> K, incoming: seq<T>)
    ensures PutAll(PutAll(records, key, incoming), key, incoming) == PutAll(records, key, incoming)
  {
    var merged := PutAll(records, key, incoming);
    forall r | r in incoming ensures LastIndex(merged, key, key(r)).Some? {
      UpsertHolds(records, key, incoming, key(r));
    }
    UpsertInPlace(merged, key, incoming);
    var again := PutAll(merged, key, incoming);
    forall i | 0 <= i < |merged| ensures again[i] == merged[i] {
      if LastIndex(incoming, key, key(merged[i])).Some? {
        UpsertHolds(records, key, incoming, key(merged[i]));
      }
    }
  }

  // --- replacing by pair ---

  function Without<T, K(==)>(records: seq<T>, key: T -> K, keys: set<K>): seq<T> {
    if records == [] then []
    else
      var n := |records| - 1;
      if key(records[n]) in keys then Without(records[..n], key, keys)
      else Without(records[..n], key, keys) + [records[n]]
  }

  /** `_replace_same_pair_relations` */
  function ReplaceSamePair<T(==), K(==)>(current: seq<T>, incoming: seq<T>, key: T -> K): seq<T> {
    Without(current, key, set r | r in incoming :: key(r)) + incoming
  }

  lemma {:induction false} WithoutConcat<T, K>(a: seq<T>, b: seq<T>, key: T -> K, keys: set<K>)
    requires forall r :: r in b ==> key(r) in keys
    ensures Without(a + b, key, keys) == Without(a, key, keys)
  {
    if b == [] {
      assert a + b == a;
    } else {
      var n := |b| - 1;
      assert (a + b)[..|a + b| - 1] == a + b[..n];
      WithoutConcat(a, b[..n], key, keys);
    }
  }

  lemma WithoutNext<T, K>(records: seq<T>, r: T, key: T -> K, keys: set<K>)
    requires key(r) !in keys
    ensures Without(records + [r], key, keys) == Without(records, key, keys) + [r]
  {
    assert (records + [r])[..|records|] == records;
  }

  lemma {:induction false} WithoutTwice<T, K>(records: seq<T>, key: T -> K, keys: set<K>)
    ensures Without(Without(records, key, keys), key, keys) == Without(records, key, keys)
  {
    if records != [] {
      var n := |records| - 1;
      WithoutTwice(records[..n], key, keys);
      if key(records[n]) !in keys {
        WithoutNext(Without(records[..n], key, keys), records[n], key, keys);
      }
    }
  }

  /** Exactly the stored relations that share a pair with an incoming one give way. */
  lemma {:induction false} KeptByPair<T, K>(records: seq<T>, key: T -> K, keys: set<K>, r: T)
    ensures r in Without(records, key, keys) <==> r in records && key(r) !in keys
  {
    if records != [] {
      var n := |records| - 1;
      KeptByPair(records[..n], key, keys, r);
      assert records == records[..n] + [records[n]];
    }
  }

  /** What replacing by pair leaves: the stored records of other pairs, and then the incoming ones. */
  lemma ReplaceExactly<T, K>(current: seq<T>, incoming: seq<T>, key: T -> K, r: T)
    ensures var merged := ReplaceSamePair(current, incoming, key);
      && (r in merged <==> r in incoming || (r in current && forall s :: s in incoming ==> key(s) != key(r)))
      && |incoming| <= |merged| && merged[|merged| - |incoming|..] == incoming
  {
    KeptByPair(current, key, set s | s in incoming :: key(s), r);
  }

  /** Replacing by pair again changes nothing. */
  lemma ReplaceIsIdempotent<T, K>(current: seq<T>, incoming: seq<T>, key: T -> K)
    ensures var once := ReplaceSamePair(current, incoming, key); ReplaceSamePair(once, incoming, key) == once
  {
    var keys := set r | r in incoming :: key(r);
    WithoutConcat(Without(current, key, keys), incoming, key, keys);
    WithoutTwice(current, key, keys);
  }

  // --- independence records ---

  /** An independence record; the pair is unordered. */
  datatype Independence = Independence(
    id: string, left: string, right: string, contextId: string, storeId: string, independent: bool)

  datatype PairKey = PairKey(pair: set<string>, contextId: string, storeId: string)

  /** `_independence_key` */
  function KeyOf(r: Independence): PairKey {
    PairKey({r.left, r.right}, r.contextId, r.storeId)
  }

  /** Two records are about one pair exactly when context, store and the two ends agree, in either order. */
  lemma SamePairExactly(a: Independence, b: Independence)
    ensures KeyOf(a) == KeyOf(b) <==>
      && a.contextId == b.contextId && a.storeId == b.storeId
      && ((a.left == b.left && a.right == b.right) || (a.left == b.right && a.right == b.left))
  {
    if KeyOf(a) == KeyOf(b) {
      assert a.left in KeyOf(b).pair && a.right in KeyOf(b).pair && b.left in KeyOf(a).pair && b.right in KeyOf(a).pair;
    } else if a.left == b.right && a.right == b.left {
      assert {a.left, a.right} == {b.left, b.right};
    }
  }

  predicate DistinctIds(records: seq<Independence>) {
    forall i, j :: 0 <= i < j < |records| ==> records[i].id != records[j].id
  }

  /** The id index is the exact inverse of the list; a pair entry points at a record with that pair. */
  ghost predicate Indexed(records: seq<Independence>, byId: map<string, nat>, byPair: map<PairKey, nat>) {
    && (forall i :: 0 <= i < |records| ==> records[i].id in byId && byId[records[i].id] == i)
    && (forall id :: id in byId ==> byId[id] < |records| && records[byId[id]].id == id)
    && (forall k :: k in byPair ==> byPair[k] < |records| && KeyOf(records[byPair[k]]) == k)
  }

  predicate Clash(a: Independence, b: Independence) {
    a.id == b.id || KeyOf(a) == KeyOf(b)
  }

  /** The list with its two indexes. */
  datatype Table = Table(records: seq<Independence>, byId: map<string, nat>, byPair: map<PairKey, nat>)

  ghost predicate Valid(t: Table) {
    Indexed(t.records, t.byId, t.byPair)
  }

  function Upserted(t: Table, r: Independence): Table
    requires Valid(t)
  {
    if r.id in t.byId then
      var i := t.byId[r.id];
      Table(t.records[i := r], t.byId, (t.byPair - {KeyOf(t.records[i])})[KeyOf(r) := i])
    else if KeyOf(r) in t.byPair then
      var i := t.byPair[KeyOf(r)];
      Table(t.records[i := r], (t.byId - {t.records[i].id})[r.id := i], t.byPair)
    else
      Table(t.records + [r], t.byId[r.id := |t.records|], t.byPair[KeyOf(r) := |t.records|])
  }

  /** The two comprehensions that index the stored records. */
  function Loaded(records: seq<Independence>): (t: Table)
    ensures t.records == records
  {
    if records == [] then Table([], map[], map[])
    else
      var n := |records| - 1;
      var t := Loaded(records[..n]);
      Table(records, t.byId[records[n].id := n], t.byPair[KeyOf(records[n]) := n])
  }

  ghost function Merged(t: Table, incoming: seq<Independence>): (later: Table)
    requires Valid(t)
    ensures Valid(later)
  {
    if incoming == [] then t
    else
      var before, r := Merged(t, incoming[..|incoming| - 1]), incoming[|incoming| - 1];
      UpsertedIsValid(before, r);
      Upserted(before, r)
  }

  lemma UpsertedIsValid(t: Table, r: Independence)
    requires Valid(t)
    ensures Valid(Upserted(t, r))
  {
    if r.id in t.byId {
      ReplacedById(t, r);
    } else if KeyOf(r) in t.byPair {
      ReplacedByPair(t, r);
    }
  }

  lemma ReplacedById(t: Table, r: Independence)
    requires Valid(t) && r.id in t.byId
    ensures Valid(Upserted(t, r))
  {
  }

  lemma ReplacedByPair(t: Table, r: Independence)
    requires Valid(t) && r.id !in t.byId && KeyOf(r) in t.byPair
    ensures Valid(Upserted(t, r))
  {
  }

  /** What survives one upsert. */
  ghost predicate Survives(before: seq<Independence>, r: Independence, later: seq<Independence>) {
    && r in later && (forall s :: s in before && !Clash(s, r) ==> s in later)
    && (forall s :: s in later ==> s == r || s in before)
  }

  lemma UpsertSurvives(t: Table, r: Independence)
    requires Valid(t)
    ensures Survives(t.records, r, Upserted(t, r).records)
  {
    var later := Upserted(t, r).records;
    if r.id in t.byId || KeyOf(r) in t.byPair {
      var index := if r.id in t.byId then t.byId[r.id] else t.byPair[KeyOf(r)];
      assert later[index] == r;
      forall s | s in t.records && !Clash(s, r) ensures s in later {
        var i :| 0 <= i < |t.records| && t.records[i] == s;
        assert later[i] == s;
      }
    }
  }

  /** One incoming record under `upsert`: replaces by id, else by pair, else is appended. */
  method UpsertOne(records: seq<Independence>, byId: map<string, nat>, byPair: map<PairKey, nat>, r: Independence)
    returns (later: seq<Independence>, laterId: map<string, nat>, laterPair: map<PairKey, nat>)
    requires Indexed(records, byId, byPair)
    ensures Indexed(later, laterId, laterPair) && Survives(records, r, later)
    ensures later == if r.id in byId then records[byId[r.id] := r]
                     else if KeyOf(r) in byPair then records[byPair[KeyOf(r)] := r]
                     else records + [r]
    ensures Table(later, laterId, laterPair) == Upserted(Table(records, byId, byPair), r)
  {
    later, laterId, laterPair := records, byId, byPair;
    if r.id in byId {
      var index := byId[r.id];
      laterPair := laterPair - {KeyOf(records[index])};
      later := later[index := r];
      laterPair := laterPair[KeyOf(r) := index];
    } else if KeyOf(r) in byPair {
      var index := byPair[KeyOf(r)];
      laterId := laterId - {records[index].id};
      later := later[index := r];
      laterId := laterId[r.id := index];
    } else {
      laterId := laterId[r.id := |records|];
      laterPair := laterPair[KeyOf(r) := |records|];
      later := later + [r];
    }
    UpsertedIsValid(Table(records, byId, byPair), r);
    UpsertSurvives(Table(records, byId, byPair), r);
  }

  /** No later record of the list clashes with this one. */
  predicate LastWord(incoming: seq<Independence>, j: nat)
    requires j < |incoming|
  {
    forall k :: j < k < |incoming| ==> !Clash(incoming[j], incoming[k])
  }

  lemma {:induction false} MergeSurvives(t: Table, incoming: seq<Independence>)
    requires Valid(t)
    ensures forall j :: 0 <= j < |incoming| && LastWord(incoming, j) ==> incoming[j] in Merged(t, incoming).records
    ensures forall s :: s in t.records && (forall r :: r in incoming ==> !Clash(s, r))
              ==> s in Merged(t, incoming).records
    ensures forall s :: s in Merged(t, incoming).records ==> s in t.records || s in incoming
  {
    if incoming != [] {
      var n, front := |incoming| - 1, incoming[..|incoming| - 1];
      MergeSurvives(t, front);
      UpsertSurvives(Merged(t, front), incoming[n]);
      assert incoming == front + [incoming[n]];
      forall j | 0 <= j < n && LastWord(incoming, j) ensures incoming[j] in Merged(t, incoming).records {
        assert LastWord(front, j) && front[j] == incoming[j];
      }
    }
  }

  // --- when pairs stay distinct ---

  predicate DistinctPairs(records: seq<Independence>) {
    forall i, j :: 0 <= i < j < |records| ==> KeyOf(records[i]) != KeyOf(records[j])
  }

  /** The pair index is complete, and no pair occurs twice. */
  ghost predicate Paired(t: Table) {
    DistinctPairs(t.records) && forall r :: r in t.records ==> KeyOf(r) in t.byPair
  }

  /** The incoming record replaces one by id although another one holds its pair. */
  ghost predicate Collides(t: Table, r: Independence)
    requires Valid(t)
  {
    r.id in t.byId && exists k :: 0 <= k < |t.records| && k != t.byId[r.id] && KeyOf(t.records[k]) == KeyOf(r)
  }

  lemma ReplacingByIdKeepsPairs(t: Table, r: Independence)
    requires Valid(t) && Paired(t) && r.id in t.byId
    ensures DistinctPairs(Upserted(t, r).records) <==> !Collides(t, r)
    ensures !Collides(t, r) ==> Paired(Upserted(t, r))
  {
    var i, later := t.byId[r.id], Upserted(t, r);
    if k :| 0 <= k < |t.records| && k != i && KeyOf(t.records[k]) == KeyOf(r) {
      assert later.records[k] == t.records[k] && later.records[i] == r;
    } else {
      forall s | s in later.records ensures KeyOf(s) in later.byPair {
        var j :| 0 <= j < |later.records| && later.records[j] == s;
        assert j != i ==> t.records[j] in t.records && KeyOf(t.records[j]) != KeyOf(t.records[i]);
      }
    }
  }

  /** One upsert keeps the pairs distinct exactly when it does not collide, and then the index stays complete. */
  lemma PairsSurviveUpsert(t: Table, r: Independence)
    requires Valid(t) && Paired(t)
    ensures DistinctPairs(Upserted(t, r).records) <==> !Collides(t, r)
    ensures !Collides(t, r) ==> Paired(Upserted(t, r))
  {
    if r.id in t.byId {
      ReplacingByIdKeepsPairs(t, r);
    } else if KeyOf(r) !in t.byPair {
      assert forall s :: s in t.records ==> KeyOf(s) != KeyOf(r);
    }
  }

  /** No upsert of the merge collides. */
  ghost predicate NeverCollides(t: Table, incoming: seq<Independence>)
    requires Valid(t)
  {
    incoming == [] ||
    (var front := incoming[..|incoming| - 1];
     NeverCollides(t, front) && !Collides(Merged(t, front), incoming[|incoming| - 1]))
  }

  /** The pairs are distinct before the merge and after every upsert of it. */
  ghost predicate AlwaysDistinct(t: Table, incoming: seq<Independence>)
    requires Valid(t)
  {
    DistinctPairs(Merged(t, incoming).records) && (incoming == [] || AlwaysDistinct(t, incoming[..|incoming| - 1]))
  }

  /** Through a whole merge the pairs stay distinct exactly when no upsert collides. */
  lemma {:induction false} PairsSurviveMerge(t: Table, incoming: seq<Independence>)
    requires Valid(t) && Paired(t)
    ensures AlwaysDistinct(t, incoming) <==> NeverCollides(t, incoming)
    ensures NeverCollides(t, incoming) ==> Paired(Merged(t, incoming))
  {
    if incoming != [] {
      var front := incoming[..|incoming| - 1];
      PairsSurviveMerge(t, front);
      if NeverCollides(t, front) {
        PairsSurviveUpsert(Merged(t, front), incoming[|incoming| - 1]);
      }
    }
  }

  lemma {:induction false} LoadedIsValid(records: seq<Independence>)
    requires DistinctIds(records)
    ensures Valid(Loaded(records))
  {
    if records != [] {
      LoadedIsValid(records[..|records| - 1]);
    }
  }

  lemma {:induction false} LoadedIsPaired(records: seq<Independence>)
    requires DistinctPairs(records)
    ensures Paired(Loaded(records))
  {
    if records != [] {
      var n := |records| - 1;
      LoadedIsPaired(records[..n]);
      assert records == records[..n] + [records[n]];
    }
  }

  /** The input: a record with the id of the second and the pair of the first leaves that pair in the list twice. */
  lemma UpsertRepeatsAPair(a: Independence, b: Independence, c: Independence)
    requires a.id != b.id && KeyOf(a) != KeyOf(b) && c.id == b.id && KeyOf(c) == KeyOf(a)
    ensures DistinctIds([a, b]) && DistinctPairs([a, b]) && Valid(Loaded([a, b]))
    ensures Merged(Loaded([a, b]), [c]).records == [a, c] && !DistinctPairs([a, c])
  {
    LoadedIsValid([a, b]);
    var t := Loaded([a, b]);
    assert t.records[0] == a && t.records[1] == b && [c][..0] == [];
    assert [a, c][0] == a && [a, c][1] == c;
  }

  /** `_merge_independence_records` under `upsert`. */
  method MergeIndependence(current: seq<Independence>, incoming: seq<Independence>)
    returns (records: seq<Independence>, ghost byId: map<string, nat>, ghost byPair: map<PairKey, nat>)
    requires DistinctIds(current)
    ensures Indexed(records, byId, byPair) && DistinctIds(records)
    ensures forall j :: 0 <= j < |incoming| && LastWord(incoming, j) ==> incoming[j] in records
    ensures forall s :: s in current && (forall r :: r in incoming ==> !Clash(s, r)) ==> s in records
    ensures forall s :: s in records ==> s in current || s in incoming
    ensures Valid(Loaded(current)) && Table(records, byId, byPair) == Merged(Loaded(current), incoming)
    ensures DistinctPairs(current) ==>
      && (AlwaysDistinct(Loaded(current), incoming) <==> NeverCollides(Loaded(current), incoming))
      && (NeverCollides(Loaded(current), incoming) ==> DistinctPairs(records))
  {
    records := current;
    var positions: map<string, nat>, pairs: map<PairKey, nat> := map[], map[];
    for i := 0 to |current|
      invariant Table(current[..i], positions, pairs) == Loaded(current[..i])
    {
      assert current[..i + 1][..i] == current[..i];
      positions := positions[current[i].id := i];
      pairs := pairs[KeyOf(current[i]) := i];
    }
    assert current[..|current|] == current;
    LoadedIsValid(current);
    for i := 0 to |incoming|
      invariant Table(records, positions, pairs) == Merged(Loaded(current), incoming[..i])
    {
      assert incoming[..i + 1][..i] == incoming[..i];
      records, positions, pairs := UpsertOne(records, positions, pairs, incoming[i]);
    }
    assert incoming[..|incoming|] == incoming;
    byId, byPair := positions, pairs;
    MergeSurvives(Loaded(current), incoming);
    if DistinctPairs(current) {
      LoadedIsPaired(current);
      PairsSurviveMerge(Loaded(current), incoming);
    }
  }
}
