/** Planning a batch again: nothing is added, but a duplicate may be reported under another record's id. */
module Replan {
  import opened Basics
  import opened Implication
  import opened Writer

  // --- lookups over two lists ---

  lemma {:induction false} FirstWithConcat(a: seq<Stored>, b: seq<Stored>, key: Key)
    ensures FirstWith(a + b, key) == if FirstWith(a, key).Some? then FirstWith(a, key) else FirstWith(b, key)
  {
    if b == [] {
      assert a + b == a;
    } else {
      var n := |b| - 1;
      assert (a + b)[..|a + b| - 1] == a + b[..n];
      FirstWithConcat(a, b[..n], key);
    }
  }

  /** The canonical key first, then the label key. */
  lemma LookupTwice(records: seq<Stored>, e: Entry)
    ensures Lookup(records, Keys(e)) ==
      if FirstWith(records, CanonicalKey(e)).Some? then FirstWith(records, CanonicalKey(e))
      else FirstWith(records, LabelKey(e))
  {
    var keys := Keys(e);
    assert Lookup([], []) == None;
    if |keys| == 2 {
      assert keys[1..] == [LabelKey(e)] && keys[1..][1..] == [];
    } else {
      assert keys[1..] == [];
    }
  }

  /** Some record carries the key. */
  ghost predicate Carried(records: seq<Stored>, key: Key) {
    exists s :: s in records && key in Keys(s.entry)
  }

  /** Where keys are apart, a key leads to the one record that carries it. */
  lemma OnlyCarrier(records: seq<Stored>, key: Key, r: Stored)
    requires KeysApart(records) && r in records && key in Keys(r.entry)
    ensures FirstWith(records, key) == Some(r)
  {
    var i :| 0 <= i < |records| && records[i] == r;
    var s := FirstWith(records, key).value;
    var j :| 0 <= j < |records| && records[j] == s;
    assert SharesKey(s.entry, r.entry);
  }

  // --- what a plan reports ---

  /** The record whose id is reported: a stored one, else an earlier new one, else the record itself. */
  function Found(added: seq<Stored>, existing: seq<Stored>, r: Stored): Stored {
    var stored, earlier := Lookup(existing, Keys(r.entry)), Lookup(added, Keys(r.entry));
    if stored.Some? then stored.value else if earlier.Some? then earlier.value else r
  }

  /** The record the plan reports for its `i`-th input. */
  function ReportedFor(prepared: seq<Stored>, existing: seq<Stored>, i: nat): Stored
    requires i < |prepared|
  {
    Found(PlanOf(prepared[..i], existing).added, existing, prepared[i])
  }

  lemma {:induction false} PlanGrows(prepared: seq<Stored>, existing: seq<Stored>, i: nat)
    requires i <= |prepared|
    ensures PlanOf(prepared[..i], existing).added <= PlanOf(prepared, existing).added
    ensures PlanOf(prepared[..i], existing).ordered <= PlanOf(prepared, existing).ordered
  {
    if i == |prepared| {
      assert prepared[..i] == prepared;
    } else {
      var front := prepared[..|prepared| - 1];
      assert front[..i] == prepared[..i];
      PlanGrows(front, existing, i);
    }
  }

  lemma ReportedId(prepared: seq<Stored>, existing: seq<Stored>, i: nat)
    requires i < |prepared|
    ensures i < |PlanOf(prepared, existing).ordered|
    ensures PlanOf(prepared, existing).ordered[i] == ReportedFor(prepared, existing, i).id
  {
    var next := prepared[..i + 1];
    assert next[..i] == prepared[..i] && next[i] == prepared[i];
    PlanShape(prepared[..i], existing);
    PlanShape(next, existing);
    PlanGrows(prepared, existing, i + 1);
  }

  lemma NextIsAdded(prepared: seq<Stored>, existing: seq<Stored>, i: nat)
    requires i < |prepared|
    ensures var r, before := prepared[i], PlanOf(prepared[..i], existing).added;
      Lookup(existing, Keys(r.entry)).None? && Lookup(before, Keys(r.entry)).None?
      ==> PlanOf(prepared[..i + 1], existing).added == before + [r]
  {
    var next := prepared[..i + 1];
    assert next[..i] == prepared[..i] && next[i] == prepared[i];
  }

  lemma ExtensionHolds(before: seq<Stored>, r: Stored, added: seq<Stored>)
    requires before + [r] <= added
    ensures r in added
  {
    assert added[|before|] == r;
  }

  /** An input found nowhere is itself the next new relation. */
  lemma NewOneIsAdded(prepared: seq<Stored>, existing: seq<Stored>, i: nat)
    requires i < |prepared|
    ensures var r, before, added :=
              prepared[i], PlanOf(prepared[..i], existing).added, PlanOf(prepared, existing).added;
      && before <= added
      && (Lookup(existing, Keys(r.entry)).None? && Lookup(before, Keys(r.entry)).None? ==> r in added)
  {
    var r, before, added := prepared[i], PlanOf(prepared[..i], existing).added, PlanOf(prepared, existing).added;
    PlanGrows(prepared, existing, i);
    if Lookup(existing, Keys(r.entry)).None? && Lookup(before, Keys(r.entry)).None? {
      PlanGrows(prepared, existing, i + 1);
      NextIsAdded(prepared, existing, i);
      ExtensionHolds(before, r, added);
    }
  }

  // --- when a replan reports another record ---

  ghost predicate Apart(added: seq<Stored>, existing: seq<Stored>) {
    KeysApart(added) && forall s, t :: s in added && t in existing ==> !SharesKey(s.entry, t.entry)
  }

  /** A record reported for an entry whose canonical key it carries is the first one carrying it. */
  lemma CarrierIsFirst(existing: seq<Stored>, before: seq<Stored>, added: seq<Stored>, r: Stored)
    requires before <= added && Apart(added, existing)
    requires Lookup(existing, Keys(r.entry)).None? && Lookup(before, Keys(r.entry)).None? ==> r in added
    requires CanonicalKey(r.entry) in Keys(Found(before, existing, r).entry)
    ensures FirstWith(existing + added, CanonicalKey(r.entry)) == Some(Found(before, existing, r))
  {
    var key, x := CanonicalKey(r.entry), Found(before, existing, r);
    FirstWithConcat(existing, added, key);
    LookupTwice(existing, r.entry);
    if Lookup(existing, Keys(r.entry)).None? {
      assert x in added;
      OnlyCarrier(added, key, x);
    }
  }

  /** Reported by its label key alone, a record is the first one carrying that. */
  lemma LabelCarrierIsFirst(existing: seq<Stored>, before: seq<Stored>, added: seq<Stored>, r: Stored)
    requires before <= added && Apart(added, existing)
    requires Lookup(existing, Keys(r.entry)).None? && Lookup(before, Keys(r.entry)).None? ==> r in added
    requires CanonicalKey(r.entry) !in Keys(Found(before, existing, r).entry)
    ensures FirstWith(existing + added, LabelKey(r.entry)) == Some(Found(before, existing, r))
  {
    var key, x := LabelKey(r.entry), Found(before, existing, r);
    FirstWithConcat(existing, added, key);
    LookupTwice(existing, r.entry);
    LookupTwice(before, r.entry);
    if Lookup(existing, Keys(r.entry)).None? {
      assert x in added;
      OnlyCarrier(added, key, x);
    }
  }

  lemma AnotherIsFound(existing: seq<Stored>, before: seq<Stored>, added: seq<Stored>, r: Stored)
    requires before <= added && Apart(added, existing)
    requires Lookup(existing, Keys(r.entry)).None? && Lookup(before, Keys(r.entry)).None? ==> r in added
    ensures var x, y := Found(before, existing, r), Lookup(existing + added, Keys(r.entry));
      && y.Some? && x in existing + added
      && (y.value != x <==>
          CanonicalKey(r.entry) !in Keys(x.entry) && Carried(existing + added, CanonicalKey(r.entry)))
  {
    var key, x := CanonicalKey(r.entry), Found(before, existing, r);
    LookupTwice(existing + added, r.entry);
    if key in Keys(x.entry) {
      CarrierIsFirst(existing, before, added, r);
    } else {
      LabelCarrierIsFirst(existing, before, added, r);
    }
  }

  lemma ReplanOrder(again: seq<Stored>, records: seq<Stored>, i: nat)
    requires i < |again| && forall r :: r in again ==> Covers(records, r.entry)
    ensures i < |PlanOf(again, records).ordered| && Lookup(records, Keys(again[i].entry)).Some?
    ensures PlanOf(again, records).ordered[i] == Lookup(records, Keys(again[i].entry)).value.id
  {
    assert Covers(records, again[i].entry);
    ReportedId(again, records, i);
  }

  predicate UniqueIds(records: seq<Stored>) {
    forall i, j :: 0 <= i < j < |records| ==> records[i].id != records[j].id
  }

  /**
   The `i`-th input is reported under another record by a second plan exactly when the record first reported does not
   carry its canonical key and some stored or new record does. With distinct ids the reported ids differ just then.
   */
  lemma ReplanReportsAnother(prepared: seq<Stored>, again: seq<Stored>, existing: seq<Stored>, i: nat)
    requires i < |again| == |prepared|
    requires forall k :: 0 <= k < |again| ==> Keys(again[k].entry) == Keys(prepared[k].entry)
    ensures var plan, key := PlanOf(prepared, existing), CanonicalKey(prepared[i].entry);
            var records := existing + plan.added;
            var replan, x := PlanOf(again, records), ReportedFor(prepared, existing, i);
            var y := Lookup(records, Keys(again[i].entry));
      && i < |plan.ordered| && plan.ordered[i] == x.id
      && i < |replan.ordered| && y.Some? && replan.ordered[i] == y.value.id
      && (y.value != x <==> key !in Keys(x.entry) && Carried(records, key))
      && (UniqueIds(records) ==> (replan.ordered[i] != plan.ordered[i] <==> y.value != x))
  {
    var plan := PlanOf(prepared, existing);
    var records := existing + plan.added;
    ReportedId(prepared, existing, i);
    NewOneIsAdded(prepared, existing, i);
    AddedKeysAreApart(prepared, existing);
    AnotherIsFound(existing, PlanOf(prepared[..i], existing).added, plan.added, prepared[i]);
    PlanReportsEach(prepared, existing);
    forall r | r in again ensures Covers(records, r.entry) {
      var k :| 0 <= k < |again| && again[k] == r;
      assert Reports(records, plan.ordered[k], prepared[k].entry);
    }
    ReplanOrder(again, records, i);
  }

  function Implies(name: string, id: Option<string>): Entry {
    Entry(name, id, "goal", None, Sufficient, 1.0, "", "", "")
  }

  lemma LookupInOne(s: Stored, e: Entry)
    ensures Lookup([s], Keys(e)) ==
      if CanonicalKey(e) in Keys(s.entry) || LabelKey(e) in Keys(s.entry) then Some(s) else None
  {
    LookupTwice([s], e);
  }

  lemma PlanOverBoth(a: Stored, b: Stored, r: Stored)
    requires CanonicalKey(b.entry) !in Keys(a.entry) && CanonicalKey(r.entry) !in Keys(a.entry)
    requires CanonicalKey(r.entry) in Keys(b.entry)
    ensures PlanOf([b, r], [a] + [b]).ordered == [b.id, b.id]
  {
    FirstWithConcat([a], [b], CanonicalKey(b.entry));
    FirstWithConcat([a], [b], CanonicalKey(r.entry));
    LookupTwice([a] + [b], b.entry);
    LookupTwice([a] + [b], r.entry);
    assert [b][..0] == [] && [b, r][..1] == [b];
    assert PlanOf([b], [a] + [b]) == Place(PlanOf([], [a] + [b]), [a] + [b], b);
  }

  /**
   An input: the stored relation is written by name, the first new one by the id that name stands for, and the second
   new one by both. The first plan reports the stored relation for it, the second plan the new one.
   */
  lemma SecondPlanReportsAnother(name: string, id: string, ids: (string, string, string))
    requires name != id
    ensures var a, b, r := Stored(ids.0, Implies(name, None)), Stored(ids.1, Implies(id, None)),
                           Stored(ids.2, Implies(name, Some(id)));
      && PlanOf([b, r], [a]) == Plan([b], [ids.1, ids.0], [ids.0])
      && PlanOf([b, r], [a] + PlanOf([b, r], [a]).added).ordered == [ids.1, ids.1]
  {
    var a, b, r := Stored(ids.0, Implies(name, None)), Stored(ids.1, Implies(id, None)),
                   Stored(ids.2, Implies(name, Some(id)));
    var plan := PlanOf([b], [a]);
    LookupInOne(a, b.entry);
    LookupInOne(a, r.entry);
    assert [b][..0] == [] && [b, r][..1] == [b];
    assert plan == Place(PlanOf([], [a]), [a], b) == Plan([b], [ids.1], []);
    assert PlanOf([b, r], [a]) == Place(plan, [a], r);
    PlanOverBoth(a, b, r);
  }
}
