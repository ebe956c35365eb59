/** Stored relations, their implication edges, and what both mean for truth valuations. */
module Implication {
  import opened Basics

  datatype RelationType = Sufficient | Necessary | Equivalent

  /** A stored relation between two canonical propositions; validity bounds are instants, open when absent. */
  datatype Relation = Relation(
    id: string, source: string, target: string, kind: RelationType, confidence: real,
    contextId: string, storeId: string, domain: Option<string>, assumptions: set<string>,
    validFrom: Option<int>, validTo: Option<int>)

  /** A canonical implication edge. */
  datatype Edge = Edge(
    antecedent: string, consequent: string, relationId: string, kind: RelationType, confidence: real,
    validFrom: Option<int>, validTo: Option<int>)

  function ToEdge(r: Relation, antecedent: string, consequent: string): Edge {
    Edge(antecedent, consequent, r.id, r.kind, r.confidence, r.validFrom, r.validTo)
  }

  /** `normalize_relation_edges`: one edge per implied direction. */
  function Normalize(r: Relation): seq<Edge> {
    match r.kind
    case Sufficient => [ToEdge(r, r.source, r.target)]
    case Necessary => [ToEdge(r, r.target, r.source)]
    case Equivalent => [ToEdge(r, r.source, r.target), ToEdge(r, r.target, r.source)]
  }

  /** The edge list a graph index holds. */
  function EdgesOf(relations: seq<Relation>): seq<Edge> {
    if relations == [] then [] else Normalize(relations[0]) + EdgesOf(relations[1..])
  }

  // --- meaning ---

  /** The propositions that are true. */
  type Valuation = iset<string>

  /** Sufficient: the source cannot hold without the target. Necessary: the target cannot hold without the source. */
  ghost predicate Holds(v: Valuation, r: Relation) {
    match r.kind
    case Sufficient => !(r.source in v && r.target !in v)
    case Necessary => !(r.target in v && r.source !in v)
    case Equivalent => r.source in v <==> r.target in v
  }

  ghost predicate Models(v: Valuation, relations: seq<Relation>) {
    forall r :: r in relations ==> Holds(v, r)
  }

  ghost predicate Respects(v: Valuation, graph: seq<Edge>) {
    forall e :: e in graph && e.antecedent in v ==> e.consequent in v
  }

  /** Every model of the relations that makes `a` true makes `b` true. */
  ghost predicate Entails(relations: seq<Relation>, a: string, b: string) {
    forall v: Valuation :: Models(v, relations) && a in v ==> b in v
  }

  lemma NormalizeKeepsMeaning(v: Valuation, r: Relation)
    ensures Holds(v, r) <==> Respects(v, Normalize(r))
  {
    assert Normalize(r)[0] in Normalize(r);
    if r.kind.Equivalent? {
      assert Normalize(r)[1] in Normalize(r);
    }
  }

  /** The edge list has exactly the models of the relations it was built from. */
  lemma {:induction false} EdgesKeepMeaning(v: Valuation, relations: seq<Relation>)
    ensures Models(v, relations) <==> Respects(v, EdgesOf(relations))
  {
    if relations != [] {
      var first, rest := relations[0], relations[1..];
      NormalizeKeepsMeaning(v, first);
      EdgesKeepMeaning(v, rest);
      assert relations == [first] + rest;
      assert Models(v, relations) <==> Holds(v, first) && Models(v, rest);
    }
  }

  /** Each edge comes from a listed relation, in one of its directions, with that relation's data. */
  lemma {:induction false} EdgeOrigin(relations: seq<Relation>, e: Edge)
    ensures e in EdgesOf(relations) <==> exists r :: r in relations && e in Normalize(r)
    ensures e in EdgesOf(relations) ==> exists r ::
      && r in relations && e.relationId == r.id && e.kind == r.kind && e.confidence == r.confidence
      && e.validFrom == r.validFrom && e.validTo == r.validTo
      && ((e.antecedent == r.source && e.consequent == r.target)
          || (e.antecedent == r.target && e.consequent == r.source))
  {
    if relations != [] {
      EdgeOrigin(relations[1..], e);
      assert relations == [relations[0]] + relations[1..];
    }
  }

  // --- context filtering ---

  /** A query scope; an absent or empty entry does not restrict. */
  datatype ContextFilter = ContextFilter(
    contextId: Option<string>, storeId: Option<string>, domain: Option<string>,
    assumptions: set<string>, validAt: Option<int>)

  predicate Restricts(asked: Option<string>) {
    asked.Some? && asked.value != ""
  }

  predicate ValidAt(from: Option<int>, to: Option<int>, t: int) {
    (from.Some? ==> from.value <= t) && (to.Some? ==> t <= to.value)
  }

  /** `_context_compatible` */
  predicate Compatible(r: Relation, f: ContextFilter) {
    && (Restricts(f.storeId) ==> r.storeId == f.storeId.value)
    && (Restricts(f.contextId) ==> r.contextId == f.contextId.value)
    && (Restricts(f.domain) ==> r.domain == f.domain)
    && f.assumptions <= r.assumptions
    && (f.validAt.Some? ==> ValidAt(r.validFrom, r.validTo, f.validAt.value))
  }

  /** `relations_compatible_with_filter` */
  function CompatibleRelations(relations: seq<Relation>, f: ContextFilter): (kept: seq<Relation>)
    ensures forall r :: r in kept <==> r in relations && Compatible(r, f)
  {
    if relations == [] then []
    else
      assert relations == [relations[0]] + relations[1..];
      (if Compatible(relations[0], f) then [relations[0]] else []) + CompatibleRelations(relations[1..], f)
  }

  /** What a scope keeps out: a relation fails it through one of the entries asked for, and through nothing else. */
  lemma IncompatibleExactly(r: Relation, f: ContextFilter)
    ensures !Compatible(r, f) <==>
      || (exists s :: f.storeId == Some(s) && s != "" && r.storeId != s)
      || (exists c :: f.contextId == Some(c) && c != "" && r.contextId != c)
      || (exists d :: f.domain == Some(d) && d != "" && r.domain != Some(d))
      || (exists a :: a in f.assumptions && a !in r.assumptions)
      || (exists t, b :: f.validAt == Some(t) && r.validFrom == Some(b) && t < b)
      || (exists t, b :: f.validAt == Some(t) && r.validTo == Some(b) && b < t)
  {
  }

  /** Confidences are validated into the unit interval on input. */
  ghost predicate Validated(relations: seq<Relation>) {
    forall r :: r in relations ==> 0.0 <= r.confidence <= 1.0
  }
}
