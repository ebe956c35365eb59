/** `classify`: reachability in the implication graph is propositional entailment. */
module Classification {
  import opened Basics
  import opened Implication
  import opened PathSearch
  import opened GraphIndex

  /** Every valuation respecting the edges that makes `a` true makes `b` true. */
  ghost predicate Forces(graph: seq<Edge>, a: string, b: string) {
    forall v: Valuation :: Respects(v, graph) && a in v ==> b in v
  }

  lemma {:induction false} TruthFollowsTrail(graph: seq<Edge>, trail: seq<Edge>, a: string, b: string, v: Valuation)
    requires IsTrail(graph, trail, a, b) && Respects(v, graph) && a in v
    ensures b in v
    decreases |trail|
  {
    if trail != [] {
      TruthFollowsTrail(graph, trail[..|trail| - 1], a, trail[|trail| - 1].antecedent, v);
    }
  }

  /** The valuation that makes true exactly what `a` leads to. */
  ghost function ReachableFrom(graph: seq<Edge>, a: string): Valuation {
    iset x | Connected(graph, a, x)
  }

  /** It respects every edge, so it is a countermodel to anything out of reach. */
  lemma ReachableIsModel(graph: seq<Edge>, a: string)
    ensures Respects(ReachableFrom(graph, a), graph) && a in ReachableFrom(graph, a)
  {
    assert IsTrail(graph, [], a, a);
    forall e | e in graph && Connected(graph, a, e.antecedent) ensures Connected(graph, a, e.consequent) {
      var trail :| IsTrail(graph, trail, a, e.antecedent);
      ExtendTrail(graph, trail, a, e);
    }
  }

  lemma ConnectedIsForced(graph: seq<Edge>, a: string, b: string)
    ensures Connected(graph, a, b) <==> Forces(graph, a, b)
  {
    if Connected(graph, a, b) {
      var trail :| IsTrail(graph, trail, a, b);
      forall v: Valuation | Respects(v, graph) && a in v ensures b in v {
        TruthFollowsTrail(graph, trail, a, b, v);
      }
    }
    ReachableIsModel(graph, a);
  }

  /** The relations a confidence floor leaves in play. */
  function Strong(relations: seq<Relation>, floor: real): (kept: seq<Relation>)
    ensures forall r :: r in kept <==> r in relations && (floor <= 0.0 || floor <= r.confidence)
  {
    if relations == [] then []
    else
      var rest := Strong(relations[1..], floor);
      assert relations == [relations[0]] + relations[1..];
      if floor <= 0.0 || floor <= relations[0].confidence then [relations[0]] + rest else rest
  }

  lemma FloorOnEdges(relations: seq<Relation>, floor: real, e: Edge)
    ensures e in SearchGraph(EdgesOf(relations), floor) <==> e in EdgesOf(Strong(relations, floor))
  {
    EdgeOrigin(relations, e);
    EdgeOrigin(Strong(relations, floor), e);
  }

  /** Connection in the searched graph is entailment by the relations in play. */
  lemma ConnectedIsEntailed(relations: seq<Relation>, floor: real, a: string, b: string)
    ensures Connected(SearchGraph(EdgesOf(relations), floor), a, b) <==> Entails(Strong(relations, floor), a, b)
  {
    var graph, strong := SearchGraph(EdgesOf(relations), floor), Strong(relations, floor);
    ConnectedIsForced(graph, a, b);
    forall v: Valuation ensures Respects(v, graph) <==> Models(v, strong) {
      forall e ensures e in graph <==> e in EdgesOf(strong) { FloorOnEdges(relations, floor, e); }
      EdgesKeepMeaning(v, strong);
    }
  }

  lemma ValidatedEdges(relations: seq<Relation>)
    requires Validated(relations)
    ensures UnitConfidences(EdgesOf(relations))
  {
    forall e | e in EdgesOf(relations) ensures 0.0 <= e.confidence <= 1.0 {
      EdgeOrigin(relations, e);
    }
  }

  // --- the classifier ---

  datatype Verdict = SufficientFor | NecessaryFor | EquivalentTo | Unknown

  /** `classify_reachability` */
  function ClassifyReachability(forward: Option<Path>, reverse: Option<Path>): Verdict {
    if forward.Some? && reverse.Some? then EquivalentTo
    else if forward.Some? then SufficientFor
    else if reverse.Some? then NecessaryFor
    else Unknown
  }

  /** `classify` up to the exclusivity check. */
  function Classify(
    relations: seq<Relation>, filter: ContextFilter, source: string, target: string, maxDepth: int, policy: Policy,
    directOnly: bool, floor: real): Verdict
    requires Validated(relations)
  {
    ValidatedEdges(CompatibleRelations(relations, filter));
    var edges := EdgesOf(CompatibleRelations(relations, filter));
    ClassifyReachability(
      FindPath(edges, source, target, maxDepth, BestConfidence, policy, directOnly, floor),
      FindPath(edges, target, source, maxDepth, BestConfidence, policy, directOnly, floor))
  }

  /** What the classification speaks about: the relations in scope at or above the floor. */
  function InPlay(relations: seq<Relation>, filter: ContextFilter, floor: real): seq<Relation> {
    Strong(CompatibleRelations(relations, filter), floor)
  }

  /** The depth bound reaches the node count less one. */
  predicate Deep(relations: seq<Relation>, maxDepth: int) {
    |NodeSet(EdgesOf(relations))| - 1 <= maxDepth
  }

  /** Whatever the depth bound, a claimed direction is entailed. */
  lemma ClassifyIsSound(
    relations: seq<Relation>, filter: ContextFilter, source: string, target: string, maxDepth: int, policy: Policy,
    directOnly: bool, floor: real)
    requires Validated(relations)
    ensures var verdict, inPlay := Classify(relations, filter, source, target, maxDepth, policy, directOnly, floor),
                                   InPlay(relations, filter, floor);
      && (verdict.SufficientFor? || verdict.EquivalentTo? ==> Entails(inPlay, source, target))
      && (verdict.NecessaryFor? || verdict.EquivalentTo? ==> Entails(inPlay, target, source))
  {
    ValidatedEdges(CompatibleRelations(relations, filter));
    var compatible := CompatibleRelations(relations, filter);
    PathIsEntailment(compatible, source, target, maxDepth, BestConfidence, policy, directOnly, floor);
    PathIsEntailment(compatible, target, source, maxDepth, BestConfidence, policy, directOnly, floor);
  }

  lemma PathIsEntailment(
    relations: seq<Relation>, a: string, b: string, maxDepth: int, strategy: Strategy, policy: Policy,
    directOnly: bool, floor: real)
    requires UnitConfidences(EdgesOf(relations))
    ensures FindPath(EdgesOf(relations), a, b, maxDepth, strategy, policy, directOnly, floor).Some?
            ==> Entails(Strong(relations, floor), a, b)
    ensures !directOnly && Deep(relations, maxDepth) && Entails(Strong(relations, floor), a, b)
            ==> FindPath(EdgesOf(relations), a, b, maxDepth, strategy, policy, directOnly, floor).Some?
  {
    var edges := EdgesOf(relations);
    if FindPath(edges, a, b, maxDepth, strategy, policy, directOnly, floor).Some? {
      FoundPathIsPath(edges, a, b, maxDepth, strategy, policy, directOnly, floor);
      assert Connected(SearchGraph(edges, floor), a, b);
    }
    ConnectedIsEntailed(relations, floor, a, b);
    if !directOnly {
      EnoughDepth(edges, a, b, maxDepth, strategy, policy, floor);
    }
  }

  /** With the depth bound at the node count less one, the verdict is exactly entailment in each direction. */
  lemma ClassifyIsEntailment(
    relations: seq<Relation>, filter: ContextFilter, source: string, target: string, maxDepth: int, policy: Policy,
    floor: real)
    requires Validated(relations)
    requires Deep(CompatibleRelations(relations, filter), maxDepth)
    ensures var verdict, inPlay := Classify(relations, filter, source, target, maxDepth, policy, false, floor),
                                   InPlay(relations, filter, floor);
      && (verdict.EquivalentTo? <==> Entails(inPlay, source, target) && Entails(inPlay, target, source))
      && (verdict.SufficientFor? <==> Entails(inPlay, source, target) && !Entails(inPlay, target, source))
      && (verdict.NecessaryFor? <==> !Entails(inPlay, source, target) && Entails(inPlay, target, source))
      && (verdict.Unknown? <==> !Entails(inPlay, source, target) && !Entails(inPlay, target, source))
  {
    var compatible := CompatibleRelations(relations, filter);
    ValidatedEdges(compatible);
    PathIsEntailment(compatible, source, target, maxDepth, BestConfidence, policy, false, floor);
    PathIsEntailment(compatible, target, source, maxDepth, BestConfidence, policy, false, floor);
  }

  /** A verified explicit chain is an entailment from its first node to its last. */
  lemma VerifiedChainIsEntailed(relations: seq<Relation>, chain: seq<string>, floor: real)
    requires Validated(relations) && chain != [] && Linked(EdgesOf(relations), chain, floor)
    ensures Entails(Strong(relations, floor), chain[0], chain[|chain| - 1])
  {
    BestEdgesTrail(EdgesOf(relations), chain, floor);
    ConnectedIsEntailed(relations, floor, chain[0], chain[|chain| - 1]);
  }
}
