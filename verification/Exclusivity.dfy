/** The exclusivity override of `classify`: the search over exclusive groups and siblings of the target. */
module Exclusivity {
  import opened Basics
  import opened Implication
  import opened PathSearch
  import opened GraphIndex
  import opened Classification
  import opened Contradictions

  datatype Scope = SameContext | Global

  datatype Group = Group(id: string, members: seq<string>, contextId: string, storeId: string, scope: Scope)

  /** `_exclusive_group_compatible` */
  predicate GroupCompatible(g: Group, f: ContextFilter) {
    && (Restricts(f.storeId) ==> g.storeId == f.storeId.value)
    && !(Restricts(f.contextId) && g.scope.SameContext? && g.contextId != f.contextId.value)
  }

  predicate InGroup(r: Relation, g: Group) {
    r.storeId == g.storeId && (g.scope.Global? || r.contextId == g.contextId)
  }

  /** `_relations_for_group` */
  function RelationsForGroup(relations: seq<Relation>, g: Group, f: ContextFilter): (kept: seq<Relation>)
    ensures forall r :: r in kept <==> r in relations && Compatible(r, f) && InGroup(r, g)
  {
    OfGroup(CompatibleRelations(relations, f), g)
  }

  function OfGroup(relations: seq<Relation>, g: Group): (kept: seq<Relation>)
    ensures forall r :: r in kept <==> r in relations && InGroup(r, g)
  {
    if relations == [] then []
    else
      assert relations == [relations[0]] + relations[1..];
      (if InGroup(relations[0], g) then [relations[0]] else []) + OfGroup(relations[1..], g)
  }

  /** What the loop passes over: another store's groups, and under an asked context other contexts' local ones. */
  lemma GroupScope(g: Group, f: ContextFilter, r: Relation)
    ensures !GroupCompatible(g, f) <==>
      || (exists s :: f.storeId == Some(s) && s != "" && g.storeId != s)
      || (g.scope != Global && exists c :: f.contextId == Some(c) && c != "" && g.contextId != c)
    ensures InGroup(r, g) <==> r.storeId == g.storeId && (g.scope == SameContext ==> r.contextId == g.contextId)
  {
  }

  datatype ClassifyQuery = ClassifyQuery(
    source: string, target: string, filter: ContextFilter, maxDepth: int, policy: Policy, directOnly: bool, floor: real)

  /** `find_paths` on one group's index. */
  function GroupRouter(relations: seq<Relation>, g: Group, q: ClassifyQuery): Router
    requires Validated(relations)
  {
    var kept := RelationsForGroup(relations, g, q.filter);
    ValidatedEdges(kept);
    (a, b) => FindPath(EdgesOf(kept), a, b, q.maxDepth, BestConfidence, q.policy, q.directOnly, q.floor)
  }

  /** The group speaks about the target and has relations in scope. */
  predicate Applies(relations: seq<Relation>, g: Group, q: ClassifyQuery) {
    q.target in g.members && GroupCompatible(g, q.filter) && RelationsForGroup(relations, g, q.filter) != []
  }

  /** The source leads to both, by paths that hold together at some instant. */
  ghost predicate Clash(route: Router, source: string, target: string, m: string) {
    && route(source, target).Some? && route(source, m).Some?
    && JointlyValid([route(source, target).value, route(source, m).value])
  }

  /** The siblings of the target, in the order they are tried. */
  function Siblings(g: Group, target: string): (siblings: seq<string>)
    ensures LexSorted(siblings) && forall m :: m in siblings <==> m in g.members && m != target
  {
    Sort(Except(g.members, target))
  }

  /** The loop over siblings: the first, and so the least, that clashes. */
  method FirstClash(route: Router, source: string, target: string, siblings: seq<string>) returns (r: Option<string>)
    requires LexSorted(siblings)
    ensures r.Some? ==> r.value in siblings && Clash(route, source, target, r.value)
    ensures r.Some? ==> forall m :: m in siblings && Clash(route, source, target, m) ==> NotBefore(m, r.value)
    ensures r.None? ==> forall m :: m in siblings ==> !Clash(route, source, target, m)
  {
    var p := route(source, target);
    if p.None? {
      return None;
    }
    for i := 0 to |siblings|
      invariant forall j :: 0 <= j < i ==> !Clash(route, source, target, siblings[j])
    {
      var q := route(source, siblings[i]);
      if q.Some? {
        var together := PathsTemporallyCompatible([p.value, q.value]);
        if together {
          forall m | m in siblings && Clash(route, source, target, m) ensures NotBefore(m, siblings[i]) {
            var j :| 0 <= j < |siblings| && siblings[j] == m;
          }
          return Some(siblings[i]);
        }
      }
    }
    return None;
  }

  predicate NotBefore(m: string, first: string) {
    m == first || LexLess(first, m)
  }

  /** The path queries of a group, or none when the group is passed over. */
  type Search = Group -> Option<Router>

  function SearchOf(relations: seq<Relation>, q: ClassifyQuery): Search
    requires Validated(relations)
  {
    g => if Applies(relations, g, q) then Some(GroupRouter(relations, g, q)) else None
  }

  /** A group and one of its members that contradict the classification. */
  ghost predicate Contradicts(search: Search, g: Group, source: string, target: string, m: string) {
    search(g).Some? && m in g.members && m != target && Clash(search(g).value, source, target, m)
  }

  ghost predicate GroupContradicts(search: Search, g: Group, source: string, target: string) {
    exists m :: Contradicts(search, g, source, target, m)
  }

  /** The first contradicting group and its first clashing sibling. */
  ghost predicate IsFirst(search: Search, groups: seq<Group>, source: string, target: string, found: (nat, string)) {
    && found.0 < |groups| && Contradicts(search, groups[found.0], source, target, found.1)
    && (forall k :: 0 <= k < found.0 ==> !GroupContradicts(search, groups[k], source, target))
    && (forall m :: Contradicts(search, groups[found.0], source, target, m) ==> NotBefore(m, found.1))
  }

  /** The pass of the outer loop over one group. */
  method ClashIn(search: Search, g: Group, source: string, target: string) returns (r: Option<string>)
    ensures r.None? ==> !GroupContradicts(search, g, source, target)
    ensures r.Some? ==> Contradicts(search, g, source, target, r.value)
    ensures r.Some? ==> forall m :: Contradicts(search, g, source, target, m) ==> NotBefore(m, r.value)
  {
    var route := search(g);
    if route.None? {
      return None;
    }
    r := FirstClash(route.value, source, target, Siblings(g, target));
  }

  /** `find_classification_contradiction` */
  method FindContradiction(search: Search, groups: seq<Group>, source: string, target: string)
    returns (r: Option<(nat, string)>)
    ensures r.Some? ==> IsFirst(search, groups, source, target, r.value)
    ensures r.None? ==> forall k :: 0 <= k < |groups| ==> !GroupContradicts(search, groups[k], source, target)
  {
    for k := 0 to |groups|
      invariant forall i :: 0 <= i < k ==> !GroupContradicts(search, groups[i], source, target)
    {
      var m := ClashIn(search, groups[k], source, target);
      if m.Some? {
        return Some((k, m.value));
      }
    }
    return None;
  }

  /** The classification as reported: contradictory, or the verdict of reachability. */
  datatype Report = Contradictory(group: nat, member: string) | Classified(verdict: Verdict)

  /** `classify` */
  method ClassifyWithGroups(relations: seq<Relation>, groups: seq<Group>, q: ClassifyQuery) returns (r: Report)
    requires Validated(relations)
    ensures r.Contradictory? <==>
      exists k :: 0 <= k < |groups| && GroupContradicts(SearchOf(relations, q), groups[k], q.source, q.target)
    ensures r.Contradictory? ==> IsFirst(SearchOf(relations, q), groups, q.source, q.target, (r.group, r.member))
    ensures r.Classified? ==> r.verdict == Classify(
      relations, q.filter, q.source, q.target, q.maxDepth, q.policy, q.directOnly, q.floor)
  {
    var found := FindContradiction(SearchOf(relations, q), groups, q.source, q.target);
    if found.Some? {
      assert GroupContradicts(SearchOf(relations, q), groups[found.value.0], q.source, q.target);
      return Contradictory(found.value.0, found.value.1);
    }
    return Classified(Classify(
      relations, q.filter, q.source, q.target, q.maxDepth, q.policy, q.directOnly, q.floor));
  }

  // --- what the override means ---

  /**
   A contradiction leaves the source no model of the group's relations that respects the group, at an instant when both
   paths hold.
   */
  lemma ContradictionIsReal(relations: seq<Relation>, g: Group, q: ClassifyQuery, m: string)
    requires Validated(relations) && Contradicts(SearchOf(relations, q), g, q.source, q.target, m)
    ensures var route := GroupRouter(relations, g, q);
      exists t ::
        && JointlyValidAt([route(q.source, q.target).value, route(q.source, m).value], t)
        && NoExclusiveModelAt(
             SearchGraph(EdgesOf(RelationsForGroup(relations, g, q.filter)), q.floor), g.members, q.source, t)
  {
    var kept, route := RelationsForGroup(relations, g, q.filter), GroupRouter(relations, g, q);
    ValidatedEdges(kept);
    var p, r := route(q.source, q.target).value, route(q.source, m).value;
    var t :| JointlyValidAt([p, r], t);
    assert p in [p, r] && r in [p, r];
    TwoPathsConflict(EdgesOf(kept), g.members, q.source, q.target, m, q.maxDepth, BestConfidence, q.policy,
                     q.directOnly, q.floor, t);
  }

  ghost predicate DeepIn(relations: seq<Relation>, g: Group, q: ClassifyQuery) {
    !q.directOnly && Deep(RelationsForGroup(relations, g, q.filter), q.maxDepth)
  }

  /** The edges the group's path queries search. */
  function GroupGraph(relations: seq<Relation>, g: Group, q: ClassifyQuery): seq<Edge> {
    SearchGraph(EdgesOf(RelationsForGroup(relations, g, q.filter)), q.floor)
  }

  lemma LeadsIsRouted(relations: seq<Relation>, g: Group, q: ClassifyQuery, b: string, t: int)
    requires Validated(relations) && DeepIn(relations, g, q) && LeadsAt(GroupGraph(relations, g, q), q.source, b, t)
    ensures GroupRouter(relations, g, q)(q.source, b).Some?
  {
    var kept := RelationsForGroup(relations, g, q.filter);
    ValidatedEdges(kept);
    EnoughDepth(EdgesOf(kept), q.source, b, q.maxDepth, BestConfidence, q.policy, q.floor);
  }

  /** No model of what then holds makes the source true and at most one of the two. */
  ghost predicate Incompatible(relations: seq<Relation>, g: Group, q: ClassifyQuery, m: string, t: int) {
    NoExclusiveModelAt(GroupGraph(relations, g, q), [q.target, m], q.source, t)
  }

  lemma IncompatibleIsRouted(relations: seq<Relation>, g: Group, q: ClassifyQuery, m: string, t: int)
    requires Validated(relations) && DeepIn(relations, g, q) && m != q.target && Incompatible(relations, g, q, m, t)
    ensures GroupRouter(relations, g, q)(q.source, q.target).Some? && GroupRouter(relations, g, q)(q.source, m).Some?
  {
    var graph, members := GroupGraph(relations, g, q), [q.target, m];
    ConflictIsTwoValidTrails(graph, members, q.source, t);
    assert LeadsAt(graph, q.source, q.target, t) && LeadsAt(graph, q.source, m, t);
    LeadsIsRouted(relations, g, q, q.target, t);
    LeadsIsRouted(relations, g, q, m, t);
  }

  lemma ClashIsIncompatible(relations: seq<Relation>, g: Group, q: ClassifyQuery, m: string)
    requires Validated(relations) && m != q.target && Clash(GroupRouter(relations, g, q), q.source, q.target, m)
    ensures exists t :: Incompatible(relations, g, q, m, t)
  {
    var kept, route, members := RelationsForGroup(relations, g, q.filter), GroupRouter(relations, g, q), [q.target, m];
    ValidatedEdges(kept);
    var p, r := route(q.source, q.target).value, route(q.source, m).value;
    var t :| JointlyValidAt([p, r], t);
    assert p in [p, r] && r in [p, r] && members[0] in members && members[1] in members;
    TwoPathsConflict(EdgesOf(kept), members, q.source, q.target, m, q.maxDepth, BestConfidence, q.policy,
                     q.directOnly, q.floor, t);
    assert Incompatible(relations, g, q, m, t);
  }

  /** The two paths found, when there are two, share an instant. */
  ghost predicate FoundTogether(route: Router, source: string, target: string, m: string) {
    route(source, target).Some? && route(source, m).Some?
    ==> JointlyValid([route(source, target).value, route(source, m).value])
  }

  /** The group names the target, the query's scope does not leave it out, and some relation is in scope for it. */
  ghost predicate InScope(relations: seq<Relation>, g: Group, q: ClassifyQuery) {
    && q.target in g.members && GroupCompatible(g, q.filter)
    && exists r :: r in relations && Compatible(r, q.filter) && InGroup(r, g)
  }

  lemma AppliesInScope(relations: seq<Relation>, g: Group, q: ClassifyQuery)
    ensures Applies(relations, g, q) <==> InScope(relations, g, q)
  {
    var kept := RelationsForGroup(relations, g, q.filter);
    if kept != [] {
      assert kept[0] in kept;
    }
  }

  /**
   With enough depth and whatever the windows, a group contradicts the classification through a sibling exactly when it
   applies, the source is incompatible with having just one of the two at some instant, and the two paths found share
   an instant. A contradiction is missed exactly when they share none.
   */
  lemma OverrideExactly(relations: seq<Relation>, g: Group, q: ClassifyQuery, m: string)
    requires Validated(relations) && DeepIn(relations, g, q)
    ensures Contradicts(SearchOf(relations, q), g, q.source, q.target, m) <==>
      && InScope(relations, g, q) && m in g.members && m != q.target
      && (exists t :: Incompatible(relations, g, q, m, t))
      && FoundTogether(GroupRouter(relations, g, q), q.source, q.target, m)
  {
    AppliesInScope(relations, g, q);
    if m != q.target {
      if Clash(GroupRouter(relations, g, q), q.source, q.target, m) {
        ClashIsIncompatible(relations, g, q, m);
      }
      if t :| Incompatible(relations, g, q, m, t) {
        IncompatibleIsRouted(relations, g, q, m, t);
      }
    }
  }

  /** The group's relations at or above the floor. */
  function GroupInPlay(relations: seq<Relation>, g: Group, q: ClassifyQuery): seq<Relation> {
    Strong(RelationsForGroup(relations, g, q.filter), q.floor)
  }

  lemma GroupRouteIsEntailment(relations: seq<Relation>, g: Group, q: ClassifyQuery, b: string)
    requires Validated(relations) && DeepIn(relations, g, q)
    ensures GroupRouter(relations, g, q)(q.source, b).Some? <==> Entails(GroupInPlay(relations, g, q), q.source, b)
  {
    var kept := RelationsForGroup(relations, g, q.filter);
    ValidatedEdges(kept);
    PathIsEntailment(kept, q.source, b, q.maxDepth, BestConfidence, q.policy, q.directOnly, q.floor);
  }

  lemma RoutesHold(relations: seq<Relation>, g: Group, q: ClassifyQuery, b: string, t: int)
    requires Validated(relations)
    requires AllValidAt(EdgesOf(RelationsForGroup(relations, g, q.filter)), t)
    requires GroupRouter(relations, g, q)(q.source, b).Some?
    ensures AllValidAt(GroupRouter(relations, g, q)(q.source, b).value.edges, t)
  {
    var edges := EdgesOf(RelationsForGroup(relations, g, q.filter));
    ValidatedEdges(RelationsForGroup(relations, g, q.filter));
    FoundPathIsPath(edges, q.source, b, q.maxDepth, BestConfidence, q.policy, q.directOnly, q.floor);
    TrailIsOver(SearchGraph(edges, q.floor), GroupRouter(relations, g, q)(q.source, b).value.edges, q.source, b);
  }

  lemma ClashIsTwoRoutes(route: Router, source: string, target: string, m: string, t: int)
    requires route(source, target).Some? ==> AllValidAt(route(source, target).value.edges, t)
    requires route(source, m).Some? ==> AllValidAt(route(source, m).value.edges, t)
    ensures Clash(route, source, target, m) <==> route(source, target).Some? && route(source, m).Some?
  {
    if route(source, target).Some? && route(source, m).Some? {
      assert JointlyValidAt([route(source, target).value, route(source, m).value], t);
    }
  }

  lemma ClashIsEntailment(relations: seq<Relation>, g: Group, q: ClassifyQuery, m: string, t: int)
    requires Validated(relations) && DeepIn(relations, g, q)
    requires AllValidAt(EdgesOf(RelationsForGroup(relations, g, q.filter)), t)
    ensures Clash(GroupRouter(relations, g, q), q.source, q.target, m) <==>
      && Entails(GroupInPlay(relations, g, q), q.source, q.target)
      && Entails(GroupInPlay(relations, g, q), q.source, m)
  {
    var route := GroupRouter(relations, g, q);
    GroupRouteIsEntailment(relations, g, q, q.target);
    GroupRouteIsEntailment(relations, g, q, m);
    if route(q.source, q.target).Some? {
      RoutesHold(relations, g, q, q.target, t);
    }
    if route(q.source, m).Some? {
      RoutesHold(relations, g, q, m, t);
    }
    ClashIsTwoRoutes(route, q.source, q.target, m, t);
  }

  /**
   When all the group's relations hold at one instant, as under a `valid_at` filter or without windows, and the depth
   is enough, a group contradicts the classification through a sibling exactly when it applies and its relations entail
   both the target and the sibling from the source.
   */
  lemma OverrideIsEntailment(relations: seq<Relation>, g: Group, q: ClassifyQuery, m: string, t: int)
    requires Validated(relations) && DeepIn(relations, g, q)
    requires AllValidAt(EdgesOf(RelationsForGroup(relations, g, q.filter)), t)
    ensures Contradicts(SearchOf(relations, q), g, q.source, q.target, m) <==>
      && InScope(relations, g, q) && m in g.members && m != q.target
      && Entails(GroupInPlay(relations, g, q), q.source, q.target)
      && Entails(GroupInPlay(relations, g, q), q.source, m)
  {
    AppliesInScope(relations, g, q);
    ClashIsEntailment(relations, g, q, m, t);
  }

  // --- a contradiction that is missed ---

  lemma LoopIsEmpty(graph: seq<Edge>, trail: seq<Edge>, a: string)
    requires IsTrail(graph, trail, a, a) && Distinct(Nodes(trail, a))
    ensures trail == []
  {
    EndsOf(graph, trail, a, a);
  }

  lemma FrontIsDistinct(trail: seq<Edge>, a: string)
    requires trail != [] && Distinct(Nodes(trail, a))
    ensures Distinct(Nodes(trail[..|trail| - 1], a))
  {
    var front := Nodes(trail[..|trail| - 1], a);
    assert forall i :: 0 <= i < |front| ==> Nodes(trail, a)[i] == front[i];
  }

  /** A direct edge, a detour to the same node, and an edge to another one; the detour is less confident. */
  predicate DirectAndDetour(sa: Edge, sx: Edge, xa: Edge, sb: Edge) {
    && sa.antecedent == sx.antecedent == sb.antecedent && sx.consequent == xa.antecedent
    && xa.consequent == sa.consequent && sa.consequent != sb.consequent
    && sx.consequent != sa.consequent && sx.consequent != sb.consequent
    && sa.antecedent != sa.consequent && sa.antecedent != sb.consequent && sa.antecedent != sx.consequent
    && sx.confidence * xa.confidence < sa.confidence
  }

  lemma DetourIsWorse(sa: Edge, sx: Edge, xa: Edge)
    requires sx.confidence * xa.confidence < sa.confidence
    ensures GainOf(BestConfidence)([sx, xa]) < GainOf(BestConfidence)([sa])
  {
    var gain := GainOf(BestConfidence);
    ProductMultiplies();
    TwoEdgeGain(gain, sx, xa);
    assert [] + [sa] == [sa];
    assert gain([] + [sa]) == gain([]) * sa.confidence;
  }

  ghost predicate OnlyThese(graph: seq<Edge>, sa: Edge, sx: Edge, xa: Edge, sb: Edge) {
    forall e :: e in graph <==> e == sa || e == sx || e == xa || e == sb
  }

  lemma TrailsOfTheFamily(
    graph: seq<Edge>, sa: Edge, sx: Edge, xa: Edge, sb: Edge, trail: seq<Edge>, s: string, b: string)
    requires DirectAndDetour(sa, sx, xa, sb) && OnlyThese(graph, sa, sx, xa, sb)
    requires s == sa.antecedent && (b == sa.consequent || b == sb.consequent)
    requires IsTrail(graph, trail, s, b) && Distinct(Nodes(trail, s))
    ensures trail == [sx, xa] || |trail| == 1
  {
    var last, front := trail[|trail| - 1], trail[..|trail| - 1];
    assert trail == front + [last];
    FrontIsDistinct(trail, s);
    if last.antecedent == s {
      LoopIsEmpty(graph, front, s);
    } else {
      assert last == xa && front != [];
      TrailToTheMiddle(graph, sa, sx, xa, sb, front, s);
    }
  }

  lemma TrailToTheMiddle(graph: seq<Edge>, sa: Edge, sx: Edge, xa: Edge, sb: Edge, trail: seq<Edge>, s: string)
    requires DirectAndDetour(sa, sx, xa, sb) && OnlyThese(graph, sa, sx, xa, sb) && s == sa.antecedent
    requires IsTrail(graph, trail, s, xa.antecedent) && Distinct(Nodes(trail, s))
    ensures trail == [sx]
  {
    var last, front := trail[|trail| - 1], trail[..|trail| - 1];
    assert trail == front + [last] && last == sx;
    FrontIsDistinct(trail, s);
    LoopIsEmpty(graph, front, s);
  }

  lemma TheseAreSearched(sa: Edge, sx: Edge, xa: Edge, sb: Edge)
    ensures OnlyThese(SearchGraph([sa, sx, xa, sb], 0.0), sa, sx, xa, sb)
  {
    var edges := [sa, sx, xa, sb];
    assert edges[0] == sa && edges[1] == sx && edges[2] == xa && edges[3] == sb;
  }

  lemma OnlyOneEdge(graph: seq<Edge>, sa: Edge, sx: Edge, xa: Edge, sb: Edge, e: Edge, trail: seq<Edge>, s: string)
    requires DirectAndDetour(sa, sx, xa, sb) && OnlyThese(graph, sa, sx, xa, sb)
    requires s == sa.antecedent && (e == sa || e == sb)
    requires |trail| == 1 && IsTrail(graph, trail, s, e.consequent)
    ensures trail == [e]
  {
    assert trail[..0] == [] && trail == [trail[0]];
  }

  lemma DetourEndsAt(graph: seq<Edge>, sx: Edge, xa: Edge, s: string, b: string)
    requires IsTrail(graph, [sx, xa], s, b)
    ensures b == xa.consequent
  {
  }

  lemma BestTrailIsDirect(sa: Edge, sx: Edge, xa: Edge, sb: Edge, e: Edge, s: string)
    requires UnitConfidences([sa, sx, xa, sb]) && DirectAndDetour(sa, sx, xa, sb) && (e == sa || e == sb)
    requires s == sa.antecedent
    ensures var r := SearchTrail([sa, sx, xa, sb], s, e.consequent, BestConfidence, 0.0);
      r.Some? && |r.value| == 1
  {
    var edges := [sa, sx, xa, sb];
    var graph := SearchGraph(edges, 0.0);
    TheseAreSearched(sa, sx, xa, sb);
    OneEdgeTrail(graph, e);
    var trail := SearchTrail(edges, s, e.consequent, BestConfidence, 0.0).value;
    TrailsOfTheFamily(graph, sa, sx, xa, sb, trail, s, e.consequent);
    if trail == [sx, xa] {
      DetourEndsAt(graph, sx, xa, s, e.consequent);
      DetourIsWorse(sa, sx, xa);
    }
  }

  lemma BestIsDirect(sa: Edge, sx: Edge, xa: Edge, sb: Edge, e: Edge, s: string, maxDepth: int, policy: Policy)
    requires UnitConfidences([sa, sx, xa, sb]) && DirectAndDetour(sa, sx, xa, sb) && (e == sa || e == sb)
    requires s == sa.antecedent && 1 <= maxDepth
    ensures var r := FindPath([sa, sx, xa, sb], s, e.consequent, maxDepth, BestConfidence, policy, false, 0.0);
      r.Some? && r.value.edges == [e]
  {
    var edges := [sa, sx, xa, sb];
    BestTrailIsDirect(sa, sx, xa, sb, e, s);
    FoundWithinDepth(edges, s, e.consequent, maxDepth, BestConfidence, policy, 0.0);
    FoundPathIsPath(edges, s, e.consequent, maxDepth, BestConfidence, policy, false, 0.0);
    TheseAreSearched(sa, sx, xa, sb);
    OnlyOneEdge(SearchGraph(edges, 0.0), sa, sx, xa, sb, e,
                FindPath(edges, s, e.consequent, maxDepth, BestConfidence, policy, false, 0.0).value.edges, s);
  }

  function Between(source: string, target: string, confidence: real, from: int, to: int): Relation {
    Relation("", source, target, Sufficient, confidence, "", "", None, {}, Some(from), Some(to))
  }

  /** `s` implies `a` at first, later only through `x`; `s` implies `b` later. */
  function Shifting(s: string, x: string, a: string, b: string): (relations: seq<Relation>)
    ensures Validated(relations)
  {
    [Between(s, a, 1.0, 0, 1), Between(s, x, 0.5, 5, 6), Between(x, a, 0.5, 5, 6), Between(s, b, 1.0, 5, 6)]
  }

  function EdgeFor(r: Relation): Edge {
    ToEdge(r, r.source, r.target)
  }

  lemma FourEdges(a: Relation, b: Relation, c: Relation, d: Relation)
    requires a.kind.Sufficient? && b.kind.Sufficient? && c.kind.Sufficient? && d.kind.Sufficient?
    ensures EdgesOf([a, b, c, d]) == [EdgeFor(a), EdgeFor(b), EdgeFor(c), EdgeFor(d)]
  {
    assert [a, b, c, d][1..] == [b, c, d] && [b, c, d][1..] == [c, d] && [c, d][1..] == [d] && [d][1..] == [];
    assert EdgesOf([d]) == [EdgeFor(d)];
    assert EdgesOf([c, d]) == [EdgeFor(c)] + EdgesOf([d]);
    assert EdgesOf([b, c, d]) == [EdgeFor(b)] + EdgesOf([c, d]);
  }

  const NO_FILTER := ContextFilter(None, None, None, {}, None)

  lemma {:induction false} NothingIsFiltered(relations: seq<Relation>, g: Group)
    requires forall r :: r in relations ==> InGroup(r, g)
    ensures RelationsForGroup(relations, g, NO_FILTER) == relations
  {
    if relations != [] {
      var first, rest := relations[0], relations[1..];
      assert relations == [first] + rest && first in relations;
      NothingIsFiltered(rest, g);
      assert Compatible(first, NO_FILTER);
      assert CompatibleRelations(relations, NO_FILTER) == [first] + CompatibleRelations(rest, NO_FILTER);
    }
  }

  lemma ShiftingForces(s: string, x: string, a: string, b: string, maxDepth: int)
    requires Distinct([s, x, a, b]) && 1 <= maxDepth && UnitConfidences(EdgesOf(Shifting(s, x, a, b)))
    ensures var rs := Shifting(s, x, a, b);
      && EdgesOf(rs) == [EdgeFor(rs[0]), EdgeFor(rs[1]), EdgeFor(rs[2]), EdgeFor(rs[3])]
      && DirectAndDetour(EdgeFor(rs[0]), EdgeFor(rs[1]), EdgeFor(rs[2]), EdgeFor(rs[3]))
      && NoExclusiveModelAt(SearchGraph(EdgesOf(rs), 0.0), [a, b], s, 5)
  {
    var rs := Shifting(s, x, a, b);
    FourEdges(rs[0], rs[1], rs[2], rs[3]);
    assert [s, x, a, b][0] == s && [s, x, a, b][1] == x && [s, x, a, b][2] == a && [s, x, a, b][3] == b;
    OnePathPerMemberHidesAConflict(
      EdgeFor(rs[0]), EdgeFor(rs[1]), EdgeFor(rs[2]), EdgeFor(rs[3]), 5, maxDepth);
  }

  lemma ApartInTime(p: Path, r: Path, e: Edge, f: Edge)
    requires p.edges == [e] && r.edges == [f]
    requires e.validTo.Some? && f.validFrom.Some? && e.validTo.value < f.validFrom.value
    ensures !JointlyValid([p, r])
  {
    assert p in [p, r] && r in [p, r] && e in p.edges && f in r.edges;
  }

  /** The answers of the path queries, never valid together. */
  lemma ShiftingPaths(s: string, x: string, a: string, b: string, maxDepth: int, policy: Policy)
    requires Distinct([s, x, a, b]) && 1 <= maxDepth && UnitConfidences(EdgesOf(Shifting(s, x, a, b)))
    ensures var edges := EdgesOf(Shifting(s, x, a, b));
            var p, r := FindPath(edges, s, a, maxDepth, BestConfidence, policy, false, 0.0),
                        FindPath(edges, s, b, maxDepth, BestConfidence, policy, false, 0.0);
      && p.Some? && r.Some? && !JointlyValid([p.value, r.value])
      && NoExclusiveModelAt(SearchGraph(edges, 0.0), [a, b], s, 5)
  {
    var rs := Shifting(s, x, a, b);
    var sa, sx, xa, sb := EdgeFor(rs[0]), EdgeFor(rs[1]), EdgeFor(rs[2]), EdgeFor(rs[3]);
    ShiftingForces(s, x, a, b, maxDepth);
    BestIsDirect(sa, sx, xa, sb, sa, s, maxDepth, policy);
    BestIsDirect(sa, sx, xa, sb, sb, s, maxDepth, policy);
    var edges := [sa, sx, xa, sb];
    ApartInTime(
      FindPath(edges, s, a, maxDepth, BestConfidence, policy, false, 0.0).value,
      FindPath(edges, s, b, maxDepth, BestConfidence, policy, false, 0.0).value, sa, sb);
  }

  /**
   An input: at instant 5 the source implies both members of the group, but its most confident path to the target is the
   direct one, which has lapsed by then. `classify` reports no contradiction at any depth bound.
   */
  lemma LapsedPathHidesAContradiction(s: string, x: string, a: string, b: string, maxDepth: int, policy: Policy)
    requires Distinct([s, x, a, b]) && 1 <= maxDepth
    ensures var relations, g := Shifting(s, x, a, b), Group("", [a, b], "", "", Global);
            var q := ClassifyQuery(s, a, NO_FILTER, maxDepth, policy, false, 0.0);
      && Applies(relations, g, q) && Incompatible(relations, g, q, b, 5)
      && !GroupContradicts(SearchOf(relations, q), g, s, a)
  {
    var relations, g := Shifting(s, x, a, b), Group("", [a, b], "", "", Global);
    var q := ClassifyQuery(s, a, NO_FILTER, maxDepth, policy, false, 0.0);
    NothingIsFiltered(relations, g);
    ValidatedEdges(relations);
    ShiftingPaths(s, x, a, b, maxDepth, policy);
    assert [a, b][0] == a;
    forall m ensures !Contradicts(SearchOf(relations, q), g, s, a, m) {
      if m == b {
        assert GroupRouter(relations, g, q)(s, b)
            == FindPath(EdgesOf(relations), s, b, maxDepth, BestConfidence, policy, false, 0.0);
      }
    }
  }
}
