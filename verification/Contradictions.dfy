/** Exclusive-group contradictions: what a report proves, and when every contradiction is reported. */
module Contradictions {
  import opened Basics
  import opened Implication
  import opened PathSearch
  import opened GraphIndex
  import opened Classification

  // --- temporal windows ---

  datatype Window = Window(from: Option<int>, to: Option<int>)

  predicate AllValidAt(edges: seq<Edge>, t: int) {
    forall e :: e in edges ==> ValidAt(e.validFrom, e.validTo, t)
  }

  function Later(a: Option<int>, b: Option<int>): Option<int> {
    if a.None? then b else if b.None? then a else if a.value < b.value then b else a
  }

  function Earlier(a: Option<int>, b: Option<int>): Option<int> {
    if a.None? then b else if b.None? then a else if a.value < b.value then a else b
  }

  /** `ReasoningPath.temporal_window`: exactly the instants at which every edge of the path is valid. */
  method PathWindow(edges: seq<Edge>) returns (w: Window)
    ensures forall t :: ValidAt(w.from, w.to, t) <==> AllValidAt(edges, t)
  {
    w := Window(None, None);
    for i := 0 to |edges|
      invariant forall t :: ValidAt(w.from, w.to, t) <==> AllValidAt(edges[..i], t)
    {
      ghost var before := w;
      w := Window(Later(w.from, edges[i].validFrom), Earlier(w.to, edges[i].validTo));
      assert edges[..i + 1] == edges[..i] + [edges[i]];
      forall t ensures ValidAt(w.from, w.to, t) <==> AllValidAt(edges[..i + 1], t) {
        assert ValidAt(before.from, before.to, t) <==> AllValidAt(edges[..i], t);
      }
    }
    assert edges[..|edges|] == edges;
  }

  /** There is an instant at which every edge of every path is valid. */
  ghost predicate JointlyValid(paths: seq<Path>) {
    exists t :: JointlyValidAt(paths, t)
  }

  ghost predicate JointlyValidAt(paths: seq<Path>, t: int) {
    forall p :: p in paths ==> AllValidAt(p.edges, t)
  }

  /** `_paths_temporally_compatible` */
  method PathsTemporallyCompatible(paths: seq<Path>) returns (ok: bool)
    ensures ok <==> JointlyValid(paths)
  {
    var from: Option<int>, to: Option<int> := None, None;
    for i := 0 to |paths|
      invariant forall t :: ValidAt(from, to, t) <==> JointlyValidAt(paths[..i], t)
    {
      ghost var before := Window(from, to);
      var w := PathWindow(paths[i].edges);
      from, to := Later(from, w.from), Earlier(to, w.to);
      assert paths[..i + 1] == paths[..i] + [paths[i]];
      forall t ensures ValidAt(from, to, t) <==> JointlyValidAt(paths[..i + 1], t) {
        assert ValidAt(before.from, before.to, t) <==> JointlyValidAt(paths[..i], t);
        assert ValidAt(w.from, w.to, t) <==> AllValidAt(paths[i].edges, t);
      }
    }
    assert paths[..|paths|] == paths;
    ok := !(from.Some? && to.Some? && from.value > to.value);
    ghost var t := if from.Some? then from.value else if to.Some? then to.value else 0;
    assert ok ==> ValidAt(from, to, t);
    assert JointlyValid(paths) <==> exists u :: ValidAt(from, to, u);
  }

  // --- the finder ---

  /** The nodes of an index, each once. */
  function NodeList(edges: seq<Edge>): (nodes: seq<string>)
    ensures Distinct(nodes) && forall x :: x in nodes <==> x in NodeSet(edges)
  {
    if edges == [] then []
    else
      NodeSetSnoc(edges);
      AddOnce(AddOnce(NodeList(edges[..|edges| - 1]), edges[|edges| - 1].antecedent), edges[|edges| - 1].consequent)
  }

  lemma NodeSetSnoc(edges: seq<Edge>)
    requires edges != []
    ensures var last, front := edges[|edges| - 1], edges[..|edges| - 1];
      NodeSet(edges) == NodeSet(front) + {last.antecedent, last.consequent}
  {
    assert edges == edges[..|edges| - 1] + [edges[|edges| - 1]];
  }

  function AddOnce(s: seq<string>, x: string): (t: seq<string>)
    requires Distinct(s)
    ensures Distinct(t) && forall y :: y in t <==> y in s || y == x
  {
    if x in s then s else s + [x]
  }

  function PathTo(edges: seq<Edge>, source: string, member: string, maxDepth: int, floor: real): Option<Path>
    requires UnitConfidences(edges)
  {
    FindPath(edges, source, member, maxDepth, Shortest, ProductIndependent, false, floor)
  }

  /** `_reachable_group_members`: the members a node leads to, each with its shortest path. */
  method ReachableGroupMembers(edges: seq<Edge>, source: string, members: seq<string>, maxDepth: int, floor: real)
    returns (hits: map<string, Path>, order: seq<string>)
    requires UnitConfidences(edges)
    ensures forall m :: m in hits <==> m in members && PathTo(edges, source, m, maxDepth, floor).Some?
    ensures forall m :: m in hits ==> Some(hits[m]) == PathTo(edges, source, m, maxDepth, floor)
    ensures Distinct(order) && InOrderOf(order, members) && forall m :: m in order <==> m in hits
  {
    hits, order := map[], [];
    for i := 0 to |members|
      invariant forall m :: m in hits <==> m in members[..i] && PathTo(edges, source, m, maxDepth, floor).Some?
      invariant forall m :: m in hits ==> Some(hits[m]) == PathTo(edges, source, m, maxDepth, floor)
      invariant Distinct(order) && InOrderOf(order, members[..i]) && forall m :: m in order <==> m in hits
    {
      assert members[..i + 1] == members[..i] + [members[i]];
      var path := PathTo(edges, source, members[i], maxDepth, floor);
      AddInOrder(order, members[..i], members[i]);
      assert members[i] in members[..i] && path.Some? ==> members[i] in order;
      if path.Some? {
        hits := hits[members[i] := path.value];
        order := AddOnce(order, members[i]);
      }
    }
    assert members[..|members|] == members;
  }

  /** Two of the members a node leads to, and an instant at which all its member paths hold. */
  ghost predicate Reported(edges: seq<Edge>, members: seq<string>, source: string, maxDepth: int, floor: real)
    requires UnitConfidences(edges)
  {
    && (exists m, n :: m in members && n in members && m != n
          && PathTo(edges, source, m, maxDepth, floor).Some? && PathTo(edges, source, n, maxDepth, floor).Some?)
    && exists t :: HitsValidAt(edges, members, source, maxDepth, floor, t)
  }

  ghost predicate HitsValidAt(
    edges: seq<Edge>, members: seq<string>, source: string, maxDepth: int, floor: real, t: int)
    requires UnitConfidences(edges)
  {
    forall m :: m in members && PathTo(edges, source, m, maxDepth, floor).Some?
      ==> AllValidAt(PathTo(edges, source, m, maxDepth, floor).value.edges, t)
  }

  datatype Report = Report(source: string, targets: seq<string>)

  /** The values of a dictionary in key order. */
  function PathsIn(hits: map<string, Path>, order: seq<string>): (paths: seq<Path>)
    requires forall m :: m in order ==> m in hits
    ensures |paths| == |order| && forall i :: 0 <= i < |order| ==> paths[i] == hits[order[i]]
  {
    if order == [] then [] else [hits[order[0]]] + PathsIn(hits, order[1..])
  }

  /** Each listed item is met in `all` before the items listed after it. */
  ghost predicate InOrderOf(listed: seq<string>, all: seq<string>) {
    forall i, j :: 0 <= i < j < |listed| ==> MetFirst(listed[i], listed[j], all)
  }

  ghost predicate MetFirst(a: string, b: string, all: seq<string>) {
    exists k :: 0 <= k < |all| && all[k] == a && b !in all[..k]
  }

  lemma AddInOrder(order: seq<string>, seen: seq<string>, x: string)
    requires Distinct(order) && InOrderOf(order, seen) && forall y :: y in order ==> y in seen
    ensures InOrderOf(order, seen + [x]) && (x !in seen ==> InOrderOf(AddOnce(order, x), seen + [x]))
  {
    var all := seen + [x];
    forall i, j | 0 <= i < j < |order| ensures MetFirst(order[i], order[j], all) {
      var k :| 0 <= k < |seen| && seen[k] == order[i] && order[j] !in seen[..k];
      assert all[k] == order[i] && all[..k] == seen[..k];
    }
    if x !in seen {
      forall i | 0 <= i < |order| ensures MetFirst(order[i], x, all) {
        assert order[i] in order;
        var k :| 0 <= k < |seen| && seen[k] == order[i];
        assert all[k] == order[i] && all[..k] == seen[..k];
      }
    }
  }

  /** What the finder says about a node: a report exactly when `Reported`, listing exactly the members reached. */
  ghost predicate IsReport(
    edges: seq<Edge>, members: seq<string>, maxDepth: int, floor: real, source: string, r: Option<Report>)
    requires UnitConfidences(edges)
  {
    && (r.Some? <==> Reported(edges, members, source, maxDepth, floor))
    && (r.Some? ==>
          && r.value.source == source
          && Distinct(r.value.targets) && InOrderOf(r.value.targets, members)
          && forall m :: m in r.value.targets <==> m in members && PathTo(edges, source, m, maxDepth, floor).Some?)
  }

  /** The body of the finder's loop over nodes. */
  method ReportFor(edges: seq<Edge>, members: seq<string>, source: string, maxDepth: int, floor: real)
    returns (r: Option<Report>)
    requires UnitConfidences(edges)
    ensures IsReport(edges, members, maxDepth, floor, source, r)
  {
    var hits, order := ReachableGroupMembers(edges, source, members, maxDepth, floor);
    var ok := PathsTemporallyCompatible(PathsIn(hits, order));
    JointIsReported(edges, members, source, maxDepth, floor, hits, order);
    if |order| < 2 || !ok {
      return None;
    }
    return Some(Report(source, order));
  }

  lemma JointIsHitsValid(
    edges: seq<Edge>, members: seq<string>, source: string, maxDepth: int, floor: real,
    hits: map<string, Path>, order: seq<string>, t: int)
    requires UnitConfidences(edges)
    requires forall m :: m in hits <==> m in members && PathTo(edges, source, m, maxDepth, floor).Some?
    requires forall m :: m in hits ==> Some(hits[m]) == PathTo(edges, source, m, maxDepth, floor)
    requires forall m :: m in order <==> m in hits
    ensures JointlyValidAt(PathsIn(hits, order), t) <==> HitsValidAt(edges, members, source, maxDepth, floor, t)
  {
    var paths := PathsIn(hits, order);
    if JointlyValidAt(paths, t) {
      forall m | m in hits ensures AllValidAt(hits[m].edges, t) {
        var k :| 0 <= k < |order| && order[k] == m;
        assert paths[k] in paths;
      }
    } else {
      var p :| p in paths && !AllValidAt(p.edges, t);
      var k :| 0 <= k < |paths| && paths[k] == p;
      assert order[k] in hits;
    }
  }

  lemma JointIsReported(
    edges: seq<Edge>, members: seq<string>, source: string, maxDepth: int, floor: real,
    hits: map<string, Path>, order: seq<string>)
    requires UnitConfidences(edges)
    requires forall m :: m in hits <==> m in members && PathTo(edges, source, m, maxDepth, floor).Some?
    requires forall m :: m in hits ==> Some(hits[m]) == PathTo(edges, source, m, maxDepth, floor)
    requires Distinct(order) && forall m :: m in order <==> m in hits
    ensures Reported(edges, members, source, maxDepth, floor) <==> 2 <= |order| && JointlyValid(PathsIn(hits, order))
  {
    forall t ensures JointlyValidAt(PathsIn(hits, order), t)
        <==> HitsValidAt(edges, members, source, maxDepth, floor, t)
    {
      JointIsHitsValid(edges, members, source, maxDepth, floor, hits, order, t);
    }
    TwoOf(order);
    assert 2 <= |order| <==> (exists m, n :: m in hits && n in hits && m != n);
  }

  lemma TwoOf(s: seq<string>)
    requires Distinct(s)
    ensures 2 <= |s| <==> exists m, n :: m in s && n in s && m != n
  {
    if 2 <= |s| {
      assert s[0] in s && s[1] in s;
    }
  }

  /** `_hard_group_contradictions` for one group: one report for each node that `Reported` describes. */
  method HardGroupContradictions(edges: seq<Edge>, members: seq<string>, maxDepth: int, floor: real)
    returns (reports: map<string, Report>)
    requires UnitConfidences(edges)
    ensures forall s :: s in reports ==> s in NodeSet(edges)
    ensures forall s :: s in NodeSet(edges) ==> IsReport(edges, members, maxDepth, floor, s, ReportOn(reports, s))
  {
    reports := map[];
    var nodes := NodeList(edges);
    ghost var good := Reporting(edges, members, maxDepth, floor);
    for i := 0 to |nodes|
      invariant forall s :: s in reports ==> s in nodes[..i]
      invariant forall s :: s in nodes[..i] ==> good(s, ReportOn(reports, s))
    {
      assert nodes[..i + 1] == nodes[..i] + [nodes[i]];
      var r := ReportFor(edges, members, nodes[i], maxDepth, floor);
      assert good(nodes[i], r) && nodes[i] !in nodes[..i];
      if r.Some? {
        reports := reports[nodes[i] := r.value];
      }
    }
    assert nodes[..|nodes|] == nodes;
    forall s | s in NodeSet(edges) ensures IsReport(edges, members, maxDepth, floor, s, ReportOn(reports, s)) {
      assert good(s, ReportOn(reports, s));
    }
  }

  function ReportOn(reports: map<string, Report>, s: string): Option<Report> {
    if s in reports then Some(reports[s]) else None
  }

  ghost function Reporting(edges: seq<Edge>, members: seq<string>, maxDepth: int, floor: real)
    : (string, Option<Report>) -> bool
    requires UnitConfidences(edges)
  {
    (s, r) => IsReport(edges, members, maxDepth, floor, s, r)
  }

  // --- what a report proves ---

  /** At most one member is true. */
  ghost predicate Exclusive(v: Valuation, members: seq<string>) {
    forall m, n :: m in members && n in members && m in v && n in v ==> m == n
  }

  /** The relations in play at an instant. */
  ghost predicate ModelsAt(v: Valuation, graph: seq<Edge>, t: int) {
    forall e :: e in graph && ValidAt(e.validFrom, e.validTo, t) && e.antecedent in v ==> e.consequent in v
  }

  lemma {:induction false} TruthFollowsValidTrail(
    graph: seq<Edge>, trail: seq<Edge>, a: string, b: string, v: Valuation, t: int)
    requires IsTrail(graph, trail, a, b) && AllValidAt(trail, t) && ModelsAt(v, graph, t) && a in v
    ensures b in v
    decreases |trail|
  {
    if trail != [] {
      var last, front := trail[|trail| - 1], trail[..|trail| - 1];
      assert last in trail;
      TruthFollowsValidTrail(graph, front, a, last.antecedent, v, t);
    }
  }

  /** At instant `t` nothing that makes `source` true respects both the relations then valid and the group. */
  ghost predicate NoExclusiveModelAt(graph: seq<Edge>, members: seq<string>, source: string, t: int) {
    forall v: Valuation :: ModelsAt(v, graph, t) && source in v ==> !Exclusive(v, members)
  }

  /** Two paths to different members, valid together at an instant, leave the source no exclusive model then. */
  lemma TwoPathsConflict(
    edges: seq<Edge>, members: seq<string>, source: string, m: string, n: string,
    maxDepth: int, strategy: Strategy, policy: Policy, directOnly: bool, floor: real, t: int)
    requires UnitConfidences(edges) && m in members && n in members && m != n
    requires FindPath(edges, source, m, maxDepth, strategy, policy, directOnly, floor).Some?
    requires FindPath(edges, source, n, maxDepth, strategy, policy, directOnly, floor).Some?
    requires AllValidAt(FindPath(edges, source, m, maxDepth, strategy, policy, directOnly, floor).value.edges, t)
    requires AllValidAt(FindPath(edges, source, n, maxDepth, strategy, policy, directOnly, floor).value.edges, t)
    ensures NoExclusiveModelAt(SearchGraph(edges, floor), members, source, t)
  {
    FoundPathIsPath(edges, source, m, maxDepth, strategy, policy, directOnly, floor);
    FoundPathIsPath(edges, source, n, maxDepth, strategy, policy, directOnly, floor);
    var p := FindPath(edges, source, m, maxDepth, strategy, policy, directOnly, floor).value.edges;
    var q := FindPath(edges, source, n, maxDepth, strategy, policy, directOnly, floor).value.edges;
    forall v: Valuation | ModelsAt(v, SearchGraph(edges, floor), t) && source in v ensures !Exclusive(v, members) {
      TruthFollowsValidTrail(SearchGraph(edges, floor), p, source, m, v, t);
      TruthFollowsValidTrail(SearchGraph(edges, floor), q, source, n, v, t);
    }
  }

  /** With windows: every report comes with an instant at which its source has no exclusive model. */
  lemma ReportIsContradiction(edges: seq<Edge>, members: seq<string>, source: string, maxDepth: int, floor: real)
    requires UnitConfidences(edges) && Reported(edges, members, source, maxDepth, floor)
    ensures exists t ::
      && HitsValidAt(edges, members, source, maxDepth, floor, t)
      && NoExclusiveModelAt(SearchGraph(edges, floor), members, source, t)
  {
    var t :| HitsValidAt(edges, members, source, maxDepth, floor, t);
    var m, n :| m in members && n in members && m != n
      && PathTo(edges, source, m, maxDepth, floor).Some? && PathTo(edges, source, n, maxDepth, floor).Some?;
    TwoPathsConflict(edges, members, source, m, n, maxDepth, Shortest, ProductIndependent, false, floor, t);
  }

  // --- which contradictions are found ---

  /** A trail to the member that holds throughout at the instant. */
  ghost predicate LeadsAt(graph: seq<Edge>, source: string, m: string, t: int) {
    exists trail :: IsTrail(graph, trail, source, m) && AllValidAt(trail, t)
  }

  /** The nodes a source leads to at an instant. */
  ghost function ReachableAt(graph: seq<Edge>, source: string, t: int): Valuation {
    iset x | LeadsAt(graph, source, x, t)
  }

  lemma ReachableAtIsModel(graph: seq<Edge>, source: string, t: int)
    ensures ModelsAt(ReachableAt(graph, source, t), graph, t) && source in ReachableAt(graph, source, t)
  {
    assert IsTrail(graph, [], source, source) && AllValidAt([], t);
    forall e | e in graph && ValidAt(e.validFrom, e.validTo, t) && LeadsAt(graph, source, e.antecedent, t)
      ensures LeadsAt(graph, source, e.consequent, t)
    {
      var trail :| IsTrail(graph, trail, source, e.antecedent) && AllValidAt(trail, t);
      ExtendTrail(graph, trail, source, e);
      assert AllValidAt(trail + [e], t);
    }
  }

  /** A source has no exclusive model at an instant exactly when valid trails lead to two different members then. */
  lemma ConflictIsTwoValidTrails(graph: seq<Edge>, members: seq<string>, source: string, t: int)
    ensures NoExclusiveModelAt(graph, members, source, t) <==>
      exists m, n ::
        && m in members && n in members && m != n && LeadsAt(graph, source, m, t) && LeadsAt(graph, source, n, t)
  {
    ReachableAtIsModel(graph, source, t);
    if m, n :| m in members && n in members && m != n && LeadsAt(graph, source, m, t) && LeadsAt(graph, source, n, t) {
      var p :| IsTrail(graph, p, source, m) && AllValidAt(p, t);
      var q :| IsTrail(graph, q, source, n) && AllValidAt(q, t);
      forall v: Valuation | ModelsAt(v, graph, t) && source in v ensures !Exclusive(v, members) {
        TruthFollowsValidTrail(graph, p, source, m, v, t);
        TruthFollowsValidTrail(graph, q, source, n, v, t);
      }
    } else {
      assert Exclusive(ReachableAt(graph, source, t), members);
    }
  }

  lemma LeadsIsFound(edges: seq<Edge>, source: string, m: string, maxDepth: int, floor: real, t: int)
    requires UnitConfidences(edges) && |NodeSet(edges)| - 1 <= maxDepth
    requires LeadsAt(SearchGraph(edges, floor), source, m, t)
    ensures PathTo(edges, source, m, maxDepth, floor).Some?
  {
    EnoughDepth(edges, source, m, maxDepth, Shortest, ProductIndependent, floor);
  }

  /**
   With enough depth, a node is reported exactly when it has a contradiction at some instant and, at some instant, all
   the paths found to members hold. A contradiction is missed exactly when those paths share no instant.
   */
  lemma ReportedExactly(edges: seq<Edge>, members: seq<string>, source: string, maxDepth: int, floor: real)
    requires UnitConfidences(edges) && |NodeSet(edges)| - 1 <= maxDepth
    ensures Reported(edges, members, source, maxDepth, floor) <==>
      && (exists t :: NoExclusiveModelAt(SearchGraph(edges, floor), members, source, t))
      && (exists u :: HitsValidAt(edges, members, source, maxDepth, floor, u))
  {
    if Reported(edges, members, source, maxDepth, floor) {
      ReportIsContradiction(edges, members, source, maxDepth, floor);
    }
    if t :| NoExclusiveModelAt(SearchGraph(edges, floor), members, source, t) {
      TwoHits(edges, members, source, maxDepth, floor, t);
    }
  }

  lemma TwoHits(edges: seq<Edge>, members: seq<string>, source: string, maxDepth: int, floor: real, t: int)
    requires UnitConfidences(edges) && |NodeSet(edges)| - 1 <= maxDepth
    requires NoExclusiveModelAt(SearchGraph(edges, floor), members, source, t)
    ensures exists m, n ::
      && m in members && n in members && m != n
      && PathTo(edges, source, m, maxDepth, floor).Some? && PathTo(edges, source, n, maxDepth, floor).Some?
  {
    var graph := SearchGraph(edges, floor);
    ConflictIsTwoValidTrails(graph, members, source, t);
    var m, n :| m in members && n in members && m != n && LeadsAt(graph, source, m, t) && LeadsAt(graph, source, n, t);
    LeadsIsFound(edges, source, m, maxDepth, floor, t);
    LeadsIsFound(edges, source, n, maxDepth, floor, t);
  }

  /**
   When every searched edge is valid at some instant, as under a `valid_at` filter, and with enough depth, a node is
   reported exactly when it has no exclusive model at that instant.
   */
  lemma ReportedIffNoModel(
    edges: seq<Edge>, members: seq<string>, source: string, maxDepth: int, floor: real, t: int)
    requires UnitConfidences(edges) && |NodeSet(edges)| - 1 <= maxDepth
    requires AllValidAt(SearchGraph(edges, floor), t)
    ensures Reported(edges, members, source, maxDepth, floor)
            <==> NoExclusiveModelAt(SearchGraph(edges, floor), members, source, t)
  {
    HitsHold(edges, members, source, maxDepth, floor, t);
    if NoExclusiveModelAt(SearchGraph(edges, floor), members, source, t) {
      TwoHits(edges, members, source, maxDepth, floor, t);
    } else if Reported(edges, members, source, maxDepth, floor) {
      var m, n :| m in members && n in members && m != n
        && PathTo(edges, source, m, maxDepth, floor).Some? && PathTo(edges, source, n, maxDepth, floor).Some?;
      TwoPathsConflict(edges, members, source, m, n, maxDepth, Shortest, ProductIndependent, false, floor, t);
    }
  }

  lemma HitsHold(edges: seq<Edge>, members: seq<string>, source: string, maxDepth: int, floor: real, t: int)
    requires UnitConfidences(edges) && AllValidAt(SearchGraph(edges, floor), t)
    ensures HitsValidAt(edges, members, source, maxDepth, floor, t)
  {
    forall m | m in members && PathTo(edges, source, m, maxDepth, floor).Some?
      ensures AllValidAt(PathTo(edges, source, m, maxDepth, floor).value.edges, t)
    {
      FoundPathIsPath(edges, source, m, maxDepth, Shortest, ProductIndependent, false, floor);
      var p := PathTo(edges, source, m, maxDepth, floor).value.edges;
      TrailIsOver(SearchGraph(edges, floor), p, source, m);
    }
  }

  /** The edges of a query with an instant are all valid then. */
  lemma FilteredEdgesHold(relations: seq<Relation>, filter: ContextFilter, floor: real)
    requires filter.validAt.Some?
    ensures AllValidAt(SearchGraph(EdgesOf(CompatibleRelations(relations, filter)), floor), filter.validAt.value)
  {
    var compatible := CompatibleRelations(relations, filter);
    forall e | e in EdgesOf(compatible) ensures ValidAt(e.validFrom, e.validTo, filter.validAt.value) {
      EdgeOrigin(compatible, e);
    }
  }

  /** Without windows, and with enough depth, a node is reported exactly when no model of the edges is exclusive. */
  lemma UnboundedReportedIffNoModel(edges: seq<Edge>, members: seq<string>, source: string, maxDepth: int, floor: real)
    requires UnitConfidences(edges) && |NodeSet(edges)| - 1 <= maxDepth
    requires forall e :: e in edges ==> e.validFrom.None? && e.validTo.None?
    ensures Reported(edges, members, source, maxDepth, floor) <==>
      forall v: Valuation :: Respects(v, SearchGraph(edges, floor)) && source in v ==> !Exclusive(v, members)
  {
    var graph := SearchGraph(edges, floor);
    ReportedIffNoModel(edges, members, source, maxDepth, floor, 0);
    forall v: Valuation ensures ModelsAt(v, graph, 0) <==> Respects(v, graph) {
    }
  }

  // --- what the window test misses ---

  /**
   Three members reached by single edges, two of them valid together at an instant and the third never valid with the
   first: a contradiction at that instant that goes unreported.
   */
  lemma JointWindowHidesAConflict(a: Edge, b: Edge, c: Edge, t: int, maxDepth: int)
    requires UnitConfidences([a, b, c]) && 1 <= maxDepth
    requires a.antecedent == b.antecedent == c.antecedent
    requires a.consequent != b.consequent && a.consequent != c.consequent && b.consequent != c.consequent
    requires a.antecedent !in [a.consequent, b.consequent, c.consequent]
    requires AllValidAt([a, b], t) && forall u :: !AllValidAt([a, c], u)
    ensures !Reported([a, b, c], [a.consequent, b.consequent, c.consequent], a.antecedent, maxDepth, 0.0)
    ensures NoExclusiveModelAt(SearchGraph([a, b, c], 0.0), [a.consequent, b.consequent, c.consequent], a.antecedent, t)
  {
    var edges, s := [a, b, c], a.antecedent;
    var members := [a.consequent, b.consequent, c.consequent];
    assert members[0] in members && members[1] in members && members[2] in members;
    assert a in edges && b in edges && c in edges;
    OnlyEdgeIsThePath(edges, a, maxDepth);
    OnlyEdgeIsThePath(edges, c, maxDepth);
    forall u ensures !HitsValidAt(edges, members, s, maxDepth, 0.0, u) {
      ValidTogether(a, c, u);
    }
    assert a in [a, b] && b in [a, b];
  }

  /**
   Two members suffice: the shortest path to the first is an edge never valid with the second member's, while a detour
   is. One path per member hides the contradiction.
   */
  lemma OnePathPerMemberHidesAConflict(sa: Edge, sx: Edge, xa: Edge, sb: Edge, t: int, maxDepth: int)
    requires UnitConfidences([sa, sx, xa, sb]) && 1 <= maxDepth
    requires sa.antecedent == sx.antecedent == sb.antecedent && sx.consequent == xa.antecedent
    requires xa.consequent == sa.consequent && sa.consequent != sb.consequent
    requires sx.consequent != sa.consequent && sx.consequent != sb.consequent
    requires sa.antecedent !in [sa.consequent, sb.consequent, sx.consequent]
    requires AllValidAt([sx, xa, sb], t) && forall u :: !AllValidAt([sa, sb], u)
    ensures !Reported([sa, sx, xa, sb], [sa.consequent, sb.consequent], sa.antecedent, maxDepth, 0.0)
    ensures NoExclusiveModelAt(SearchGraph([sa, sx, xa, sb], 0.0), [sa.consequent, sb.consequent], sa.antecedent, t)
  {
    var edges, s, members := [sa, sx, xa, sb], sa.antecedent, [sa.consequent, sb.consequent];
    var graph := SearchGraph(edges, 0.0);
    assert members[0] in members && members[1] in members;
    assert edges[0] == sa && edges[1] == sx && edges[2] == xa && edges[3] == sb;
    assert s != sa.consequent && s != sb.consequent && s != sx.consequent by {
      var named := [sa.consequent, sb.consequent, sx.consequent];
      assert named[0] in named && named[1] in named && named[2] in named;
    }
    OnlyEdgeIsThePath(edges, sa, maxDepth);
    OnlyEdgeIsThePath(edges, sb, maxDepth);
    forall u ensures !HitsValidAt(edges, members, s, maxDepth, 0.0, u) {
      ValidTogether(sa, sb, u);
    }
    var all := [sx, xa, sb];
    assert all[0] == sx && all[1] == xa && all[2] == sb;
    forall v: Valuation | ModelsAt(v, graph, t) && s in v ensures !Exclusive(v, members) {
      assert sx in graph && xa in graph && sb in graph;
    }
  }

  lemma ValidTogether(a: Edge, c: Edge, t: int)
    ensures AllValidAt([a, c], t) <==> AllValidAt([a], t) && AllValidAt([c], t)
  {
    assert a in [a] && c in [c] && a in [a, c] && c in [a, c];
  }

  lemma OneEdgeTrail(graph: seq<Edge>, e: Edge)
    requires e in graph
    ensures IsTrail(graph, [e], e.antecedent, e.consequent)
  {
    assert [e][..0] == [];
  }

  lemma OnlyEdgeIsTheTrail(graph: seq<Edge>, e: Edge, trail: seq<Edge>)
    requires IsTrail(graph, trail, e.antecedent, e.consequent) && e.antecedent != e.consequent && |trail| <= 1
    requires forall f :: f in graph && f.antecedent == e.antecedent && f.consequent == e.consequent ==> f == e
    ensures trail == [e]
  {
    assert trail != [] && trail[..0] == [] && trail == [trail[0]];
  }

  /** When one edge alone joins two nodes, it is the shortest path between them. */
  lemma OnlyEdgeIsThePath(edges: seq<Edge>, e: Edge, maxDepth: int)
    requires UnitConfidences(edges) && e in edges && e.antecedent != e.consequent && 1 <= maxDepth
    requires forall f :: f in edges && f.antecedent == e.antecedent && f.consequent == e.consequent ==> f == e
    ensures PathTo(edges, e.antecedent, e.consequent, maxDepth, 0.0).Some?
    ensures PathTo(edges, e.antecedent, e.consequent, maxDepth, 0.0).value.edges == [e]
  {
    var graph := SearchGraph(edges, 0.0);
    OneEdgeTrail(graph, e);
    ShortestIsComplete(edges, e.antecedent, e.consequent, maxDepth, ProductIndependent, 0.0);
    FoundPathIsPath(edges, e.antecedent, e.consequent, maxDepth, Shortest, ProductIndependent, false, 0.0);
    var p := PathTo(edges, e.antecedent, e.consequent, maxDepth, 0.0).value.edges;
    assert |p| <= |[e]|;
    OnlyEdgeIsTheTrail(graph, e, p);
  }
}
