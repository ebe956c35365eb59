/** `GraphIndex`: path queries over the implication edges of a relation list. */
module GraphIndex {
  import opened Basics
  import opened Implication
  import opened PathSearch

  datatype Strategy = BestConfidence | Shortest
  datatype Policy = ProductIndependent | Minimum | NoAggregation

  /** A found path; `confidence` is absent when nothing is aggregated. */
  datatype Path = Path(nodes: seq<string>, edges: seq<Edge>, confidence: Option<real>)

  /** `_search_graph`: the edges at or above the confidence floor. */
  function SearchGraph(edges: seq<Edge>, floor: real): (kept: seq<Edge>)
    ensures forall e :: e in kept <==> e in edges && (floor <= 0.0 || floor <= e.confidence)
  {
    if edges == [] then []
    else
      var rest := SearchGraph(edges[1..], floor);
      assert edges == [edges[0]] + edges[1..];
      if floor <= 0.0 || floor <= edges[0].confidence then [edges[0]] + rest else rest
  }

  /** The nodes of the index; the confidence floor removes edges, not nodes. */
  function NodeSet(edges: seq<Edge>): set<string> {
    (set e | e in edges :: e.antecedent) + (set e | e in edges :: e.consequent)
  }

  predicate Joins(e: Edge, a: string, b: string, floor: real) {
    e.antecedent == a && e.consequent == b && floor <= e.confidence
  }

  /** `best_direct_edge`: the most confident edge between two nodes, the first on ties. */
  function BestDirectEdge(edges: seq<Edge>, a: string, b: string, floor: real): (r: Option<Edge>)
    ensures r.Some? ==> r.value in edges && Joins(r.value, a, b, floor)
    ensures forall e :: e in edges && Joins(e, a, b, floor) ==> r.Some? && e.confidence <= r.value.confidence
  {
    if edges == [] then None
    else
      var last, front := edges[|edges| - 1], edges[..|edges| - 1];
      assert edges == front + [last];
      var r := BestDirectEdge(front, a, b, floor);
      if Joins(last, a, b, floor) && (r.None? || r.value.confidence < last.confidence) then Some(last) else r
  }

  /** Among equally confident edges the first one is chosen. */
  lemma {:induction false} FirstOnTies(edges: seq<Edge>, a: string, b: string, floor: real) returns (k: nat)
    requires BestDirectEdge(edges, a, b, floor).Some?
    ensures k < |edges| && BestDirectEdge(edges, a, b, floor) == Some(edges[k])
    ensures forall i :: 0 <= i < k && Joins(edges[i], a, b, floor) ==> edges[i].confidence < edges[k].confidence
  {
    var n := |edges| - 1;
    assert edges == edges[..n] + [edges[n]];
    if BestDirectEdge(edges, a, b, floor) == BestDirectEdge(edges[..n], a, b, floor) {
      k := FirstOnTies(edges[..n], a, b, floor);
    } else {
      k := n;
      forall i | 0 <= i < n && Joins(edges[i], a, b, floor) ensures edges[i].confidence < edges[n].confidence {
        assert edges[i] in edges[..n];
      }
    }
  }

  /** `aggregate_confidence` */
  function Aggregate(edges: seq<Edge>, policy: Policy): Option<real> {
    match policy
    case NoAggregation => None
    case Minimum => Some(Weakest(edges))
    case ProductIndependent => Some(Product(edges))
  }

  function Weakest(edges: seq<Edge>): (r: real)
    ensures edges == [] ==> r == 1.0
    ensures forall e :: e in edges ==> r <= e.confidence
    ensures edges != [] ==> exists e :: e in edges && r == e.confidence
  {
    if |edges| == 0 then 1.0
    else if |edges| == 1 then assert edges[0] in edges; edges[0].confidence
    else
      var rest := Weakest(edges[1..]);
      assert edges == [edges[0]] + edges[1..];
      assert edges[0] in edges;
      if edges[0].confidence <= rest then edges[0].confidence else rest
  }

  /** What a path's confidence is: none, the least on the path, or their product. */
  ghost predicate Carries(p: Path, policy: Policy) {
    match policy
    case NoAggregation => p.confidence.None?
    case ProductIndependent => p.confidence == Some(Product(p.edges))
    case Minimum =>
      && p.confidence.Some? && (p.edges == [] ==> p.confidence.value == 1.0)
      && (forall e :: e in p.edges ==> p.confidence.value <= e.confidence)
      && (p.edges != [] ==> exists e :: e in p.edges && p.confidence.value == e.confidence)
  }

  /** Every adjacent pair of the list is joined by an edge at or above the floor. */
  ghost predicate Linked(edges: seq<Edge>, nodes: seq<string>, floor: real) {
    forall i :: 0 <= i < |nodes| - 1 ==> BestDirectEdge(edges, nodes[i], nodes[i + 1], floor).Some?
  }

  /** `_best_edges_for_nodes` on a list whose adjacent pairs are joined. */
  function BestEdges(edges: seq<Edge>, nodes: seq<string>, floor: real): (r: seq<Edge>)
    requires nodes != [] && Linked(edges, nodes, floor)
    ensures |r| == |nodes| - 1
    ensures forall i :: 0 <= i < |r| ==> Some(r[i]) == BestDirectEdge(edges, nodes[i], nodes[i + 1], floor)
  {
    if |nodes| == 1 then []
    else
      var n := |nodes|;
      assert BestDirectEdge(edges, nodes[n - 2], nodes[n - 2 + 1], floor).Some?;
      BestEdges(edges, nodes[..n - 1], floor) + [BestDirectEdge(edges, nodes[n - 2], nodes[n - 1], floor).value]
  }

  function GainOf(strategy: Strategy): Gain {
    if strategy.BestConfidence? then Product else Hops
  }

  lemma GainOfIsSound(strategy: Strategy, graph: seq<Edge>)
    requires UnitConfidences(graph)
    ensures Sound(GainOf(strategy), graph)
  {
    ProductIsSound(graph);
    HopsAreSound(graph);
  }

  /** The library's answer to the search, before the depth bound is applied. */
  function SearchTrail(edges: seq<Edge>, start: string, end: string, strategy: Strategy, floor: real)
    : (r: Option<seq<Edge>>)
    requires UnitConfidences(edges)
    ensures r.Some? ==> IsBest(GainOf(strategy), SearchGraph(edges, floor), r.value, start, end)
    ensures r.Some? ==> Distinct(Nodes(r.value, start)) && Linked(edges, Nodes(r.value, start), floor)
    ensures r.None? ==> forall trail :: !IsTrail(SearchGraph(edges, floor), trail, start, end)
  {
    var graph := SearchGraph(edges, floor);
    GainOfIsSound(strategy, graph);
    var r := BestTrail(GainOf(strategy), graph, start, end);
    if r.Some? then
      TrailIsLinked(edges, floor, r.value, start, end);
      r
    else r
  }

  /** `find_paths` with everything but the two propositions fixed. */
  type Router = (string, string) -> Option<Path>

  /** `find_paths` for the two shortest-path strategies, which return at most one path. */
  function FindPath(
    edges: seq<Edge>, start: string, end: string, maxDepth: int, strategy: Strategy, policy: Policy,
    directOnly: bool, floor: real): Option<Path>
    requires UnitConfidences(edges)
  {
    if start == end then Some(Path([start], [], Aggregate([], policy)))
    else if start !in NodeSet(edges) || end !in NodeSet(edges) then None
    else if directOnly then
      var edge := BestDirectEdge(edges, start, end, floor);
      if edge.None? then None
      else Some(Path([start, end], [edge.value], Aggregate([edge.value], policy)))
    else
      var trail := SearchTrail(edges, start, end, strategy, floor);
      if trail.None? || |trail.value| > maxDepth then None
      else
        var best := BestEdges(edges, Nodes(trail.value, start), floor);
        Some(Path(Nodes(trail.value, start), best, Aggregate(best, policy)))
  }

  // --- trails and node lists ---

  lemma {:induction false} TrailIsLinked(edges: seq<Edge>, floor: real, trail: seq<Edge>, a: string, b: string)
    requires UnitConfidences(edges) && IsTrail(SearchGraph(edges, floor), trail, a, b)
    ensures Linked(edges, Nodes(trail, a), floor)
    decreases |trail|
  {
    if trail != [] {
      var last, front := trail[|trail| - 1], trail[..|trail| - 1];
      TrailIsLinked(edges, floor, front, a, last.antecedent);
      EndsOf(SearchGraph(edges, floor), front, a, last.antecedent);
      var nodes, fore := Nodes(trail, a), Nodes(front, a);
      assert Joins(last, last.antecedent, last.consequent, floor);
      forall i | 0 <= i < |nodes| - 1 ensures BestDirectEdge(edges, nodes[i], nodes[i + 1], floor).Some? {
        if i < |fore| - 1 {
          assert nodes[i] == fore[i] && nodes[i + 1] == fore[i + 1];
        }
      }
    }
  }

  /** The best edges of a linked node list form a trail with exactly those nodes. */
  lemma {:induction false} BestEdgesTrail(edges: seq<Edge>, nodes: seq<string>, floor: real)
    requires nodes != [] && Linked(edges, nodes, floor)
    ensures var r := BestEdges(edges, nodes, floor);
      IsTrail(SearchGraph(edges, floor), r, nodes[0], nodes[|nodes| - 1]) && Nodes(r, nodes[0]) == nodes
  {
    var n := |nodes|;
    if n > 1 {
      var front := nodes[..n - 1];
      BestEdgesTrail(edges, front, floor);
      var last := BestDirectEdge(edges, nodes[n - 2], nodes[n - 1], floor).value;
      assert BestEdges(edges, nodes, floor) == BestEdges(edges, front, floor) + [last];
      ExtendTrail(SearchGraph(edges, floor), BestEdges(edges, front, floor), nodes[0], last);
      assert nodes == front + [nodes[n - 1]];
    }
  }

  lemma BestEdgesSnoc(edges: seq<Edge>, fore: seq<string>, x: string, floor: real)
    requires fore != [] && Linked(edges, fore + [x], floor)
    ensures Linked(edges, fore, floor) && BestDirectEdge(edges, fore[|fore| - 1], x, floor).Some?
    ensures BestEdges(edges, fore + [x], floor)
         == BestEdges(edges, fore, floor) + [BestDirectEdge(edges, fore[|fore| - 1], x, floor).value]
  {
    var nodes := fore + [x];
    assert nodes[..|fore|] == fore;
    forall i | 0 <= i < |fore| - 1 ensures BestDirectEdge(edges, fore[i], fore[i + 1], floor).Some? {
      assert fore[i] == nodes[i] && fore[i + 1] == nodes[i + 1];
    }
    assert nodes[|fore| - 1] == fore[|fore| - 1] && nodes[|fore| - 1 + 1] == x;
  }

  lemma LastHop(edges: seq<Edge>, trail: seq<Edge>, a: string, b: string, floor: real)
    requires UnitConfidences(edges) && IsTrail(SearchGraph(edges, floor), trail, a, b) && trail != []
    ensures var last, front := trail[|trail| - 1], trail[..|trail| - 1];
      var best := BestDirectEdge(edges, last.antecedent, b, floor);
      && trail == front + [last] && Over(edges, front) && last in edges
      && best.Some? && last.confidence <= best.value.confidence
  {
    var last, front := trail[|trail| - 1], trail[..|trail| - 1];
    TrailIsOver(SearchGraph(edges, floor), front, a, last.antecedent);
    assert Joins(last, last.antecedent, b, floor);
  }

  /** A trail's best edges are those of its front followed by the best edge of its last hop. */
  lemma BestEdgesOfFront(edges: seq<Edge>, trail: seq<Edge>, a: string, b: string, floor: real)
    requires IsTrail(SearchGraph(edges, floor), trail, a, b) && trail != []
    requires Linked(edges, Nodes(trail, a), floor)
    ensures var last, front := trail[|trail| - 1], trail[..|trail| - 1];
      var best := BestDirectEdge(edges, last.antecedent, b, floor);
      && Linked(edges, Nodes(front, a), floor) && best.Some?
      && BestEdges(edges, Nodes(trail, a), floor) == BestEdges(edges, Nodes(front, a), floor) + [best.value]
  {
    var last, front := trail[|trail| - 1], trail[..|trail| - 1];
    EndsOf(SearchGraph(edges, floor), front, a, last.antecedent);
    BestEdgesSnoc(edges, Nodes(front, a), b, floor);
  }

  /** Choosing the best parallel edge on every hop gives the largest product over that node list. */
  lemma {:induction false} BestEdgesGain(
    gain: Gain, edges: seq<Edge>, trail: seq<Edge>, a: string, b: string, floor: real)
    requires UnitConfidences(edges) && IsTrail(SearchGraph(edges, floor), trail, a, b)
    requires Linked(edges, Nodes(trail, a), floor)
    requires Multiplies(gain) && forall t :: Over(edges, t) ==> 0.0 <= gain(t)
    ensures gain(trail) <= gain(BestEdges(edges, Nodes(trail, a), floor))
    decreases |trail|
  {
    if trail != [] {
      var last, front := trail[|trail| - 1], trail[..|trail| - 1];
      LastHop(edges, trail, a, b, floor);
      BestEdgesOfFront(edges, trail, a, b, floor);
      BestEdgesGain(gain, edges, front, a, last.antecedent, floor);
      TwoSteps(gain, front, BestEdges(edges, Nodes(front, a), floor), last,
               BestDirectEdge(edges, last.antecedent, b, floor).value);
    }
  }

  lemma BestEdgesProduct(edges: seq<Edge>, trail: seq<Edge>, a: string, b: string, floor: real)
    requires UnitConfidences(edges) && IsTrail(SearchGraph(edges, floor), trail, a, b)
    requires Linked(edges, Nodes(trail, a), floor)
    ensures Product(trail) <= Product(BestEdges(edges, Nodes(trail, a), floor))
  {
    var gain: Gain := Product;
    forall t | Over(edges, t) ensures 0.0 <= gain(t) {
      ProductPositive(edges, t);
    }
    ProductMultiplies();
    BestEdgesGain(gain, edges, trail, a, b, floor);
  }

  lemma TwoSteps(gain: Gain, p: seq<Edge>, q: seq<Edge>, e: Edge, f: Edge)
    requires Multiplies(gain) && 0.0 <= gain(p) <= gain(q) && 0.0 <= e.confidence <= f.confidence
    ensures gain(p + [e]) <= gain(q + [f])
  {
    Scale(gain(p), gain(q), e.confidence);
    Scale(e.confidence, f.confidence, gain(q));
    assert gain(p + [e]) == gain(p) * e.confidence && gain(q + [f]) == gain(q) * f.confidence;
  }

  // --- what a query answers ---

  lemma TrailEndsInGraph(graph: seq<Edge>, trail: seq<Edge>, a: string, b: string)
    requires IsTrail(graph, trail, a, b) && a != b
    ensures a in NodeSet(graph) && b in NodeSet(graph)
    decreases |trail|
  {
    var last, front := trail[|trail| - 1], trail[..|trail| - 1];
    if a != last.antecedent {
      TrailEndsInGraph(graph, front, a, last.antecedent);
    }
  }

  lemma FoundPathCarries(
    edges: seq<Edge>, start: string, end: string, maxDepth: int, strategy: Strategy, policy: Policy,
    directOnly: bool, floor: real)
    requires UnitConfidences(edges)
    requires FindPath(edges, start, end, maxDepth, strategy, policy, directOnly, floor).Some?
    ensures Carries(FindPath(edges, start, end, maxDepth, strategy, policy, directOnly, floor).value, policy)
  {
  }

  /** A simple implication path that uses the best edge on every hop. */
  ghost predicate BestPath(edges: seq<Edge>, p: Path, start: string, end: string, floor: real)
    requires UnitConfidences(edges)
  {
    && IsTrail(SearchGraph(edges, floor), p.edges, start, end)
    && p.nodes == Nodes(p.edges, start) && Distinct(p.nodes)
    && forall i :: 0 <= i < |p.edges| ==>
         Some(p.edges[i]) == BestDirectEdge(edges, p.nodes[i], p.nodes[i + 1], floor)
  }

  lemma BestEdgesPath(edges: seq<Edge>, p: Path, floor: real)
    requires UnitConfidences(edges) && Distinct(p.nodes) && p.nodes != []
    requires Linked(edges, p.nodes, floor) && p.edges == BestEdges(edges, p.nodes, floor)
    ensures BestPath(edges, p, p.nodes[0], p.nodes[|p.nodes| - 1], floor)
  {
    BestEdgesTrail(edges, p.nodes, floor);
  }

  lemma DirectPath(edges: seq<Edge>, e: Edge, start: string, end: string, aggregate: Option<real>, floor: real)
    requires UnitConfidences(edges) && start != end && BestDirectEdge(edges, start, end, floor) == Some(e)
    ensures BestPath(edges, Path([start, end], [e], aggregate), start, end, floor)
  {
    BestEdgesSnoc(edges, [start], end, floor);
    assert [start] + [end] == [start, end];
    BestEdgesPath(edges, Path([start, end], [e], aggregate), floor);
  }

  lemma SearchedPath(
    edges: seq<Edge>, trail: seq<Edge>, start: string, end: string, aggregate: Option<real>, floor: real)
    requires UnitConfidences(edges) && IsTrail(SearchGraph(edges, floor), trail, start, end)
    requires Distinct(Nodes(trail, start)) && Linked(edges, Nodes(trail, start), floor)
    ensures var nodes := Nodes(trail, start);
      BestPath(edges, Path(nodes, BestEdges(edges, nodes, floor), aggregate), start, end, floor)
  {
    EndsOf(SearchGraph(edges, floor), trail, start, end);
    var nodes := Nodes(trail, start);
    BestEdgesPath(edges, Path(nodes, BestEdges(edges, nodes, floor), aggregate), floor);
  }

  lemma SearchedAnswer(
    edges: seq<Edge>, start: string, end: string, maxDepth: int, strategy: Strategy, policy: Policy, floor: real)
    requires UnitConfidences(edges) && start != end
    requires FindPath(edges, start, end, maxDepth, strategy, policy, false, floor).Some?
    ensures var p := FindPath(edges, start, end, maxDepth, strategy, policy, false, floor).value;
      BestPath(edges, p, start, end, floor) && |p.edges| <= maxDepth
  {
    var p := FindPath(edges, start, end, maxDepth, strategy, policy, false, floor).value;
    SearchedPath(edges, SearchTrail(edges, start, end, strategy, floor).value, start, end, p.confidence, floor);
  }

  lemma DirectAnswer(
    edges: seq<Edge>, start: string, end: string, maxDepth: int, strategy: Strategy, policy: Policy, floor: real)
    requires UnitConfidences(edges) && start != end
    requires FindPath(edges, start, end, maxDepth, strategy, policy, true, floor).Some?
    ensures var p := FindPath(edges, start, end, maxDepth, strategy, policy, true, floor).value;
      BestPath(edges, p, start, end, floor) && |p.edges| == 1
  {
    var p := FindPath(edges, start, end, maxDepth, strategy, policy, true, floor).value;
    DirectPath(edges, p.edges[0], start, end, p.confidence, floor);
  }

  lemma EmptyPath(edges: seq<Edge>, start: string, aggregate: Option<real>, floor: real)
    requires UnitConfidences(edges)
    ensures BestPath(edges, Path([start], [], aggregate), start, start, floor)
  {
  }

  /** A returned path is a simple implication path within the depth bound, using the best edge on every hop. */
  lemma FoundPathIsPath(
    edges: seq<Edge>, start: string, end: string, maxDepth: int, strategy: Strategy, policy: Policy,
    directOnly: bool, floor: real)
    requires UnitConfidences(edges)
    requires FindPath(edges, start, end, maxDepth, strategy, policy, directOnly, floor).Some?
    ensures var p := FindPath(edges, start, end, maxDepth, strategy, policy, directOnly, floor).value;
      && BestPath(edges, p, start, end, floor)
      && (start != end ==> |p.edges| <= if directOnly then 1 else maxDepth)
      && Carries(p, policy)
  {
    FoundPathCarries(edges, start, end, maxDepth, strategy, policy, directOnly, floor);
    if start == end {
      EmptyPath(edges, start, Aggregate([], policy), floor);
    } else if directOnly {
      DirectAnswer(edges, start, end, maxDepth, strategy, policy, floor);
    } else {
      SearchedAnswer(edges, start, end, maxDepth, strategy, policy, floor);
    }
  }

  /** With direct edges only, the answer is the most confident edge between the two, and none exactly without one. */
  lemma DirectOnlyExactly(
    edges: seq<Edge>, start: string, end: string, maxDepth: int, strategy: Strategy, policy: Policy, floor: real)
    requires UnitConfidences(edges) && start != end
    ensures var r := FindPath(edges, start, end, maxDepth, strategy, policy, true, floor);
      && (r.Some? <==> exists e :: e in edges && Joins(e, start, end, floor))
      && (r.Some? ==>
            && |r.value.edges| == 1 && r.value.edges[0] in edges && Joins(r.value.edges[0], start, end, floor)
            && forall e :: e in edges && Joins(e, start, end, floor) ==> e.confidence <= r.value.edges[0].confidence)
  {
  }

  /** A proposition leads to itself by the empty path, whatever the graph. */
  lemma SelfPath(
    edges: seq<Edge>, start: string, maxDepth: int, strategy: Strategy, policy: Policy, directOnly: bool, floor: real)
    requires UnitConfidences(edges)
    ensures var r := FindPath(edges, start, start, maxDepth, strategy, policy, directOnly, floor);
      r.Some? && r.value.nodes == [start] && r.value.edges == [] && Carries(r.value, policy)
  {
  }

  /** A best-confidence answer has the largest confidence product of all paths of any length. */
  lemma BestConfidenceIsMaximal(
    edges: seq<Edge>, start: string, end: string, maxDepth: int, policy: Policy, floor: real, trail: seq<Edge>)
    requires UnitConfidences(edges) && start != end
    requires FindPath(edges, start, end, maxDepth, BestConfidence, policy, false, floor).Some?
    requires IsTrail(SearchGraph(edges, floor), trail, start, end)
    ensures Product(trail)
         <= Product(FindPath(edges, start, end, maxDepth, BestConfidence, policy, false, floor).value.edges)
  {
    var best := SearchTrail(edges, start, end, BestConfidence, floor).value;
    BestEdgesProduct(edges, best, start, end, floor);
  }

  /** The depth bound is applied to the library's answer after the fact. */
  lemma FoundWithinDepth(
    edges: seq<Edge>, start: string, end: string, maxDepth: int, strategy: Strategy, policy: Policy, floor: real)
    requires UnitConfidences(edges) && start != end
    ensures var r, t := FindPath(edges, start, end, maxDepth, strategy, policy, false, floor),
                        SearchTrail(edges, start, end, strategy, floor);
      && (r.Some? <==> t.Some? && |t.value| <= maxDepth)
      && (r.Some? ==> |r.value.edges| == |t.value|)
  {
    var t := SearchTrail(edges, start, end, strategy, floor);
    if t.Some? {
      TrailEndsInGraph(SearchGraph(edges, floor), t.value, start, end);
    }
  }

  /** A missing best-confidence answer means no path at all, or a most confident path beyond the depth bound. */
  lemma BestConfidenceMisses(
    edges: seq<Edge>, start: string, end: string, maxDepth: int, policy: Policy, floor: real)
    requires UnitConfidences(edges) && start != end
    requires FindPath(edges, start, end, maxDepth, BestConfidence, policy, false, floor).None?
    requires Connected(SearchGraph(edges, floor), start, end)
    ensures exists trail :: IsBest(Product, SearchGraph(edges, floor), trail, start, end)
                            && Distinct(Nodes(trail, start)) && maxDepth < |trail|
  {
    FoundWithinDepth(edges, start, end, maxDepth, BestConfidence, policy, floor);
    var t := SearchTrail(edges, start, end, BestConfidence, floor);
    assert t.Some?;
    assert maxDepth < |t.value|;
  }

  /**
   The depth bound, seen by a caller: best-confidence search answers when every most confident simple path fits the
   bound, and returns nothing when every one exceeds it. In between, the library's choice among equals decides.
   */
  lemma BestConfidenceDepth(
    edges: seq<Edge>, start: string, end: string, maxDepth: int, policy: Policy, floor: real)
    requires UnitConfidences(edges) && start != end && Connected(SearchGraph(edges, floor), start, end)
    ensures exists trail :: IsMostConfident(SearchGraph(edges, floor), trail, start, end)
    ensures (forall trail :: IsMostConfident(SearchGraph(edges, floor), trail, start, end) ==> |trail| <= maxDepth)
            ==> FindPath(edges, start, end, maxDepth, BestConfidence, policy, false, floor).Some?
    ensures (forall trail :: IsMostConfident(SearchGraph(edges, floor), trail, start, end) ==> maxDepth < |trail|)
            ==> FindPath(edges, start, end, maxDepth, BestConfidence, policy, false, floor).None?
    ensures FindPath(edges, start, end, maxDepth, BestConfidence, policy, false, floor).Some? ==>
      exists trail :: IsMostConfident(SearchGraph(edges, floor), trail, start, end) && |trail| <= maxDepth
  {
    FoundWithinDepth(edges, start, end, maxDepth, BestConfidence, policy, floor);
    var t := SearchTrail(edges, start, end, BestConfidence, floor);
    assert t.Some?;
    assert IsMostConfident(SearchGraph(edges, floor), t.value, start, end);
  }

  /** A simple path of the largest confidence product. */
  ghost predicate IsMostConfident(graph: seq<Edge>, trail: seq<Edge>, start: string, end: string) {
    IsBest(Product, graph, trail, start, end) && Distinct(Nodes(trail, start))
  }

  lemma ShortTrail(gain: Gain, graph: seq<Edge>, trail: seq<Edge>, a: string, b: string)
    requires IsTrail(graph, trail, a, b) && a != b && |trail| <= 1
    requires Multiplies(gain) && gain([]) == 1.0
    ensures |trail| == 1 && trail[0] in graph && trail[0].antecedent == a && trail[0].consequent == b
    ensures gain(trail) == trail[0].confidence
  {
    assert trail[..0] == [] && trail == [] + [trail[0]];
    assert gain([] + [trail[0]]) == gain([]) * trail[0].confidence;
  }

  lemma TwoEdgeTrail(graph: seq<Edge>, ac: Edge, cb: Edge)
    requires ac in graph && cb in graph && ac.consequent == cb.antecedent
    ensures IsTrail(graph, [ac, cb], ac.antecedent, cb.consequent)
  {
    assert [ac][..0] == [];
    assert IsTrail(graph, [ac], ac.antecedent, ac.consequent);
    assert [ac, cb][..1] == [ac];
  }

  lemma TwoEdgeGain(gain: Gain, ac: Edge, cb: Edge)
    requires Multiplies(gain) && gain([]) == 1.0
    ensures gain([ac, cb]) == ac.confidence * cb.confidence
  {
    assert gain([ac]) == ac.confidence by {
      assert [] + [ac] == [ac];
      assert gain([] + [ac]) == gain([]) * ac.confidence;
    }
    assert [ac] + [cb] == [ac, cb];
    assert gain([ac] + [cb]) == gain([ac]) * cb.confidence;
  }

  /**
   With a direct edge less confident than a detour, a depth bound of one hides both from best-confidence search,
   while shortest search still finds the edge.
   */
  lemma BestConfidenceMissesAShortPath(ab: Edge, ac: Edge, cb: Edge, policy: Policy)
    requires UnitConfidences([ab, ac, cb])
    requires ab.antecedent == ac.antecedent && ac.consequent == cb.antecedent && cb.consequent == ab.consequent
    requires ac.antecedent != ac.consequent && cb.antecedent != cb.consequent && ab.antecedent != ab.consequent
    requires ab.confidence < ac.confidence * cb.confidence
    ensures FindPath([ab, ac, cb], ab.antecedent, ab.consequent, 1, BestConfidence, policy, false, 0.0).None?
    ensures FindPath([ab, ac, cb], ab.antecedent, ab.consequent, 1, Shortest, policy, false, 0.0).Some?
  {
    var edges, a, b := [ab, ac, cb], ab.antecedent, ab.consequent;
    var graph := SearchGraph(edges, 0.0);
    assert ab in edges && ac in edges && cb in edges;
    var gain := GainOf(BestConfidence);
    ProductMultiplies();
    TwoEdgeTrail(graph, ac, cb);
    TwoEdgeGain(gain, ac, cb);
    FoundWithinDepth(edges, a, b, 1, BestConfidence, policy, 0.0);
    var t := SearchTrail(edges, a, b, BestConfidence, 0.0);
    assert t.Some? ==> gain([ac, cb]) <= gain(t.value);
    if t.Some? && |t.value| <= 1 {
      ShortTrail(gain, graph, t.value, a, b);
      assert false;
    }
    assert IsTrail(graph, [ab], a, b) by {
      assert [ab][..0] == [];
    }
    ShortestIsComplete(edges, a, b, 1, policy, 0.0);
  }

  /** Shortest search answers exactly when some path fits the depth bound, and its answer has the fewest edges. */
  lemma ShortestIsComplete(
    edges: seq<Edge>, start: string, end: string, maxDepth: int, policy: Policy, floor: real)
    requires UnitConfidences(edges) && start != end
    ensures var graph, r := SearchGraph(edges, floor),
                            FindPath(edges, start, end, maxDepth, Shortest, policy, false, floor);
      && (r.Some? <==> exists trail :: IsTrail(graph, trail, start, end) && |trail| <= maxDepth)
      && (r.Some? ==> forall trail :: IsTrail(graph, trail, start, end) ==> |r.value.edges| <= |trail|)
  {
    FoundWithinDepth(edges, start, end, maxDepth, Shortest, policy, floor);
    var t := SearchTrail(edges, start, end, Shortest, floor);
    if t.Some? {
      FewestHops(SearchGraph(edges, floor), t.value, start, end);
    }
  }

  lemma FewestHops(graph: seq<Edge>, best: seq<Edge>, a: string, b: string)
    requires IsBest(Hops, graph, best, a, b)
    ensures forall trail :: IsTrail(graph, trail, a, b) ==> |best| <= |trail|
  {
    forall trail | IsTrail(graph, trail, a, b) ensures |best| <= |trail| {
      assert Hops(trail) <= Hops(best);
    }
  }

  ghost predicate Connected(graph: seq<Edge>, a: string, b: string) {
    exists trail :: IsTrail(graph, trail, a, b)
  }

  // --- depth and node count ---

  lemma {:induction false} DistinctFits(s: seq<string>, places: set<string>)
    requires Distinct(s) && forall x :: x in s ==> x in places
    ensures |s| <= |places|
  {
    if s != [] {
      var last, front := s[|s| - 1], s[..|s| - 1];
      assert s == front + [last];
      DistinctFits(front, places - {last});
    }
  }

  lemma {:induction false} NodesInGraph(graph: seq<Edge>, trail: seq<Edge>, a: string, b: string)
    requires IsTrail(graph, trail, a, b) && trail != []
    ensures forall x :: x in Nodes(trail, a) ==> x in NodeSet(graph)
    decreases |trail|
  {
    var last, front := trail[|trail| - 1], trail[..|trail| - 1];
    if front != [] {
      NodesInGraph(graph, front, a, last.antecedent);
    }
  }

  /** A simple path has fewer edges than the graph has nodes. */
  lemma SimplePathFits(graph: seq<Edge>, trail: seq<Edge>, a: string, b: string)
    requires IsTrail(graph, trail, a, b) && Distinct(Nodes(trail, a)) && a != b
    ensures |trail| <= |NodeSet(graph)| - 1
  {
    NodesInGraph(graph, trail, a, b);
    DistinctFits(Nodes(trail, a), NodeSet(graph));
  }

  /** At any depth a path proves connection; at the node count less one, either strategy finds every connection. */
  lemma EnoughDepth(
    edges: seq<Edge>, start: string, end: string, maxDepth: int, strategy: Strategy, policy: Policy, floor: real)
    requires UnitConfidences(edges)
    ensures FindPath(edges, start, end, maxDepth, strategy, policy, false, floor).Some?
            ==> Connected(SearchGraph(edges, floor), start, end)
    ensures |NodeSet(edges)| - 1 <= maxDepth && Connected(SearchGraph(edges, floor), start, end)
            ==> FindPath(edges, start, end, maxDepth, strategy, policy, false, floor).Some?
  {
    if start == end {
      assert IsTrail(SearchGraph(edges, floor), [], start, end);
    } else {
      FoundWithinDepth(edges, start, end, maxDepth, strategy, policy, floor);
      var t := SearchTrail(edges, start, end, strategy, floor);
      if t.Some? {
        SimplePathFits(SearchGraph(edges, floor), t.value, start, end);
        SmallerSet(NodeSet(SearchGraph(edges, floor)), NodeSet(edges));
      }
    }
  }

  lemma {:induction false} SmallerSet(a: set<string>, b: set<string>)
    requires a <= b
    ensures |a| <= |b|
  {
    assert b == a + (b - a);
  }

  // --- explicit chains ---

  /** The first missing link of an explicit chain; `reversed` when only the opposite edge exists. */
  datatype Chain = Verified(path: Path) | Broken(index: nat, reversed: bool)

  lemma LinkedSnoc(edges: seq<Edge>, fore: seq<string>, x: string, floor: real)
    requires fore != [] && Linked(edges, fore, floor) && BestDirectEdge(edges, fore[|fore| - 1], x, floor).Some?
    ensures Linked(edges, fore + [x], floor)
  {
    var nodes := fore + [x];
    forall k | 0 <= k < |nodes| - 1 ensures BestDirectEdge(edges, nodes[k], nodes[k + 1], floor).Some? {
      if k < |fore| - 1 {
        assert nodes[k] == fore[k] && nodes[k + 1] == fore[k + 1];
      }
    }
  }

  lemma ChainGrows(edges: seq<Edge>, chain: seq<string>, i: nat, floor: real)
    requires i < |chain| - 1 && Linked(edges, chain[..i + 1], floor)
    requires BestDirectEdge(edges, chain[i], chain[i + 1], floor).Some?
    ensures Linked(edges, chain[..i + 2], floor)
    ensures BestEdges(edges, chain[..i + 2], floor)
         == BestEdges(edges, chain[..i + 1], floor) + [BestDirectEdge(edges, chain[i], chain[i + 1], floor).value]
  {
    LinkedSnoc(edges, chain[..i + 1], chain[i + 1], floor);
    assert chain[..i + 2] == chain[..i + 1] + [chain[i + 1]];
    BestEdgesSnoc(edges, chain[..i + 1], chain[i + 1], floor);
  }

  /** `verify_explicit_chain` */
  method VerifyExplicitChain(edges: seq<Edge>, chain: seq<string>, policy: Policy, floor: real) returns (r: Chain)
    requires chain != []
    ensures r.Verified? <==> Linked(edges, chain, floor)
    ensures r.Verified? ==>
      r.path == Path(chain, BestEdges(edges, chain, floor), Aggregate(BestEdges(edges, chain, floor), policy))
    ensures r.Verified? ==> IsTrail(SearchGraph(edges, floor), r.path.edges, chain[0], chain[|chain| - 1])
    ensures r.Broken? ==>
      && r.index < |chain| - 1
      && Linked(edges, chain[..r.index + 1], floor)
      && (forall e :: e in edges ==> !Joins(e, chain[r.index], chain[r.index + 1], floor))
      && (r.reversed <==> exists e :: e in edges && Joins(e, chain[r.index + 1], chain[r.index], floor))
  {
    var found: seq<Edge> := [];
    for i := 0 to |chain| - 1
      invariant Linked(edges, chain[..i + 1], floor)
      invariant found == BestEdges(edges, chain[..i + 1], floor)
    {
      var edge := BestDirectEdge(edges, chain[i], chain[i + 1], floor);
      if edge.None? {
        var reverse := BestDirectEdge(edges, chain[i + 1], chain[i], floor);
        return Broken(i, reverse.Some?);
      }
      ChainGrows(edges, chain, i, floor);
      found := found + [edge.value];
    }
    assert chain[..|chain|] == chain;
    BestEdgesTrail(edges, chain, floor);
    return Verified(Path(chain, found, Aggregate(found, policy)));
  }
}
