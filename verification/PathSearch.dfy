/**
 Best-path search over implication edges, settling nodes in the order `networkx.shortest_path` does.
 The search is stated for any gain that never grows along an edge and keeps comparisons when both sides
 are extended by the same edge; the product of confidences and the negated edge count are two such gains.
 */
module PathSearch {
  import opened Basics
  import opened Implication

  /** Consecutive edges of `graph` leading from `a` to `b`. */
  predicate IsTrail(graph: seq<Edge>, trail: seq<Edge>, a: string, b: string)
    decreases |trail|
  {
    if trail == [] then a == b
    else
      var last := trail[|trail| - 1];
      last in graph && last.consequent == b && IsTrail(graph, trail[..|trail| - 1], a, last.antecedent)
  }

  /** The nodes a trail from `a` visits, in order. */
  function Nodes(trail: seq<Edge>, a: string): (nodes: seq<string>)
    ensures |nodes| == |trail| + 1
  {
    if trail == [] then [a] else Nodes(trail[..|trail| - 1], a) + [trail[|trail| - 1].consequent]
  }

  predicate Distinct<T(==)>(s: seq<T>) {
    forall i, j :: 0 <= i < j < |s| ==> s[i] != s[j]
  }

  ghost predicate Over(graph: seq<Edge>, trail: seq<Edge>) {
    forall e :: e in trail ==> e in graph
  }

  lemma {:induction false} TrailIsOver(graph: seq<Edge>, trail: seq<Edge>, a: string, b: string)
    requires IsTrail(graph, trail, a, b)
    ensures Over(graph, trail)
    decreases |trail|
  {
    if trail != [] {
      var front := trail[..|trail| - 1];
      TrailIsOver(graph, front, a, trail[|trail| - 1].antecedent);
      assert trail == front + [trail[|trail| - 1]];
    }
  }

  lemma {:induction false} EndsOf(graph: seq<Edge>, trail: seq<Edge>, a: string, b: string)
    requires IsTrail(graph, trail, a, b)
    ensures Nodes(trail, a)[0] == a && Nodes(trail, a)[|trail|] == b
    decreases |trail|
  {
    if trail != [] {
      EndsOf(graph, trail[..|trail| - 1], a, trail[|trail| - 1].antecedent);
    }
  }

  lemma ExtendTrail(graph: seq<Edge>, trail: seq<Edge>, a: string, e: Edge)
    requires IsTrail(graph, trail, a, e.antecedent) && e in graph
    ensures IsTrail(graph, trail + [e], a, e.consequent)
    ensures Nodes(trail + [e], a) == Nodes(trail, a) + [e.consequent]
  {
    assert (trail + [e])[..|trail|] == trail;
  }

  lemma DistinctSnoc(s: seq<string>, x: string)
    requires Distinct(s) && x !in s
    ensures Distinct(s + [x])
  {
  }

  // --- gains ---

  type Gain = seq<Edge> -> real

  /** Going one edge further never gains. */
  ghost predicate Decays(gain: Gain, graph: seq<Edge>) {
    forall t, e :: Over(graph, t) && e in graph ==> gain(t + [e]) <= gain(t)
  }

  /** Extending two trails by one edge keeps their order. */
  ghost predicate Monotone(gain: Gain, graph: seq<Edge>) {
    forall p, q, e :: Over(graph, p) && Over(graph, q) && e in graph && gain(p) <= gain(q)
      ==> gain(p + [e]) <= gain(q + [e])
  }

  ghost predicate Sound(gain: Gain, graph: seq<Edge>) {
    Decays(gain, graph) && Monotone(gain, graph)
  }

  // --- the search ---

  /** The trails known so far and the nodes whose trail is final; the other known nodes are open. */
  datatype Frontier = Frontier(best: map<string, seq<Edge>>, settled: set<string>)

  /** A known trail is simple and passes only through settled nodes before its end. */
  ghost predicate Known(graph: seq<Edge>, start: string, s: Frontier, x: string)
    requires x in s.best
  {
    && IsTrail(graph, s.best[x], start, x)
    && Over(graph, s.best[x])
    && Distinct(Nodes(s.best[x], start))
    && forall y :: y in Nodes(s.best[x], start) ==> y == x || y in s.settled
  }

  ghost predicate Shape(graph: seq<Edge>, start: string, s: Frontier) {
    && start in s.best
    && s.settled <= s.best.Keys
    && forall x :: x in s.best ==> Known(graph, start, s, x)
  }

  /** The trail through `e` is no improvement on what is known. */
  ghost predicate Relaxed(gain: Gain, s: Frontier, e: Edge)
    requires e.antecedent in s.best
  {
    e.consequent in s.best && gain(s.best[e.antecedent] + [e]) <= gain(s.best[e.consequent])
  }

  /** Settled nodes are at least as good as open ones. */
  ghost predicate Ordered(gain: Gain, s: Frontier)
    requires s.settled <= s.best.Keys
  {
    forall u, x :: u in s.settled && x in s.best && x !in s.settled ==> gain(s.best[x]) <= gain(s.best[u])
  }

  /** Edges out of settled nodes are relaxed, except that those out of `u` count only once in `done`. */
  ghost predicate RelaxedBut(gain: Gain, graph: seq<Edge>, s: Frontier, u: string, done: seq<Edge>)
    requires s.settled <= s.best.Keys
  {
    forall e :: e in graph && e.antecedent in s.settled && (e.antecedent != u || e in done) ==> Relaxed(gain, s, e)
  }

  /** Every settled node is at least as good as `u`. */
  ghost predicate Latest(gain: Gain, s: Frontier, u: string)
    requires s.settled <= s.best.Keys && u in s.best
  {
    forall v :: v in s.settled ==> gain(s.best[u]) <= gain(s.best[v])
  }

  /** Offer the trail through `u` along `e` to the node it leads to, unless that node is settled. */
  function RelaxEdge(gain: Gain, s: Frontier, u: string, e: Edge): Frontier
    requires u in s.best
  {
    var offer := s.best[u] + [e];
    var x := e.consequent;
    if e.antecedent != u || x in s.settled then s
    else if x !in s.best || gain(s.best[x]) < gain(offer) then s.(best := s.best[x := offer])
    else s
  }

  function RelaxAll(gain: Gain, s: Frontier, u: string, edges: seq<Edge>): Frontier
    requires u in s.best && u in s.settled
    decreases |edges|
  {
    if edges == [] then s else RelaxAll(gain, RelaxEdge(gain, s, u, edges[0]), u, edges[1..])
  }

  predicate Open(s: Frontier, x: string) {
    x in s.best && x !in s.settled
  }

  /** The best open node of a list, the earliest on ties. */
  function BestOpen(gain: Gain, s: Frontier, order: seq<string>): (r: Option<string>)
    ensures r.Some? ==> r.value in order && Open(s, r.value)
    ensures forall x :: x in order && Open(s, x) ==> r.Some? && gain(s.best[x]) <= gain(s.best[r.value])
  {
    if order == [] then None
    else
      var x, front := order[|order| - 1], order[..|order| - 1];
      assert order == front + [x];
      var r := BestOpen(gain, s, front);
      if Open(s, x) && (r.None? || gain(s.best[r.value]) < gain(s.best[x])) then Some(x) else r
  }

  /** Every node a search from `start` can meet. */
  function Places(graph: seq<Edge>, start: string): (order: seq<string>)
    ensures start in order && forall e :: e in graph ==> e.consequent in order
  {
    if graph == [] then [start]
    else
      assert graph == graph[..|graph| - 1] + [graph[|graph| - 1]];
      Places(graph[..|graph| - 1], start) + [graph[|graph| - 1].consequent]
  }

  function Settle(s: Frontier, u: string): Frontier {
    s.(settled := s.settled + {u})
  }

  /** Relaxing an edge changes at most what is known about its end, and never for the worse. */
  lemma RelaxEdgeFrame(gain: Gain, s: Frontier, u: string, e: Edge)
    requires u in s.best && s.settled <= s.best.Keys
    ensures var t := RelaxEdge(gain, s, u, e);
      && t.settled == s.settled && s.best.Keys <= t.best.Keys
      && (forall y :: y in s.settled ==> t.best[y] == s.best[y])
      && (forall y :: y in s.best ==> gain(s.best[y]) <= gain(t.best[y]))
      && (forall y :: y in t.best ==> (y in s.best && t.best[y] == s.best[y])
                                      || (y == e.consequent && e.antecedent == u && t.best[y] == s.best[u] + [e]))
  {
  }

  lemma RelaxEdgeShape(gain: Gain, graph: seq<Edge>, start: string, s: Frontier, u: string, e: Edge)
    requires Shape(graph, start, s) && u in s.settled && e in graph
    ensures Shape(graph, start, RelaxEdge(gain, s, u, e))
  {
    var t := RelaxEdge(gain, s, u, e);
    RelaxEdgeFrame(gain, s, u, e);
    forall y | y in t.best ensures Known(graph, start, t, y) {
      if y in s.best && t.best[y] == s.best[y] {
        assert Known(graph, start, s, y);
      } else {
        assert Known(graph, start, s, u);
        ExtendTrail(graph, s.best[u], start, e);
        DistinctSnoc(Nodes(s.best[u], start), y);
      }
    }
  }

  lemma RelaxEdgeOrder(gain: Gain, graph: seq<Edge>, start: string, s: Frontier, u: string, e: Edge)
    requires Decays(gain, graph) && Shape(graph, start, s) && u in s.settled && e in graph
    requires Ordered(gain, s) && Latest(gain, s, u)
    requires Shape(graph, start, RelaxEdge(gain, s, u, e))
    ensures Ordered(gain, RelaxEdge(gain, s, u, e)) && Latest(gain, RelaxEdge(gain, s, u, e), u)
  {
    var t := RelaxEdge(gain, s, u, e);
    RelaxEdgeFrame(gain, s, u, e);
    assert Known(graph, start, s, u);
    assert gain(s.best[u] + [e]) <= gain(s.best[u]);
  }

  lemma RelaxEdgeRelaxes(gain: Gain, graph: seq<Edge>, start: string, s: Frontier, u: string, e: Edge, done: seq<Edge>)
    requires Decays(gain, graph) && Shape(graph, start, s) && u in s.settled && e in graph
    requires Latest(gain, s, u) && RelaxedBut(gain, graph, s, u, done)
    requires Shape(graph, start, RelaxEdge(gain, s, u, e))
    ensures RelaxedBut(gain, graph, RelaxEdge(gain, s, u, e), u, done + [e])
  {
    var t := RelaxEdge(gain, s, u, e);
    RelaxEdgeFrame(gain, s, u, e);
    assert Known(graph, start, s, u);
    assert gain(s.best[u] + [e]) <= gain(s.best[u]);
    forall f | f in graph && f.antecedent in t.settled && (f.antecedent != u || f in done + [e])
      ensures Relaxed(gain, t, f)
    {
      if f.antecedent != u || f in done {
        assert Relaxed(gain, s, f);
      }
    }
  }

  /** The state while the edges out of `u` are being relaxed; those in `done` already are. */
  ghost predicate Relaxing(gain: Gain, graph: seq<Edge>, start: string, s: Frontier, u: string, done: seq<Edge>) {
    && Shape(graph, start, s) && u in s.settled
    && Ordered(gain, s) && Latest(gain, s, u) && RelaxedBut(gain, graph, s, u, done)
  }

  lemma RelaxEdgeKeeps(gain: Gain, graph: seq<Edge>, start: string, s: Frontier, u: string, e: Edge, done: seq<Edge>)
    requires Decays(gain, graph) && Relaxing(gain, graph, start, s, u, done) && e in graph
    ensures Relaxing(gain, graph, start, RelaxEdge(gain, s, u, e), u, done + [e])
    ensures RelaxEdge(gain, s, u, e).settled == s.settled
  {
    RelaxEdgeShape(gain, graph, start, s, u, e);
    RelaxEdgeOrder(gain, graph, start, s, u, e);
    RelaxEdgeRelaxes(gain, graph, start, s, u, e, done);
  }

  lemma {:induction false} RelaxAllKeeps(
    gain: Gain, graph: seq<Edge>, start: string, s: Frontier, u: string, edges: seq<Edge>, done: seq<Edge>)
    requires Decays(gain, graph) && Relaxing(gain, graph, start, s, u, done) && Over(graph, edges)
    ensures Relaxing(gain, graph, start, RelaxAll(gain, s, u, edges), u, done + edges)
    ensures RelaxAll(gain, s, u, edges).settled == s.settled
    decreases |edges|
  {
    if edges == [] {
      assert done + edges == done;
    } else {
      assert edges[0] in edges && Over(graph, edges[1..]);
      assert done + edges == done + [edges[0]] + edges[1..];
      RelaxEdgeKeeps(gain, graph, start, s, u, edges[0], done);
      RelaxAllKeeps(gain, graph, start, RelaxEdge(gain, s, u, edges[0]), u, edges[1..], done + [edges[0]]);
    }
  }

  ghost predicate Invariant(gain: Gain, graph: seq<Edge>, start: string, s: Frontier) {
    && Shape(graph, start, s) && Ordered(gain, s)
    && forall e :: e in graph && e.antecedent in s.settled ==> Relaxed(gain, s, e)
  }

  /** Settle an open node and relax the edges out of it. */
  function SettleNext(gain: Gain, graph: seq<Edge>, s: Frontier, u: string): Frontier
    requires u in s.best
  {
    RelaxAll(gain, Settle(s, u), u, graph)
  }

  lemma SettleNextKeeps(gain: Gain, graph: seq<Edge>, start: string, s: Frontier, u: string)
    requires Decays(gain, graph) && Invariant(gain, graph, start, s) && Open(s, u)
    requires forall x :: Open(s, x) ==> gain(s.best[x]) <= gain(s.best[u])
    ensures var t := SettleNext(gain, graph, s, u);
      Invariant(gain, graph, start, t) && t.settled == s.settled + {u}
  {
    var t := Settle(s, u);
    forall x | x in t.best ensures Known(graph, start, t, x) {
      assert Known(graph, start, s, x);
    }
    assert RelaxedBut(gain, graph, t, u, []) by {
      forall e | e in graph && e.antecedent in t.settled && e.antecedent != u ensures Relaxed(gain, t, e) {
        assert Relaxed(gain, s, e);
      }
    }
    assert Ordered(gain, t) && Latest(gain, t, u) by {
      forall v, x | v in t.settled && x in t.best && x !in t.settled ensures gain(t.best[x]) <= gain(t.best[v]) {
        assert Open(s, x);
      }
    }
    RelaxAllKeeps(gain, graph, start, t, u, graph, []);
    assert [] + graph == graph;
  }

  /** What a trail's gain is beaten by, once the search has settled `s.settled`. */
  ghost predicate Loses(gain: Gain, s: Frontier, trail: seq<Edge>, x: string)
    requires s.settled <= s.best.Keys
  {
    if x in s.settled then gain(trail) <= gain(s.best[x])
    else (exists o :: Open(s, o)) && forall v :: v in s.settled ==> gain(trail) <= gain(s.best[v])
  }

  lemma StartKnown(graph: seq<Edge>, start: string, s: Frontier)
    requires Shape(graph, start, s)
    ensures s.best[start] == []
  {
    assert Known(graph, start, s, start);
    EndsOf(graph, s.best[start], start, start);
  }

  lemma LosesFurther(gain: Gain, graph: seq<Edge>, start: string, s: Frontier, front: seq<Edge>, e: Edge)
    requires Sound(gain, graph) && Invariant(gain, graph, start, s) && Over(graph, front) && e in graph
    requires Loses(gain, s, front, e.antecedent)
    ensures Loses(gain, s, front + [e], e.consequent)
  {
    var x, y := e.consequent, e.antecedent;
    assert gain(front + [e]) <= gain(front);
    if y in s.settled {
      assert Known(graph, start, s, y) && Relaxed(gain, s, e);
      assert gain(front + [e]) <= gain(s.best[y] + [e]);
      if x !in s.settled {
        assert Open(s, x);
      }
    }
  }

  /** A trail loses to what is known of its end or, once it has left the settled nodes, to every settled node. */
  lemma {:induction false} TrailLoses(
    gain: Gain, graph: seq<Edge>, start: string, s: Frontier, trail: seq<Edge>, x: string)
    requires Sound(gain, graph) && Invariant(gain, graph, start, s) && IsTrail(graph, trail, start, x)
    requires start in s.settled
    ensures Loses(gain, s, trail, x)
    decreases |trail|
  {
    if trail == [] {
      StartKnown(graph, start, s);
    } else {
      var last, front := trail[|trail| - 1], trail[..|trail| - 1];
      assert trail == front + [last];
      TrailLoses(gain, graph, start, s, front, last.antecedent);
      TrailIsOver(graph, front, start, last.antecedent);
      LosesFurther(gain, graph, start, s, front, last);
    }
  }

  lemma StartSettled(graph: seq<Edge>, start: string, s: Frontier, x: string)
    requires Shape(graph, start, s) && x in s.settled
    ensures start in s.settled
  {
    assert Known(graph, start, s, x);
    EndsOf(graph, s.best[x], start, x);
    assert Nodes(s.best[x], start)[0] in Nodes(s.best[x], start);
  }

  ghost predicate IsBest(gain: Gain, graph: seq<Edge>, trail: seq<Edge>, a: string, b: string) {
    && IsTrail(graph, trail, a, b)
    && forall other :: IsTrail(graph, other, a, b) ==> gain(other) <= gain(trail)
  }

  lemma SettledIsBest(gain: Gain, graph: seq<Edge>, start: string, s: Frontier, goal: string)
    requires Sound(gain, graph) && Invariant(gain, graph, start, s) && goal in s.settled
    ensures IsBest(gain, graph, s.best[goal], start, goal) && Distinct(Nodes(s.best[goal], start))
  {
    assert Known(graph, start, s, goal);
    StartSettled(graph, start, s, goal);
    forall other | IsTrail(graph, other, start, goal) ensures gain(other) <= gain(s.best[goal]) {
      TrailLoses(gain, graph, start, s, other, goal);
    }
  }

  lemma KnownIsPlace(graph: seq<Edge>, start: string, s: Frontier, x: string)
    requires Shape(graph, start, s) && x in s.best
    ensures x in Places(graph, start)
  {
    assert Known(graph, start, s, x);
  }

  /** Settle the best open node until the goal is settled or nothing is open. */
  function Search(gain: Gain, graph: seq<Edge>, start: string, goal: string, s: Frontier): (r: Option<seq<Edge>>)
    requires Sound(gain, graph) && Invariant(gain, graph, start, s)
    ensures r.Some? ==> IsBest(gain, graph, r.value, start, goal) && Distinct(Nodes(r.value, start))
    ensures r.None? ==> forall trail :: !IsTrail(graph, trail, start, goal)
    decreases (set x | x in Places(graph, start)) - s.settled
  {
    var u := BestOpen(gain, s, Places(graph, start));
    assert forall x :: Open(s, x) ==> x in Places(graph, start) by {
      forall x | Open(s, x) ensures x in Places(graph, start) { KnownIsPlace(graph, start, s, x); }
    }
    if goal in s.settled then
      SettledIsBest(gain, graph, start, s, goal);
      Some(s.best[goal])
    else if u.None? then
      NothingOpen(gain, graph, start, goal, s);
      None
    else
      SettleNextKeeps(gain, graph, start, s, u.value);
      Search(gain, graph, start, goal, SettleNext(gain, graph, s, u.value))
  }

  lemma NothingOpen(gain: Gain, graph: seq<Edge>, start: string, goal: string, s: Frontier)
    requires Sound(gain, graph) && Invariant(gain, graph, start, s)
    requires goal !in s.settled && forall x :: !Open(s, x)
    ensures forall trail :: !IsTrail(graph, trail, start, goal)
  {
    assert !Open(s, start);
    forall trail | IsTrail(graph, trail, start, goal) ensures false {
      TrailLoses(gain, graph, start, s, trail, goal);
    }
  }

  /** A simple path of greatest gain among all paths of any length, or none when there is no path. */
  function BestTrail(gain: Gain, graph: seq<Edge>, start: string, goal: string): (r: Option<seq<Edge>>)
    requires Sound(gain, graph)
    ensures r.Some? ==> IsBest(gain, graph, r.value, start, goal) && Distinct(Nodes(r.value, start))
    ensures r.None? ==> forall trail :: !IsTrail(graph, trail, start, goal)
  {
    var s := Frontier(map[start := []], {});
    assert Nodes([], start) == [start];
    Search(gain, graph, start, goal, s)
  }

  // --- the two gains ---

  /** `rank_confidence`: the product of the confidences. */
  function Product(trail: seq<Edge>): real {
    if trail == [] then 1.0 else Product(trail[..|trail| - 1]) * trail[|trail| - 1].confidence
  }

  /** Unweighted search counts edges. */
  function Hops(trail: seq<Edge>): real {
    -(|trail| as real)
  }

  ghost predicate UnitConfidences(graph: seq<Edge>) {
    forall e :: e in graph ==> 0.0 <= e.confidence <= 1.0
  }

  lemma Scale(a: real, b: real, c: real)
    requires a <= b && 0.0 <= c
    ensures a * c <= b * c
  {
  }

  lemma ShrinkTo(a: real, c: real, ac: real)
    requires 0.0 <= a && c <= 1.0 && ac == a * c
    ensures ac <= a
  {
    Scale(c, 1.0, a);
  }

  lemma ScaleBoth(a: real, b: real, c: real, ac: real, bc: real)
    requires a <= b && 0.0 <= c && ac == a * c && bc == b * c
    ensures ac <= bc
  {
    Scale(a, b, c);
  }

  lemma ProductSnoc(trail: seq<Edge>, e: Edge)
    ensures Product(trail + [e]) == Product(trail) * e.confidence
  {
    assert (trail + [e])[..|trail|] == trail;
  }

  lemma {:induction false} ProductPositive(graph: seq<Edge>, trail: seq<Edge>)
    requires UnitConfidences(graph) && Over(graph, trail)
    ensures 0.0 <= Product(trail)
  {
    if trail != [] {
      var front, last := trail[..|trail| - 1], trail[|trail| - 1];
      assert last in trail;
      ProductPositive(graph, front);
      ScaleBoth(0.0, Product(front), last.confidence, 0.0, Product(trail));
    }
  }

  /** Each edge multiplies the gain by its confidence. */
  ghost predicate Multiplies(gain: Gain) {
    forall t, e {:trigger gain(t + [e])} :: gain(t + [e]) == gain(t) * e.confidence
  }

  /** Multiplying by factors between 0 and 1 is a sound gain. */
  lemma FactorsAreSound(gain: Gain, graph: seq<Edge>)
    requires UnitConfidences(graph) && Multiplies(gain)
    requires forall t :: Over(graph, t) ==> 0.0 <= gain(t)
    ensures Sound(gain, graph)
  {
    forall t, e | Over(graph, t) && e in graph ensures gain(t + [e]) <= gain(t) {
      ShrinkTo(gain(t), e.confidence, gain(t + [e]));
    }
    forall p, q, e | Over(graph, p) && Over(graph, q) && e in graph && gain(p) <= gain(q)
      ensures gain(p + [e]) <= gain(q + [e])
    {
      ScaleBoth(gain(p), gain(q), e.confidence, gain(p + [e]), gain(q + [e]));
    }
  }

  lemma ProductMultiplies()
    ensures Multiplies(Product)
  {
    var gain: Gain := Product;
    forall t, e ensures gain(t + [e]) == gain(t) * e.confidence {
      ProductSnoc(t, e);
    }
  }

  lemma ProductIsSound(graph: seq<Edge>)
    requires UnitConfidences(graph)
    ensures Sound(Product, graph)
  {
    var gain: Gain := Product;
    forall t | Over(graph, t) ensures 0.0 <= gain(t) {
      ProductPositive(graph, t);
    }
    ProductMultiplies();
    FactorsAreSound(gain, graph);
  }

  lemma HopsAreSound(graph: seq<Edge>)
    ensures Sound(Hops, graph)
  {
  }
}
