/** `counterfactual`: what happens to the target propositions when one proposition is assumed false. */
module Counterfactual {
  import opened Basics
  import opened Implication
  import opened PathSearch
  import opened GraphIndex
  import opened Classification

  datatype Query = Query(ifNot: string, targets: seq<string>, maxDepth: int, policy: Policy, floor: real)

  datatype Proof = Intervention | NecessaryCondition(path: Path) | AllCausesBlocked(causes: set<string>)

  datatype Judgement =
    | Blocked(target: string, proof: Proof)
    | Possibly(target: string, blockedPath: Path, alternatives: seq<Path>)
    | StillPossible(target: string, blockedPath: Path, proven: seq<Path>)
    | Unknown(target: string)

  const MAX_ALTERNATIVES := 5

  /** `find_paths` as this tool calls it. */
  function RouterOf(edges: seq<Edge>, q: Query): Router
    requires UnitConfidences(edges)
  {
    (a, b) => FindPath(edges, a, b, q.maxDepth, BestConfidence, q.policy, false, q.floor)
  }

  /** The same on the edges of validated relations. */
  function Routes(relations: seq<Relation>, q: Query): Router
    requires Validated(relations)
  {
    ValidatedEdges(relations);
    RouterOf(EdgesOf(relations), q)
  }

  /** Every answer's node list begins at the asked start. */
  ghost predicate Anchored(route: Router) {
    forall a, b :: route(a, b).Some? ==> route(a, b).value.nodes != [] && route(a, b).value.nodes[0] == a
  }

  lemma RouterIsAnchored(edges: seq<Edge>, q: Query)
    requires UnitConfidences(edges)
    ensures Anchored(RouterOf(edges, q))
  {
    forall a, b | RouterOf(edges, q)(a, b).Some?
      ensures RouterOf(edges, q)(a, b).value.nodes != [] && RouterOf(edges, q)(a, b).value.nodes[0] == a
    {
      RouteIsTrail(edges, q, a, b);
    }
  }

  lemma RouteIsTrail(edges: seq<Edge>, q: Query, a: string, b: string)
    requires UnitConfidences(edges) && RouterOf(edges, q)(a, b).Some?
    ensures var p := RouterOf(edges, q)(a, b).value;
      IsTrail(SearchGraph(edges, q.floor), p.edges, a, b) && p.nodes != [] && p.nodes[0] == a
  {
    FoundPathIsPath(edges, a, b, q.maxDepth, BestConfidence, q.policy, false, q.floor);
    EndsOf(SearchGraph(edges, q.floor), RouterOf(edges, q)(a, b).value.edges, a, b);
  }

  // --- alternative paths ---

  /** The path from `start` to the target, when it has an edge and avoids the intervention. */
  function Detour(route: Router, q: Query, target: string, start: string): Option<Path> {
    if start == q.ifNot || start == target then None
    else
      var r := route(start, target);
      if r.Some? && r.value.edges != [] && q.ifNot !in r.value.nodes then r else None
  }

  function Detours(route: Router, q: Query, target: string, starts: seq<string>): (found: seq<Path>)
    ensures forall p :: p in found <==> exists s :: s in starts && Detour(route, q, target, s) == Some(p)
  {
    if starts == [] then []
    else
      var last, front := starts[|starts| - 1], starts[..|starts| - 1];
      assert starts == front + [last];
      var d := Detour(route, q, target, last);
      Detours(route, q, target, front) + if d.Some? then [d.value] else []
  }

  /** The first alternatives in node order; the five-path cut comes before independence is looked at. */
  function FirstDetours(route: Router, q: Query, target: string, starts: seq<string>): seq<Path> {
    var all := Detours(route, q, target, starts);
    if |all| <= MAX_ALTERNATIVES then all else all[..MAX_ALTERNATIVES]
  }

  /** The alternatives are the detours when there are at most five, and otherwise the first five of them. */
  lemma FirstFive(route: Router, q: Query, target: string, starts: seq<string>)
    ensures var first, all := FirstDetours(route, q, target, starts), Detours(route, q, target, starts);
      first <= all && |first| == if |all| < 5 then |all| else 5
  {
  }

  /** `_counterfactual_alternative_paths`; a node list is never met twice, because the starts are distinct. */
  method AlternativePaths(route: Router, q: Query, target: string, starts: seq<string>) returns (found: seq<Path>)
    requires Anchored(route) && Distinct(starts)
    ensures found == FirstDetours(route, q, target, starts)
  {
    found := [];
    var seen: set<seq<string>> := {};
    for i := 0 to |starts|
      invariant found == Detours(route, q, target, starts[..i])
      invariant forall key :: key in seen ==> key != [] && key[0] in starts[..i]
    {
      assert starts[..i + 1] == starts[..i] + [starts[i]];
      assert starts[..i + 1][..i] == starts[..i];
      var d := Detour(route, q, target, starts[i]);
      if d.Some? {
        assert starts[i] !in starts[..i];
        if d.value.nodes !in seen {
          seen := seen + {d.value.nodes};
          found := found + [d.value];
        }
      }
    }
    assert starts[..|starts|] == starts;
    found := if |found| <= MAX_ALTERNATIVES then found else found[..MAX_ALTERNATIVES];
  }

  // --- one target ---

  function Independent(paths: seq<Path>, independent: Path -> bool): (kept: seq<Path>)
    ensures forall p :: p in kept <==> p in paths && independent(p)
  {
    if paths == [] then []
    else
      assert paths == [paths[0]] + paths[1..];
      (if independent(paths[0]) then [paths[0]] else []) + Independent(paths[1..], independent)
  }

  /** What one pass of the target loop decides; `independent` answers whether a path is proven independent. */
  function Judge(route: Router, q: Query, starts: seq<string>, independent: Path -> bool, target: string): Judgement {
    if target == q.ifNot then Blocked(target, Intervention)
    else
      var dependency := route(target, q.ifNot);
      if dependency.Some? then Blocked(target, NecessaryCondition(dependency.value))
      else
        var blocked := route(q.ifNot, target);
        if blocked.None? then Judgement.Unknown(target)
        else
          var alternatives := FirstDetours(route, q, target, starts);
          var proven := Independent(alternatives, independent);
          if proven != [] then StillPossible(target, blocked.value, proven)
          else Possibly(target, blocked.value, alternatives)
  }

  method JudgeTarget(route: Router, q: Query, starts: seq<string>, independent: Path -> bool, target: string)
    returns (j: Judgement)
    requires Anchored(route) && Distinct(starts)
    ensures j == Judge(route, q, starts, independent, target)
  {
    if target == q.ifNot {
      return Blocked(target, Intervention);
    }
    var dependency := route(target, q.ifNot);
    if dependency.Some? {
      return Blocked(target, NecessaryCondition(dependency.value));
    }
    var blocked := route(q.ifNot, target);
    if blocked.None? {
      return Judgement.Unknown(target);
    }
    var alternatives := AlternativePaths(route, q, target, starts);
    var proven := Independent(alternatives, independent);
    j := if proven != [] then StillPossible(target, blocked.value, proven)
         else Possibly(target, blocked.value, alternatives);
  }

  // --- the buckets ---

  /** The sorted listing of the index's nodes. */
  ghost predicate ListsNodes(nodes: seq<string>, edges: seq<Edge>) {
    && (forall i, j :: 0 <= i < j < |nodes| ==> LexLess(nodes[i], nodes[j]))
    && (forall x :: x in nodes <==> x in NodeSet(edges))
  }

  lemma ListingIsDistinct(nodes: seq<string>, edges: seq<Edge>)
    requires ListsNodes(nodes, edges)
    ensures Distinct(nodes)
  {
    forall i, j | 0 <= i < j < |nodes| ensures nodes[i] != nodes[j] {
      LexIrreflexive(nodes[i]);
    }
  }

  /** `_counterfactual_targets`: the given targets, or every other node. */
  function TargetsOf(q: Query, nodes: seq<string>): seq<string> {
    if q.targets != [] then q.targets else Except(nodes, q.ifNot)
  }

  function Names(js: seq<Judgement>): seq<string> {
    seq(|js|, i requires 0 <= i < |js| => js[i].target)
  }

  function JudgeAll(
    route: Router, q: Query, nodes: seq<string>, independent: Path -> bool, targets: seq<string>): seq<Judgement> {
    if targets == [] then []
    else
      var last, front := targets[|targets| - 1], targets[..|targets| - 1];
      JudgeAll(route, q, nodes, independent, front) + [Judge(route, q, nodes, independent, last)]
  }

  /** The judgements a test selects, in order. */
  function Select(js: seq<Judgement>, test: Judgement -> bool): (kept: seq<Judgement>)
    ensures forall j :: j in kept <==> j in js && test(j)
  {
    if js == [] then []
    else
      var last, front := js[|js| - 1], js[..|js| - 1];
      assert js == front + [last];
      Select(front, test) + if test(last) then [last] else []
  }

  datatype Buckets = Buckets(
    necessarily: seq<Judgement>, possibly: seq<Judgement>, stillPossible: seq<Judgement>, unknown: seq<Judgement>)
  {
    /** The bucketed targets, with repetitions. */
    function Members(): multiset<string> {
      multiset(Names(necessarily)) + multiset(Names(possibly)) + multiset(Names(stillPossible))
      + multiset(Names(unknown))
    }
  }

  /** The judgements of each kind, in order. */
  function Bucketed(js: seq<Judgement>): Buckets {
    Buckets(
      Select(js, (j: Judgement) => j.Blocked?), Select(js, (j: Judgement) => j.Possibly?),
      Select(js, (j: Judgement) => j.StillPossible?), Select(js, (j: Judgement) => j.Unknown?))
  }

  /** Appends a judgement to its bucket. */
  function Placed(b: Buckets, j: Judgement): (r: Buckets)
    ensures r.Members() == b.Members() + multiset{j.target}
  {
    if j.Blocked? then NamesSnoc(b.necessarily, j); b.(necessarily := b.necessarily + [j])
    else if j.Possibly? then NamesSnoc(b.possibly, j); b.(possibly := b.possibly + [j])
    else if j.StillPossible? then NamesSnoc(b.stillPossible, j); b.(stillPossible := b.stillPossible + [j])
    else NamesSnoc(b.unknown, j); b.(unknown := b.unknown + [j])
  }

  lemma PlacedNext(js: seq<Judgement>, j: Judgement)
    ensures Placed(Bucketed(js), j) == Bucketed(js + [j])
  {
    assert (js + [j])[..|js|] == js;
  }

  /** Every judged target lands in exactly one bucket. */
  lemma {:induction false} BucketsConserve(js: seq<Judgement>)
    ensures Bucketed(js).Members() == multiset(Names(js))
  {
    if js != [] {
      var last, front := js[|js| - 1], js[..|js| - 1];
      assert js == front + [last];
      BucketsConserve(front);
      PlacedNext(front, last);
      NamesSnoc(front, last);
    }
  }

  /** The open-world loop, one target at a time. */
  method OpenWorldBuckets(route: Router, q: Query, nodes: seq<string>, independent: Path -> bool)
    returns (b: Buckets)
    requires Anchored(route) && Distinct(nodes)
    ensures b == Bucketed(JudgeAll(route, q, nodes, independent, TargetsOf(q, nodes)))
  {
    var targets := TargetsOf(q, nodes);
    b := Buckets([], [], [], []);
    for i := 0 to |targets|
      invariant b == Bucketed(JudgeAll(route, q, nodes, independent, targets[..i]))
    {
      var j := JudgeTarget(route, q, nodes, independent, targets[i]);
      JudgeAllNext(route, q, nodes, independent, targets, i);
      PlacedNext(JudgeAll(route, q, nodes, independent, targets[..i]), j);
      b := Placed(b, j);
    }
    assert targets[..|targets|] == targets;
  }

  lemma {:induction false} JudgedInOrder(
    route: Router, q: Query, nodes: seq<string>, independent: Path -> bool, targets: seq<string>)
    ensures var js := JudgeAll(route, q, nodes, independent, targets);
      |js| == |targets| && forall i :: 0 <= i < |js| ==> js[i] == Judge(route, q, nodes, independent, targets[i])
  {
    if targets != [] {
      JudgedInOrder(route, q, nodes, independent, targets[..|targets| - 1]);
    }
  }

  lemma JudgeAllNext(
    route: Router, q: Query, nodes: seq<string>, independent: Path -> bool, targets: seq<string>, i: nat)
    requires i < |targets|
    ensures JudgeAll(route, q, nodes, independent, targets[..i + 1])
         == JudgeAll(route, q, nodes, independent, targets[..i]) + [Judge(route, q, nodes, independent, targets[i])]
  {
    assert targets[..i + 1][..i] == targets[..i];
  }

  lemma NamesSnoc(js: seq<Judgement>, j: Judgement)
    ensures Names(js + [j]) == Names(js) + [j.target]
    ensures multiset(Names(js + [j])) == multiset(Names(js)) + multiset{j.target}
  {
  }

  // --- closed-world upgrades ---

  /** `_direct_sufficient_causes`, as a set; the confidence floor is not applied. */
  function DirectCauses(edges: seq<Edge>, target: string): set<string> {
    set e | e in edges && e.consequent == target && (e.kind.Sufficient? || e.kind.Equivalent?) :: e.antecedent
  }

  /** A relation of the list makes `c` sufficient for the target: directly, or as one side of an equivalence. */
  ghost predicate IsCause(relations: seq<Relation>, c: string, target: string) {
    exists r :: r in relations &&
      ((r.kind == Sufficient && r.source == c && r.target == target)
       || (r.kind == Equivalent && ((r.source == c && r.target == target) || (r.source == target && r.target == c))))
  }

  /** The listed causes are exactly those. */
  lemma DirectCausesMeaning(relations: seq<Relation>, target: string, c: string)
    ensures c in DirectCauses(EdgesOf(relations), target) <==> IsCause(relations, c, target)
  {
    if c in DirectCauses(EdgesOf(relations), target) {
      var e :| e in EdgesOf(relations) && e.consequent == target && e.antecedent == c
               && (e.kind.Sufficient? || e.kind.Equivalent?);
      EdgeOrigin(relations, e);
      var r :| r in relations && e in Normalize(r);
      assert r in relations && r.kind == e.kind;
    }
    if IsCause(relations, c, target) {
      var r :| r in relations &&
        ((r.kind == Sufficient && r.source == c && r.target == target)
         || (r.kind == Equivalent && ((r.source == c && r.target == target) || (r.source == target && r.target == c))));
      var e := ToEdge(r, c, target);
      assert Normalize(r)[|Normalize(r)| - 1] in Normalize(r) && Normalize(r)[0] in Normalize(r);
      assert e in Normalize(r);
      EdgeOrigin(relations, e);
    }
  }

  function CausesIn(edges: seq<Edge>): string -> set<string> {
    target => DirectCauses(edges, target)
  }

  /** `_counterfactual_cause_blocked` */
  function BlockedBy(route: Router, ifNot: string): string -> bool {
    cause => cause == ifNot || route(cause, ifNot).Some?
  }

  predicate Upgradable(causes: string -> set<string>, blocked: string -> bool, target: string) {
    causes(target) != {} && forall c :: c in causes(target) ==> blocked(c)
  }

  predicate Upgraded(causes: string -> set<string>, blocked: string -> bool, j: Judgement) {
    j == Blocked(j.target, AllCausesBlocked(causes(j.target))) && Upgradable(causes, blocked, j.target)
  }

  /** The upgraded items and the rest, in order. */
  function Split(causes: string -> set<string>, blocked: string -> bool, possibly: seq<Judgement>)
    : (seq<Judgement>, seq<Judgement>)
  {
    if possibly == [] then ([], [])
    else
      var item := possibly[|possibly| - 1];
      var (remaining, upgraded) := Split(causes, blocked, possibly[..|possibly| - 1]);
      if Upgradable(causes, blocked, item.target)
      then (remaining, upgraded + [Blocked(item.target, AllCausesBlocked(causes(item.target)))])
      else (remaining + [item], upgraded)
  }

  /** No item is lost or repeated, and each lands on the side its causes decide. */
  lemma {:induction false} SplitConserves(
    causes: string -> set<string>, blocked: string -> bool, possibly: seq<Judgement>)
    ensures var (remaining, upgraded) := Split(causes, blocked, possibly);
      && (forall j :: j in remaining <==> j in possibly && !Upgradable(causes, blocked, j.target))
      && (forall j :: j in upgraded ==> Upgraded(causes, blocked, j))
      && multiset(Names(remaining)) + multiset(Names(upgraded)) == multiset(Names(possibly))
  {
    if possibly != [] {
      var item, front := possibly[|possibly| - 1], possibly[..|possibly| - 1];
      assert possibly == front + [item];
      SplitConserves(causes, blocked, front);
      NamesSnoc(front, item);
      var (remaining, upgraded) := Split(causes, blocked, front);
      NamesSnoc(remaining, item);
      NamesSnoc(upgraded, Blocked(item.target, AllCausesBlocked(causes(item.target))));
    }
  }

  /** `_closed_world_upgrades` */
  method ClosedWorldUpgrades(causes: string -> set<string>, blocked: string -> bool, possibly: seq<Judgement>)
    returns (remaining: seq<Judgement>, upgraded: seq<Judgement>)
    ensures (remaining, upgraded) == Split(causes, blocked, possibly)
  {
    remaining, upgraded := [], [];
    for i := 0 to |possibly|
      invariant (remaining, upgraded) == Split(causes, blocked, possibly[..i])
    {
      var item := possibly[i];
      assert possibly[..i + 1][..i] == possibly[..i];
      if Upgradable(causes, blocked, item.target) {
        upgraded := upgraded + [Blocked(item.target, AllCausesBlocked(causes(item.target)))];
      } else {
        remaining := remaining + [item];
      }
    }
    assert possibly[..|possibly|] == possibly;
  }

  /** How the closed world changes the open-world buckets: it only adds blocked items, with all their causes blocked. */
  ghost predicate Settles(
    b: Buckets, open: Buckets, causes: string -> set<string>, blocked: string -> bool, closed: bool)
  {
    && b.stillPossible == open.stillPossible && b.unknown == open.unknown
    && (forall j :: j in b.possibly <==> j in open.possibly && !(closed && Upgradable(causes, blocked, j.target)))
    && open.necessarily <= b.necessarily
    && (forall i :: |open.necessarily| <= i < |b.necessarily| ==> closed && Upgraded(causes, blocked, b.necessarily[i]))
  }

  /** The whole tool on the relations in scope; `closed` when the closed world and causal completeness are declared. */
  method Counterfactual(relations: seq<Relation>, q: Query, nodes: seq<string>, independent: Path -> bool, closed: bool)
    returns (b: Buckets)
    requires Validated(relations) && ListsNodes(nodes, EdgesOf(relations))
    ensures b.Members() == multiset(TargetsOf(q, nodes))
    ensures var edges, route := EdgesOf(relations), Routes(relations, q);
      Settles(b, Bucketed(JudgeAll(route, q, nodes, independent, TargetsOf(q, nodes))),
              CausesIn(edges), BlockedBy(route, q.ifNot), closed)
  {
    var edges := EdgesOf(relations);
    ValidatedEdges(relations);
    RouterIsAnchored(edges, q);
    ListingIsDistinct(nodes, edges);
    b := Answer(edges, Routes(relations, q), q, nodes, independent, closed);
  }

  method Answer(edges: seq<Edge>, route: Router, q: Query, nodes: seq<string>, independent: Path -> bool, closed: bool)
    returns (b: Buckets)
    requires Anchored(route) && Distinct(nodes)
    ensures b.Members() == multiset(TargetsOf(q, nodes))
    ensures Settles(b, Bucketed(JudgeAll(route, q, nodes, independent, TargetsOf(q, nodes))),
                    CausesIn(edges), BlockedBy(route, q.ifNot), closed)
  {
    b := OpenWorldBuckets(route, q, nodes, independent);
    JudgedNames(route, q, nodes, independent, TargetsOf(q, nodes));
    BucketsConserve(JudgeAll(route, q, nodes, independent, TargetsOf(q, nodes)));
    if closed {
      var remaining, upgraded := ClosedWorldUpgrades(CausesIn(edges), BlockedBy(route, q.ifNot), b.possibly);
      SplitConserves(CausesIn(edges), BlockedBy(route, q.ifNot), b.possibly);
      NamesConcat(b.necessarily, upgraded);
      b := b.(possibly := remaining, necessarily := b.necessarily + upgraded);
    }
  }

  lemma JudgedNames(route: Router, q: Query, nodes: seq<string>, independent: Path -> bool, targets: seq<string>)
    ensures Names(JudgeAll(route, q, nodes, independent, targets)) == targets
  {
    JudgedInOrder(route, q, nodes, independent, targets);
  }

  lemma NamesConcat(a: seq<Judgement>, b: seq<Judgement>)
    ensures multiset(Names(a + b)) == multiset(Names(a)) + multiset(Names(b))
  {
    assert Names(a + b) == Names(a) + Names(b);
  }

  // --- what the buckets mean ---

  /** Every model of the relations that makes `ifNot` false makes `target` false. */
  ghost predicate Dooms(relations: seq<Relation>, ifNot: string, target: string) {
    forall v: Valuation :: Models(v, relations) && ifNot !in v ==> target !in v
  }

  /** The same, in the models of `inPlay` where the target holds only if one of its causes in `relations` does. */
  ghost predicate DoomsThroughCauses(
    relations: seq<Relation>, inPlay: seq<Relation>, ifNot: string, target: string)
  {
    forall v: Valuation ::
      Models(v, inPlay) && ifNot !in v && (target in v ==> exists c :: IsCause(relations, c, target) && c in v)
      ==> target !in v
  }

  lemma RouteIsEntailment(relations: seq<Relation>, q: Query, a: string, b: string)
    requires Validated(relations)
    ensures Routes(relations, q)(a, b).Some? ==> Entails(Strong(relations, q.floor), a, b)
    ensures Deep(relations, q.maxDepth) && Entails(Strong(relations, q.floor), a, b)
            ==> Routes(relations, q)(a, b).Some?
  {
    ValidatedEdges(relations);
    PathIsEntailment(relations, a, b, q.maxDepth, BestConfidence, q.policy, false, q.floor);
  }

  lemma DoomedIsContraposed(relations: seq<Relation>, ifNot: string, target: string)
    ensures Dooms(relations, ifNot, target) <==> Entails(relations, target, ifNot)
  {
  }

  /**
   An open-world judgement is sound at every depth. At enough depth it is exact: blocked when no model with the
   intervention false keeps the target, otherwise split by whether the intervention would have entailed the target.
   */
  lemma JudgementMeaning(
    relations: seq<Relation>, q: Query, nodes: seq<string>, independent: Path -> bool, target: string)
    requires Validated(relations)
    ensures var inPlay, j := Strong(relations, q.floor), Judge(Routes(relations, q), q, nodes, independent, target);
      && j.target == target
      && (j.Blocked? ==> Dooms(inPlay, q.ifNot, target))
      && (j.Possibly? || j.StillPossible? ==> Entails(inPlay, q.ifNot, target))
      && (Deep(relations, q.maxDepth) ==>
            && (j.Blocked? <==> Dooms(inPlay, q.ifNot, target))
            && (j.Possibly? || j.StillPossible?
                <==> !Dooms(inPlay, q.ifNot, target) && Entails(inPlay, q.ifNot, target))
            && (j.Unknown? <==> !Dooms(inPlay, q.ifNot, target) && !Entails(inPlay, q.ifNot, target)))
  {
    RouteIsEntailment(relations, q, target, q.ifNot);
    RouteIsEntailment(relations, q, q.ifNot, target);
    DoomedIsContraposed(Strong(relations, q.floor), q.ifNot, target);
  }

  /** A target not blocked at enough depth has a witness: what it leads to, with the intervention left false. */
  lemma SurvivorHasAModel(
    relations: seq<Relation>, q: Query, nodes: seq<string>, independent: Path -> bool, target: string)
    requires Validated(relations) && Deep(relations, q.maxDepth)
    requires !Judge(Routes(relations, q), q, nodes, independent, target).Blocked?
    ensures var v := ReachableFrom(SearchGraph(EdgesOf(relations), q.floor), target);
      Models(v, Strong(relations, q.floor)) && target in v && q.ifNot !in v
  {
    var graph, strong := SearchGraph(EdgesOf(relations), q.floor), Strong(relations, q.floor);
    ReachableIsModel(graph, target);
    forall e ensures e in graph <==> e in EdgesOf(strong) {
      FloorOnEdges(relations, q.floor, e);
    }
    EdgesKeepMeaning(ReachableFrom(graph, target), strong);
    RouteIsEntailment(relations, q, target, q.ifNot);
    ConnectedIsEntailed(relations, q.floor, target, q.ifNot);
  }

  /** The target has causes, and none of them survives the intervention. */
  ghost predicate CausesDoomed(relations: seq<Relation>, inPlay: seq<Relation>, ifNot: string, target: string) {
    && (exists c :: IsCause(relations, c, target))
    && (forall c :: IsCause(relations, c, target) ==> Dooms(inPlay, ifNot, c))
  }

  lemma BlockedIsDoomed(relations: seq<Relation>, q: Query, c: string)
    requires Validated(relations)
    ensures var blocked, inPlay := BlockedBy(Routes(relations, q), q.ifNot), Strong(relations, q.floor);
      && (blocked(c) ==> Dooms(inPlay, q.ifNot, c))
      && (Deep(relations, q.maxDepth) && Dooms(inPlay, q.ifNot, c) ==> blocked(c))
  {
    RouteIsEntailment(relations, q, c, q.ifNot);
    DoomedIsContraposed(Strong(relations, q.floor), q.ifNot, c);
  }

  /**
   An upgraded target fails in every model with the intervention false where it needs one of its causes; at enough depth
   a target is upgraded exactly when it has causes and none survives the intervention.
   */
  lemma UpgradeMeaning(relations: seq<Relation>, q: Query, target: string)
    requires Validated(relations)
    ensures var edges, inPlay := EdgesOf(relations), Strong(relations, q.floor);
            var upgradable := Upgradable(CausesIn(edges), BlockedBy(Routes(relations, q), q.ifNot), target);
      && (upgradable ==> DoomsThroughCauses(relations, inPlay, q.ifNot, target))
      && (Deep(relations, q.maxDepth) ==> (upgradable <==> CausesDoomed(relations, inPlay, q.ifNot, target)))
  {
    var edges, inPlay := EdgesOf(relations), Strong(relations, q.floor);
    var blocked := BlockedBy(Routes(relations, q), q.ifNot);
    forall c ensures blocked(c) ==> Dooms(inPlay, q.ifNot, c)
      ensures Deep(relations, q.maxDepth) && Dooms(inPlay, q.ifNot, c) ==> blocked(c)
      ensures c in CausesIn(edges)(target) <==> IsCause(relations, c, target)
    {
      BlockedIsDoomed(relations, q, c);
      DirectCausesMeaning(relations, target, c);
    }
    UpgradeIsCauses(relations, inPlay, q, target, CausesIn(edges), blocked);
  }

  lemma UpgradeIsCauses(
    relations: seq<Relation>, inPlay: seq<Relation>, q: Query, target: string, causes: string -> set<string>,
    blocked: string -> bool)
    requires forall c :: c in causes(target) <==> IsCause(relations, c, target)
    requires forall c :: blocked(c) ==> Dooms(inPlay, q.ifNot, c)
    requires Deep(relations, q.maxDepth) ==> forall c :: Dooms(inPlay, q.ifNot, c) ==> blocked(c)
    ensures Upgradable(causes, blocked, target) ==> DoomsThroughCauses(relations, inPlay, q.ifNot, target)
    ensures Deep(relations, q.maxDepth)
            ==> (Upgradable(causes, blocked, target) <==> CausesDoomed(relations, inPlay, q.ifNot, target))
  {
    if Upgradable(causes, blocked, target) {
      var c := Pick(causes(target));
      assert IsCause(relations, c, target);
    }
    if c :| IsCause(relations, c, target) {
      assert c in causes(target);
    }
  }

  /** The target is implied by the intervention and does not imply it. */
  predicate Affected(route: Router, q: Query, target: string) {
    target != q.ifNot && route(target, q.ifNot).None? && route(q.ifNot, target).Some?
  }

  /** An affected target is still possible when one of the first five detours is independent, else possibly blocked. */
  lemma StillPossibleExactly(route: Router, q: Query, nodes: seq<string>, independent: Path -> bool, target: string)
    ensures var j, first := Judge(route, q, nodes, independent, target), FirstDetours(route, q, target, nodes);
      && (j.StillPossible? <==> Affected(route, q, target) && exists p :: p in first && independent(p))
      && (j.Possibly? <==> Affected(route, q, target) && forall p :: p in first ==> !independent(p))
      && (j.StillPossible? ==> forall p :: p in j.proven <==> p in first && independent(p))
  {
    var j, first := Judge(route, q, nodes, independent, target), FirstDetours(route, q, target, nodes);
    var proven := Independent(first, independent);
    if proven != [] {
      assert proven[0] in proven;
    }
  }

  /** An independent detour goes unused exactly when none of the first five is independent and a later one is. */
  lemma DetourIgnoredExactly(route: Router, q: Query, nodes: seq<string>, independent: Path -> bool, target: string)
    ensures var all := Detours(route, q, target, nodes);
      && (Judge(route, q, nodes, independent, target).Possibly? && (exists p :: p in all && independent(p))) <==>
      && Affected(route, q, target)
      && (forall p :: p in FirstDetours(route, q, target, nodes) ==> !independent(p))
      && exists k :: 5 <= k < |all| && independent(all[k])
  {
    StillPossibleExactly(route, q, nodes, independent, target);
    var all, first := Detours(route, q, target, nodes), FirstDetours(route, q, target, nodes);
    if p :| p in all && independent(p) && p !in first {
      assert all == all[..MAX_ALTERNATIVES] + all[MAX_ALTERNATIVES..];
      var k :| 0 <= k < |all[MAX_ALTERNATIVES..]| && all[MAX_ALTERNATIVES..][k] == p;
      assert all[MAX_ALTERNATIVES + k] == p;
    }
  }

  /** The detours are exactly the answers, with an edge and away from the intervention, of starts other than the two. */
  lemma DetoursExactly(route: Router, q: Query, target: string, nodes: seq<string>, p: Path)
    ensures p in Detours(route, q, target, nodes) <==>
      exists s :: s in nodes && s != target && s != q.ifNot && route(s, target) == Some(p)
                  && p.edges != [] && q.ifNot !in p.nodes
  {
    if s :| s in nodes && s != target && s != q.ifNot && route(s, target) == Some(p)
            && p.edges != [] && q.ifNot !in p.nodes {
      assert Detour(route, q, target, s) == Some(p);
    }
  }

  /** The path a judgement shows: from the target to the intervention when blocked, the other way when affected. */
  lemma JudgementPaths(route: Router, q: Query, nodes: seq<string>, independent: Path -> bool, target: string)
    ensures var j := Judge(route, q, nodes, independent, target);
      && (j.Blocked? && target == q.ifNot ==> j.proof == Intervention)
      && (j.Blocked? && target != q.ifNot ==>
            j.proof.NecessaryCondition? && route(target, q.ifNot) == Some(j.proof.path))
      && (j.Possibly? || j.StillPossible? ==> route(q.ifNot, target) == Some(j.blockedPath))
      && (j.Possibly? ==> j.alternatives == FirstDetours(route, q, target, nodes))
  {
  }

  /** The judged propositions: those asked for, or without any all nodes but the intervention. */
  lemma TargetsExactly(q: Query, nodes: seq<string>, x: string)
    ensures q.targets != [] ==> TargetsOf(q, nodes) == q.targets
    ensures q.targets == [] ==> (x in TargetsOf(q, nodes) <==> x in nodes && x != q.ifNot)
  {
  }

  /** The proven alternatives are detours around the intervention. */
  lemma StillPossibleMeans(
    edges: seq<Edge>, q: Query, nodes: seq<string>, independent: Path -> bool, target: string)
    requires UnitConfidences(edges)
    ensures forall p :: p in Detours(RouterOf(edges, q), q, target, nodes) ==> IsDetour(edges, q, target, p)
    ensures var j := Judge(RouterOf(edges, q), q, nodes, independent, target);
      j.StillPossible? ==>
        j.proven != [] && forall p :: p in j.proven ==> independent(p) && IsDetour(edges, q, target, p)
  {
    var route := RouterOf(edges, q);
    forall p | p in Detours(route, q, target, nodes) ensures IsDetour(edges, q, target, p) {
      var s :| s in nodes && Detour(route, q, target, s) == Some(p);
      RouteIsTrail(edges, q, s, target);
    }
    StillPossibleExactly(route, q, nodes, independent, target);
    assert forall p :: p in FirstDetours(route, q, target, nodes) ==> p in Detours(route, q, target, nodes);
  }

  /** An implication path to the target that starts elsewhere and never touches the intervention. */
  ghost predicate IsDetour(edges: seq<Edge>, q: Query, target: string, p: Path) {
    && p.nodes != [] && p.nodes[0] != target && q.ifNot !in p.nodes
    && IsTrail(SearchGraph(edges, q.floor), p.edges, p.nodes[0], target)
  }

  lemma JudgedAs(
    route: Router, q: Query, nodes: seq<string>, independent: Path -> bool, targets: seq<string>, j: Judgement)
    requires j in JudgeAll(route, q, nodes, independent, targets)
    ensures j == Judge(route, q, nodes, independent, j.target)
  {
    JudgedInOrder(route, q, nodes, independent, targets);
  }

  /**
   The target cannot be true with the intervention false; when the proof is by causes, not in the models where it needs
   one of them, and the proof lists all its causes.
   */
  ghost predicate BlockedFor(relations: seq<Relation>, inPlay: seq<Relation>, ifNot: string, j: Judgement) {
    && j.Blocked?
    && if j.proof.AllCausesBlocked? then
         && DoomsThroughCauses(relations, inPlay, ifNot, j.target)
         && forall c :: c in j.proof.causes <==> IsCause(relations, c, j.target)
       else Dooms(inPlay, ifNot, j.target)
  }

  lemma UpgradedIsBlocked(relations: seq<Relation>, q: Query, j: Judgement)
    requires Validated(relations)
    requires Upgraded(CausesIn(EdgesOf(relations)), BlockedBy(Routes(relations, q), q.ifNot), j)
    ensures BlockedFor(relations, Strong(relations, q.floor), q.ifNot, j)
  {
    UpgradeMeaning(relations, q, j.target);
    forall c ensures c in j.proof.causes <==> IsCause(relations, c, j.target) {
      DirectCausesMeaning(relations, j.target, c);
    }
  }

  /**
   What every answer means: each blocked item is blocked; each other item, at enough depth, is not doomed, and in a
   closed world a possibly blocked one has no causes or a cause that survives.
   */
  lemma AnswerMeaning(
    relations: seq<Relation>, q: Query, nodes: seq<string>, independent: Path -> bool, closed: bool, b: Buckets,
    j: Judgement)
    requires Validated(relations)
    requires var edges, route := EdgesOf(relations), Routes(relations, q);
      Settles(b, Bucketed(JudgeAll(route, q, nodes, independent, TargetsOf(q, nodes))),
              CausesIn(edges), BlockedBy(route, q.ifNot), closed)
    ensures j in b.necessarily ==> BlockedFor(relations, Strong(relations, q.floor), q.ifNot, j)
    ensures (j in b.possibly || j in b.stillPossible || j in b.unknown) && Deep(relations, q.maxDepth)
            ==> !Dooms(Strong(relations, q.floor), q.ifNot, j.target)
    ensures closed && j in b.possibly && Deep(relations, q.maxDepth)
            ==> !CausesDoomed(relations, Strong(relations, q.floor), q.ifNot, j.target)
  {
    var route := Routes(relations, q);
    var js := JudgeAll(route, q, nodes, independent, TargetsOf(q, nodes));
    var open := Bucketed(js);
    if j in js {
      JudgedAs(route, q, nodes, independent, TargetsOf(q, nodes), j);
      JudgementMeaning(relations, q, nodes, independent, j.target);
    }
    UpgradeMeaning(relations, q, j.target);
    if j in b.necessarily {
      var i :| 0 <= i < |b.necessarily| && b.necessarily[i] == j;
      if i < |open.necessarily| {
        assert j == open.necessarily[i];
        OwnProof(route, q, nodes, independent, j.target);
      } else {
        UpgradedIsBlocked(relations, q, j);
      }
    }
  }

  lemma OwnProof(route: Router, q: Query, nodes: seq<string>, independent: Path -> bool, target: string)
    ensures var j := Judge(route, q, nodes, independent, target); j.Blocked? ==> !j.proof.AllCausesBlocked?
  {
  }

  // --- a later independent path is ignored ---

  function Spoke(a: string, target: string): Edge {
    Edge(a, target, a, Sufficient, 1.0, None, None)
  }

  /** Every source is sufficient for the target, and nothing else is related. */
  function Star(sources: seq<string>, target: string): (edges: seq<Edge>)
    ensures forall e :: e in edges <==> e.antecedent in sources && e == Spoke(e.antecedent, target)
  {
    if sources == [] then []
    else
      assert sources == [sources[0]] + sources[1..];
      [Spoke(sources[0], target)] + Star(sources[1..], target)
  }

  lemma StarEnd(sources: seq<string>, target: string, floor: real, trail: seq<Edge>, a: string, b: string)
    requires trail != [] && IsTrail(SearchGraph(Star(sources, target), floor), trail, a, b)
    ensures b == target && trail[|trail| - 1].antecedent in sources
  {
    assert trail[|trail| - 1] in Star(sources, target);
  }

  lemma StarTrail(sources: seq<string>, target: string, floor: real, trail: seq<Edge>, a: string, b: string)
    requires target !in sources && a != b && IsTrail(SearchGraph(Star(sources, target), floor), trail, a, b)
    ensures a in sources && b == target && trail == [Spoke(a, target)]
  {
    var last, front := trail[|trail| - 1], trail[..|trail| - 1];
    StarEnd(sources, target, floor, trail, a, b);
    assert trail == front + [last];
    if front != [] {
      StarEnd(sources, target, floor, front, a, last.antecedent);
    }
  }

  lemma StarIsUnit(sources: seq<string>, target: string)
    ensures UnitConfidences(Star(sources, target))
  {
  }

  lemma SpokeIsTrail(sources: seq<string>, target: string, floor: real, s: string)
    requires s in sources && floor <= 1.0
    ensures IsTrail(SearchGraph(Star(sources, target), floor), [Spoke(s, target)], s, target)
  {
    var e := Spoke(s, target);
    assert e in Star(sources, target) && [e][..0] == [];
  }

  lemma StarFound(edges: seq<Edge>, q: Query, s: string, target: string, trail: seq<Edge>)
    requires UnitConfidences(edges) && s != target && IsTrail(SearchGraph(edges, q.floor), trail, s, target)
    requires forall t :: IsTrail(SearchGraph(edges, q.floor), t, s, target) ==> |t| <= q.maxDepth
    ensures RouterOf(edges, q)(s, target).Some?
  {
    FoundWithinDepth(edges, s, target, q.maxDepth, BestConfidence, q.policy, q.floor);
    var t := SearchTrail(edges, s, target, BestConfidence, q.floor);
    assert t.Some?;
  }

  lemma FoundIsTrail(edges: seq<Edge>, q: Query, a: string, b: string)
    requires UnitConfidences(edges) && RouterOf(edges, q)(a, b).Some?
    ensures var p := RouterOf(edges, q)(a, b).value;
      IsTrail(SearchGraph(edges, q.floor), p.edges, a, b) && p.nodes == Nodes(p.edges, a)
  {
    FoundPathIsPath(edges, a, b, q.maxDepth, BestConfidence, q.policy, false, q.floor);
  }

  /** The source reaches the target by one edge. */
  predicate OneHop(route: Router, s: string, target: string) {
    route(s, target).Some? && route(s, target).value.nodes == [s, target] && route(s, target).value.edges != []
  }

  lemma StarForward(sources: seq<string>, target: string, q: Query, s: string)
    requires target !in sources && s in sources && q.floor <= 1.0 && 1 <= q.maxDepth
    requires UnitConfidences(Star(sources, target))
    ensures OneHop(RouterOf(Star(sources, target), q), s, target)
  {
    var edges, e := Star(sources, target), Spoke(s, target);
    SpokeIsTrail(sources, target, q.floor, s);
    forall t | IsTrail(SearchGraph(edges, q.floor), t, s, target) ensures |t| <= q.maxDepth {
      StarTrail(sources, target, q.floor, t, s, target);
    }
    StarFound(edges, q, s, target, [e]);
    FoundIsTrail(edges, q, s, target);
    StarTrail(sources, target, q.floor, RouterOf(edges, q)(s, target).value.edges, s, target);
    assert [e][..0] == [] && Nodes([], s) == [s] && Nodes([e], s) == [s] + [target];
  }

  lemma StarBack(sources: seq<string>, target: string, q: Query, s: string)
    requires target !in sources && s != target && UnitConfidences(Star(sources, target))
    ensures RouterOf(Star(sources, target), q)(target, s).None?
  {
    if RouterOf(Star(sources, target), q)(target, s).Some? {
      FoundIsTrail(Star(sources, target), q, target, s);
      var p := RouterOf(Star(sources, target), q)(target, s).value;
      StarTrail(sources, target, q.floor, p.edges, target, s);
    }
  }

  lemma {:induction false} OneHopDetours(route: Router, q: Query, target: string, starts: seq<string>)
    requires target !in starts && q.ifNot !in starts && target != q.ifNot
    requires forall s :: s in starts ==> OneHop(route, s, target)
    ensures var all := Detours(route, q, target, starts);
      |all| == |starts| && forall k :: 0 <= k < |all| ==> all[k].nodes == [starts[k], target]
  {
    if starts != [] {
      var last, front := starts[|starts| - 1], starts[..|starts| - 1];
      assert last in starts && OneHop(route, last, target);
      OneHopDetours(route, q, target, front);
    }
  }

  lemma StarDetours(sources: seq<string>, target: string, q: Query, starts: seq<string>)
    requires target !in sources && q.floor <= 1.0 && 1 <= q.maxDepth && UnitConfidences(Star(sources, target))
    requires target !in starts && q.ifNot !in starts && forall s :: s in starts ==> s in sources
    requires target != q.ifNot
    ensures var all := Detours(RouterOf(Star(sources, target), q), q, target, starts);
      |all| == |starts| && forall k :: 0 <= k < |all| ==> all[k].nodes == [starts[k], target]
  {
    forall s | s in starts ensures OneHop(RouterOf(Star(sources, target), q), s, target) {
      StarForward(sources, target, q, s);
    }
    OneHopDetours(RouterOf(Star(sources, target), q), q, target, starts);
  }

  /** On the sorted nodes of a star with six sources besides the intervention, the detours are those of the sources. */
  lemma StarDetoursOfNodes(others: seq<string>, target: string, q: Query)
    requires |others| == 6 && target !in others && q.ifNot !in others && target != q.ifNot
    requires q.floor <= 1.0 && 1 <= q.maxDepth && UnitConfidences(Star(others + [q.ifNot], target))
    ensures var route := RouterOf(Star(others + [q.ifNot], target), q);
            var all := Detours(route, q, target, others + [q.ifNot, target]);
      |all| == 6 && forall k :: 0 <= k < 6 ==> all[k].nodes == [others[k], target]
  {
    var sources := others + [q.ifNot];
    var route := RouterOf(Star(sources, target), q);
    StarDetours(sources, target, q, others);
    var nodes := others + [q.ifNot, target];
    assert nodes[..7] == sources && sources[..6] == others;
    assert Detours(route, q, target, sources) == Detours(route, q, target, others) + [];
    assert Detours(route, q, target, nodes) == Detours(route, q, target, sources) + [];
  }

  /**
   The input: six sources and the intervention each imply the target, and only the sixth source's path, in node order,
   is independent of the intervention. The target is reported possibly blocked.
   */
  lemma SixthDetourIsIgnored(
    others: seq<string>, target: string, q: Query, edges: seq<Edge>, nodes: seq<string>, independent: Path -> bool)
    requires |others| == 6 && q.floor <= 1.0 && 1 <= q.maxDepth
    requires edges == Star(others + [q.ifNot], target) && nodes == others + [q.ifNot, target]
    requires ListsNodes(nodes, edges)
    requires forall p :: independent(p) <==> p.nodes == [others[5], target]
    ensures UnitConfidences(edges) && Judge(RouterOf(edges, q), q, nodes, independent, target).Possibly?
    ensures exists p ::
      && p in Detours(RouterOf(edges, q), q, target, nodes) && independent(p) && IsDetour(edges, q, target, p)
  {
    StarIsUnit(others + [q.ifNot], target);
    ListingIsDistinct(nodes, edges);
    StarNames(others, q.ifNot, target, nodes);
    StarAffects(others + [q.ifNot], target, q);
    StarDetoursOfNodes(others, target, q);
    OnlySixthIndependent(RouterOf(edges, q), q, others, nodes, target, independent);
    StillPossibleMeans(edges, q, nodes, independent, target);
  }

  lemma StarNames(others: seq<string>, ifNot: string, target: string, nodes: seq<string>)
    requires nodes == others + [ifNot, target] && Distinct(nodes)
    ensures Distinct(others) && target !in others && ifNot !in others && target != ifNot
    ensures target !in others + [ifNot] && ifNot in others + [ifNot]
  {
    var n := |others|;
    assert nodes[n] == ifNot && nodes[n + 1] == target && (others + [ifNot])[n] == ifNot;
    assert forall k :: 0 <= k < n ==> nodes[k] == others[k];
  }

  lemma StarAffects(sources: seq<string>, target: string, q: Query)
    requires target !in sources && q.ifNot in sources && q.floor <= 1.0 && 1 <= q.maxDepth
    requires UnitConfidences(Star(sources, target))
    ensures Affected(RouterOf(Star(sources, target), q), q, target)
  {
    StarForward(sources, target, q, q.ifNot);
    StarBack(sources, target, q, q.ifNot);
  }

  lemma OnlySixthIndependent(
    route: Router, q: Query, others: seq<string>, nodes: seq<string>, target: string, independent: Path -> bool)
    requires Affected(route, q, target) && |others| == 6 && Distinct(others)
    requires var all := Detours(route, q, target, nodes);
      |all| == 6 && forall k :: 0 <= k < 6 ==> all[k].nodes == [others[k], target]
    requires forall p :: independent(p) <==> p.nodes == [others[5], target]
    ensures Judge(route, q, nodes, independent, target).Possibly?
    ensures exists p :: p in Detours(route, q, target, nodes) && independent(p)
  {
    var all := Detours(route, q, target, nodes);
    assert all[5] in all && independent(all[5]);
    forall k | 0 <= k < 5 ensures !independent(all[k]) {
      assert all[k].nodes[0] == others[k];
    }
    DetourIgnoredExactly(route, q, nodes, independent, target);
  }

  lemma StarNodes(others: seq<string>, ifNot: string, target: string)
    ensures NodeSet(Star(others + [ifNot], target)) == (set s | s in others) + {ifNot, target}
  {
    var sources, edges := others + [ifNot], Star(others + [ifNot], target);
    assert sources[|others|] == ifNot;
    forall s | s in sources ensures s in NodeSet(edges) && target in NodeSet(edges) {
      assert Spoke(s, target) in edges && Spoke(s, target).antecedent == s && Spoke(s, target).consequent == target;
    }
    forall x | x in NodeSet(edges) ensures x in sources || x == target {
      if e :| e in edges && e.antecedent == x {
      } else {
        var e :| e in edges && e.consequent == x;
      }
    }
  }

  /** The letters of a word, as propositions. */
  function Letters(word: string): (nodes: seq<string>)
    ensures |nodes| == |word| && forall i :: 0 <= i < |nodes| ==> nodes[i] == [word[i]]
  {
    seq(|word|, i requires 0 <= i < |word| => [word[i]])
  }

  lemma LettersAscend(word: string)
    requires forall i, j :: 0 <= i < j < |word| ==> word[i] < word[j]
    ensures forall i, j :: 0 <= i < j < |word| ==> LexLess(Letters(word)[i], Letters(word)[j])
  {
  }

  lemma StarIsListed(nodes: seq<string>, others: seq<string>, ifNot: string, target: string)
    requires nodes == others + [ifNot, target]
    ensures forall x :: x in nodes <==> x in NodeSet(Star(others + [ifNot], target))
  {
    StarNodes(others, ifNot, target);
  }

  /** Eight letters in alphabetical order make such an input. */
  lemma LettersMakeTheInput(nodes: seq<string>)
    requires nodes == Letters("abcdefit")
    ensures var others, ifNot, target := nodes[..6], nodes[6], nodes[7];
      nodes == others + [ifNot, target] && ListsNodes(nodes, Star(others + [ifNot], target))
  {
    var others, ifNot, target := nodes[..6], nodes[6], nodes[7];
    assert nodes == others + [ifNot, target];
    LettersAscend("abcdefit");
    StarIsListed(nodes, others, ifNot, target);
  }
}
