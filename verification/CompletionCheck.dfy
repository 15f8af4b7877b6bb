/** `_detect_cycle` and `_validate_completion_nodes`: the session service's own Kahn and the checks around it. */
module CompletionCheck {
  import opened Wrappers
  import opened Ids
  import opened Sequences
  import opened Graph
  import opened Kahn
  import opened PlannerNodes
  import FlowCanvas

  // ----- Popping order without levels -----

  /** Every node comes after everything it depends on. */
  ghost predicate Topological(g: Deps, seen: seq<Id>) {
    forall i :: 0 <= i < |seen| ==> seen[i] in g && DependsWithin(g, seen[i], seen[..i])
  }

  ghost predicate DependsWithin(g: Deps, v: Id, before: seq<Id>)
    requires v in g
  {
    forall d :: d in g[v] ==> d in before
  }

  ghost predicate Counting(g: Deps, indegree: map<Id, int>, ordered: seq<Id>, seen: seq<Id>, rest: seq<Id>) {
    && indegree.Keys == g.Keys
    && Counts(g, indegree, Elements(ordered), rest)
    && Frontier(g, indegree, seen)
    && Topological(g, seen)
    && (forall v :: v in ordered ==> v in seen)
    && (forall v :: v in rest ==> v in g)
  }

  lemma {:induction false} ChainGoesBack(g: Deps, seen: seq<Id>, i: nat, p: seq<Id>)
    requires Topological(g, seen) && i < |seen| && ChainTo(g, p, seen[i])
    ensures |p| > 1 ==> p[0] in seen[..i]
    decreases |p|
  {
    if |p| > 1 {
      var d := p[|p| - 2];
      assert d in g[seen[i]];
      assert DependsWithin(g, seen[i], seen[..i]);
      var j :| 0 <= j < i && seen[j] == d;
      ChainGoesBack(g, seen, j, p[..|p| - 1]);
      assert p[..|p| - 1][0] == p[0];
    }
  }

  lemma NoCycleInOrder(g: Deps, seen: seq<Id>, c: seq<Id>)
    requires Topological(g, seen) && Distinct(seen) && IsCycle(g, c)
    ensures c[0] !in seen
  {
    if c[0] in seen {
      var i :| 0 <= i < |seen| && seen[i] == c[0];
      ChainGoesBack(g, seen, i, c);
      DistinctAt(seen, i);
    }
  }

  lemma OrderIsClosed(g: Deps, seen: seq<Id>, v: Id, d: Id)
    requires Topological(g, seen) && v in g && d in g[v]
    ensures v in seen ==> d in g
  {
    if i :| 0 <= i < |seen| && seen[i] == v {
      assert DependsWithin(g, v, seen[..i]);
      var j :| 0 <= j < i && seen[j] == d;
      assert seen[j] in g;
    }
  }

  /** Not every node gets popped exactly when there is a cycle or a dependency on an unknown id. */
  lemma StoppedShort(g: Deps, ordered: seq<Id>)
    requires Distinct(ordered) && Topological(g, ordered) && Stuck(g, Elements(ordered))
    ensures (exists v :: v in g && v !in ordered) <==> HasCycle(g) || !Closed(g)
  {
    hide Distinct;
    if v :| v in g && v !in ordered {
      if Closed(g) {
        var p := BackChain(g, Elements(ordered), v, |g|);
        LongChainMeetsCycle(g, p, v);
      }
    }
    if c :| IsCycle(g, c) {
      NoCycleInOrder(g, ordered, c);
    }
    if !Closed(g) {
      var v, d :| v in g && d in g[v] && d !in g;
      OrderIsClosed(g, ordered, v, d);
    }
  }

  lemma TopologicalStep(g: Deps, seen: seq<Id>, v: Id)
    requires Topological(g, seen) && v in g && DependsWithin(g, v, seen)
    ensures Topological(g, seen + [v])
  {
    var s := seen + [v];
    forall i | 0 <= i < |s| ensures s[i] in g && DependsWithin(g, s[i], s[..i]) {
      if i < |seen| {
        assert s[i] == seen[i] && s[..i] == seen[..i];
      } else {
        assert s[..i] == seen;
      }
    }
  }

  lemma PopCounting(g: Deps, graph: map<Id, seq<Id>>, indegree: map<Id, int>, ordered: seq<Id>, queue: seq<Id>)
    requires Successors(g, graph) && queue != [] && Counting(g, indegree, ordered, ordered + queue, [])
    ensures queue[0] in g && queue[0] in graph && queue[0] !in ordered
    ensures Counting(g, indegree, ordered + [queue[0]], (ordered + [queue[0]]) + queue[1..], graph[queue[0]])
  {
    hide Counts, Topological, Times;
    var c, seen := queue[0], ordered + queue;
    assert seen[|ordered|] == c && seen[..|ordered|] == ordered;
    DistinctAt(seen, |ordered|);
    assert (ordered + [c]) + queue[1..] == seen;
    PopKeepsCounts(g, graph, indegree, Elements(ordered), c);
    assert Elements(ordered + [c]) == Elements(ordered) + {c};
    forall v | v in graph[c] ensures v in g {
      SuccessorsAreNodes(g, graph, c, v);
    }
  }

  lemma VisitCounting(g: Deps, indegree: map<Id, int>, ordered: seq<Id>, seen: seq<Id>, rest: seq<Id>)
    requires Counting(g, indegree, ordered, seen, rest) && rest != []
    ensures rest[0] in indegree
    ensures var next := rest[0]; var indegree' := indegree[next := indegree[next] - 1];
      Counting(g, indegree', ordered, if indegree'[next] == 0 then seen + [next] else seen, rest[1..])
  {
    hide Counts, Topological, Frontier;
    var next := rest[0];
    var indegree' := indegree[next := indegree[next] - 1];
    DecrementKeepsCounts(g, indegree, Elements(ordered), rest);
    FlowCanvas.FrontierStep(g, indegree, seen, next);
    if indegree'[next] == 0 {
      ZeroMeansReady(g, indegree', Elements(ordered), rest[1..]);
      TopologicalStep(g, seen, next);
    }
  }

  // ----- `_detect_cycle` -----

  lemma AddEdgeAnywhere(g: Deps, graph: map<Id, seq<Id>>, v: Id, u: Id)
    requires Successors(g, graph) && v in g
    ensures var listed := if u in graph then graph[u] else [];
      Successors(g[v := g[v] + [u]], graph[u := listed + [v]])
  {
    if u !in graph {
      var graph' := graph[u := []];
      forall x, y ensures Times(graph', x, y) == Times(g, y, x) {
        assert Times(graph, x, y) == Times(g, y, x);
      }
      AddEdge(g, graph', v, u);
      assert graph'[u := [] + [v]] == graph[u := [] + [v]];
    } else {
      AddEdge(g, graph, v, u);
    }
  }

  method EnterNode(node: Node, ghost sofar: Deps, indegree0: map<Id, int>, graph0: map<Id, seq<Id>>)
    returns (indegree: map<Id, int>, graph: map<Id, seq<Id>>)
    requires node.id in sofar && sofar[node.id] == []
    requires indegree0.Keys == sofar.Keys && Successors(sofar, graph0)
    requires forall v :: v in sofar ==> indegree0[v] == |sofar[v]|
    ensures var after := sofar[node.id := node.dependsOn];
      && indegree.Keys == after.Keys && Successors(after, graph)
      && (forall v :: v in after ==> indegree[v] == |after[v]|)
  {
    hide Successors;
    indegree, graph := indegree0, graph0;
    assert sofar[node.id := []] == sofar;
    for j := 0 to |node.dependsOn|
      invariant Successors(sofar[node.id := node.dependsOn[..j]], graph)
      invariant indegree == indegree0[node.id := j]
    {
      var dependency := node.dependsOn[j];
      ghost var before := sofar[node.id := node.dependsOn[..j]];
      AddEdgeAnywhere(before, graph, node.id, dependency);
      assert node.dependsOn[..j + 1] == node.dependsOn[..j] + [dependency];
      assert before[node.id := before[node.id] + [dependency]] == sofar[node.id := node.dependsOn[..j + 1]];
      graph := graph[dependency := (if dependency in graph then graph[dependency] else []) + [node.id]];
      indegree := indegree[node.id := indegree[node.id] + 1];
    }
    assert node.dependsOn[..|node.dependsOn|] == node.dependsOn;
  }

  /** The lists of the first `i` nodes; the later nodes wait with an empty list. */
  ghost function FirstLists(nodes: seq<Node>, i: nat): Deps
    requires i <= |nodes|
  {
    map v | v in NodeIds(nodes) :: if v in ListedDeps(nodes[..i]) then ListedDeps(nodes[..i])[v] else []
  }

  lemma FirstListsStep(nodes: seq<Node>, i: nat)
    requires i < |nodes| && Distinct(NodeIds(nodes))
    ensures nodes[i].id in FirstLists(nodes, i) && FirstLists(nodes, i)[nodes[i].id] == []
    ensures FirstLists(nodes, i + 1) == FirstLists(nodes, i)[nodes[i].id := nodes[i].dependsOn]
  {
    assert nodes[..i + 1][..i] == nodes[..i];
    ListedKeys(nodes[..i]);
    DistinctAt(NodeIds(nodes), i);
    assert NodeIds(nodes)[i] == nodes[i].id;
    assert NodeIds(nodes[..i]) == NodeIds(nodes)[..i];
  }

  lemma FirstListsEnds(nodes: seq<Node>)
    ensures FirstLists(nodes, |nodes|) == ListedDeps(nodes)
    ensures FirstLists(nodes, 0) == map v | v in NodeIds(nodes) :: []
  {
    assert nodes[..|nodes|] == nodes;
    ListedKeys(nodes);
  }

  method BuildCounters(nodes: seq<Node>) returns (indegree: map<Id, int>, graph: map<Id, seq<Id>>)
    requires Distinct(NodeIds(nodes))
    ensures Counts(ListedDeps(nodes), indegree, {}, []) && Successors(ListedDeps(nodes), graph)
  {
    hide Successors, Distinct, FirstLists, ListedDeps, Counts;
    indegree := map v | v in NodeIds(nodes) :: 0;
    graph := map v | v in NodeIds(nodes) :: [];
    ghost var sofar := FirstLists(nodes, 0);
    FirstListsEnds(nodes);
    NoEdges(sofar, graph);
    for i := 0 to |nodes|
      invariant sofar == FirstLists(nodes, i)
      invariant indegree.Keys == sofar.Keys && Successors(sofar, graph)
      invariant forall v :: v in sofar ==> indegree[v] == |sofar[v]|
    {
      FirstListsStep(nodes, i);
      indegree, graph := EnterNode(nodes[i], sofar, indegree, graph);
      sofar := FirstLists(nodes, i + 1);
    }
    CountsAtStart(sofar, indegree);
  }

  lemma NoEdges(g: Deps, graph: map<Id, seq<Id>>)
    requires g.Keys == graph.Keys && forall v :: v in g ==> g[v] == graph[v] == []
    ensures Successors(g, graph)
  {
  }

  lemma CountsAtStart(g: Deps, indegree: map<Id, int>)
    requires indegree.Keys == g.Keys && forall v :: v in g ==> indegree[v] == |g[v]|
    ensures Counts(g, indegree, {}, [])
  {
    forall v | v in g ensures indegree[v] == Pending(g[v], {}) {
      PendingNone(g[v]);
    }
  }

  lemma StartCounting(nodes: seq<Node>, indegree: map<Id, int>, queue: seq<Id>)
    requires Distinct(NodeIds(nodes)) && Counts(ListedDeps(nodes), indegree, {}, [])
    requires queue == Filter(NodeIds(nodes), v => v in indegree && indegree[v] == 0)
    ensures Counting(ListedDeps(nodes), indegree, [], queue, [])
  {
    var g, ready := ListedDeps(nodes), v => v in indegree && indegree[v] == 0;
    assert queue == Filter(NodeIds(nodes), ready);
    ListedKeys(nodes);
    FilterDistinct(NodeIds(nodes), ready);
    forall v ensures v in queue <==> v in g && indegree[v] == 0 {
      FilterMembers(NodeIds(nodes), ready, v);
    }
    ZeroMeansReady(g, indegree, {}, []);
    assert Elements<Id>([]) == {};
    forall i | 0 <= i < |queue| ensures queue[i] in g && DependsWithin(g, queue[i], queue[..i]) {
      assert queue[i] in queue;
    }
  }

  lemma DoneCounting(g: Deps, indegree: map<Id, int>, ordered: seq<Id>)
    requires Counting(g, indegree, ordered, ordered, [])
    ensures Distinct(ordered) && (forall v :: v in ordered ==> v in g)
    ensures (exists v :: v in g && v !in ordered) <==> HasCycle(g) || !Closed(g)
  {
    EmptyQueueMeansStuck(g, indegree, ordered);
    StoppedShort(g, ordered);
  }

  lemma CountingDiffers(g: Deps, ordered: seq<Id>)
    requires Distinct(ordered) && forall v :: v in ordered ==> v in g
    ensures |ordered| != |g| <==> exists v :: v in g && v !in ordered
  {
    DistinctCardinality(ordered);
    SubsetCardinality(Elements(ordered), g.Keys);
    if |ordered| != |g| { assert Elements(ordered) != g.Keys; }
    if v :| v in g && v !in ordered { assert v !in Elements(ordered); }
  }

  method VisitAll(ghost g: Deps, ghost ordered: seq<Id>, successors: seq<Id>, indegree0: map<Id, int>, queue0: seq<Id>)
    returns (indegree: map<Id, int>, queue: seq<Id>)
    requires Counting(g, indegree0, ordered, ordered + queue0, successors)
    ensures Counting(g, indegree, ordered, ordered + queue, [])
  {
    hide Counting;
    indegree, queue := indegree0, queue0;
    for j := 0 to |successors|
      invariant Counting(g, indegree, ordered, ordered + queue, successors[j..])
    {
      var nextNode := successors[j];
      assert successors[j..][0] == nextNode && successors[j..][1..] == successors[j + 1..];
      VisitCounting(g, indegree, ordered, ordered + queue, successors[j..]);
      indegree := indegree[nextNode := indegree[nextNode] - 1];
      if indegree[nextNode] == 0 {
        assert ordered + (queue + [nextNode]) == (ordered + queue) + [nextNode];
        queue := queue + [nextNode];
      }
    }
    assert successors[|successors|..] == [];
  }

  method DetectCycle(nodes: seq<Node>) returns (cyclic: bool)
    requires Distinct(NodeIds(nodes))
    ensures cyclic <==> HasCycle(ListedDeps(nodes)) || !Closed(ListedDeps(nodes))
  {
    hide Counting, Counts, Successors, HasCycle, Closed, Distinct;
    var g := ListedDeps(nodes);
    var indegree, graph := BuildCounters(nodes);
    var queue := Filter(NodeIds(nodes), v => v in indegree && indegree[v] == 0);
    ghost var ordered := [];
    var visited := 0;
    StartCounting(nodes, indegree, queue);
    assert ordered + queue == queue && Elements(ordered) == {};
    while queue != []
      invariant Counting(g, indegree, ordered, ordered + queue, []) && visited == |ordered|
      decreases g.Keys - Elements(ordered)
    {
      var current := queue[0];
      ghost var before := Elements(ordered);
      PopCounting(g, graph, indegree, ordered, queue);
      queue := queue[1..];
      visited := visited + 1;
      ordered := ordered + [current];
      assert Elements(ordered) == before + {current} && current in g.Keys - before;
      indegree, queue := VisitAll(g, ordered, if current in graph then graph[current] else [], indegree, queue);
    }
    assert ordered + queue == ordered;
    DoneCounting(g, indegree, ordered);
    CountingDiffers(g, ordered);
    ListedKeys(nodes);
    cyclic := visited != |g|;
  }

  // ----- `_validate_completion_nodes` -----

  datatype CompletionError =
    | WrongSize
    | DuplicateId(id: Id)
    | UnknownDependency(dependency: Id)
    | NoSensitiveNode
    | CyclicDependencies

  ghost predicate RightSize(nodes: seq<Node>) { 2 <= |nodes| <= 12 }

  ghost predicate HasSensitive(nodes: seq<Node>) { exists i :: 0 <= i < |nodes| && nodes[i].sensitive }

  /** A plan that may be completed. */
  ghost predicate Completable(nodes: seq<Node>) {
    && RightSize(nodes)
    && Distinct(NodeIds(nodes))
    && Closed(ListedDeps(nodes))
    && HasSensitive(nodes)
    && !HasCycle(ListedDeps(nodes))
  }

  /** Two to twelve nodes, no id twice, every listed dependency a node, one node sensitive, and no cycle. */
  lemma CompletableMeans(nodes: seq<Node>)
    ensures Completable(nodes) <==>
      && 2 <= |nodes| <= 12
      && (forall i, j :: 0 <= i < j < |nodes| ==> nodes[i].id != nodes[j].id)
      && (forall i, d :: 0 <= i < |nodes| && d in nodes[i].dependsOn ==> exists j :: 0 <= j < |nodes| && nodes[j].id == d)
      && (exists i :: 0 <= i < |nodes| && nodes[i].sensitive)
      && !HasCycle(ListedDeps(nodes))
  {
    hide Distinct, HasCycle, Closed, ListedDeps, AllKnown;
    IdsDiffer(nodes);
    if Distinct(NodeIds(nodes)) {
      ClosedMeans(nodes);
      KnownMeans(nodes);
    }
  }

  lemma IdsDiffer(nodes: seq<Node>)
    ensures Distinct(NodeIds(nodes)) <==> forall i, j :: 0 <= i < j < |nodes| ==> nodes[i].id != nodes[j].id
  {
    hide Distinct;
    DistinctIndices(NodeIds(nodes));
    if Distinct(NodeIds(nodes)) {
      forall i, j | 0 <= i < j < |nodes| ensures nodes[i].id != nodes[j].id { assert NodeIds(nodes)[i] != NodeIds(nodes)[j]; }
    }
  }

  lemma KnownMeans(nodes: seq<Node>)
    ensures (forall i :: 0 <= i < |nodes| ==> AllKnown(nodes, nodes[i].dependsOn)) <==>
      forall i, d :: 0 <= i < |nodes| && d in nodes[i].dependsOn ==> exists j :: 0 <= j < |nodes| && nodes[j].id == d
  {
    forall d ensures d in NodeIds(nodes) <==> exists j :: 0 <= j < |nodes| && nodes[j].id == d { AmongIds(nodes, d); }
    hide NodeIds;
  }

  lemma ClosedMeans(nodes: seq<Node>)
    requires Distinct(NodeIds(nodes))
    ensures Closed(ListedDeps(nodes)) <==> forall i :: 0 <= i < |nodes| ==> AllKnown(nodes, nodes[i].dependsOn)
  {
    if forall i :: 0 <= i < |nodes| ==> AllKnown(nodes, nodes[i].dependsOn) {
      KnownMeansClosed(nodes);
    }
    if Closed(ListedDeps(nodes)) {
      ListedKeys(nodes);
      forall i | 0 <= i < |nodes| ensures AllKnown(nodes, nodes[i].dependsOn) {
        ListedAt(nodes, i);
        assert forall d :: d in nodes[i].dependsOn ==> d in ListedDeps(nodes)[nodes[i].id];
      }
    }
  }

  lemma AmongIds(nodes: seq<Node>, d: Id)
    ensures d in NodeIds(nodes) <==> exists j :: 0 <= j < |nodes| && nodes[j].id == d
  {
    if j :| 0 <= j < |nodes| && nodes[j].id == d { assert NodeIds(nodes)[j] == d; }
  }

  /** Node `j` is the first that repeats an earlier id. */
  ghost predicate FirstDuplicate(nodes: seq<Node>, j: nat) {
    && j < |nodes|
    && nodes[j].id in NodeIds(nodes)[..j]
    && Distinct(NodeIds(nodes)[..j])
  }

  /** Dependency `k` of node `j` is the first, in reading order, that names no node. */
  ghost predicate FirstUnknown(nodes: seq<Node>, j: nat, k: nat) {
    && j < |nodes| && k < |nodes[j].dependsOn|
    && nodes[j].dependsOn[k] !in NodeIds(nodes)
    && AllKnown(nodes, nodes[j].dependsOn[..k])
    && (forall i :: 0 <= i < j ==> AllKnown(nodes, nodes[i].dependsOn))
  }

  ghost predicate AllKnown(nodes: seq<Node>, ds: seq<Id>) {
    forall d :: d in ds ==> d in NodeIds(nodes)
  }

  /** Which error is reported, and about what. */
  ghost predicate Verdict(nodes: seq<Node>, r: Option<CompletionError>) {
    match r
    case None => Completable(nodes)
    case Some(WrongSize) => !RightSize(nodes)
    case Some(DuplicateId(id)) => RightSize(nodes) && exists j: nat :: FirstDuplicate(nodes, j) && nodes[j].id == id
    case Some(UnknownDependency(d)) =>
      && RightSize(nodes) && Distinct(NodeIds(nodes))
      && exists j: nat, k: nat :: FirstUnknown(nodes, j, k) && nodes[j].dependsOn[k] == d
    case Some(NoSensitiveNode) =>
      RightSize(nodes) && Distinct(NodeIds(nodes)) && Closed(ListedDeps(nodes)) && !HasSensitive(nodes)
    case Some(CyclicDependencies) =>
      && RightSize(nodes) && Distinct(NodeIds(nodes)) && Closed(ListedDeps(nodes)) && HasSensitive(nodes)
      && HasCycle(ListedDeps(nodes))
  }

  lemma NothingSeen(ids: seq<Id>)
    ensures Distinct(ids[..0]) && Elements(ids[..0]) == {}
  {
  }

  lemma SeenMembers(ids: seq<Id>, id: Id)
    ensures id in Elements(ids) <==> id in ids
  {
  }

  method FindDuplicate(nodes: seq<Node>) returns (r: Option<Id>, seenIds: set<Id>)
    ensures r.None? ==> Distinct(NodeIds(nodes)) && seenIds == Elements(NodeIds(nodes))
    ensures r.Some? ==> exists j: nat :: FirstDuplicate(nodes, j) && nodes[j].id == r.value
  {
    hide Distinct, Elements;
    seenIds := {};
    ghost var ids := NodeIds(nodes);
    NothingSeen(ids);
    for i := 0 to |nodes|
      invariant Distinct(ids[..i]) && seenIds == Elements(ids[..i])
    {
      var nodeId := nodes[i].id;
      assert ids[i] == nodeId;
      SeenMembers(ids[..i], nodeId);
      if nodeId in seenIds {
        assert FirstDuplicate(nodes, i);
        return Some(nodeId), seenIds;
      }
      seenIds := seenIds + {nodeId};
      DistinctAppend(ids[..i], nodeId);
      ElementsAppend(ids[..i], nodeId);
      assert ids[..i + 1] == ids[..i] + [nodeId];
    }
    assert ids[..|nodes|] == ids;
    r := None;
  }

  method FindUnknown(nodes: seq<Node>, seenIds: set<Id>) returns (r: Option<Id>, sensitiveCount: nat)
    requires seenIds == Elements(NodeIds(nodes))
    ensures r.None? ==> forall i :: 0 <= i < |nodes| ==> AllKnown(nodes, nodes[i].dependsOn)
    ensures r.None? ==> (sensitiveCount == 0 <==> !HasSensitive(nodes))
    ensures r.Some? ==> exists j: nat, k: nat :: FirstUnknown(nodes, j, k) && nodes[j].dependsOn[k] == r.value
  {
    sensitiveCount := 0;
    for i := 0 to |nodes|
      invariant forall j :: 0 <= j < i ==> AllKnown(nodes, nodes[j].dependsOn)
      invariant sensitiveCount == 0 <==> forall j :: 0 <= j < i ==> !nodes[j].sensitive
    {
      if nodes[i].sensitive {
        sensitiveCount := sensitiveCount + 1;
      }
      var listed := nodes[i].dependsOn;
      for k := 0 to |listed|
        invariant AllKnown(nodes, listed[..k])
      {
        if listed[k] !in seenIds {
          assert FirstUnknown(nodes, i, k);
          return Some(listed[k]), sensitiveCount;
        }
        assert listed[..k + 1] == listed[..k] + [listed[k]];
      }
      assert listed[..|listed|] == listed;
    }
    r := None;
  }

  lemma KnownMeansClosed(nodes: seq<Node>)
    requires Distinct(NodeIds(nodes)) && forall i :: 0 <= i < |nodes| ==> AllKnown(nodes, nodes[i].dependsOn)
    ensures Closed(ListedDeps(nodes))
  {
    var g := ListedDeps(nodes);
    ListedKeys(nodes);
    forall v, d {:trigger d in g[v]} | v in g && d in g[v] ensures d in g {
      var i :| 0 <= i < |nodes| && NodeIds(nodes)[i] == v;
      ListedAt(nodes, i);
    }
  }

  method ValidateCompletionNodes(nodes: seq<Node>) returns (r: Option<CompletionError>)
    ensures Verdict(nodes, r)
    ensures r.None? <==> Completable(nodes)
    ensures r == Some(WrongSize) <==> |nodes| < 2 || |nodes| > 12
  {
    hide Distinct, Closed, HasCycle, HasSensitive, AllKnown, ListedDeps, NodeIds;
    if |nodes| < 2 || |nodes| > 12 {
      return Some(WrongSize);
    }
    var duplicate, seenIds := FindDuplicate(nodes);
    if duplicate.Some? {
      DuplicateMeansNotDistinct(nodes);
      return Some(DuplicateId(duplicate.value));
    }
    var unknown, sensitiveCount := FindUnknown(nodes, seenIds);
    if unknown.Some? {
      UnknownMeansOpen(nodes);
      return Some(UnknownDependency(unknown.value));
    }
    KnownMeansClosed(nodes);
    if sensitiveCount == 0 {
      return Some(NoSensitiveNode);
    }
    var cyclic := DetectCycle(nodes);
    return if cyclic then Some(CyclicDependencies) else None;
  }

  lemma DuplicateMeansNotDistinct(nodes: seq<Node>)
    requires exists j: nat :: FirstDuplicate(nodes, j)
    ensures !Distinct(NodeIds(nodes))
  {
    var j: nat :| FirstDuplicate(nodes, j);
    if Distinct(NodeIds(nodes)) {
      DistinctAt(NodeIds(nodes), j);
    }
  }

  lemma UnknownMeansOpen(nodes: seq<Node>)
    requires exists j: nat, k: nat :: FirstUnknown(nodes, j, k)
    ensures !(Distinct(NodeIds(nodes)) && Closed(ListedDeps(nodes)))
  {
    var j: nat, k: nat :| FirstUnknown(nodes, j, k);
    if Distinct(NodeIds(nodes)) {
      ListedAt(nodes, j);
      ListedKeys(nodes);
      assert nodes[j].dependsOn[k] in ListedDeps(nodes)[nodes[j].id];
    }
  }

  // ----- The two implementations agree -----

  /** Edges of the canvas graph are the listed edges without self edges. */
  lemma CanvasEdges(nodes: seq<Node>)
    requires Closed(ListedDeps(nodes))
    ensures var raw, g := ListedDeps(nodes), FlowCanvas.Effective(NodeIds(nodes), ListedDeps(nodes));
      && g.Keys == raw.Keys
      && forall v, d {:trigger d in g[v]} {:trigger d in raw[v]} :: v in g ==> (d in g[v] <==> d != v && d in raw[v])
  {
    var raw, g := ListedDeps(nodes), FlowCanvas.Effective(NodeIds(nodes), ListedDeps(nodes));
    ListedKeys(nodes);
    FlowCanvas.EffectiveEdges(NodeIds(nodes), raw);
  }

  /** On closed lists the session's cycle check differs from the canvas's only by self dependencies. */
  lemma CycleChecksAgree(nodes: seq<Node>)
    requires Closed(ListedDeps(nodes))
    ensures HasCycle(ListedDeps(nodes)) <==>
      || HasCycle(FlowCanvas.Effective(NodeIds(nodes), ListedDeps(nodes)))
      || exists v :: v in ListedDeps(nodes) && v in ListedDeps(nodes)[v]
  {
    var raw, g := ListedDeps(nodes), FlowCanvas.Effective(NodeIds(nodes), ListedDeps(nodes));
    CanvasEdges(nodes);
    if c :| IsCycle(g, c) {
      assert IsCycle(raw, c);
    }
    if v :| v in raw && v in raw[v] {
      assert IsCycle(raw, [v, v]);
    }
    if c :| IsCycle(raw, c) {
      if !exists v :: v in raw && v in raw[v] {
        assert IsCycle(g, c);
      }
    }
  }

  /** Whatever passes the completion check can be laid out by the canvas in raise mode. */
  lemma CompletableIsLayerable(nodes: seq<Node>)
    requires Completable(nodes)
    ensures Distinct(NodeIds(nodes)) && !HasCycle(FlowCanvas.Effective(NodeIds(nodes), ListedDeps(nodes)))
  {
    CycleChecksAgree(nodes);
  }
}
