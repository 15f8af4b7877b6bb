/** `resolve_layers`: Kahn's algorithm over the nodes of a flow canvas, in both cycle modes. */
module FlowCanvas {
  import opened Wrappers
  import opened Ids
  import opened Sequences
  import opened Graph
  import opened Kahn
  import opened IdOrder
  import opened ReleaseOrder
  import opened Countdown

  datatype CycleMode = Raise | AppendUnresolved

  function ListedFor(dependsOn: map<Id, seq<Id>>, v: Id): seq<Id> {
    if v in dependsOn then dependsOn[v] else []
  }

  /** The edges that count: unknown dependencies and self edges are dropped, repetitions stay. */
  function Effective(nodeIds: seq<Id>, dependsOn: map<Id, seq<Id>>): Deps {
    map v | v in nodeIds :: Filter(ListedFor(dependsOn, v), d => d in nodeIds && d != v)
  }

  lemma EffectiveEdges(nodeIds: seq<Id>, dependsOn: map<Id, seq<Id>>)
    ensures var g := Effective(nodeIds, dependsOn);
      forall v, d {:trigger d in g[v]} :: v in g ==> (d in g[v] <==> d in nodeIds && d != v && d in ListedFor(dependsOn, v))
    ensures Closed(Effective(nodeIds, dependsOn))
  {
    var g := Effective(nodeIds, dependsOn);
    forall v, d | v in g
      ensures d in g[v] <==> d in nodeIds && d != v && d in ListedFor(dependsOn, v)
    {
      FilterMembers(ListedFor(dependsOn, v), d => d in nodeIds && d != v, d);
    }
  }

  // ----- What a run must establish -----

  /** The layers split `members` by longest chain; concatenated they list every member once. */
  ghost predicate IsLayering(g: Deps, layers: seq<seq<Id>>, members: set<Id>) {
    && Distinct(Flatten(layers))
    && Elements(Flatten(layers)) == members
    && (forall k :: 0 <= k < |layers| ==> layers[k] != [])
    && (forall k, v :: 0 <= k < |layers| && v in layers[k] ==> LongestChain(g, v, k + 1))
  }

  // ----- The phases of the algorithm -----

  /** The counters and successor lists after the edges `sofar` have been entered. */
  ghost predicate Built(sofar: Deps, indegree: map<Id, int>, graph: map<Id, seq<Id>>) {
    && indegree.Keys == graph.Keys == sofar.Keys
    && Successors(sofar, graph)
    && forall v :: v in sofar ==> indegree[v] == |sofar[v]|
  }

  /** The successor lists are in input order and go no further than `v`. */
  ghost predicate ListsUpTo(nodeIds: seq<Id>, graph: map<Id, seq<Id>>, v: Id) {
    forall u :: u in graph ==> ListUpTo(nodeIds, graph[u], v)
  }

  ghost predicate ListUpTo(nodeIds: seq<Id>, s: seq<Id>, v: Id) {
    NonDescending(nodeIds, s) && NoneAfter(nodeIds, s, v)
  }

  lemma ListGrows(nodeIds: seq<Id>, graph: map<Id, seq<Id>>, u: Id, v: Id)
    requires ListsUpTo(nodeIds, graph, v) && u in graph
    ensures ListsUpTo(nodeIds, graph[u := graph[u] + [v]], v)
  {
    assert ListUpTo(nodeIds, graph[u], v);
    NonDescendingAppend(nodeIds, graph[u], v);
  }

  lemma ListsReach(nodeIds: seq<Id>, graph: map<Id, seq<Id>>, i: nat)
    requires Distinct(nodeIds) && i + 1 < |nodeIds| && ListsUpTo(nodeIds, graph, nodeIds[i])
    ensures ListsUpTo(nodeIds, graph, nodeIds[i + 1])
  {
    hide NonDescending, Pos, Distinct;
    PosAt(nodeIds, i);
    PosAt(nodeIds, i + 1);
    forall u | u in graph ensures ListUpTo(nodeIds, graph[u], nodeIds[i + 1]) {
      assert ListUpTo(nodeIds, graph[u], nodeIds[i]);
    }
  }

  /** The successor lists are in input order. */
  ghost predicate ListsInOrder(nodeIds: seq<Id>, graph: map<Id, seq<Id>>) {
    forall u :: u in graph ==> NonDescending(nodeIds, graph[u])
  }

  lemma ListsDone(nodeIds: seq<Id>, graph: map<Id, seq<Id>>, v: Id)
    requires ListsUpTo(nodeIds, graph, v)
    ensures ListsInOrder(nodeIds, graph)
  {
    forall u | u in graph ensures NonDescending(nodeIds, graph[u]) {
      assert ListUpTo(nodeIds, graph[u], v);
    }
  }

  lemma EmptyLists(nodeIds: seq<Id>, graph: map<Id, seq<Id>>, v: Id)
    requires forall u :: u in graph ==> graph[u] == []
    ensures ListsUpTo(nodeIds, graph, v) && ListsInOrder(nodeIds, graph)
  {
  }

  /** The inner loop: enter the edges of one node. */
  method AddDependencies(nodeIds: seq<Id>, listed: seq<Id>, nodeId: Id,
      indegree0: map<Id, int>, graph0: map<Id, seq<Id>>, ghost sofar: Deps)
    returns (indegree: map<Id, int>, graph: map<Id, seq<Id>>)
    requires Built(sofar, indegree0, graph0) && nodeId in sofar
    requires forall v :: v in nodeIds ==> v in sofar
    ensures Built(sofar[nodeId := sofar[nodeId] + Filter(listed, d => d in nodeIds && d != nodeId)], indegree, graph)
    ensures ListsUpTo(nodeIds, graph0, nodeId) ==> ListsUpTo(nodeIds, graph, nodeId)
  {
    indegree, graph := indegree0, graph0;
    ghost var keep := d => d in nodeIds && d != nodeId;
    ghost var kept := sofar[nodeId];
    assert sofar[nodeId := kept] == sofar;
    for j := 0 to |listed|
      invariant kept == sofar[nodeId] + Filter(listed[..j], keep)
      invariant Built(sofar[nodeId := kept], indegree, graph)
      invariant ListsUpTo(nodeIds, graph0, nodeId) ==> ListsUpTo(nodeIds, graph, nodeId)
    {
      FilterStep(listed, j, keep);
      var dependency := listed[j];
      if dependency !in nodeIds || dependency == nodeId {
        continue;
      }
      if ListsUpTo(nodeIds, graph, nodeId) { ListGrows(nodeIds, graph, dependency, nodeId); }
      AddEdge(sofar[nodeId := kept], graph, nodeId, dependency);
      assert sofar[nodeId := kept][nodeId := kept + [dependency]] == sofar[nodeId := kept + [dependency]];
      kept := kept + [dependency];
      indegree := indegree[nodeId := indegree[nodeId] + 1];
      graph := graph[dependency := graph[dependency] + [nodeId]];
    }
    assert listed[..|listed|] == listed;
  }

  /** The edges of the first `i` entries; those of a repeated node are entered with each repetition. */
  ghost function Entered(nodeIds: seq<Id>, g: Deps, i: nat): Deps
    requires i <= |nodeIds|
  {
    if i == 0 then map v | v in g :: []
    else
      var before, v := Entered(nodeIds, g, i - 1), nodeIds[i - 1];
      if v in before && v in g then before[v := before[v] + g[v]] else before
  }

  lemma {:induction false} EnteredKeys(nodeIds: seq<Id>, g: Deps, i: nat)
    requires i <= |nodeIds|
    ensures Entered(nodeIds, g, i).Keys == g.Keys
  {
    if i > 0 { EnteredKeys(nodeIds, g, i - 1); }
  }

  /** Repetitions change the counters, not the edges. */
  lemma {:induction false} EnteredEdges(nodeIds: seq<Id>, g: Deps, i: nat, v: Id)
    requires i <= |nodeIds| && v in g
    ensures v in Entered(nodeIds, g, i)
    ensures forall d :: d in Entered(nodeIds, g, i)[v] <==> v in nodeIds[..i] && d in g[v]
    ensures Distinct(nodeIds) ==> Entered(nodeIds, g, i)[v] == if v in nodeIds[..i] then g[v] else []
  {
    hide Distinct;
    if i > 0 {
      EnteredEdges(nodeIds, g, i - 1, v);
      assert nodeIds[..i] == nodeIds[..i - 1] + [nodeIds[i - 1]];
      if Distinct(nodeIds) { DistinctAt(nodeIds, i - 1); }
    }
  }

  lemma EnteredAll(nodeIds: seq<Id>, g: Deps)
    requires forall v :: v in g ==> v in nodeIds
    ensures SameEdges(g, Entered(nodeIds, g, |nodeIds|))
    ensures Distinct(nodeIds) ==> Entered(nodeIds, g, |nodeIds|) == g
  {
    hide Distinct, Entered;
    assert nodeIds[..|nodeIds|] == nodeIds;
    EnteredKeys(nodeIds, g, |nodeIds|);
    forall v | v in g
      ensures v in Entered(nodeIds, g, |nodeIds|) && (forall d :: d in Entered(nodeIds, g, |nodeIds|)[v] <==> d in g[v])
      ensures Distinct(nodeIds) ==> Entered(nodeIds, g, |nodeIds|)[v] == g[v]
    {
      EnteredEdges(nodeIds, g, |nodeIds|, v);
    }
  }

  lemma EnteredNone(nodeIds: seq<Id>, g: Deps)
    ensures Entered(nodeIds, g, 0).Keys == g.Keys && forall v :: v in g ==> Entered(nodeIds, g, 0)[v] == []
  {
  }

  /** A node that is listed again has at least one edge. */
  ghost predicate RootsOnce(nodeIds: seq<Id>, g: Deps) {
    forall i, j :: 0 <= i < j < |nodeIds| && nodeIds[i] == nodeIds[j] ==> nodeIds[i] in g && g[nodeIds[i]] != []
  }

  lemma DistinctRootsOnce(nodeIds: seq<Id>, g: Deps)
    requires Distinct(nodeIds)
    ensures RootsOnce(nodeIds, g)
  {
    DistinctIndices(nodeIds);
  }

  lemma NodesOf(nodeIds: seq<Id>, dependsOn: map<Id, seq<Id>>)
    ensures forall v :: v in Effective(nodeIds, dependsOn) <==> v in nodeIds
  {
  }

  lemma BuiltInitially(sofar: Deps, indegree: map<Id, int>, graph: map<Id, seq<Id>>)
    requires indegree.Keys == graph.Keys == sofar.Keys
    requires forall v :: v in sofar ==> sofar[v] == graph[v] == [] && indegree[v] == 0
    ensures Built(sofar, indegree, graph)
  {
  }

  lemma BuiltMeansCounts(g: Deps, indegree: map<Id, int>, graph: map<Id, seq<Id>>)
    requires Built(g, indegree, graph)
    ensures Counts(g, indegree, {}, []) && graph.Keys == g.Keys && Successors(g, graph)
  {
    forall v | v in g ensures indegree[v] == Pending(g[v], {}) {
      PendingNone(g[v]);
    }
  }

  /** The graph is entered entry by entry, the edges of a repeated node several times. */
  method BuildGraph(nodeIds: seq<Id>, dependsOn: map<Id, seq<Id>>)
    returns (indegree: map<Id, int>, graph: map<Id, seq<Id>>)
    ensures Counts(Entered(nodeIds, Effective(nodeIds, dependsOn), |nodeIds|), indegree, {}, [])
    ensures graph.Keys == Entered(nodeIds, Effective(nodeIds, dependsOn), |nodeIds|).Keys
    ensures Successors(Entered(nodeIds, Effective(nodeIds, dependsOn), |nodeIds|), graph)
    ensures Distinct(nodeIds) ==> ListsInOrder(nodeIds, graph)
  {
    hide Counts, Built, Successors, Entered, Distinct, ListsUpTo, ListsInOrder, SameEdges;
    ghost var g := Effective(nodeIds, dependsOn);
    ghost var entered := Entered(nodeIds, g, 0);
    NodesOf(nodeIds, dependsOn);
    EnteredNone(nodeIds, g);
    assert forall v :: v in nodeIds ==> v in g;
    indegree := map v | v in nodeIds :: 0;
    graph := map v | v in nodeIds :: [];
    BuiltInitially(entered, indegree, graph);
    EmptyLists(nodeIds, graph, if nodeIds == [] then Id("") else nodeIds[0]);
    for i := 0 to |nodeIds|
      invariant entered == Entered(nodeIds, g, i)
      invariant Built(entered, indegree, graph)
      invariant Distinct(nodeIds) && i == |nodeIds| ==> ListsInOrder(nodeIds, graph)
      invariant Distinct(nodeIds) && i < |nodeIds| ==> ListsUpTo(nodeIds, graph, nodeIds[i])
    {
      var nodeId := nodeIds[i];
      EnteredKeys(nodeIds, g, i);
      EnteredNext(nodeIds, g, i);
      indegree, graph := AddDependencies(nodeIds, ListedFor(dependsOn, nodeId), nodeId, indegree, graph, entered);
      entered := Entered(nodeIds, g, i + 1);
      if Distinct(nodeIds) {
        if i + 1 < |nodeIds| {
          ListsReach(nodeIds, graph, i);
        } else {
          ListsDone(nodeIds, graph, nodeId);
        }
      }
    }
    BuiltMeansCounts(entered, indegree, graph);
  }

  lemma EnteredNext(nodeIds: seq<Id>, g: Deps, i: nat)
    requires i < |nodeIds| && nodeIds[i] in g && nodeIds[i] in Entered(nodeIds, g, i)
    ensures var before := Entered(nodeIds, g, i);
      Entered(nodeIds, g, i + 1) == before[nodeIds[i] := before[nodeIds[i]] + g[nodeIds[i]]]
  {
  }

  // ----- The main loop -----

  ghost predicate RisesByLevel(level: map<Id, nat>, seen: seq<Id>) {
    && (forall v :: v in seen ==> v in level)
    && forall i, j :: 0 <= i < j < |seen| ==> level[seen[i]] <= level[seen[j]]
  }

  /** Levels while `rest` successors of `current` are still to be raised. */
  ghost predicate LevelsSoFar(g: Deps, level: map<Id, nat>, done: set<Id>, current: Id, rest: seq<Id>) {
    && level.Keys == g.Keys
    && done <= g.Keys
    && (forall v, d {:trigger d in g[v]} :: v in g && d in g[v] && d in done && !(d == current && v in rest) ==> level[d] < level[v])
    && (forall v {:trigger TightSoFar(g, level, done, v)} :: v in g ==> TightSoFar(g, level, done, v))
  }

  ghost predicate TightSoFar(g: Deps, level: map<Id, nat>, done: set<Id>, v: Id)
    requires v in g && level.Keys == g.Keys && done <= g.Keys
  {
    level[v] > 0 ==> exists d :: d in g[v] && d in done && level[d] + 1 == level[v]
  }

  ghost predicate Bounded(level: map<Id, nat>, bound: nat) {
    forall v :: v in level ==> level[v] <= bound
  }

  /** The state between two pops: `done` has been popped, `seen` has entered the queue, `top` bounds the levels. */
  ghost predicate Between(g: Deps, indegree: map<Id, int>, level: map<Id, nat>, done: set<Id>, seen: seq<Id>, top: nat) {
    && Counts(g, indegree, done, [])
    && Frontier(g, indegree, seen)
    && (forall c :: LevelsSoFar(g, level, done, c, []))
    && RisesByLevel(level, seen)
    && Bounded(level, top)
  }

  ghost predicate Dependents(g: Deps, c: Id, rest: seq<Id>) {
    forall v :: v in rest ==> v in g && c in g[v]
  }

  /** The state while the successors `rest` of the last popped node `c` are still to be visited. */
  ghost predicate Visiting(g: Deps, indegree: map<Id, int>, level: map<Id, nat>, done: set<Id>, c: Id, seen: seq<Id>, rest: seq<Id>) {
    && indegree.Keys == level.Keys == g.Keys
    && c in done && c in level
    && Counts(g, indegree, done, rest)
    && Frontier(g, indegree, seen)
    && LevelsSoFar(g, level, done, c, rest)
    && RisesByLevel(level, seen)
    && Bounded(level, level[c] + 1)
    && Dependents(g, c, rest)
    && forall v :: v in done ==> v in seen
  }

  /** No level exceeds that of the last popped node by more than one. */
  ghost function Top(level: map<Id, nat>, ordered: seq<Id>): nat {
    if ordered == [] || ordered[|ordered| - 1] !in level then 0 else level[ordered[|ordered| - 1]] + 1
  }

  lemma BoundAtPop(level: map<Id, nat>, seen: seq<Id>, n: nat)
    requires n < |seen| && RisesByLevel(level, seen) && Bounded(level, Top(level, seen[..n]))
    ensures Bounded(level, level[seen[n]] + 1)
  {
  }

  lemma DependentsStep(g: Deps, c: Id, rest: seq<Id>)
    requires Dependents(g, c, rest) && rest != []
    ensures rest[0] in g && c in g[rest[0]] && Dependents(g, c, rest[1..])
  {
  }

  lemma DependentsAtPop(g: Deps, graph: map<Id, seq<Id>>, c: Id)
    requires Successors(g, graph) && c in graph
    ensures Dependents(g, c, graph[c])
  {
    forall v | v in graph[c] ensures v in g && c in g[v] {
      SuccessorsAreNodes(g, graph, c, v);
    }
  }

  lemma PopStep(g: Deps, graph: map<Id, seq<Id>>, indegree: map<Id, int>, level: map<Id, nat>, seen: seq<Id>, n: nat)
    requires Successors(g, graph) && graph.Keys == g.Keys && n < |seen|
    requires Between(g, indegree, level, Elements(seen[..n]), seen, Top(level, seen[..n]))
    ensures seen[n] in g && seen[n] in level && seen[n] !in seen[..n]
    ensures Visiting(g, indegree, level, Elements(seen[..n]) + {seen[n]}, seen[n], seen, graph[seen[n]])
  {
    var c, done, top := seen[n], Elements(seen[..n]), Top(level, seen[..n]);
    assert c in seen;
    DistinctAt(seen, n);
    hide Bounded, Dependents, TightSoFar, Distinct;
    PopKeepsCounts(g, graph, indegree, done, c);
    PopLevels(g, graph, level, done, c);
    BoundAtPop(level, seen, n);
    DependentsAtPop(g, graph, c);
  }

  lemma PopLevels(g: Deps, graph: map<Id, seq<Id>>, level: map<Id, nat>, done: set<Id>, c: Id)
    requires Successors(g, graph) && c in graph && c in g && LevelsSoFar(g, level, done, c, [])
    ensures LevelsSoFar(g, level, done + {c}, c, graph[c])
  {
    forall v, d | v in g && d in g[v] && d in done + {c} && !(d == c && v in graph[c]) ensures level[d] < level[v] {
      assert Times(graph, c, v) == Times(g, v, c);
    }
    forall v {:trigger TightSoFar(g, level, done + {c}, v)} | v in g ensures TightSoFar(g, level, done + {c}, v) {
      assert TightSoFar(g, level, done, v);
    }
  }

  function Raised(level: map<Id, nat>, current: Id, next: Id): map<Id, nat>
    requires current in level && next in level
  {
    level[next := if level[next] > level[current] + 1 then level[next] else level[current] + 1]
  }

  lemma RaiseStep(g: Deps, level: map<Id, nat>, done: set<Id>, c: Id, rest: seq<Id>)
    requires LevelsSoFar(g, level, done, c, rest) && rest != [] && c in done
    requires rest[0] in g && rest[0] !in done && c in g[rest[0]]
    requires Bounded(level, level[c] + 1)
    ensures LevelsSoFar(g, Raised(level, c, rest[0]), done, c, rest[1..])
    ensures Raised(level, c, rest[0]) == level[rest[0] := level[c] + 1]
  {
    var level' := Raised(level, c, rest[0]);
    assert rest == [rest[0]] + rest[1..];
    forall v {:trigger TightSoFar(g, level', done, v)} | v in g ensures TightSoFar(g, level', done, v) {
      assert TightSoFar(g, level, done, v);
    }
  }

  lemma FrontierStep(g: Deps, indegree: map<Id, int>, seen: seq<Id>, next: Id)
    requires indegree.Keys == g.Keys && next in g && indegree[next] > 0 && Frontier(g, indegree, seen)
    ensures next !in seen
    ensures var indegree' := indegree[next := indegree[next] - 1];
      Frontier(g, indegree', if indegree'[next] == 0 then seen + [next] else seen)
  {
    DistinctAppend(seen, next);
  }

  lemma BoundedStep(level: map<Id, nat>, c: Id, next: Id)
    requires c in level && next in level && c != next && Bounded(level, level[c] + 1)
    ensures var level' := level[next := level[c] + 1]; level'[c] == level[c] && Bounded(level', level'[c] + 1)
  {
  }

  lemma VisitStep(g: Deps, indegree: map<Id, int>, level: map<Id, nat>, done: set<Id>, c: Id, seen: seq<Id>, rest: seq<Id>)
    requires Visiting(g, indegree, level, done, c, seen, rest) && rest != []
    ensures rest[0] in indegree && rest[0] in level && c in level
    ensures var next := rest[0];
      var indegree' := indegree[next := indegree[next] - 1];
      Visiting(g, indegree', Raised(level, c, next), done, c, if indegree'[next] == 0 then seen + [next] else seen, rest[1..])
  {
    hide Frontier, RisesByLevel, Bounded, Raised, Counts, LevelsSoFar, Dependents;
    var next := rest[0];
    DependentsStep(g, c, rest);
    DecrementKeepsCounts(g, indegree, done, rest);
    FrontierStep(g, indegree, seen, next);
    RaiseStep(g, level, done, c, rest);
    RiseStep(level, seen, next, level[c] + 1);
    BoundedStep(level, c, next);
  }

  lemma RiseStep(level: map<Id, nat>, seen: seq<Id>, next: Id, n: nat)
    requires RisesByLevel(level, seen) && next !in seen && Bounded(level, n)
    ensures RisesByLevel(level[next := n], seen)
    ensures RisesByLevel(level[next := n], seen + [next])
  {
  }

  lemma StartState(g: Deps, nodeIds: seq<Id>, indegree: map<Id, int>, level: map<Id, nat>, queue: seq<Id>)
    requires RootsOnce(nodeIds, g) && (forall v :: v in g <==> v in nodeIds)
    requires Counts(g, indegree, {}, [])
    requires level.Keys == g.Keys && forall v :: v in level ==> level[v] == 0
    requires queue == Filter(nodeIds, v => v in indegree && indegree[v] == 0)
    ensures Between(g, indegree, level, {}, queue, 0)
  {
    hide Distinct, RootsOnce, Filter;
    var ready := v => v in indegree && indegree[v] == 0;
    assert queue == Filter(nodeIds, ready);
    forall v | v in g && indegree[v] == 0 ensures g[v] == [] {
      PendingNone(g[v]);
    }
    RootsDistinct(nodeIds, g, ready);
    forall v ensures v in queue <==> v in g && indegree[v] == 0 {
      FilterMembers(nodeIds, ready, v);
    }
    hide Counts;
    forall c ensures LevelsSoFar(g, level, {}, c, []) {
      StartLevels(g, level, c);
    }
    hide LevelsSoFar;
  }

  lemma StartLevels(g: Deps, level: map<Id, nat>, c: Id)
    requires level.Keys == g.Keys && forall v :: v in level ==> level[v] == 0
    ensures LevelsSoFar(g, level, {}, c, [])
  {
  }

  lemma RootsDistinct(nodeIds: seq<Id>, g: Deps, ready: Id -> bool)
    requires RootsOnce(nodeIds, g) && forall v :: v in g && ready(v) ==> g[v] == []
    requires forall v :: v in nodeIds ==> v in g
    ensures Distinct(Filter(nodeIds, ready))
  {
    RepeatedOnlyIf(nodeIds, ready);
    forall i, j | 0 <= i < j < |nodeIds| && ready(nodeIds[i]) ensures nodeIds[i] != nodeIds[j] {
      assert nodeIds[i] in nodeIds;
    }
  }

  lemma {:induction false} RepeatedOnlyIf(s: seq<Id>, keep: Id -> bool)
    ensures (forall i, j :: 0 <= i < j < |s| && keep(s[i]) ==> s[i] != s[j]) ==> Distinct(Filter(s, keep))
  {
    hide Distinct;
    if s != [] && forall i, j :: 0 <= i < j < |s| && keep(s[i]) ==> s[i] != s[j] {
      var init, last := s[..|s| - 1], s[|s| - 1];
      assert forall i, j :: 0 <= i < j < |init| && keep(init[i]) ==> s[i] != s[j];
      RepeatedOnlyIf(init, keep);
      FilterMembers(init, keep, last);
      forall i | 0 <= i < |init| && keep(last) ensures init[i] != last {
        assert keep(s[i]) ==> s[i] != s[|s| - 1];
      }
      DistinctAppend(Filter(init, keep), last);
    }
    if s == [] { DistinctIndices(Filter(s, keep)); }
  }

  lemma VisitedAll(g: Deps, indegree: map<Id, int>, level: map<Id, nat>, done: set<Id>, c: Id, seen: seq<Id>)
    requires Visiting(g, indegree, level, done, c, seen, [])
    ensures c in level && Between(g, indegree, level, done, seen, level[c] + 1)
  {
  }

  /** What holds whatever is repeated: only entries that have been counted down are queued, and none too often. */
  ghost predicate Shaped(nodeIds: seq<Id>, g: Deps, indegree: map<Id, int>, level: map<Id, nat>, s: seq<Id>) {
    && indegree.Keys == level.Keys == g.Keys
    && (forall v :: v in s ==> v in g && indegree[v] <= 0)
    && (forall v :: v in g ==> v in nodeIds)
    && multiset(s) <= multiset(nodeIds)
  }

  ghost function Positive(indegree: map<Id, int>): set<Id> {
    set v | v in indegree && indegree[v] > 0
  }

  /** Between two pops. If no node without edges is repeated (`ok`) all is exact, without any repetition (`fifo`) in order. */
  ghost predicate AtPop(nodeIds: seq<Id>, g: Deps, indegree: map<Id, int>, level: map<Id, nat>, ordered: seq<Id>, queue: seq<Id>, ok: bool, fifo: bool) {
    && Shaped(nodeIds, g, indegree, level, ordered + queue)
    && Tally(nodeIds, g, indegree, ordered, ordered + queue, [])
    && (ok ==> Between(g, indegree, level, Elements(ordered), ordered + queue, Top(level, ordered)))
    && (fifo ==> ok && g.Keys == Elements(nodeIds) && Turn(nodeIds, g, ordered + queue, |ordered|))
  }

  /** While the successors `rest` of the last popped node are still to be visited. */
  ghost predicate AtVisit(nodeIds: seq<Id>, g: Deps, indegree: map<Id, int>, level: map<Id, nat>, ordered: seq<Id>, queue: seq<Id>,
      rest: seq<Id>, ok: bool, fifo: bool)
  {
    && Shaped(nodeIds, g, indegree, level, ordered + queue)
    && Tally(nodeIds, g, indegree, ordered, ordered + queue, rest)
    && ordered != [] && ordered[|ordered| - 1] in g && (forall v :: v in rest ==> v in g)
    && (ok ==> Visiting(g, indegree, level, Elements(ordered), ordered[|ordered| - 1], ordered + queue, rest))
    && (fifo ==> ok && g.Keys == Elements(nodeIds) && VisitTurn(nodeIds, g, ordered + queue, |ordered|, rest))
  }

  /** The inner loop: raise and release the successors of the node just popped. */
  method VisitSuccessors(ghost nodeIds: seq<Id>, ghost g: Deps, ghost ordered: seq<Id>, current: Id, successors: seq<Id>,
      indegree0: map<Id, int>, level0: map<Id, nat>, queue0: seq<Id>, ghost ok: bool, ghost fifo: bool)
    returns (indegree: map<Id, int>, level: map<Id, nat>, queue: seq<Id>)
    requires AtVisit(nodeIds, g, indegree0, level0, ordered, queue0, successors, ok, fifo) && ordered[|ordered| - 1] == current
    ensures AtPop(nodeIds, g, indegree, level, ordered, queue, ok, fifo)
    ensures queue == queue0 || Positive(indegree) < Positive(indegree0)
    ensures Positive(indegree) <= Positive(indegree0)
  {
    hide AtVisit, AtPop, Positive, Raised;
    indegree, level, queue := indegree0, level0, queue0;
    assert successors[0..] == successors;
    for j := 0 to |successors|
      invariant AtVisit(nodeIds, g, indegree, level, ordered, queue, successors[j..], ok, fifo)
      invariant queue == queue0 || Positive(indegree) < Positive(indegree0)
      invariant Positive(indegree) <= Positive(indegree0)
    {
      var nextId := successors[j];
      assert successors[j..][0] == nextId && successors[j..][1..] == successors[j + 1..];
      VisitNext(nodeIds, g, indegree, level, ordered, queue, successors[j..], ok, fifo);
      level := Raised(level, current, nextId);
      indegree := indegree[nextId := indegree[nextId] - 1];
      if indegree[nextId] == 0 {
        queue := queue + [nextId];
      }
    }
    assert successors[|successors|..] == [];
    VisitOver(nodeIds, g, indegree, level, ordered, queue, ok, fifo);
  }

  lemma VisitNext(nodeIds: seq<Id>, g: Deps, indegree: map<Id, int>, level: map<Id, nat>, ordered: seq<Id>, queue: seq<Id>,
      rest: seq<Id>, ok: bool, fifo: bool)
    requires AtVisit(nodeIds, g, indegree, level, ordered, queue, rest, ok, fifo) && rest != []
    ensures ordered != [] && ordered[|ordered| - 1] in level && rest[0] in level && rest[0] in indegree
    ensures var next := rest[0];
      var indegree' := indegree[next := indegree[next] - 1];
      && AtVisit(nodeIds, g, indegree', Raised(level, ordered[|ordered| - 1], next), ordered,
                 if indegree'[next] == 0 then queue + [next] else queue, rest[1..], ok, fifo)
      && Positive(indegree') <= Positive(indegree)
      && (indegree'[next] == 0 ==> Positive(indegree') < Positive(indegree))
  {
    hide Visiting, Raised, VisitTurn, Shaped, Positive, Elements, Tally;
    var next, current := rest[0], ordered[|ordered| - 1];
    TallyVisit(nodeIds, g, indegree, ordered, ordered + queue, rest);
    ShapedStep(nodeIds, g, indegree, level, ordered + queue, current, next);
    if ok { VisitStep(g, indegree, level, Elements(ordered), current, ordered + queue, rest); }
    if fifo { TurnStep(nodeIds, g, indegree, level, ordered, current, queue, rest); }
    assert ordered + (queue + [next]) == (ordered + queue) + [next];
    assert forall v :: v in rest[1..] ==> v in rest;
  }

  lemma VisitOver(nodeIds: seq<Id>, g: Deps, indegree: map<Id, int>, level: map<Id, nat>, ordered: seq<Id>, queue: seq<Id>, ok: bool, fifo: bool)
    requires AtVisit(nodeIds, g, indegree, level, ordered, queue, [], ok, fifo)
    ensures AtPop(nodeIds, g, indegree, level, ordered, queue, ok, fifo)
  {
    hide Visiting, Between, VisitTurn, Turn, Shaped, Elements, Tally;
    if ok { VisitedAll(g, indegree, level, Elements(ordered), ordered[|ordered| - 1], ordered + queue); }
    if fifo { VisitDone(nodeIds, g, ordered + queue, |ordered|); }
  }

  lemma Pop(nodeIds: seq<Id>, g: Deps, graph: map<Id, seq<Id>>, indegree: map<Id, int>, level: map<Id, nat>, ordered: seq<Id>, queue: seq<Id>,
      ok: bool, fifo: bool)
    requires AtPop(nodeIds, g, indegree, level, ordered, queue, ok, fifo) && queue != []
    requires graph.Keys == g.Keys && Successors(g, graph) && (fifo ==> ListsInOrder(nodeIds, graph))
    ensures queue[0] in graph && AtVisit(nodeIds, g, indegree, level, ordered + [queue[0]], queue[1..], graph[queue[0]], ok, fifo)
  {
    hide Between, Visiting, VisitTurn, Turn, Shaped, NonDescending, Successors, Tally;
    var current, seen, popped := queue[0], ordered + queue, ordered + [queue[0]];
    assert seen[..|ordered|] == ordered && seen[|ordered|] == current && popped + queue[1..] == seen;
    assert Elements(popped) == Elements(ordered) + {current};
    ShapedAt(nodeIds, g, indegree, level, seen, |ordered|);
    SuccessorsShape(g, graph, current);
    TallyPop(nodeIds, g, graph, indegree, ordered, seen);
    if ok { PopStep(g, graph, indegree, level, seen, |ordered|); }
    if fifo { NextVisit(nodeIds, g, seen, |ordered|, graph[current]); }
  }

  lemma ShapedStep(nodeIds: seq<Id>, g: Deps, indegree: map<Id, int>, level: map<Id, nat>, s: seq<Id>, current: Id, next: Id)
    requires Shaped(nodeIds, g, indegree, level, s) && current in g && next in g
    ensures current in level && next in level && next in indegree
    ensures var indegree' := indegree[next := indegree[next] - 1];
      && Shaped(nodeIds, g, indegree', Raised(level, current, next), s)
      && (indegree'[next] == 0 ==> Shaped(nodeIds, g, indegree', Raised(level, current, next), s + [next]))
      && Positive(indegree') <= Positive(indegree)
      && (indegree'[next] == 0 ==> Positive(indegree') < Positive(indegree))
  {
    var indegree' := indegree[next := indegree[next] - 1];
    if indegree'[next] == 0 {
      assert next in Positive(indegree) && next !in Positive(indegree');
      assert next !in s && next in multiset(nodeIds);
    }
  }

  /** A dependent is released exactly when its last dependency is popped. */
  lemma TurnStep(nodeIds: seq<Id>, g: Deps, indegree: map<Id, int>, level: map<Id, nat>, ordered: seq<Id>, c: Id, queue: seq<Id>, rest: seq<Id>)
    requires Visiting(g, indegree, level, Elements(ordered), c, ordered + queue, rest) && rest != []
    requires ordered != [] && ordered[|ordered| - 1] == c && g.Keys == Elements(nodeIds)
    requires VisitTurn(nodeIds, g, ordered + queue, |ordered|, rest)
    ensures rest[0] in indegree
    ensures VisitTurn(nodeIds, g, if indegree[rest[0]] == 1 then ordered + queue + [rest[0]] else ordered + queue, |ordered|, rest[1..])
  {
    hide VisitTurn, Visiting, ReleasedAt;
    var seen, next := ordered + queue, rest[0];
    NextDependent(g, indegree, level, Elements(ordered), c, seen, rest);
    if indegree[next] == 1 {
      assert seen[..|ordered|] == ordered;
      ReleasedNow(g, seen, next, |ordered|);
      Release(nodeIds, g, seen, |ordered|, rest);
    } else {
      Skip(nodeIds, g, seen, |ordered|, rest);
    }
  }

  lemma ReleasedNow(g: Deps, seen: seq<Id>, v: Id, n: nat)
    requires 0 < n <= |seen| && v in g && seen[n - 1] in g[v] && forall d :: d in g[v] ==> d in Elements(seen[..n])
    ensures ReleasedAt(g, seen, v, n)
  {
  }

  lemma NextDependent(g: Deps, indegree: map<Id, int>, level: map<Id, nat>, done: set<Id>, c: Id, seen: seq<Id>, rest: seq<Id>)
    requires Visiting(g, indegree, level, done, c, seen, rest) && rest != []
    ensures rest[0] in indegree && rest[0] in g && c in g[rest[0]] && rest[0] !in seen
    ensures indegree[rest[0]] == 1 ==> forall d :: d in g[rest[0]] ==> d in done
    ensures forall v :: v in seen ==> v in g
  {
    hide LevelsSoFar, RisesByLevel, Bounded, Dependents, Distinct, Counts;
    var next := rest[0];
    DependentsStep(g, c, rest);
    DecrementKeepsCounts(g, indegree, done, rest);
    var indegree' := indegree[next := indegree[next] - 1];
    ZeroMeansReady(g, indegree', done, rest[1..]);
    assert forall d :: d in g[next] && indegree'[next] == 0 ==> d in done;
  }

  /** What the main loop hands over: the released nodes in order, with their final levels. */
  ghost predicate Resolved(g: Deps, ordered: seq<Id>, level: map<Id, nat>) {
    && Distinct(ordered)
    && RisesByLevel(level, ordered)
    && level.Keys == g.Keys
    && var lev := LevelsOf(level, ordered); Levels(g, lev) && Stuck(g, lev.Keys)
  }

  ghost function LevelsOf(level: map<Id, nat>, ordered: seq<Id>): map<Id, nat> {
    map v | v in ordered && v in level :: level[v]
  }

  lemma EmptyQueueMeansResolved(g: Deps, indegree: map<Id, int>, level: map<Id, nat>, ordered: seq<Id>, top: nat)
    requires Between(g, indegree, level, Elements(ordered), ordered, top)
    ensures Resolved(g, ordered, level)
  {
    var done, lev := Elements(ordered), LevelsOf(level, ordered);
    forall c ensures LevelsSoFar(g, level, done, c, []) {}
    assert LevelsSoFar(g, level, done, Id(""), []);
    ZeroMeansReady(g, indegree, done, []);
    EmptyQueueMeansStuck(g, indegree, ordered);
    assert lev.Keys == done;
    forall v {:trigger Tight(g, lev, v)} | v in lev ensures Tight(g, lev, v) {
      assert TightSoFar(g, level, done, v);
    }
  }

  /** Levels of neighbours in the order differ by at most one, and the first is 0. */
  lemma NoGap(g: Deps, ordered: seq<Id>, level: map<Id, nat>, i: nat)
    requires Resolved(g, ordered, level) && i < |ordered|
    ensures ordered[i] in level && (i > 0 ==> ordered[i - 1] in level)
    ensures level[ordered[i]] <= if i == 0 then 0 else level[ordered[i - 1]] + 1
    ensures i > 0 ==> level[ordered[i - 1]] <= level[ordered[i]]
  {
    var lev, v := LevelsOf(level, ordered), ordered[i];
    assert v in ordered;
    assert Tight(g, lev, v);
    if lev[v] > 0 {
      var d :| d in g[v] && d in lev && lev[d] + 1 == lev[v];
      var j :| 0 <= j < |ordered| && ordered[j] == d;
    }
  }

  /**
    The main loop. It always ends, because a node enters the queue a second time at most if it was there from the start.
    If no node without edges is repeated, it resolves the graph; if none is repeated at all, in first-in-first-out order.
   */
  method Visit(ghost g: Deps, nodeIds: seq<Id>, indegree0: map<Id, int>, graph: map<Id, seq<Id>>)
    returns (ordered: seq<Id>, level: map<Id, nat>)
    requires (forall v :: v in g <==> v in nodeIds) && (Distinct(nodeIds) ==> ListsInOrder(nodeIds, graph))
    requires Counts(g, indegree0, {}, []) && graph.Keys == g.Keys && Successors(g, graph)
    ensures multiset(ordered) <= multiset(nodeIds) && forall v :: v in ordered ==> v in nodeIds && v in level
    ensures Released(nodeIds, g, ordered)
    ensures RootsOnce(nodeIds, g) ==> Resolved(g, ordered, level)
    ensures Distinct(nodeIds) ==> Fifo(nodeIds, g, ordered)
  {
    hide Counts, Successors, AtPop, AtVisit, Resolved, Distinct, Fifo, ListsInOrder, RootsOnce, Positive, Released;
    var indegree := indegree0;
    level := map v | v in nodeIds :: 0;
    var queue := Filter(nodeIds, v => v in indegree && indegree[v] == 0);
    ordered := [];
    ghost var ok, fifo := RootsOnce(nodeIds, g), Distinct(nodeIds);
    FirstPop(nodeIds, g, indegree, level, queue);
    while queue != []
      invariant AtPop(nodeIds, g, indegree, level, ordered, queue, ok, fifo)
      decreases Positive(indegree), |queue|
    {
      var current := queue[0];
      Pop(nodeIds, g, graph, indegree, level, ordered, queue, ok, fifo);
      queue := queue[1..];
      ordered := ordered + [current];
      indegree, level, queue := VisitSuccessors(nodeIds, g, ordered, current, graph[current], indegree, level, queue, ok, fifo);
    }
    LastPop(nodeIds, g, indegree, level, ordered, ok, fifo);
  }

  lemma FirstPop(nodeIds: seq<Id>, g: Deps, indegree: map<Id, int>, level: map<Id, nat>, queue: seq<Id>)
    requires (forall v :: v in g <==> v in nodeIds) && Counts(g, indegree, {}, [])
    requires level.Keys == g.Keys && forall v :: v in level ==> level[v] == 0
    requires queue == Filter(nodeIds, v => v in indegree && indegree[v] == 0)
    ensures AtPop(nodeIds, g, indegree, level, [], queue, RootsOnce(nodeIds, g), Distinct(nodeIds))
  {
    hide Counts, Between, Turn, RootsOnce, Distinct, Shaped, Tally;
    TallyStarts(nodeIds, g, indegree, queue);
    assert [] + queue == queue && Elements<Id>([]) == {} && Top(level, []) == 0;
    StartShape(g, nodeIds, indegree, level, queue);
    if Distinct(nodeIds) {
      DistinctRootsOnce(nodeIds, g);
      FirstTurn(g, nodeIds, indegree, queue);
    }
    if RootsOnce(nodeIds, g) { StartState(g, nodeIds, indegree, level, queue); }
  }

  lemma LastPop(nodeIds: seq<Id>, g: Deps, indegree: map<Id, int>, level: map<Id, nat>, ordered: seq<Id>, ok: bool, fifo: bool)
    requires AtPop(nodeIds, g, indegree, level, ordered, [], ok, fifo)
    ensures multiset(ordered) <= multiset(nodeIds) && forall v :: v in ordered ==> v in nodeIds && v in level
    ensures Released(nodeIds, g, ordered)
    ensures ok ==> Resolved(g, ordered, level)
    ensures fifo ==> Fifo(nodeIds, g, ordered)
  {
    hide Between, Turn, Resolved, Shaped, Fifo, Tally, Released;
    assert ordered + [] == ordered;
    TallyEnds(nodeIds, g, indegree, ordered);
    ShapedEnd(nodeIds, g, indegree, level, ordered);
    if ok { EmptyQueueMeansResolved(g, indegree, level, ordered, Top(level, ordered)); }
    if fifo { TurnIsFifo(nodeIds, g, ordered, |ordered|); }
  }

  lemma ShapedAt(nodeIds: seq<Id>, g: Deps, indegree: map<Id, int>, level: map<Id, nat>, s: seq<Id>, i: nat)
    requires Shaped(nodeIds, g, indegree, level, s) && i < |s|
    ensures s[i] in g
  {
    assert s[i] in s;
  }

  lemma ShapedEnd(nodeIds: seq<Id>, g: Deps, indegree: map<Id, int>, level: map<Id, nat>, s: seq<Id>)
    requires Shaped(nodeIds, g, indegree, level, s)
    ensures multiset(s) <= multiset(nodeIds) && forall v :: v in s ==> v in nodeIds && v in level
  {
  }

  lemma StartShape(g: Deps, nodeIds: seq<Id>, indegree: map<Id, int>, level: map<Id, nat>, queue: seq<Id>)
    requires (forall v :: v in g <==> v in nodeIds) && Counts(g, indegree, {}, []) && level.Keys == g.Keys
    requires queue == Filter(nodeIds, v => v in indegree && indegree[v] == 0)
    ensures Shaped(nodeIds, g, indegree, level, queue)
  {
    var ready := v => v in indegree && indegree[v] == 0;
    assert queue == Filter(nodeIds, ready);
    forall v | v in queue ensures v in g && indegree[v] <= 0 {
      FilterMembers(nodeIds, ready, v);
    }
    FilterBag(nodeIds, ready);
  }

  lemma {:induction false} FilterBag(s: seq<Id>, keep: Id -> bool)
    ensures multiset(Filter(s, keep)) <= multiset(s)
  {
    if s != [] {
      FilterBag(s[..|s| - 1], keep);
      assert s == s[..|s| - 1] + [s[|s| - 1]];
    }
  }

  lemma SuccessorsShape(g: Deps, graph: map<Id, seq<Id>>, c: Id)
    requires Successors(g, graph) && graph.Keys == g.Keys && c in g
    ensures forall v :: v in graph[c] ==> v in g
  {
    forall v | v in graph[c] ensures v in g {
      SuccessorsAreNodes(g, graph, c, v);
    }
  }

  lemma TurnIsFifo(nodeIds: seq<Id>, g: Deps, seen: seq<Id>, n: nat)
    requires Turn(nodeIds, g, seen, n)
    ensures Fifo(nodeIds, g, seen)
  {
  }

  lemma FirstTurn(g: Deps, nodeIds: seq<Id>, indegree: map<Id, int>, queue: seq<Id>)
    requires Distinct(nodeIds) && (forall v :: v in g <==> v in nodeIds) && Counts(g, indegree, {}, [])
    requires queue == Filter(nodeIds, v => v in indegree && indegree[v] == 0)
    ensures Turn(nodeIds, g, queue, 0) && g.Keys == Elements(nodeIds)
  {
    hide Turn, Distinct;
    var ready := v => v in indegree && indegree[v] == 0;
    assert queue == Filter(nodeIds, ready);
    forall v | v in nodeIds && ready(v) ensures v in g && g[v] == [] {
      PendingNone(g[v]);
    }
    StartTurn(nodeIds, g, ready);
  }

  // ----- Stacking the released nodes into layers -----

  /** `layers` splits `ordered` by level, keeps its order and has no empty layer. */
  ghost predicate Stacked(layers: seq<seq<Id>>, ordered: seq<Id>, level: map<Id, nat>) {
    && Flatten(layers) == ordered
    && |layers| == Top(level, ordered)
    && (forall k :: 0 <= k < |layers| ==> layers[k] != [])
    && (forall k, v :: 0 <= k < |layers| && v in layers[k] ==> v in level && level[v] == k)
  }

  lemma StackNew(layers: seq<seq<Id>>, ordered: seq<Id>, level: map<Id, nat>, v: Id)
    requires Stacked(layers, ordered, level) && v in level && level[v] == |layers|
    ensures Stacked(layers + [[v]], ordered + [v], level)
  {
    FlattenAppend(layers, [v]);
  }

  lemma StackOnLast(layers: seq<seq<Id>>, ordered: seq<Id>, level: map<Id, nat>, v: Id)
    requires Stacked(layers, ordered, level) && v in level && |layers| > 0 && level[v] == |layers| - 1
    ensures Stacked(layers[level[v] := layers[level[v]] + [v]], ordered + [v], level)
  {
    var init, last := layers[..|layers| - 1], layers[|layers| - 1];
    FlattenAppend(init, last);
    FlattenAppend(init, last + [v]);
    assert layers == init + [last];
    assert layers[level[v] := last + [v]] == init + [last + [v]];
    assert Flatten(init) + (last + [v]) == (Flatten(init) + last) + [v];
  }

  /** Nothing is lost in stacking, whatever the levels; of a resolved graph every node comes on the last layer or opens the next. */
  method StackLayers(ghost g: Deps, ordered: seq<Id>, level: map<Id, nat>, ghost ok: bool) returns (layers: seq<seq<Id>>)
    requires forall v :: v in ordered ==> v in level
    requires ok ==> Resolved(g, ordered, level)
    ensures multiset(Flatten(layers)) == multiset(ordered)
    ensures ok ==> Stacked(layers, ordered, level)
  {
    hide Resolved, Stacked, Flatten;
    layers := [];
    StackEmpty(level);
    for i := 0 to |ordered|
      invariant multiset(Flatten(layers)) == multiset(ordered[..i])
      invariant ok ==> Stacked(layers, ordered[..i], level)
      invariant ok ==> |layers| == Top(level, ordered[..i])
    {
      if ok { NoGap(g, ordered, level, i); }
      var nodeId := ordered[i];
      ghost var before := layers;
      var layerIndex := level[nodeId];
      while |layers| <= layerIndex
        invariant multiset(Flatten(layers)) == multiset(Flatten(before)) && before <= layers
        invariant ok ==> layers == before || (layers == before + [[]] && |layers| == layerIndex + 1)
      {
        FlattenAppend(layers, []);
        layers := layers + [[]];
      }
      assert ordered[..i + 1] == ordered[..i] + [nodeId];
      if ok {
        StackNext(before, layers, ordered[..i], level, nodeId);
      }
      FlattenUpdate(layers, layerIndex, nodeId);
      layers := layers[layerIndex := layers[layerIndex] + [nodeId]];
    }
    assert ordered[..|ordered|] == ordered;
  }

  lemma StackNext(before: seq<seq<Id>>, layers: seq<seq<Id>>, ordered: seq<Id>, level: map<Id, nat>, v: Id)
    requires v in level && level[v] < |layers| && Stacked(before, ordered, level) && |before| - 1 <= level[v]
    requires layers == before || (layers == before + [[]] && |layers| == level[v] + 1)
    ensures Stacked(layers[level[v] := layers[level[v]] + [v]], ordered + [v], level)
    ensures |layers| == Top(level, ordered + [v])
  {
    hide Stacked;
    if layers == before {
      StackOnLast(before, ordered, level, v);
    } else {
      StackNew(before, ordered, level, v);
      assert layers[level[v]] == [] && [] + [v] == [v];
      assert layers[level[v] := layers[level[v]] + [v]] == before + [[v]];
    }
  }

  lemma {:induction false} FlattenUpdate(layers: seq<seq<Id>>, k: nat, v: Id)
    requires k < |layers|
    ensures multiset(Flatten(layers[k := layers[k] + [v]])) == multiset(Flatten(layers)) + multiset{v}
  {
    var after := layers[k := layers[k] + [v]];
    if k == 0 {
      assert after[1..] == layers[1..] && after[0] == layers[0] + [v];
    } else {
      FlattenUpdate(layers[1..], k - 1, v);
      assert after[1..] == layers[1..][k - 1 := layers[1..][k - 1] + [v]] && after[0] == layers[0];
    }
  }

  lemma StackEmpty(level: map<Id, nat>)
    ensures Stacked([], [], level)
  {
  }

  lemma StackedIsLayering(g: Deps, layers: seq<seq<Id>>, ordered: seq<Id>, level: map<Id, nat>)
    requires Resolved(g, ordered, level) && Stacked(layers, ordered, level)
    ensures IsLayering(g, layers, Elements(ordered)) && Flatten(layers) == ordered
  {
    var lev := LevelsOf(level, ordered);
    forall k, v | 0 <= k < |layers| && v in layers[k] ensures LongestChain(g, v, k + 1) {
      FlattenMembers(layers, v);
      LevelIsLongestChain(g, lev, v);
    }
  }

  // ----- The whole function -----

  /** The nodes of a graph that neither lie on a cycle nor depend on one. */
  ghost function Acyclic(g: Deps): set<Id> {
    set v | v in g && !DependsOnCycle(g, v)
  }

  /** What `resolve_layers` promises of a graph; repeated entries make it raise, as a cycle does. */
  ghost predicate Promised(nodeIds: seq<Id>, g: Deps, onCycle: CycleMode, r: Option<seq<seq<Id>>>) {
    && (r.None? <==> onCycle == Raise && (HasCycle(g) || !Distinct(nodeIds)))
    && (r.Some? && !HasCycle(g) ==> IsLayering(g, r.value, Elements(nodeIds)))
    && (r.Some? && HasCycle(g) ==> EndsWithUnresolved(g, r.value))
  }

  /**
    For every input: the entries released come out, an unresolved node once behind them; and `raise` mode gives up exactly
    if fewer were released than listed.
   */
  ghost predicate Outcome(nodeIds: seq<Id>, g: Deps, onCycle: CycleMode, r: Option<seq<seq<Id>>>) {
    exists s :: Released(nodeIds, Entered(nodeIds, g, |nodeIds|), s) && OutcomeOf(nodeIds, onCycle, r, s)
  }

  ghost predicate OutcomeOf(nodeIds: seq<Id>, onCycle: CycleMode, r: Option<seq<seq<Id>>>, s: seq<Id>) {
    && (r.None? <==> onCycle == Raise && |s| != |nodeIds|)
    && (r.Some? ==> forall v :: multiset(Flatten(r.value))[v] == multiset(s)[v] + if v in nodeIds && v !in s then 1 else 0)
  }

  /**
    For distinct ids, and for repeated ones as long as those have dependencies, the layers are exact. A repeated node
    without dependencies counts its dependents down too early.
   */
  method ResolveLayers(nodeIds: seq<Id>, dependsOn: map<Id, seq<Id>>, onCycle: CycleMode) returns (r: Option<seq<seq<Id>>>)
    ensures var g := Effective(nodeIds, dependsOn);
      && Outcome(nodeIds, g, onCycle, r)
      && (RootsOnce(nodeIds, g) ==> Promised(nodeIds, g, onCycle, r))
      && (Distinct(nodeIds) && r.Some? && !HasCycle(g) ==> Fifo(nodeIds, g, Flatten(r.value)))
      && (Distinct(nodeIds) && r.Some? && HasCycle(g) ==> r.value != [] && Fifo(nodeIds, g, Flatten(r.value[..|r.value| - 1])))
    ensures r.Some? && onCycle == AppendUnresolved ==> Elements(Flatten(r.value)) == Elements(nodeIds)
    ensures r.Some? && onCycle == Raise ==> multiset(Flatten(r.value)) == multiset(nodeIds)
  {
    hide Fifo, Resolved, Stacked, Distinct, Counts, Successors, IsLayering, HasCycle, EndsWithUnresolved, DependsOnCycle, RootsOnce, Flatten, SameEdges, Effective, Entered;
    hide Released, OutcomeOf, Promised;
    ghost var g := Effective(nodeIds, dependsOn);
    ghost var entered := Entered(nodeIds, g, |nodeIds|);
    var indegree, graph := BuildGraph(nodeIds, dependsOn);
    NodesOf(nodeIds, dependsOn);
    EnteredAll(nodeIds, g);
    EnteredNodes(nodeIds, dependsOn, entered);
    var ordered, level := Visit(entered, nodeIds, indegree, graph);
    ghost var ok := RootsOnce(nodeIds, g);
    if ok { ResolvedSameEdges(nodeIds, g, entered, ordered, level); }
    if ok { ResolvedMembers(nodeIds, dependsOn, ordered, level); }
    if ok && !HasCycle(g) { AllResolved(nodeIds, ordered); }
    if Distinct(nodeIds) { DistinctRootsOnce(nodeIds, g); }
    var layers := StackLayers(g, ordered, level, ok);
    SameBag(Flatten(layers), ordered);
    if |ordered| == |nodeIds| { FullBag(ordered, nodeIds); }
    if ok { StackedIsLayering(g, layers, ordered, level); }
    if |ordered| != |nodeIds| {
      if onCycle == AppendUnresolved {
        var unresolved := Sorted(Filter(Unique(nodeIds), v => v !in ordered));
        UnresolvedMembers(nodeIds, ordered, unresolved);
        WithUnresolved(nodeIds, ordered, layers, unresolved);
        if ok && HasCycle(g) { UnresolvedLayer(nodeIds, dependsOn, ordered, layers, unresolved); }
        assert (layers + [unresolved])[..|layers|] == layers;
        r := Some(if unresolved != [] then layers + [unresolved] else layers);
        UnresolvedOutcome(nodeIds, ordered, layers, unresolved, r.value);
        if ok { PromisedHere(nodeIds, g, onCycle, r); }
        return r;
      }
      NoOutcome(nodeIds, ordered);
      if ok { PromisedHere(nodeIds, g, onCycle, None); }
      return None;
    }
    FullOutcome(nodeIds, ordered, layers, onCycle);
    if ok { PromisedHere(nodeIds, g, onCycle, Some(layers)); }
    return Some(layers);
  }

  lemma PromisedHere(nodeIds: seq<Id>, g: Deps, onCycle: CycleMode, r: Option<seq<seq<Id>>>)
    requires r.None? <==> onCycle == Raise && (HasCycle(g) || !Distinct(nodeIds))
    requires r.Some? && !HasCycle(g) ==> IsLayering(g, r.value, Elements(nodeIds))
    requires r.Some? && HasCycle(g) ==> EndsWithUnresolved(g, r.value)
    ensures Promised(nodeIds, g, onCycle, r)
  {
    hide HasCycle, Distinct, IsLayering, EndsWithUnresolved;
  }

  lemma NoOutcome(nodeIds: seq<Id>, s: seq<Id>)
    requires |s| != |nodeIds|
    ensures OutcomeOf(nodeIds, Raise, None, s)
  {
  }

  lemma FullOutcome(nodeIds: seq<Id>, s: seq<Id>, layers: seq<seq<Id>>, onCycle: CycleMode)
    requires |s| == |nodeIds| && multiset(Flatten(layers)) == multiset(s) == multiset(nodeIds)
    ensures OutcomeOf(nodeIds, onCycle, Some(layers), s)
  {
    hide Flatten;
    forall v ensures v in nodeIds ==> v in s {
      assert v in multiset(nodeIds) <==> v in multiset(s);
    }
  }

  lemma UnresolvedOutcome(nodeIds: seq<Id>, s: seq<Id>, layers: seq<seq<Id>>, unresolved: seq<Id>, all: seq<seq<Id>>)
    requires multiset(Flatten(layers)) == multiset(s) && Ascending(unresolved)
    requires forall v :: v in unresolved <==> v in nodeIds && v !in s
    requires all == if unresolved != [] then layers + [unresolved] else layers
    ensures OutcomeOf(nodeIds, AppendUnresolved, Some(all), s)
  {
    hide Flatten, Ascending, Distinct;
    FlattenAppend(layers, unresolved);
    AscendingIsDistinct(unresolved);
    DistinctMultiplicity(unresolved);
    assert multiset(Flatten(all)) == multiset(s) + multiset(unresolved);
    forall v ensures multiset(unresolved)[v] == if v in nodeIds && v !in s then 1 else 0 {
      assert v in unresolved <==> v in multiset(unresolved);
    }
  }

  /** So, repeated or not, `raise` mode gives a result exactly if every node with dependencies is listed once and counted down. */
  lemma RaisesIff(nodeIds: seq<Id>, dependsOn: map<Id, seq<Id>>, r: Option<seq<seq<Id>>>, s: seq<Id>)
    requires Outcome(nodeIds, Effective(nodeIds, dependsOn), Raise, r)
    requires Released(nodeIds, Entered(nodeIds, Effective(nodeIds, dependsOn), |nodeIds|), s)
    ensures var entered := Entered(nodeIds, Effective(nodeIds, dependsOn), |nodeIds|);
      r.Some? <==> forall v :: v in entered && entered[v] != [] ==> multiset(nodeIds)[v] == 1 && CountedDown(entered, multiset(s), v)
  {
    hide Released, Entered, Effective, CountedDown, SameEdges, Flatten;
    var g := Effective(nodeIds, dependsOn);
    var entered := Entered(nodeIds, g, |nodeIds|);
    var t :| Released(nodeIds, entered, t) && OutcomeOf(nodeIds, Raise, r, t);
    NodesOf(nodeIds, dependsOn);
    EnteredAll(nodeIds, g);
    EnteredNodes(nodeIds, dependsOn, entered);
    ReleasedIsDetermined(nodeIds, entered, s, t);
    AllReleasedIff(nodeIds, entered, t);
  }

  /** The node `r`, listed twice, counts `a` down on its own, so that the cycle of `a` and `b` goes unnoticed. */
  lemma HiddenCycle(r: Option<seq<seq<Id>>>)
    requires Outcome([Id("r"), Id("r"), Id("a"), Id("b")],
      Effective([Id("r"), Id("r"), Id("a"), Id("b")], map[Id("a") := [Id("r"), Id("b")], Id("b") := [Id("a")]]), Raise, r)
    ensures HasCycle(Effective([Id("r"), Id("r"), Id("a"), Id("b")], map[Id("a") := [Id("r"), Id("b")], Id("b") := [Id("a")]]))
    ensures r.Some?
  {
    hide Released, Entered, Effective, CountedDown, HasCycle;
    var x, a, b := Id("r"), Id("a"), Id("b");
    var nodeIds, dependsOn := [x, x, a, b], map[a := [x, b], b := [a]];
    assert "r"[0] != "a"[0] && "r"[0] != "b"[0] && "a"[0] != "b"[0];
    ThreeNodes(x, a, b);
    var g := map[x := [], a := [x, b], b := [a]];
    CycleOfTwo(g, x, a, b);
    var s :| Released(nodeIds, g, s) && OutcomeOf(nodeIds, Raise, r, s);
    AllCounted(nodeIds, g, s, x, a, b);
    AllReleasedIff(nodeIds, g, s);
  }

  lemma ThreeNodes(x: Id, a: Id, b: Id)
    requires x != a && x != b && a != b
    ensures var nodeIds, dependsOn := [x, x, a, b], map[a := [x, b], b := [a]];
      var g := map[x := [], a := [x, b], b := [a]];
      Effective(nodeIds, dependsOn) == g && Entered(nodeIds, g, 4) == g
  {
    ThreeListed(x, a, b);
    ThreeEntered(x, a, b);
  }

  lemma ThreeListed(x: Id, a: Id, b: Id)
    requires x != a && x != b && a != b
    ensures Effective([x, x, a, b], map[a := [x, b], b := [a]]) == map[x := [], a := [x, b], b := [a]]
  {
    hide Filter;
    var nodeIds, dependsOn := [x, x, a, b], map[a := [x, b], b := [a]];
    var g := Effective(nodeIds, dependsOn);
    NodesOf(nodeIds, dependsOn);
    assert g.Keys == {x, a, b};
    FilterAll([x, b], d => d in nodeIds && d != a);
    FilterAll([a], d => d in nodeIds && d != b);
    FilterNone<Id>([], d => d in nodeIds && d != x);
    assert g[a] == [x, b] && g[b] == [a] && g[x] == [];
  }

  lemma ThreeEntered(x: Id, a: Id, b: Id)
    requires x != a && x != b && a != b
    ensures Entered([x, x, a, b], map[x := [], a := [x, b], b := [a]], 4) == map[x := [], a := [x, b], b := [a]]
  {
    var nodeIds: seq<Id>, g: Deps := [x, x, a, b], map[x := [], a := [x, b], b := [a]];
    var none: Deps := map[x := [], a := [], b := []];
    assert Entered(nodeIds, g, 0) == none;
    hide Entered;
    assert none[x] + g[x] == [] && none[a] + g[a] == [x, b] && none[b] + g[b] == [a];
    assert none[x := []] == none;
    EnteredNext(nodeIds, g, 0);
    assert Entered(nodeIds, g, 1) == none;
    EnteredNext(nodeIds, g, 1);
    assert Entered(nodeIds, g, 2) == none;
    EnteredNext(nodeIds, g, 2);
    assert Entered(nodeIds, g, 3) == none[a := [x, b]];
    EnteredNext(nodeIds, g, 3);
  }

  lemma CycleOfTwo(g: Deps, x: Id, a: Id, b: Id)
    requires a in g && b in g && b in g[a] && a in g[b]
    ensures HasCycle(g)
  {
    assert IsCycle(g, [a, b, a]);
  }

  lemma AllCounted(nodeIds: seq<Id>, g: Deps, s: seq<Id>, x: Id, a: Id, b: Id)
    requires x != a && x != b && a != b && nodeIds == [x, x, a, b] && g == map[x := [], a := [x, b], b := [a]]
    requires Released(nodeIds, g, s)
    ensures CountedDown(g, multiset(s), a) && CountedDown(g, multiset(s), b)
    ensures multiset(nodeIds)[a] == multiset(nodeIds)[b] == 1
  {
    assert multiset(nodeIds)[x] == 2;
    assert [x, b][..1] == [x] && [x][..0] == [] && [a][..0] == [];
    assert Hits([x], multiset(s)) == multiset(s)[x] && Hits([a], multiset(s)) == multiset(s)[a];
  }

  /** A last layer holds, in ascending order, exactly the nodes that depend on a cycle; the rest is layered as usual. */
  ghost predicate EndsWithUnresolved(g: Deps, layers: seq<seq<Id>>) {
    && layers != []
    && var last := layers[|layers| - 1];
    && last != [] && Ascending(last)
    && (forall v :: v in last <==> v in g && DependsOnCycle(g, v))
    && IsLayering(g, layers[..|layers| - 1], Acyclic(g))
  }

  lemma ResolvedIffAcyclic(g: Deps, ordered: seq<Id>, level: map<Id, nat>)
    requires Closed(g) && Resolved(g, ordered, level)
    ensures Distinct(ordered) && forall v :: v in ordered <==> v in Acyclic(g)
    ensures HasCycle(g) <==> exists v :: v in g && v !in ordered
  {
    hide Distinct, RisesByLevel, HasCycle, DependsOnCycle;
    var lev := LevelsOf(level, ordered);
    UnresolvedIffDependsOnCycle(g, lev);
    assert forall v :: v in ordered <==> v in lev.Keys by {
      hide DependsOnCycle, Closed, Stuck;
      forall v | v in ordered ensures v in level { InLevel(level, ordered, v); }
    }
    assert lev.Keys <= g.Keys;
  }

  lemma InLevel(level: map<Id, nat>, seen: seq<Id>, v: Id)
    requires RisesByLevel(level, seen) && v in seen
    ensures v in level
  {
  }

  lemma ResolvedMembers(nodeIds: seq<Id>, dependsOn: map<Id, seq<Id>>, ordered: seq<Id>, level: map<Id, nat>)
    requires Resolved(Effective(nodeIds, dependsOn), ordered, level)
    ensures var g := Effective(nodeIds, dependsOn);
      && (forall v :: v in ordered <==> v in Acyclic(g))
      && (HasCycle(g) || !Distinct(nodeIds) <==> |ordered| != |nodeIds|)
      && (HasCycle(g) <==> exists v :: v in nodeIds && v !in ordered)
  {
    hide Resolved, Acyclic, HasCycle, DependsOnCycle, Distinct, Effective, Closed, Elements;
    var g := Effective(nodeIds, dependsOn);
    EffectiveEdges(nodeIds, dependsOn);
    NodesOf(nodeIds, dependsOn);
    ResolvedIffAcyclic(g, ordered, level);
    forall v | v in ordered ensures v in nodeIds { AcyclicNodes(g, v); }
    SameLengthIff(ordered, nodeIds);
  }

  lemma SameLengthIff(ordered: seq<Id>, nodeIds: seq<Id>)
    requires Distinct(ordered) && forall v :: v in ordered ==> v in nodeIds
    ensures |ordered| == |nodeIds| <==> Distinct(nodeIds) && forall v :: v in nodeIds ==> v in ordered
  {
    DistinctCardinality(ordered);
    ElementsBound(nodeIds);
    SubsetCardinality(Elements(ordered), Elements(nodeIds));
    if forall v :: v in nodeIds ==> v in ordered {
      assert Elements(ordered) == Elements(nodeIds);
    }
    if |ordered| == |nodeIds| {
      forall v | v in nodeIds ensures v in ordered { assert v in Elements(nodeIds); }
    }
  }

  lemma EnteredNodes(nodeIds: seq<Id>, dependsOn: map<Id, seq<Id>>, entered: Deps)
    requires SameEdges(Effective(nodeIds, dependsOn), entered)
    ensures forall v :: v in entered <==> v in nodeIds
  {
    NodesOf(nodeIds, dependsOn);
  }

  /** Repetitions in the edge lists do not matter to the result. */
  lemma ResolvedSameEdges(nodeIds: seq<Id>, g: Deps, entered: Deps, ordered: seq<Id>, level: map<Id, nat>)
    requires SameEdges(g, entered) && RootsOnce(nodeIds, g)
    requires RootsOnce(nodeIds, entered) ==> Resolved(entered, ordered, level)
    ensures Resolved(g, ordered, level)
  {
    hide Distinct, RisesByLevel;
    forall v | v in g && g[v] != [] ensures entered[v] != [] {
      assert g[v][0] in entered[v];
    }
    assert RootsOnce(nodeIds, entered);
    var lev := LevelsOf(level, ordered);
    assert Levels(g, lev) by {
      forall v {:trigger Tight(g, lev, v)} | v in lev ensures Tight(g, lev, v) { assert Tight(entered, lev, v); }
    }
    assert Stuck(g, lev.Keys) by {
      forall v {:trigger Waits(g, lev.Keys, v)} | v in g && v !in lev.Keys ensures Waits(g, lev.Keys, v) { assert Waits(entered, lev.Keys, v); }
    }
  }

  lemma FullBag(a: seq<Id>, b: seq<Id>)
    requires multiset(a) <= multiset(b) && |a| == |b|
    ensures multiset(a) == multiset(b) && Elements(a) == Elements(b)
  {
    var rest := multiset(b) - multiset(a);
    assert multiset(b) == multiset(a) + rest;
    assert |multiset(a)| == |a| && |multiset(b)| == |b|;
    assert |rest| == 0;
    SameBag(a, b);
  }

  lemma SameBag(a: seq<Id>, b: seq<Id>)
    requires multiset(a) == multiset(b)
    ensures |a| == |b| && Elements(a) == Elements(b)
  {
    assert |multiset(a)| == |a| && |multiset(b)| == |b|;
    forall v ensures v in a <==> v in b { assert v in multiset(a) <==> v in multiset(b); }
  }

  lemma UnresolvedMembers(nodeIds: seq<Id>, ordered: seq<Id>, unresolved: seq<Id>)
    requires unresolved == Sorted(Filter(Unique(nodeIds), v => v !in ordered))
    ensures Ascending(unresolved) && forall v :: v in unresolved <==> v in nodeIds && v !in ordered
  {
    hide Sorted, Filter, Distinct, Unique, Ascending;
    var left := v => v !in ordered;
    assert unresolved == Sorted(Filter(Unique(nodeIds), left));
    UniqueFacts(nodeIds);
    FilterDistinct(Unique(nodeIds), left);
    SortedIsSorted(Filter(Unique(nodeIds), left));
    forall v ensures v in unresolved <==> v in nodeIds && v !in ordered {
      FilterMembers(Unique(nodeIds), left, v);
    }
  }

  lemma WithUnresolved(nodeIds: seq<Id>, ordered: seq<Id>, layers: seq<seq<Id>>, unresolved: seq<Id>)
    requires Elements(Flatten(layers)) == Elements(ordered) && forall v :: v in ordered ==> v in nodeIds
    requires forall v :: v in unresolved <==> v in nodeIds && v !in ordered
    ensures Elements(Flatten(layers + [unresolved])) == Elements(nodeIds)
    ensures unresolved == [] ==> Elements(Flatten(layers)) == Elements(nodeIds)
    ensures unresolved != [] <==> exists v :: v in nodeIds && v !in ordered
  {
    hide Flatten;
    if unresolved != [] { assert unresolved[0] in unresolved; }
    FlattenAppend(layers, unresolved);
    forall v ensures v in Flatten(layers) <==> v in ordered {
      assert v in Elements(Flatten(layers)) <==> v in Elements(ordered);
    }
    forall v | v in nodeIds && unresolved == [] ensures v in ordered {
      assert v !in unresolved;
    }
  }

  lemma AcyclicNodes(g: Deps, v: Id)
    ensures v in Acyclic(g) <==> v in g && !DependsOnCycle(g, v)
  {
  }

  lemma UnresolvedLayer(nodeIds: seq<Id>, dependsOn: map<Id, seq<Id>>, ordered: seq<Id>, layers: seq<seq<Id>>, unresolved: seq<Id>)
    requires forall v :: v in ordered <==> v in Acyclic(Effective(nodeIds, dependsOn))
    requires IsLayering(Effective(nodeIds, dependsOn), layers, Elements(ordered))
    requires Ascending(unresolved) && forall v :: v in unresolved <==> v in nodeIds && v !in ordered
    requires exists v :: v in nodeIds && v !in ordered
    ensures unresolved != [] && EndsWithUnresolved(Effective(nodeIds, dependsOn), layers + [unresolved])
  {
    hide IsLayering, DependsOnCycle, Acyclic, Distinct, Ascending, Effective;
    var g := Effective(nodeIds, dependsOn);
    NodesOf(nodeIds, dependsOn);
    forall v ensures v in unresolved <==> v in g && DependsOnCycle(g, v) {
      AcyclicNodes(g, v);
    }
    var x :| x in nodeIds && x !in ordered;
    assert x in unresolved;
    assert Elements(ordered) == Acyclic(g);
    assert (layers + [unresolved])[..|layers|] == layers;
  }

  lemma AllResolved(nodeIds: seq<Id>, ordered: seq<Id>)
    requires (forall v :: v in nodeIds ==> v in ordered) && (forall v :: v in ordered ==> v in nodeIds)
    ensures Elements(ordered) == Elements(nodeIds)
  {
  }

  // ----- What a layering is worth -----

  /** Every resolved dependency sits in a strictly earlier layer. */
  lemma DependenciesComeEarlier(g: Deps, layers: seq<seq<Id>>, members: set<Id>, k: nat, v: Id, d: Id)
    requires IsLayering(g, layers, members) && k < |layers| && v in layers[k]
    requires v in g && d in g[v] && d in members
    ensures exists j :: 0 <= j < k && d in layers[j]
  {
    FlattenMembers(layers, d);
    var j :| 0 <= j < |layers| && d in layers[j];
    EdgeRaisesChain(g, v, d, k + 1, j + 1);
  }

  /** No valid numbering of the nodes puts any of them in an earlier layer. */
  lemma LayersArePointwiseMinimal(g: Deps, layers: seq<seq<Id>>, members: set<Id>, other: map<Id, nat>, k: nat, v: Id)
    requires IsLayering(g, layers, members) && k < |layers| && v in layers[k]
    requires forall x, d {:trigger d in g[x]} :: x in g && d in g[x] && d in g ==> x in other && d in other && other[d] < other[x]
    requires v in other
    ensures k <= other[v]
  {
    assert LongestChain(g, v, k + 1);
    var p :| ChainTo(g, p, v) && |p| == k + 1;
    ChainClimbs(g, other, p, v);
  }

  lemma {:induction false} ChainClimbs(g: Deps, other: map<Id, nat>, p: seq<Id>, v: Id)
    requires ChainTo(g, p, v) && v in other
    requires forall x, d {:trigger d in g[x]} :: x in g && d in g[x] && d in g ==> x in other && d in other && other[d] < other[x]
    ensures |p| - 1 <= other[v]
  {
    if |p| > 1 {
      var d := p[|p| - 2];
      assert d in g[v];
      ChainClimbs(g, other, p[..|p| - 1], d);
    }
  }

  lemma OneLongestChain(g: Deps, v: Id, n: nat, m: nat)
    requires LongestChain(g, v, n) && LongestChain(g, v, m)
    ensures n == m
  {
  }

  ghost predicate Leveled(g: Deps, layers: seq<seq<Id>>, base: nat) {
    && (forall k :: 0 <= k < |layers| ==> layers[k] != [])
    && (forall k, v :: 0 <= k < |layers| && v in layers[k] ==> LongestChain(g, v, base + k + 1))
  }

  lemma LeveledRest(g: Deps, layers: seq<seq<Id>>, base: nat)
    requires Leveled(g, layers, base) && layers != []
    ensures layers[0] != [] && Leveled(g, layers[1..], base + 1)
    ensures forall v :: v in layers[0] ==> LongestChain(g, v, base + 1)
  {
    hide LongestChain;
    var rest := layers[1..];
    forall k, v | 0 <= k < |rest| && v in rest[k] ensures LongestChain(g, v, base + 1 + k + 1) {
      assert v in layers[k + 1];
    }
    assert forall k :: 0 <= k < |rest| ==> rest[k] == layers[k + 1];
  }

  /** The first layer of one split is not shorter than that of another split of the same sequence. */
  lemma FirstLayerNotShorter(g: Deps, a: seq<seq<Id>>, b: seq<seq<Id>>, base: nat)
    requires Leveled(g, a, base) && Leveled(g, b, base) && a != [] && b != [] && Flatten(a) == Flatten(b)
    ensures |a[0]| >= |b[0]|
  {
    hide LongestChain;
    var n := |a[0]|;
    LeveledRest(g, a, base);
    LeveledRest(g, b, base);
    if n < |b[0]| {
      var rest := Flatten(a[1..]);
      assert Flatten(a)[n] == rest[0] && Flatten(b)[n] == b[0][n];
      assert a[1..] != [];
      LeveledRest(g, a[1..], base + 1);
      assert rest[0] == a[1..][0][0] && a[1..][0][0] in a[1..][0];
      assert rest[0] == b[0][n] && b[0][n] in b[0];
      OneLongestChain(g, rest[0], base + 1, base + 2);
    }
  }

  lemma {:induction false} SameSplit(g: Deps, a: seq<seq<Id>>, b: seq<seq<Id>>, base: nat)
    requires Leveled(g, a, base) && Leveled(g, b, base) && Flatten(a) == Flatten(b)
    ensures a == b
    decreases |a|
  {
    hide LongestChain, Leveled;
    if a == [] || b == [] {
      if a != [] { LeveledRest(g, a, base); }
      if b != [] { LeveledRest(g, b, base); }
    } else {
      FirstLayerNotShorter(g, a, b, base);
      FirstLayerNotShorter(g, b, a, base);
      assert a[0] == Flatten(a)[..|a[0]|] == b[0];
      assert Flatten(a[1..]) == Flatten(a)[|a[0]|..] == Flatten(b[1..]);
      LeveledRest(g, a, base);
      LeveledRest(g, b, base);
      SameSplit(g, a[1..], b[1..], base + 1);
      assert a == [a[0]] + a[1..] && b == [b[0]] + b[1..];
    }
  }

  /** The layers are determined down to the order inside each: there is one layering in release order. */
  lemma LayersAreDetermined(nodeIds: seq<Id>, g: Deps, a: seq<seq<Id>>, b: seq<seq<Id>>, members: set<Id>)
    requires IsLayering(g, a, members) && Fifo(nodeIds, g, Flatten(a))
    requires IsLayering(g, b, members) && Fifo(nodeIds, g, Flatten(b))
    ensures a == b
  {
    hide Fifo, LongestChain, Distinct;
    forall v ensures v in Flatten(a) <==> v in Flatten(b) {
      assert v in Elements(Flatten(a)) <==> v in Elements(Flatten(b));
    }
    FifoUnique(nodeIds, g, Flatten(a), Flatten(b));
    assert Leveled(g, a, 0) && Leveled(g, b, 0);
    SameSplit(g, a, b, 0);
  }

  /** Even with a cycle, `append_unresolved` mode returns every node exactly once. */
  lemma NothingIsLost(g: Deps, layers: seq<seq<Id>>)
    requires EndsWithUnresolved(g, layers)
    ensures Distinct(Flatten(layers)) && Elements(Flatten(layers)) == g.Keys
  {
    var init, last := layers[..|layers| - 1], layers[|layers| - 1];
    assert layers == init + [last];
    FlattenAppend(init, last);
    AscendingIsDistinct(last);
    forall v ensures v in Flatten(layers) <==> v in g {
      assert v in Elements(Flatten(init)) <==> v in Acyclic(g);
    }
    forall v | v in Flatten(init) ensures v !in last {
      assert v in Elements(Flatten(init)) && v in Acyclic(g);
    }
    DistinctConcat(Flatten(init), last);
  }
}
