/** The bookkeeping that both implementations of Kahn's algorithm keep true. */
module Kahn {
  import opened Ids
  import opened Sequences
  import opened Graph

  /** How many entries of a dependency list are not processed yet. */
  function Pending(ds: seq<Id>, done: set<Id>): nat {
    if ds == [] then 0
    else Pending(ds[..|ds| - 1], done) + if ds[|ds| - 1] in done then 0 else 1
  }

  lemma {:induction false} PendingDrop(ds: seq<Id>, done: set<Id>, c: Id)
    requires c !in done
    ensures Pending(ds, done) == Pending(ds, done + {c}) + multiset(ds)[c]
  {
    if ds != [] {
      PendingDrop(ds[..|ds| - 1], done, c);
      assert ds == ds[..|ds| - 1] + [ds[|ds| - 1]];
    }
  }

  lemma {:induction false} PendingZero(ds: seq<Id>, done: set<Id>)
    ensures Pending(ds, done) == 0 <==> forall d :: d in ds ==> d in done
  {
    if ds != [] {
      PendingZero(ds[..|ds| - 1], done);
      assert ds == ds[..|ds| - 1] + [ds[|ds| - 1]];
    }
  }

  lemma {:induction false} PendingNone(ds: seq<Id>)
    ensures Pending(ds, {}) == |ds|
  {
    if ds != [] {
      PendingNone(ds[..|ds| - 1]);
    }
  }

  /** How often the list stored under `key` holds `x`. */
  ghost function Times(lists: map<Id, seq<Id>>, key: Id, x: Id): nat {
    if key in lists then multiset(lists[key])[x] else 0
  }

  /** `graph[u]` holds `v` once for every time `v` lists `u`. */
  ghost predicate Successors(g: Deps, graph: map<Id, seq<Id>>) {
    && g.Keys <= graph.Keys
    && forall u, v :: Times(graph, u, v) == Times(g, v, u)
  }

  lemma SuccessorsAreNodes(g: Deps, graph: map<Id, seq<Id>>, u: Id, v: Id)
    requires Successors(g, graph) && u in graph && v in graph[u]
    ensures v in g && u in g[v]
  {
    assert Times(graph, u, v) == Times(g, v, u);
  }

  lemma AddEdge(g: Deps, graph: map<Id, seq<Id>>, v: Id, u: Id)
    requires Successors(g, graph) && v in g && u in graph
    ensures Successors(g[v := g[v] + [u]], graph[u := graph[u] + [v]])
  {
    var g', graph' := g[v := g[v] + [u]], graph[u := graph[u] + [v]];
    forall x, y ensures Times(graph', x, y) == Times(g', y, x) {
      assert Times(graph, x, y) == Times(g, y, x);
    }
  }

  /** Every counter is the number of entries still waited for; `rest` are decrements still owed. */
  ghost predicate Counts(g: Deps, indegree: map<Id, int>, done: set<Id>, rest: seq<Id>) {
    && indegree.Keys == g.Keys
    && forall v :: v in g ==> indegree[v] == Pending(g[v], done) + multiset(rest)[v]
  }

  /** Exactly the nodes whose counter is zero have entered the queue, each once. */
  ghost predicate Frontier(g: Deps, indegree: map<Id, int>, seen: seq<Id>)
    requires indegree.Keys == g.Keys
  {
    Distinct(seen) && forall v :: v in seen <==> v in g && indegree[v] == 0
  }

  lemma PopKeepsCounts(g: Deps, graph: map<Id, seq<Id>>, indegree: map<Id, int>, done: set<Id>, c: Id)
    requires Successors(g, graph) && Counts(g, indegree, done, []) && c in graph && c !in done
    ensures Counts(g, indegree, done + {c}, graph[c])
  {
    forall v | v in g
      ensures indegree[v] == Pending(g[v], done + {c}) + multiset(graph[c])[v]
    {
      PendingDrop(g[v], done, c);
      assert Times(graph, c, v) == Times(g, v, c);
    }
  }

  lemma DecrementKeepsCounts(g: Deps, indegree: map<Id, int>, done: set<Id>, rest: seq<Id>)
    requires Counts(g, indegree, done, rest) && rest != [] && rest[0] in g
    ensures indegree[rest[0]] > 0
    ensures Counts(g, indegree[rest[0] := indegree[rest[0]] - 1], done, rest[1..])
  {
    assert rest == [rest[0]] + rest[1..];
  }

  lemma ZeroMeansReady(g: Deps, indegree: map<Id, int>, done: set<Id>, rest: seq<Id>)
    requires Counts(g, indegree, done, rest)
    ensures forall v, d {:trigger d in g[v]} :: v in g && indegree[v] == 0 && d in g[v] ==> d in done
    ensures forall v :: v in g && indegree[v] == 0 ==> v !in rest
  {
    forall v | v in g && indegree[v] == 0 ensures v !in rest && forall d :: d in g[v] ==> d in done {
      PendingZero(g[v], done);
    }
  }

  lemma EmptyQueueMeansStuck(g: Deps, indegree: map<Id, int>, ordered: seq<Id>)
    requires Counts(g, indegree, Elements(ordered), []) && Frontier(g, indegree, ordered)
    ensures Stuck(g, Elements(ordered))
  {
    forall v {:trigger Waits(g, Elements(ordered), v)} | v in g && v !in Elements(ordered)
      ensures Waits(g, Elements(ordered), v)
    {
      PendingZero(g[v], Elements(ordered));
    }
  }
}
