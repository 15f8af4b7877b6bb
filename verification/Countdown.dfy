/**
  What Kahn's loop releases when ids are repeated: a node without dependencies once per entry, any other once, as soon as
  its counter has been brought to zero, by whichever entries.
 */
module Countdown {
  import opened Ids
  import opened Sequences
  import opened Graph
  import opened Kahn

  /** How often the popped entries count a node with the dependency list `ds` down. */
  function Hits(ds: seq<Id>, popped: multiset<Id>): nat {
    if ds == [] then 0 else Hits(ds[..|ds| - 1], popped) + popped[ds[|ds| - 1]]
  }

  lemma {:induction false} HitsMore(ds: seq<Id>, popped: multiset<Id>, c: Id)
    ensures Hits(ds, popped + multiset{c}) == Hits(ds, popped) + multiset(ds)[c]
  {
    if ds != [] {
      HitsMore(ds[..|ds| - 1], popped, c);
      assert ds == ds[..|ds| - 1] + [ds[|ds| - 1]];
    }
  }

  lemma {:induction false} HitsNone(ds: seq<Id>)
    ensures Hits(ds, multiset{}) == 0
  {
    if ds != [] { HitsNone(ds[..|ds| - 1]); }
  }

  lemma {:induction false} HitsGrow(ds: seq<Id>, a: multiset<Id>, b: multiset<Id>)
    requires a <= b
    ensures Hits(ds, a) <= Hits(ds, b)
  {
    if ds != [] {
      HitsGrow(ds[..|ds| - 1], a, b);
      assert a[ds[|ds| - 1]] <= b[ds[|ds| - 1]];
    }
  }

  ghost predicate CountedDown(g: Deps, popped: multiset<Id>, v: Id)
    requires v in g
  {
    Hits(g[v], popped) >= |g[v]|
  }

  /** Every entry was due when its turn came. */
  ghost predicate Grounded(g: Deps, s: seq<Id>) {
    forall n :: 0 <= n < |s| ==> DueAfter(g, s[..n], s[n])
  }

  ghost predicate DueAfter(g: Deps, before: seq<Id>, v: Id) {
    v in g && (g[v] == [] || CountedDown(g, multiset(before), v))
  }

  /** The entries released in the end. */
  ghost predicate Released(nodeIds: seq<Id>, g: Deps, s: seq<Id>) {
    && Grounded(g, s)
    && forall v :: v in g ==>
      multiset(s)[v] == if g[v] == [] then multiset(nodeIds)[v] else if CountedDown(g, multiset(s), v) then 1 else 0
  }

  lemma PrefixBag(s: seq<Id>, n: nat)
    requires n <= |s|
    ensures multiset(s[..n]) <= multiset(s)
  {
    assert s == s[..n] + s[n..];
  }

  lemma {:induction false} PrefixReleased(nodeIds: seq<Id>, g: Deps, a: seq<Id>, b: seq<Id>, n: nat)
    requires Released(nodeIds, g, a) && Released(nodeIds, g, b) && n <= |a|
    ensures multiset(a[..n]) <= multiset(b)
  {
    hide Released;
    if n > 0 {
      PrefixReleased(nodeIds, g, a, b, n - 1);
      ReleasedAlso(nodeIds, g, a, b, n - 1);
      PrefixMore(a, b, n - 1);
    }
  }

  lemma ReleasedAlso(nodeIds: seq<Id>, g: Deps, a: seq<Id>, b: seq<Id>, n: nat)
    requires Released(nodeIds, g, a) && Released(nodeIds, g, b) && n < |a| && multiset(a[..n]) <= multiset(b)
    ensures multiset(a)[a[n]] <= multiset(b)[a[n]]
  {
    hide CountedDown;
    assert DueAfter(g, a[..n], a[n]);
    DueStays(g, multiset(a[..n]), multiset(b), a[n]);
  }

  lemma PrefixMore(a: seq<Id>, b: seq<Id>, n: nat)
    requires n < |a| && multiset(a[..n]) <= multiset(b) && multiset(a)[a[n]] <= multiset(b)[a[n]]
    ensures multiset(a[..n + 1]) <= multiset(b)
  {
    PrefixBag(a, n + 1);
    assert a[..n + 1] == a[..n] + [a[n]];
  }

  lemma DueStays(g: Deps, a: multiset<Id>, b: multiset<Id>, v: Id)
    requires v in g && a <= b
    ensures CountedDown(g, a, v) ==> CountedDown(g, b, v)
  {
    HitsGrow(g[v], a, b);
  }

  /** It does not depend on the order of the queue which they are. */
  lemma ReleasedIsDetermined(nodeIds: seq<Id>, g: Deps, a: seq<Id>, b: seq<Id>)
    requires Released(nodeIds, g, a) && Released(nodeIds, g, b)
    ensures multiset(a) == multiset(b)
  {
    hide Released;
    PrefixReleased(nodeIds, g, a, b, |a|);
    PrefixReleased(nodeIds, g, b, a, |b|);
    assert a[..|a|] == a && b[..|b|] == b;
  }

  /** As many as were listed come out exactly if every node with dependencies is listed once and counted down. */
  lemma AllReleasedIff(nodeIds: seq<Id>, g: Deps, s: seq<Id>)
    requires Released(nodeIds, g, s) && forall v :: v in g <==> v in nodeIds
    ensures multiset(s) <= multiset(nodeIds)
    ensures |s| == |nodeIds| <==> forall v :: v in g && g[v] != [] ==> multiset(nodeIds)[v] == 1 && CountedDown(g, multiset(s), v)
  {
    hide CountedDown;
    forall v ensures multiset(s)[v] <= multiset(nodeIds)[v] {
      if v in s {
        var n :| 0 <= n < |s| && s[n] == v;
        assert DueAfter(g, s[..n], s[n]);
        assert v in multiset(nodeIds);
      }
    }
    SameSize(s, nodeIds);
    forall v | v in g ensures v in multiset(nodeIds) {}
    if forall v :: v in g && g[v] != [] ==> multiset(nodeIds)[v] == 1 && CountedDown(g, multiset(s), v) {
      forall v ensures multiset(s)[v] == multiset(nodeIds)[v] {
        assert v !in g ==> v !in multiset(nodeIds);
      }
    }
  }

  lemma SameSize(s: seq<Id>, t: seq<Id>)
    requires multiset(s) <= multiset(t)
    ensures |s| == |t| <==> forall v :: multiset(s)[v] == multiset(t)[v]
  {
    var left := multiset(t) - multiset(s);
    assert multiset(t) == multiset(s) + left;
    assert |multiset(t)| == |t| && |multiset(s)| == |s|;
    if |s| == |t| {
      assert |left| == 0;
    }
    if forall v :: multiset(s)[v] == multiset(t)[v] {
      assert multiset(s) == multiset(t);
    }
  }

  // ----- Along the loop -----

  /** The counters after popping `popped`, while `rest` are decrements still owed; `s` are the entries queued so far. */
  ghost predicate Tally(nodeIds: seq<Id>, g: Deps, indegree: map<Id, int>, popped: seq<Id>, s: seq<Id>, rest: seq<Id>) {
    && indegree.Keys == g.Keys && popped <= s
    && Grounded(g, s)
    && (forall v :: v in rest ==> v in g && g[v] != [])
    && forall v :: v in g ==> Tallied(nodeIds, g, indegree, popped, s, rest, v)
  }

  ghost predicate Tallied(nodeIds: seq<Id>, g: Deps, indegree: map<Id, int>, popped: seq<Id>, s: seq<Id>, rest: seq<Id>, v: Id)
    requires v in g && v in indegree
  {
    && indegree[v] == |g[v]| - Hits(g[v], multiset(popped)) + multiset(rest)[v]
    && multiset(s)[v] == if g[v] == [] then multiset(nodeIds)[v] else if indegree[v] <= 0 then 1 else 0
  }

  lemma TallyStarts(nodeIds: seq<Id>, g: Deps, indegree: map<Id, int>, queue: seq<Id>)
    requires (forall v :: v in g <==> v in nodeIds) && Counts(g, indegree, {}, [])
    requires queue == Filter(nodeIds, v => v in indegree && indegree[v] == 0)
    ensures Tally(nodeIds, g, indegree, [], queue, [])
  {
    var ready := v => v in indegree && indegree[v] == 0;
    assert queue == Filter(nodeIds, ready);
    forall v | v in g ensures indegree[v] == |g[v]| && Tallied(nodeIds, g, indegree, [], queue, [], v) {
      PendingNone(g[v]);
      HitsNone(g[v]);
      FilterCount(nodeIds, ready, v);
    }
    forall n | 0 <= n < |queue| ensures DueAfter(g, queue[..n], queue[n]) {
      assert queue[n] in queue;
      FilterMembers(nodeIds, ready, queue[n]);
    }
  }

  lemma {:induction false} FilterCount(s: seq<Id>, keep: Id -> bool, v: Id)
    ensures multiset(Filter(s, keep))[v] == if keep(v) then multiset(s)[v] else 0
  {
    if s != [] {
      FilterCount(s[..|s| - 1], keep, v);
      assert s == s[..|s| - 1] + [s[|s| - 1]];
    }
  }

  lemma TallyPop(nodeIds: seq<Id>, g: Deps, graph: map<Id, seq<Id>>, indegree: map<Id, int>, popped: seq<Id>, s: seq<Id>)
    requires Tally(nodeIds, g, indegree, popped, s, []) && |popped| < |s|
    requires Successors(g, graph) && s[|popped|] in graph
    ensures Tally(nodeIds, g, indegree, popped + [s[|popped|]], s, graph[s[|popped|]])
  {
    hide Grounded;
    var c := s[|popped|];
    forall v | v in graph[c] ensures v in g && g[v] != [] {
      SuccessorsAreNodes(g, graph, c, v);
    }
    forall v | v in g ensures Tallied(nodeIds, g, indegree, popped + [c], s, graph[c], v) {
      assert Tallied(nodeIds, g, indegree, popped, s, [], v);
      HitsMore(g[v], multiset(popped), c);
      assert multiset(popped + [c]) == multiset(popped) + multiset{c};
      assert Times(graph, c, v) == Times(g, v, c);
    }
  }

  lemma TallyVisit(nodeIds: seq<Id>, g: Deps, indegree: map<Id, int>, popped: seq<Id>, s: seq<Id>, rest: seq<Id>)
    requires Tally(nodeIds, g, indegree, popped, s, rest) && rest != []
    ensures rest[0] in indegree
    ensures var indegree' := indegree[rest[0] := indegree[rest[0]] - 1];
      Tally(nodeIds, g, indegree', popped, if indegree'[rest[0]] == 0 then s + [rest[0]] else s, rest[1..])
  {
    hide Grounded, Tallied, DueAfter;
    var next := rest[0];
    assert next in rest;
    var indegree' := indegree[next := indegree[next] - 1];
    var s' := if indegree'[next] == 0 then s + [next] else s;
    forall v | v in g ensures Tallied(nodeIds, g, indegree', popped, s', rest[1..], v) {
      TalliedStep(nodeIds, g, indegree, popped, s, rest, v);
    }
    if indegree'[next] == 0 {
      DueNow(nodeIds, g, indegree', popped, s, s', rest[1..], next);
      GroundedMore(g, s, next);
    }
    assert forall v :: v in rest[1..] ==> v in rest;
  }

  lemma TalliedStep(nodeIds: seq<Id>, g: Deps, indegree: map<Id, int>, popped: seq<Id>, s: seq<Id>, rest: seq<Id>, v: Id)
    requires v in g && v in indegree && rest != [] && rest[0] in indegree && rest[0] in g && g[rest[0]] != []
    requires Tallied(nodeIds, g, indegree, popped, s, rest, v)
    ensures var indegree' := indegree[rest[0] := indegree[rest[0]] - 1];
      Tallied(nodeIds, g, indegree', popped, if indegree'[rest[0]] == 0 then s + [rest[0]] else s, rest[1..], v)
  {
    assert rest == [rest[0]] + rest[1..];
  }

  lemma DueNow(nodeIds: seq<Id>, g: Deps, indegree: map<Id, int>, popped: seq<Id>, s: seq<Id>, s': seq<Id>, rest: seq<Id>, v: Id)
    requires v in g && v in indegree && popped <= s && indegree[v] <= 0 && Tallied(nodeIds, g, indegree, popped, s', rest, v)
    ensures DueAfter(g, s, v)
  {
    assert s == popped + s[|popped|..];
    HitsGrow(g[v], multiset(popped), multiset(s));
  }

  lemma GroundedMore(g: Deps, s: seq<Id>, v: Id)
    requires Grounded(g, s) && DueAfter(g, s, v)
    ensures Grounded(g, s + [v])
  {
    hide DueAfter;
    var more := s + [v];
    forall n | 0 <= n < |more| ensures DueAfter(g, more[..n], more[n]) {
      if n < |s| {
        assert more[..n] == s[..n] && DueAfter(g, s[..n], s[n]);
      } else {
        assert more[..n] == s;
      }
    }
  }

  lemma TallyEnds(nodeIds: seq<Id>, g: Deps, indegree: map<Id, int>, s: seq<Id>)
    requires Tally(nodeIds, g, indegree, s, s, [])
    ensures Released(nodeIds, g, s)
  {
    hide Grounded;
    forall v | v in g
      ensures multiset(s)[v] == if g[v] == [] then multiset(nodeIds)[v] else if CountedDown(g, multiset(s), v) then 1 else 0
    {
      assert Tallied(nodeIds, g, indegree, s, s, [], v);
    }
  }
}
