/**
  Dependency graphs: what a cycle is, what depends on one, and what a level is.
  `g[v]` lists the nodes `v` depends on; the keys of `g` are the nodes.
 */
module Graph {
  import opened Ids
  import opened Sequences

  type Deps = map<Id, seq<Id>>

  ghost predicate Closed(g: Deps) {
    forall v, d {:trigger d in g[v]} :: v in g && d in g[v] ==> d in g
  }

  /** The same nodes and the same edges, listed as often and in the order one likes. */
  ghost predicate SameEdges(g: Deps, h: Deps) {
    g.Keys == h.Keys && forall v, d {:trigger d in g[v]} {:trigger d in h[v]} :: v in g && v in h ==> (d in g[v] <==> d in h[v])
  }

  /** A dependency chain: every element depends on the one before it. */
  ghost predicate Chain(g: Deps, p: seq<Id>) {
    && |p| > 0
    && (forall x :: x in p ==> x in g)
    && forall i :: 0 < i < |p| ==> p[i - 1] in g[p[i]]
  }

  ghost predicate ChainTo(g: Deps, p: seq<Id>, v: Id) {
    Chain(g, p) && p[|p| - 1] == v
  }

  ghost predicate IsCycle(g: Deps, c: seq<Id>) {
    Chain(g, c) && |c| > 1 && c[0] == c[|c| - 1]
  }

  ghost predicate HasCycle(g: Deps) {
    exists c :: IsCycle(g, c)
  }

  /** `v` lies on a cycle or depends, directly or not, on a node that does. */
  ghost predicate DependsOnCycle(g: Deps, v: Id) {
    exists c, p :: IsCycle(g, c) && ChainTo(g, p, v) && p[0] == c[0]
  }

  /** The longest chain that ends in `v` has `n` nodes. */
  ghost predicate LongestChain(g: Deps, v: Id, n: nat) {
    && (exists p :: ChainTo(g, p, v) && |p| == n)
    && (forall p :: ChainTo(g, p, v) ==> |p| <= n)
  }

  // ----- Levels: what one run of Kahn's algorithm leaves behind -----

  /** Levels rise along every dependency, and no level is higher than a dependency forces it to be. */
  ghost predicate Levels(g: Deps, lev: map<Id, nat>) {
    && lev.Keys <= g.Keys
    && (forall v, d {:trigger d in g[v]} :: v in lev && d in g[v] ==> d in lev && lev[d] < lev[v])
    && (forall v {:trigger Tight(g, lev, v)} :: v in lev ==> Tight(g, lev, v))
  }

  ghost predicate Tight(g: Deps, lev: map<Id, nat>, v: Id)
    requires v in g && v in lev
  {
    lev[v] > 0 ==> exists d :: d in g[v] && d in lev && lev[d] + 1 == lev[v]
  }

  /** Every node without a level waits for another node without a level. */
  ghost predicate Stuck(g: Deps, resolved: set<Id>) {
    forall v {:trigger Waits(g, resolved, v)} :: v in g && v !in resolved ==> Waits(g, resolved, v)
  }

  ghost predicate Waits(g: Deps, resolved: set<Id>, v: Id)
    requires v in g
  {
    exists d :: d in g[v] && d !in resolved
  }

  lemma {:induction false} ChainBound(g: Deps, lev: map<Id, nat>, p: seq<Id>, v: Id)
    requires Levels(g, lev) && ChainTo(g, p, v) && v in lev
    ensures p[0] in lev && lev[p[0]] + |p| - 1 <= lev[v]
  {
    if |p| > 1 {
      ChainBound(g, lev, p[..|p| - 1], p[|p| - 2]);
    }
  }

  lemma {:induction false} ChainOfLevel(g: Deps, lev: map<Id, nat>, v: Id) returns (p: seq<Id>)
    requires Levels(g, lev) && v in lev
    ensures ChainTo(g, p, v) && |p| == lev[v] + 1
    decreases lev[v]
  {
    if lev[v] == 0 {
      p := [v];
    } else {
      assert Tight(g, lev, v);
      var d :| d in g[v] && d in lev && lev[d] + 1 == lev[v];
      var q := ChainOfLevel(g, lev, d);
      p := q + [v];
    }
  }

  /** A level is the length of the longest chain, not just a bound on it. */
  lemma LevelIsLongestChain(g: Deps, lev: map<Id, nat>, v: Id)
    requires Levels(g, lev) && v in lev
    ensures LongestChain(g, v, lev[v] + 1)
  {
    var p := ChainOfLevel(g, lev, v);
    forall q | ChainTo(g, q, v) ensures |q| <= lev[v] + 1 {
      ChainBound(g, lev, q, v);
    }
  }

  lemma {:induction false} BackChain(g: Deps, resolved: set<Id>, v: Id, n: nat) returns (p: seq<Id>)
    requires Closed(g) && Stuck(g, resolved)
    requires v in g && v !in resolved
    ensures ChainTo(g, p, v) && |p| == n + 1
    decreases n
  {
    if n == 0 {
      p := [v];
    } else {
      assert Waits(g, resolved, v);
      var d :| d in g[v] && d !in resolved;
      var q := BackChain(g, resolved, d, n - 1);
      p := q + [v];
    }
  }

  lemma LongChainMeetsCycle(g: Deps, p: seq<Id>, v: Id)
    requires ChainTo(g, p, v) && |p| > |g|
    ensures DependsOnCycle(g, v)
  {
    var i, j := Pigeonhole(p, g.Keys);
    var c := p[i..j + 1];
    assert IsCycle(g, c);
    assert ChainTo(g, p[i..], v) && p[i..][0] == c[0];
  }

  lemma LevelMeansNoCycle(g: Deps, lev: map<Id, nat>, v: Id)
    requires Levels(g, lev) && v in lev
    ensures !DependsOnCycle(g, v)
  {
    if DependsOnCycle(g, v) {
      var c, p :| IsCycle(g, c) && ChainTo(g, p, v) && p[0] == c[0];
      ChainBound(g, lev, p, v);
      ChainBound(g, lev, c, c[0]);
    }
  }

  /** The nodes left without a level are exactly those that depend on a cycle. */
  lemma UnresolvedIffDependsOnCycle(g: Deps, lev: map<Id, nat>)
    requires Closed(g) && Levels(g, lev) && Stuck(g, lev.Keys)
    ensures forall v :: v in g ==> (v !in lev <==> DependsOnCycle(g, v))
    ensures HasCycle(g) <==> lev.Keys != g.Keys
  {
    forall v | v in g ensures v !in lev <==> DependsOnCycle(g, v) {
      if v in lev {
        LevelMeansNoCycle(g, lev, v);
      } else {
        var p := BackChain(g, lev.Keys, v, |g|);
        LongChainMeetsCycle(g, p, v);
      }
    }
    if c :| IsCycle(g, c) {
      assert ChainTo(g, [c[0]], c[0]);
      assert DependsOnCycle(g, c[0]);
      assert c[0] !in lev;
    }
    if lev.Keys != g.Keys {
      var v :| v in g && v !in lev;
      assert DependsOnCycle(g, v);
    }
  }

  /** Any other numbering that rises along dependencies is nowhere below the levels. */
  lemma {:induction false} LevelsAreMinimal(g: Deps, lev: map<Id, nat>, other: map<Id, nat>, v: Id)
    requires Levels(g, lev) && v in lev
    requires lev.Keys <= other.Keys
    requires forall x, d :: x in lev && d in g[x] ==> d in other && other[d] < other[x]
    ensures lev[v] <= other[v]
    decreases lev[v]
  {
    if lev[v] > 0 {
      assert Tight(g, lev, v);
      var d :| d in g[v] && d in lev && lev[d] + 1 == lev[v];
      LevelsAreMinimal(g, lev, other, d);
    }
  }

  /** A dependency's longest chain is shorter than that of the node that depends on it. */
  lemma EdgeRaisesChain(g: Deps, v: Id, d: Id, n: nat, m: nat)
    requires v in g && d in g[v]
    requires LongestChain(g, v, n) && LongestChain(g, d, m)
    ensures m < n
  {
    var p :| ChainTo(g, p, d) && |p| == m;
    assert ChainTo(g, p + [v], v);
  }
}
