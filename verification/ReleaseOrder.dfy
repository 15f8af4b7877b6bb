/**
  The order in which a first-in-first-out queue releases the nodes of a dependency graph: by the last dependency
  released before them, and among nodes with the same last dependency by their place in the input.
 */
module ReleaseOrder {
  import opened Ids
  import opened Sequences
  import opened Graph

  /** The first place of `v`. */
  ghost function Pos(ids: seq<Id>, v: Id): nat {
    if ids == [] then 0
    else if v in ids[..|ids| - 1] then Pos(ids[..|ids| - 1], v)
    else |ids| - 1
  }

  /** `v` could be released after the first `n` nodes, and not earlier. */
  ghost predicate ReleasedAt(g: Deps, seen: seq<Id>, v: Id, n: nat) {
    && n <= |seen| && v in g
    && (forall d :: d in g[v] ==> d in seen[..n])
    && (n > 0 ==> seen[n - 1] in g[v])
  }

  ghost predicate Earlier(ids: seq<Id>, v: Id, a: nat, w: Id, b: nat) {
    a < b || (a == b && Pos(ids, v) < Pos(ids, w))
  }

  /** Element `i` is released at `n`, no later than its own place. */
  ghost predicate DueAt(g: Deps, seen: seq<Id>, i: nat, n: nat) {
    i < |seen| && n <= i && ReleasedAt(g, seen, seen[i], n)
  }

  ghost predicate DueInTurn(ids: seq<Id>, g: Deps, seen: seq<Id>, i: nat, a: nat, b: nat)
    requires 0 < i < |seen|
  {
    DueAt(g, seen, i - 1, a) && DueAt(g, seen, i, b) && Earlier(ids, seen[i - 1], a, seen[i], b)
  }

  /** Element `i` comes rightly after the one before it. */
  ghost predicate InTurn(ids: seq<Id>, g: Deps, seen: seq<Id>, i: nat)
    requires 0 < i < |seen|
  {
    exists a: nat, b: nat :: DueInTurn(ids, g, seen, i, a, b)
  }

  ghost predicate Fifo(ids: seq<Id>, g: Deps, seen: seq<Id>) {
    && Distinct(seen)
    && (seen != [] ==> DueAt(g, seen, 0, 0))
    && forall i :: 0 < i < |seen| ==> InTurn(ids, g, seen, i)
  }

  // ----- Building the order -----

  /** The last of `seen` was released at `a`, after at most `n` nodes. */
  ghost predicate LastDue(g: Deps, seen: seq<Id>, n: nat, a: nat) {
    seen != [] && a <= n && DueAt(g, seen, |seen| - 1, a)
  }

  /** The order so far, with `n` nodes popped. */
  ghost predicate Turn(ids: seq<Id>, g: Deps, seen: seq<Id>, n: nat) {
    && Fifo(ids, g, seen)
    && (seen != [] ==> exists a: nat :: LastDue(g, seen, n, a))
  }

  /** The same while the dependents `rest` of the n-th node are being visited. */
  ghost predicate VisitTurn(ids: seq<Id>, g: Deps, seen: seq<Id>, n: nat, rest: seq<Id>) {
    && Fifo(ids, g, seen) && NonDescending(ids, rest)
    && (seen != [] ==> exists a: nat :: LastDue(g, seen, n, a) && (a == n ==> NotAfter(ids, seen[|seen| - 1], rest)))
  }

  ghost predicate NotAfter(ids: seq<Id>, v: Id, s: seq<Id>) {
    forall w :: w in s ==> Pos(ids, v) <= Pos(ids, w)
  }

  ghost predicate NonDescending(ids: seq<Id>, s: seq<Id>) {
    s == [] || (NotAfter(ids, s[0], s) && NonDescending(ids, s[1..]))
  }

  ghost predicate NoneAfter(ids: seq<Id>, s: seq<Id>, v: Id) {
    forall w :: w in s ==> Pos(ids, w) <= Pos(ids, v)
  }

  lemma {:induction false} NonDescendingAppend(ids: seq<Id>, s: seq<Id>, v: Id)
    requires NonDescending(ids, s) && NoneAfter(ids, s, v)
    ensures NonDescending(ids, s + [v])
  {
    if s == [] {
      assert s + [v] == [v] && [v][1..] == [];
    } else {
      NonDescendingAppend(ids, s[1..], v);
      assert (s + [v])[1..] == s[1..] + [v];
      assert s[0] in s;
    }
  }

  lemma {:induction false} PosAt(ids: seq<Id>, i: nat)
    requires Distinct(ids) && i < |ids|
    ensures Pos(ids, ids[i]) == i
  {
    var init := ids[..|ids| - 1];
    if i < |init| {
      PosAt(init, i);
      assert ids[i] == init[i];
    }
  }

  lemma {:induction false} PosInjective(ids: seq<Id>, v: Id, w: Id)
    requires v in ids && w in ids && Pos(ids, v) == Pos(ids, w)
    ensures v == w
  {
    PosBound(ids[..|ids| - 1], v);
    PosBound(ids[..|ids| - 1], w);
    if v in ids[..|ids| - 1] && w in ids[..|ids| - 1] {
      PosInjective(ids[..|ids| - 1], v, w);
    }
  }

  lemma {:induction false} PosBound(ids: seq<Id>, v: Id)
    ensures v in ids ==> Pos(ids, v) < |ids|
  {
    if ids != [] { PosBound(ids[..|ids| - 1], v); }
  }

  /** Filtering a list keeps places rising. */
  lemma {:induction false} FilterRises(ids: seq<Id>, keep: Id -> bool, i: nat)
    requires Distinct(ids) && 0 < i < |Filter(ids, keep)|
    ensures Pos(ids, Filter(ids, keep)[i - 1]) < Pos(ids, Filter(ids, keep)[i])
  {
    var init, x, kept := ids[..|ids| - 1], ids[|ids| - 1], Filter(ids[..|ids| - 1], keep);
    assert kept[i - 1] in kept;
    FilterMembers(init, keep, kept[i - 1]);
    if i < |kept| {
      assert kept[i] in kept;
      FilterMembers(init, keep, kept[i]);
      FilterRises(init, keep, i);
    } else {
      PosBound(init, kept[i - 1]);
    }
  }

  /** At the start the queue holds the nodes without dependencies, in input order. */
  lemma StartTurn(ids: seq<Id>, g: Deps, keep: Id -> bool)
    requires Distinct(ids) && forall v :: v in ids && keep(v) ==> v in g && g[v] == []
    ensures Turn(ids, g, Filter(ids, keep), 0)
  {
    hide Distinct, Filter;
    var seen := Filter(ids, keep);
    FilterDistinct(ids, keep);
    forall i | 0 <= i < |seen| ensures DueAt(g, seen, i, 0) {
      assert seen[i] in seen;
      FilterMembers(ids, keep, seen[i]);
    }
    assert seen != [] ==> LastDue(g, seen, 0, 0);
    forall i | 0 < i < |seen| ensures InTurn(ids, g, seen, i) {
      FilterRises(ids, keep, i);
      assert DueInTurn(ids, g, seen, i, 0, 0);
    }
  }

  lemma DueStays(g: Deps, seen: seq<Id>, i: nat, n: nat, v: Id)
    requires DueAt(g, seen, i, n)
    ensures DueAt(g, seen + [v], i, n)
  {
    assert (seen + [v])[..n] == seen[..n];
  }

  /** Releasing a node after its last dependency, the n-th node, keeps the order. */
  lemma Release(ids: seq<Id>, g: Deps, seen: seq<Id>, n: nat, rest: seq<Id>)
    requires VisitTurn(ids, g, seen, n, rest) && 0 < n <= |seen|
    requires rest != [] && rest[0] !in seen && rest[0] in ids && (forall v :: v in seen ==> v in ids)
    requires ReleasedAt(g, seen, rest[0], n)
    ensures VisitTurn(ids, g, seen + [rest[0]], n, rest[1..])
  {
    hide Distinct, NonDescending, ReleasedAt;
    var v := rest[0];
    var more := seen + [v];
    RestInOrder(ids, rest);
    DistinctAppend(seen, v);
    ReleasedStays(g, seen, v, n);
    assert LastDue(g, more, n, n);
    var last := |seen| - 1;
    var a: nat :| LastDue(g, seen, n, a) && (a == n ==> NotAfter(ids, seen[last], rest));
    DueStays(g, seen, last, a, v);
    DueStays(g, seen, 0, 0, v);
    assert Earlier(ids, seen[last], a, v, n) by {
      if a == n && Pos(ids, seen[last]) == Pos(ids, v) {
        PosInjective(ids, seen[last], v);
        assert false;
      }
    }
    forall i | 0 < i < |more| ensures InTurn(ids, g, more, i) {
      if i < |seen| {
        EarlierTurns(ids, g, seen, i, v);
      } else {
        assert more[i - 1] == seen[last] && more[i] == v;
        assert DueInTurn(ids, g, more, i, a, n);
      }
    }
  }

  lemma RestInOrder(ids: seq<Id>, rest: seq<Id>)
    requires NonDescending(ids, rest) && rest != []
    ensures NonDescending(ids, rest[1..]) && NotAfter(ids, rest[0], rest[1..]) && rest[0] in rest
  {
  }

  lemma ReleasedStays(g: Deps, seen: seq<Id>, v: Id, n: nat)
    requires ReleasedAt(g, seen, v, n)
    ensures ReleasedAt(g, seen + [v], v, n)
  {
    assert (seen + [v])[..n] == seen[..n];
  }

  lemma EarlierTurns(ids: seq<Id>, g: Deps, seen: seq<Id>, i: nat, v: Id)
    requires 0 < i < |seen| && InTurn(ids, g, seen, i)
    ensures InTurn(ids, g, seen + [v], i)
  {
    hide Earlier, DueAt;
    var more := seen + [v];
    var a: nat, b: nat :| DueInTurn(ids, g, seen, i, a, b);
    DueStays(g, seen, i - 1, a, v);
    DueStays(g, seen, i, b, v);
    assert more[i - 1] == seen[i - 1] && more[i] == seen[i];
    assert DueInTurn(ids, g, more, i, a, b);
  }

  /** A dependent that is not released yet is skipped. */
  lemma Skip(ids: seq<Id>, g: Deps, seen: seq<Id>, n: nat, rest: seq<Id>)
    requires VisitTurn(ids, g, seen, n, rest) && rest != []
    ensures VisitTurn(ids, g, seen, n, rest[1..])
  {
    hide Fifo, NonDescending;
    RestInOrder(ids, rest);
    if seen != [] {
      var a: nat :| LastDue(g, seen, n, a) && (a == n ==> NotAfter(ids, seen[|seen| - 1], rest));
      assert forall w :: w in rest[1..] ==> w in rest;
    }
  }

  /** Between two pops: the next node popped makes room for its own dependents. */
  lemma NextVisit(ids: seq<Id>, g: Deps, seen: seq<Id>, n: nat, rest: seq<Id>)
    requires Turn(ids, g, seen, n) && NonDescending(ids, rest)
    ensures VisitTurn(ids, g, seen, n + 1, rest)
  {
    hide Fifo;
    if seen != [] {
      var a: nat :| LastDue(g, seen, n, a);
      assert LastDue(g, seen, n + 1, a);
    }
  }

  lemma VisitDone(ids: seq<Id>, g: Deps, seen: seq<Id>, n: nat)
    requires VisitTurn(ids, g, seen, n, [])
    ensures Turn(ids, g, seen, n)
  {
    hide Fifo;
  }

  // ----- There is only one such order -----

  /** The release point of a node is determined by the order. */
  lemma ReleasePoint(g: Deps, seen: seq<Id>, v: Id, a: nat, b: nat)
    requires Distinct(seen) && ReleasedAt(g, seen, v, a) && ReleasedAt(g, seen, v, b)
    ensures a == b
  {
    if a < b { LateElement(seen, a, b - 1); }
    if b < a { LateElement(seen, b, a - 1); }
  }

  lemma LateElement(seen: seq<Id>, n: nat, i: nat)
    requires Distinct(seen) && n <= i < |seen|
    ensures seen[i] !in seen[..n]
  {
    DistinctIndices(seen);
  }

  /** Keys rise along the whole order. */
  lemma {:induction false} KeysRise(ids: seq<Id>, g: Deps, seen: seq<Id>, i: nat, j: nat, a: nat, b: nat)
    requires Fifo(ids, g, seen) && i < j < |seen| && DueAt(g, seen, i, a) && DueAt(g, seen, j, b)
    ensures Earlier(ids, seen[i], a, seen[j], b)
    decreases j - i
  {
    hide Distinct, Pos;
    assert InTurn(ids, g, seen, j);
    var c: nat, d: nat :| DueInTurn(ids, g, seen, j, c, d);
    ReleasePoint(g, seen, seen[j], b, d);
    if i == j - 1 {
      ReleasePoint(g, seen, seen[i], a, c);
    } else {
      KeysRise(ids, g, seen, i, j - 1, a, c);
    }
  }

  lemma DueSomewhere(ids: seq<Id>, g: Deps, seen: seq<Id>, i: nat) returns (n: nat)
    requires Fifo(ids, g, seen) && i < |seen|
    ensures DueAt(g, seen, i, n)
  {
    if i == 0 {
      return 0;
    }
    assert InTurn(ids, g, seen, i);
    var a: nat, b: nat :| DueInTurn(ids, g, seen, i, a, b);
    n := b;
  }

  /** Where two orders agree up to `i`, a release point up to `i` is a release point of both. */
  lemma SharedPoint(g: Deps, s: seq<Id>, t: seq<Id>, i: nat, v: Id, n: nat)
    requires i <= |s| && i <= |t| && s[..i] == t[..i] && n <= i && ReleasedAt(g, s, v, n)
    ensures ReleasedAt(g, t, v, n)
  {
    assert s[..n] == s[..i][..n] == t[..n];
    assert n > 0 ==> s[n - 1] == s[..i][n - 1] == t[n - 1];
  }

  lemma Elsewhere(s: seq<Id>, t: seq<Id>, k: nat) returns (j: nat)
    requires Distinct(t) && k < |s| && k < |t| && s[..k] == t[..k] && t[k] in s && s[k] != t[k]
    ensures k < j < |s| && s[j] == t[k]
  {
    LateElement(t, k, k);
    forall i | 0 <= i < k ensures s[i] != t[k] {
      assert s[..k][i] == s[i] && t[..k][i] in t[..k];
    }
    j :| 0 <= j < |s| && s[j] == t[k];
  }

  lemma NotBoth(ids: seq<Id>, v: Id, a: nat, w: Id, b: nat)
    ensures !(Earlier(ids, v, a, w, b) && Earlier(ids, w, b, v, a))
  {
  }

  lemma SameAt(ids: seq<Id>, g: Deps, s: seq<Id>, t: seq<Id>, k: nat)
    requires Fifo(ids, g, s) && Fifo(ids, g, t) && k < |s| && k < |t| && s[..k] == t[..k]
    requires s[k] in t && t[k] in s
    ensures s[k] == t[k]
  {
    hide Earlier, ReleasedAt, Distinct;
    if s[k] != t[k] {
      var x, y := s[k], t[k];
      var j := Elsewhere(s, t, k);
      var l := Elsewhere(t, s, k);
      var a := DueSomewhere(ids, g, s, k);
      var b := DueSomewhere(ids, g, s, j);
      var c := DueSomewhere(ids, g, t, k);
      var d := DueSomewhere(ids, g, t, l);
      SharedPoint(g, s, t, k, x, a);
      SharedPoint(g, t, s, k, y, c);
      ReleasePoint(g, t, x, a, d);
      ReleasePoint(g, s, y, b, c);
      KeysRise(ids, g, s, k, j, a, b);
      KeysRise(ids, g, t, k, l, c, d);
      NotBoth(ids, x, a, y, b);
    }
  }

  lemma {:induction false} SamePrefix(ids: seq<Id>, g: Deps, s: seq<Id>, t: seq<Id>, k: nat)
    requires Fifo(ids, g, s) && Fifo(ids, g, t) && k <= |s| == |t| && forall v :: v in s <==> v in t
    ensures s[..k] == t[..k]
  {
    hide Fifo;
    if k > 0 {
      SamePrefix(ids, g, s, t, k - 1);
      SameAt(ids, g, s, t, k - 1);
      assert s[..k] == s[..k - 1] + [s[k - 1]] && t[..k] == t[..k - 1] + [t[k - 1]];
    }
  }

  /** The order is determined by the graph and the input order. */
  lemma FifoUnique(ids: seq<Id>, g: Deps, s: seq<Id>, t: seq<Id>)
    requires Fifo(ids, g, s) && Fifo(ids, g, t) && forall v :: v in s <==> v in t
    ensures s == t
  {
    DistinctSameLength(s, t);
    SamePrefix(ids, g, s, t, |s|);
    assert s[..|s|] == s && t[..|t|] == t;
  }
}
