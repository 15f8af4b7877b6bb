/** Small facts about sequences used by several models. */
module Sequences {

  /** No element occurs twice. */
  ghost predicate Distinct<T>(s: seq<T>) {
    s == [] || (s[|s| - 1] !in s[..|s| - 1] && Distinct(s[..|s| - 1]))
  }

  lemma {:induction false} DistinctIndices<T>(s: seq<T>)
    ensures Distinct(s) <==> forall i, j :: 0 <= i < j < |s| ==> s[i] != s[j]
  {
    if s != [] {
      var init := s[..|s| - 1];
      DistinctIndices(init);
      if Distinct(s) {
        forall i, j | 0 <= i < j < |s| ensures s[i] != s[j] {
          if j < |init| { assert init[i] != init[j]; } else { assert init[i] in init; }
        }
      }
      if forall i, j :: 0 <= i < j < |s| ==> s[i] != s[j] {
        forall i, j | 0 <= i < j < |init| ensures init[i] != init[j] {
          assert s[i] != s[j];
        }
      }
    }
  }

  lemma DistinctAppend<T>(s: seq<T>, x: T)
    ensures Distinct(s + [x]) <==> Distinct(s) && x !in s
  {
    assert (s + [x])[..|s|] == s;
  }

  lemma {:induction false} DistinctAt<T>(s: seq<T>, i: nat)
    requires Distinct(s) && i < |s|
    ensures s[i] !in s[..i]
  {
    var init := s[..|s| - 1];
    if i < |init| {
      DistinctAt(init, i);
      assert init[..i] == s[..i];
    }
  }

  function Elements<T>(s: seq<T>): set<T> {
    set x | x in s
  }

  lemma ElementsAppend<T>(s: seq<T>, x: T)
    ensures Elements(s + [x]) == Elements(s) + {x}
  {
  }

  function Flatten<T>(ss: seq<seq<T>>): seq<T> {
    if ss == [] then [] else ss[0] + Flatten(ss[1..])
  }

  lemma {:induction false} FlattenAppend<T>(ss: seq<seq<T>>, s: seq<T>)
    ensures Flatten(ss + [s]) == Flatten(ss) + s
  {
    if ss == [] {
      assert ss + [s] == [s];
      assert Flatten([s]) == s + Flatten<T>([]);
    } else {
      FlattenAppend(ss[1..], s);
      assert (ss + [s])[1..] == ss[1..] + [s];
    }
  }

  lemma {:induction false} FlattenMembers<T>(ss: seq<seq<T>>, x: T)
    ensures x in Flatten(ss) <==> exists k :: 0 <= k < |ss| && x in ss[k]
  {
    if ss != [] {
      FlattenMembers(ss[1..], x);
      if k :| 0 <= k < |ss| && x in ss[k] {
        if k > 0 { assert x in ss[1..][k - 1]; }
      }
      if k :| 0 <= k < |ss[1..]| && x in ss[1..][k] {
        assert x in ss[k + 1];
      }
    }
  }

  /** A sequence longer than the set its elements come from repeats one of them. */
  lemma {:induction false} Pigeonhole<T>(s: seq<T>, room: set<T>) returns (i: nat, j: nat)
    requires forall x :: x in s ==> x in room
    requires |s| > |room|
    ensures i < j < |s| && s[i] == s[j]
  {
    var last := s[|s| - 1];
    var init := s[..|s| - 1];
    if k :| 0 <= k < |init| && init[k] == last {
      return k, |s| - 1;
    }
    assert last in room;
    i, j := Pigeonhole(init, room - {last});
  }

  lemma {:induction false} DistinctCardinality<T>(s: seq<T>)
    requires Distinct(s)
    ensures |Elements(s)| == |s|
  {
    if s != [] {
      var init := s[..|s| - 1];
      DistinctCardinality(init);
      assert Elements(s) == Elements(init) + {s[|s| - 1]};
    }
  }

  lemma {:induction false} ElementsBound<T>(s: seq<T>)
    ensures |Elements(s)| <= |s| && (|Elements(s)| == |s| <==> Distinct(s))
  {
    if s != [] {
      var init, last := s[..|s| - 1], s[|s| - 1];
      ElementsBound(init);
      assert Elements(s) == Elements(init) + {last};
    }
  }

  /** `s` with only the first occurrence of everything. */
  function Unique<T(==)>(s: seq<T>): seq<T> {
    if s == [] then []
    else
      var rest := Unique(s[..|s| - 1]);
      if s[|s| - 1] in rest then rest else rest + [s[|s| - 1]]
  }

  lemma {:induction false} UniqueFacts<T>(s: seq<T>)
    ensures Distinct(Unique(s)) && forall x :: x in Unique(s) <==> x in s
  {
    if s != [] {
      var init := s[..|s| - 1];
      UniqueFacts(init);
      assert s == init + [s[|s| - 1]];
      DistinctAppend(Unique(init), s[|s| - 1]);
    }
  }

  lemma SubsetCardinality<T>(a: set<T>, b: set<T>)
    requires a <= b
    ensures |a| <= |b|
    ensures |a| == |b| ==> a == b
  {
    assert b == a + (b - a);
  }

  /** Of two repetition-free sequences, one inside the other, equal lengths mean equal contents. */
  lemma DistinctSameLength<T>(a: seq<T>, b: seq<T>)
    requires Distinct(a) && Distinct(b) && forall x :: x in a ==> x in b
    ensures |a| == |b| <==> forall x :: x in b ==> x in a
  {
    DistinctCardinality(a);
    DistinctCardinality(b);
    SubsetCardinality(Elements(a), Elements(b));
    if forall x :: x in b ==> x in a { assert Elements(a) == Elements(b); }
    if |a| == |b| { forall x | x in b ensures x in a { assert x in Elements(b); } }
  }

  /** Sequences without repetition and with the same elements are permutations of each other. */
  lemma {:induction false} DistinctSameElements<T>(a: seq<T>, b: seq<T>)
    requires Distinct(a) && Distinct(b)
    requires forall x :: x in a <==> x in b
    ensures multiset(a) == multiset(b)
  {
    DistinctMultiplicity(a);
    DistinctMultiplicity(b);
  }

  lemma {:induction false} DistinctMultiplicity<T>(s: seq<T>)
    requires Distinct(s)
    ensures forall x :: x in s ==> multiset(s)[x] == 1
  {
    if s != [] {
      var init := s[..|s| - 1];
      DistinctMultiplicity(init);
      assert s == init + [s[|s| - 1]];
    }
  }

  function Filter<T>(s: seq<T>, keep: T -> bool): seq<T> {
    if s == [] then []
    else
      var init := Filter(s[..|s| - 1], keep);
      if keep(s[|s| - 1]) then init + [s[|s| - 1]] else init
  }

  lemma {:induction false} FilterMembers<T>(s: seq<T>, keep: T -> bool, x: T)
    ensures x in Filter(s, keep) <==> x in s && keep(x)
  {
    if s != [] {
      FilterMembers(s[..|s| - 1], keep, x);
      assert s == s[..|s| - 1] + [s[|s| - 1]];
    }
  }

  lemma FilterStep<T>(s: seq<T>, j: nat, keep: T -> bool)
    requires j < |s|
    ensures Filter(s[..j + 1], keep) == Filter(s[..j], keep) + if keep(s[j]) then [s[j]] else []
  {
    assert s[..j + 1][..j] == s[..j];
  }

  lemma {:induction false} FilterDistinct<T>(s: seq<T>, keep: T -> bool)
    requires Distinct(s)
    ensures Distinct(Filter(s, keep))
  {
    if s != [] {
      var init, x := s[..|s| - 1], s[|s| - 1];
      FilterDistinct(init, keep);
      FilterMembers(init, keep, x);
      DistinctAppend(Filter(init, keep), x);
    }
  }

  lemma {:induction false} DistinctConcat<T>(a: seq<T>, b: seq<T>)
    requires Distinct(a) && Distinct(b) && forall x :: x in a ==> x !in b
    ensures Distinct(a + b)
  {
    if b == [] {
      assert a + b == a;
    } else {
      var init, x := b[..|b| - 1], b[|b| - 1];
      DistinctConcat(a, init);
      assert a + b == (a + init) + [x];
      DistinctAppend(a + init, x);
    }
  }

  lemma {:induction false} FilterConcat<T>(a: seq<T>, b: seq<T>, keep: T -> bool)
    ensures Filter(a + b, keep) == Filter(a, keep) + Filter(b, keep)
  {
    if b == [] {
      assert a + b == a;
    } else {
      var init, x := b[..|b| - 1], b[|b| - 1];
      FilterConcat(a, init, keep);
      assert (a + b)[..|a + b| - 1] == a + init;
    }
  }

  lemma {:induction false} FilterNone<T>(s: seq<T>, keep: T -> bool)
    requires forall x :: x in s ==> !keep(x)
    ensures Filter(s, keep) == []
  {
    if s != [] {
      assert s[|s| - 1] in s;
      FilterNone(s[..|s| - 1], keep);
    }
  }

  lemma {:induction false} FilterAll<T>(s: seq<T>, keep: T -> bool)
    requires forall x :: x in s ==> keep(x)
    ensures Filter(s, keep) == s
  {
    if s != [] {
      assert s[|s| - 1] in s;
      FilterAll(s[..|s| - 1], keep);
    }
  }

  lemma {:induction false} FilterSame<T>(s: seq<T>, keep: T -> bool, same: T -> bool)
    requires forall x :: x in s ==> keep(x) == same(x)
    ensures Filter(s, keep) == Filter(s, same)
  {
    if s != [] {
      assert s[|s| - 1] in s;
      FilterSame(s[..|s| - 1], keep, same);
    }
  }

  // ----- The order of first occurrence -----

  ghost predicate SeenBefore<T>(s: seq<T>, a: T, b: T) {
    exists i :: 0 <= i < |s| && s[i] == a && b !in s[..i + 1]
  }

  /** `u` holds what is in `s` and to be kept, each element once, in the order of first occurrence. */
  ghost predicate FirstSeen<T(!new)>(s: seq<T>, keep: T -> bool, u: seq<T>) {
    && Distinct(u)
    && (forall d :: d in u <==> d in s && keep(d))
    && forall x, y :: 0 <= x < y < |u| ==> SeenBefore(s, u[x], u[y])
  }

  lemma NothingSeen<T(!new)>(keep: T -> bool)
    ensures FirstSeen([], keep, [])
  {
  }

  lemma SeenBeforeMore<T>(s: seq<T>, z: T, a: T, b: T)
    ensures SeenBefore(s, a, b) ==> SeenBefore(s + [z], a, b)
    ensures a in s && b !in s ==> SeenBefore(s + [z], a, b)
  {
    var more := s + [z];
    if i :| 0 <= i < |s| && s[i] == a && b !in s[..i + 1] {
      assert more[i] == a && more[..i + 1] == s[..i + 1];
    }
    if a in s && b !in s {
      var i :| 0 <= i < |s| && s[i] == a;
      assert more[i] == a && more[..i + 1] == s[..i + 1];
    }
  }

  /** One more element: it is appended if it is to be kept and new. */
  lemma FirstSeenMore<T(!new)>(s: seq<T>, keep: T -> bool, u: seq<T>, z: T)
    requires FirstSeen(s, keep, u)
    ensures FirstSeen(s + [z], keep, if keep(z) && z !in u then u + [z] else u)
  {
    hide SeenBefore, Distinct;
    var more := if keep(z) && z !in u then u + [z] else u;
    DistinctAppend(u, z);
    forall x, y | 0 <= x < y < |more| ensures SeenBefore(s + [z], more[x], more[y]) {
      SeenBeforeMore(s, z, more[x], more[y]);
      assert more[x] == u[x] && u[x] in u;
    }
  }
}
