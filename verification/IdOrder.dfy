/** Sorting ids the way Python's `sorted` sorts strings: by code point. */
module IdOrder {
  import opened Ids
  import opened Sequences

  predicate TextLess(a: string, b: string) {
    if b == "" then false
    else if a == "" then true
    else a[0] < b[0] || (a[0] == b[0] && TextLess(a[1..], b[1..]))
  }

  /** The texts agree up to `n`, where `a` ends or has the smaller character. */
  ghost predicate PartsAt(a: string, b: string, n: nat) {
    n <= |a| && n < |b| && a[..n] == b[..n] && (n == |a| || a[n] < b[n])
  }

  /** Dictionary order. */
  lemma {:induction false} TextLessMeans(a: string, b: string)
    ensures TextLess(a, b) <==> exists n: nat :: PartsAt(a, b, n)
  {
    if a == "" || b == "" || a[0] != b[0] {
      assert TextLess(a, b) ==> PartsAt(a, b, 0);
      forall n: nat | PartsAt(a, b, n) ensures TextLess(a, b) {
        if n > 0 { assert a[..n][0] == b[..n][0]; }
      }
    } else {
      TextLessMeans(a[1..], b[1..]);
      if n: nat :| PartsAt(a[1..], b[1..], n) {
        assert a[..n + 1] == [a[0]] + a[1..][..n] && b[..n + 1] == [b[0]] + b[1..][..n];
        assert PartsAt(a, b, n + 1);
      }
      if n: nat :| PartsAt(a, b, n) {
        assert n > 0;
        assert a[1..][..n - 1] == a[..n][1..] && b[1..][..n - 1] == b[..n][1..];
        assert PartsAt(a[1..], b[1..], n - 1);
      }
    }
  }

  lemma {:induction false} TextLessTotal(a: string, b: string)
    ensures TextLess(a, b) || TextLess(b, a) || a == b
    ensures !(TextLess(a, b) && TextLess(b, a))
    decreases |a| + |b|
  {
    if a != "" && b != "" {
      TextLessTotal(a[1..], b[1..]);
      if a[0] == b[0] && a[1..] == b[1..] {
        assert a == [a[0]] + a[1..] && b == [b[0]] + b[1..];
      }
    }
  }

  lemma {:induction false} TextLessIrreflexive(a: string)
    ensures !TextLess(a, a)
  {
    if a != "" { TextLessIrreflexive(a[1..]); }
  }

  lemma {:induction false} TextLessTransitive(a: string, b: string, c: string)
    requires TextLess(a, b) && TextLess(b, c)
    ensures TextLess(a, c)
    decreases |a|
  {
    if a != "" && a[0] == b[0] && b[0] == c[0] {
      TextLessTransitive(a[1..], b[1..], c[1..]);
    }
  }

  /** Strictly ascending, hence without repetition. */
  ghost predicate Ascending(s: seq<Id>) {
    forall i, j :: 0 <= i < j < |s| ==> TextLess(s[i].text, s[j].text)
  }

  function Insert(x: Id, s: seq<Id>): seq<Id> {
    if s == [] then [x]
    else if TextLess(s[0].text, x.text) then [s[0]] + Insert(x, s[1..])
    else [x] + s
  }

  function Sorted(s: seq<Id>): seq<Id> {
    if s == [] then [] else Insert(s[0], Sorted(s[1..]))
  }

  lemma {:induction false} InsertMembers(x: Id, s: seq<Id>, y: Id)
    ensures y in Insert(x, s) <==> y == x || y in s
  {
    if s != [] {
      InsertMembers(x, s[1..], y);
      assert s == [s[0]] + s[1..];
    }
  }

  lemma {:induction false} InsertAscending(x: Id, s: seq<Id>)
    requires Ascending(s) && x !in s
    ensures Ascending(Insert(x, s))
  {
    if s != [] {
      var rest := s[1..];
      TextLessTotal(s[0].text, x.text);
      if TextLess(s[0].text, x.text) {
        InsertAscending(x, rest);
        var r := Insert(x, rest);
        forall j | 0 <= j < |r| ensures TextLess(s[0].text, r[j].text) {
          InsertMembers(x, rest, r[j]);
          if r[j] in rest { var k :| 0 <= k < |rest| && rest[k] == r[j]; assert s[k + 1] == r[j]; }
        }
        AscendingCons(s[0], r);
      } else {
        forall j | 0 <= j < |s| ensures TextLess(x.text, s[j].text) {
          if j > 0 { TextLessTransitive(x.text, s[0].text, s[j].text); }
        }
        AscendingCons(x, s);
      }
    }
  }

  lemma AscendingCons(x: Id, s: seq<Id>)
    requires Ascending(s) && forall j :: 0 <= j < |s| ==> TextLess(x.text, s[j].text)
    ensures Ascending([x] + s)
  {
    var r := [x] + s;
    forall i, j | 0 <= i < j < |r| ensures TextLess(r[i].text, r[j].text) {
      assert r[j] == s[j - 1];
      if i > 0 { assert r[i] == s[i - 1]; }
    }
  }

  lemma {:induction false} SortedIsSorted(s: seq<Id>)
    requires Distinct(s)
    ensures Ascending(Sorted(s))
    ensures forall y :: y in Sorted(s) <==> y in s
  {
    if s != [] {
      var rest := s[1..];
      DistinctIndices(s);
      assert s == [s[0]] + rest;
      forall i, j | 0 <= i < j < |rest| ensures rest[i] != rest[j] { assert s[i + 1] != s[j + 1]; }
      DistinctIndices(rest);
      assert forall k :: 0 <= k < |rest| ==> rest[k] == s[k + 1] && s[0] != s[k + 1];
      SortedIsSorted(rest);
      InsertAscending(s[0], Sorted(rest));
      forall y ensures y in Sorted(s) <==> y in s { InsertMembers(s[0], Sorted(rest), y); }
    }
  }

  lemma AscendingIsDistinct(s: seq<Id>)
    requires Ascending(s)
    ensures Distinct(s)
  {
    forall i, j | 0 <= i < j < |s| ensures s[i] != s[j] { TextLessIrreflexive(s[i].text); }
    DistinctIndices(s);
  }
}
