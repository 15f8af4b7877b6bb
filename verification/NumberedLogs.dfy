/** Append-only logs whose entries are numbered from 1, and the stretches of them that readers see. */
module NumberedLogs {
  import opened Sequences

  datatype Numbered<+T> = Numbered(seqNo: nat, item: T)

  /** `e` is an entry of the log, under its own number. */
  predicate Genuine<T(==)>(log: seq<T>, e: Numbered<T>) {
    1 <= e.seqNo <= |log| && e.item == log[e.seqNo - 1]
  }

  /** The entries after number `b`, in order. */
  function After<T>(log: seq<T>, b: nat): seq<Numbered<T>> {
    if |log| <= b then []
    else After(log[..|log| - 1], b) + [Numbered(|log|, log[|log| - 1])]
  }

  lemma {:induction false} AfterContents<T>(log: seq<T>, b: nat)
    ensures Distinct(After(log, b))
    ensures forall e :: e in After(log, b) <==> Genuine(log, e) && b < e.seqNo
  {
    if |log| > b {
      var init := log[..|log| - 1];
      AfterContents(init, b);
      DistinctAppend(After(init, b), Numbered(|log|, log[|log| - 1]));
      assert forall e :: Genuine(init, e) <==> Genuine(log, e) && e.seqNo < |log|;
    }
  }

  lemma AfterExtends<T>(log: seq<T>, x: T, b: nat)
    requires b <= |log|
    ensures After(log + [x], b) == After(log, b) + [Numbered(|log| + 1, x)]
  {
    assert (log + [x])[..|log|] == log;
  }

  /** The k-th entry after `b` has number `b + 1 + k`. */
  lemma {:induction false} AfterAt<T>(log: seq<T>, b: nat)
    ensures |After(log, b)| == if |log| <= b then 0 else |log| - b
    ensures forall k :: 0 <= k < |After(log, b)| ==> After(log, b)[k] == Numbered(b + 1 + k, log[b + k])
  {
    if |log| > b {
      AfterAt(log[..|log| - 1], b);
    }
  }

  /** A later start sees the rest of what an earlier start sees. */
  lemma AfterDrop<T>(log: seq<T>, b: nat, k: nat)
    requires b + k <= |log|
    ensures k <= |After(log, b)| && After(log, b + k) == After(log, b)[k..]
  {
    AfterAt(log, b);
    AfterAt(log, b + k);
  }

  /** An earlier end sees the beginning of what a later end sees. */
  lemma AfterTake<T>(log: seq<T>, b: nat, n: nat)
    requires b <= n <= |log|
    ensures n - b <= |After(log, b)| && After(log[..n], b) == After(log, b)[..n - b]
  {
    AfterAt(log, b);
    AfterAt(log[..n], b);
  }
}
