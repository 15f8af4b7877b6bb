/** Sorting the board and looking rows up by flow node. */
module Listings {
  import opened Wrappers
  import opened Ids
  import opened Tasks
  import TaskDependencies

  /** Strictly ascending by key, and exactly the visible rows. */
  ghost predicate Listing(rows: Rows, inst: Option<Instance>, s: seq<TaskId>) {
    && InOrder(rows, s)
    && forall id :: id in s <==> id in rows && Visible(inst, rows[id])
  }

  ghost predicate InOrder(rows: Rows, s: seq<TaskId>) {
    && (forall i :: 0 <= i < |s| ==> s[i] in rows)
    && forall i, j :: 0 <= i < j < |s| ==> Before(rows, s[i], s[j])
  }

  function InsertByKey(rows: Rows, x: TaskId, s: seq<TaskId>): seq<TaskId>
    requires x in rows && forall i :: 0 <= i < |s| ==> s[i] in rows
  {
    if s == [] then [x]
    else if Before(rows, s[0], x) then [s[0]] + InsertByKey(rows, x, s[1..])
    else [x] + s
  }

  lemma {:induction false} InsertKeepsOrder(rows: Rows, x: TaskId, s: seq<TaskId>)
    requires x in rows && x !in s && InOrder(rows, s)
    ensures InOrder(rows, InsertByKey(rows, x, s))
    ensures forall y :: y in InsertByKey(rows, x, s) <==> y == x || y in s
  {
    if s != [] {
      assert s == [s[0]] + s[1..];
      if Before(rows, s[0], x) {
        var rest := s[1..];
        InsertKeepsOrder(rows, x, rest);
        var r := InsertByKey(rows, x, rest);
        forall j | 0 <= j < |r| ensures Before(rows, s[0], r[j]) {
          assert r[j] in r;
          if r[j] != x {
            var k :| 0 <= k < |rest| && rest[k] == r[j];
            assert s[k + 1] == r[j];
          }
        }
      }
    }
  }

  method SortedBoardTasks(rows: Rows, inst: Option<Instance>) returns (s: seq<TaskId>)
    ensures Listing(rows, inst, s)
    ensures forall id :: id in s <==> id in rows && (inst.Some? ==> rows[id].instance == inst)
    ensures forall i :: 0 <= i < |s| ==> s[i] in rows
    ensures forall i, j :: 0 <= i < j < |s| ==>
      rows[s[i]].createdAt < rows[s[j]].createdAt || (rows[s[i]].createdAt == rows[s[j]].createdAt && s[i] < s[j])
  {
    hide InOrder;
    s := [];
    NoneInOrder(rows);
    var left := rows.Keys;
    while left != {}
      invariant left <= rows.Keys
      invariant InOrder(rows, s)
      invariant forall id :: id in s <==> id in rows && id !in left && Visible(inst, rows[id])
    {
      var id :| id in left;
      left := left - {id};
      if Visible(inst, rows[id]) {
        InsertKeepsOrder(rows, id, s);
        InOrderRows(rows, s);
        s := InsertByKey(rows, id, s);
      }
    }
    ListingMeans(rows, inst, s);
  }

  lemma ListingMeans(rows: Rows, inst: Option<Instance>, s: seq<TaskId>)
    requires Listing(rows, inst, s)
    ensures forall id :: id in s <==> id in rows && (inst.Some? ==> rows[id].instance == inst)
    ensures forall i :: 0 <= i < |s| ==> s[i] in rows
    ensures forall i, j :: 0 <= i < j < |s| ==>
      rows[s[i]].createdAt < rows[s[j]].createdAt || (rows[s[i]].createdAt == rows[s[j]].createdAt && s[i] < s[j])
  {
  }

  lemma NoneInOrder(rows: Rows)
    ensures InOrder(rows, [])
  {
  }

  lemma InOrderRows(rows: Rows, s: seq<TaskId>)
    requires InOrder(rows, s)
    ensures forall i :: 0 <= i < |s| ==> s[i] in rows
  {
  }

  // ----- The lookup table -----

  type NodeTable = map<(Id, Id), TaskId>

  /** Later rows of the listing overwrite earlier ones, so an entry is the last match. */
  ghost predicate Tabled(rows: Rows, s: seq<TaskId>, table: NodeTable) {
    forall f, n :: f != NOTHING && n != NOTHING ==> Entry(rows, s, table, f, n)
  }

  ghost predicate Entry(rows: Rows, s: seq<TaskId>, table: NodeTable, f: Id, n: Id) {
    if (f, n) in table then
      && table[(f, n)] in s && IsNode(rows, None, f, n, table[(f, n)])
      && forall k :: k in s && IsNode(rows, None, f, n, k) && k != table[(f, n)] ==> Before(rows, k, table[(f, n)])
    else
      forall k :: k in s ==> !IsNode(rows, None, f, n, k)
  }

  lemma TableStep(rows: Rows, s: seq<TaskId>, table: NodeTable, x: TaskId)
    requires x in rows && Tabled(rows, s, table)
    requires forall k :: k in s ==> k in rows && Before(rows, k, x)
    ensures var t := rows[x];
      Tabled(rows, s + [x], if t.flowId != NOTHING && t.flowNode != NOTHING then table[(t.flowId, t.flowNode) := x] else table)
  {
    var t := rows[x];
    var table' := if t.flowId != NOTHING && t.flowNode != NOTHING then table[(t.flowId, t.flowNode) := x] else table;
    forall f, n | f != NOTHING && n != NOTHING ensures Entry(rows, s + [x], table', f, n) {
      assert Entry(rows, s, table, f, n);
    }
  }

  method IndexByFlowNode(rows: Rows, s: seq<TaskId>) returns (table: NodeTable)
    requires InOrder(rows, s)
    ensures Tabled(rows, s, table)
  {
    table := map[];
    for i := 0 to |s|
      invariant Tabled(rows, s[..i], table)
    {
      hide Tabled;
      var t := rows[s[i]];
      TableStep(rows, s[..i], table, s[i]);
      assert s[..i + 1] == s[..i] + [s[i]];
      if t.flowId != NOTHING && t.flowNode != NOTHING {
        table := table[(t.flowId, t.flowNode) := s[i]];
      }
    }
    assert s[..|s|] == s;
  }

  /** `_is_runnable_queued_task`. */
  predicate IsRunnableQueued(rows: Rows, t: Task, table: NodeTable) {
    && t.status == Queued
    && var deps := DependsOn(t);
    && (deps != [] ==>
          t.flowId != NOTHING
          && forall d :: d in deps ==> (t.flowId, d) in table && table[(t.flowId, d)] in rows && rows[table[(t.flowId, d)]].status == Completed)
  }

  lemma DepsAreNamed(t: Task, d: Id)
    requires d in DependsOn(t)
    ensures d != NOTHING
  {
    TaskDependencies.ParseIsClean(t.dependencies);
    var i :| 0 <= i < |DependsOn(t)| && DependsOn(t)[i] == d;
    assert TaskDependencies.Clean(DependsOn(t)[i]);
  }

  lemma EntryIsLatest(rows: Rows, inst: Option<Instance>, s: seq<TaskId>, table: NodeTable, f: Id, n: Id)
    requires Listing(rows, inst, s) && Entry(rows, s, table, f, n)
    ensures NodeDone(rows, inst, f, n) <==> (f, n) in table && table[(f, n)] in rows && rows[table[(f, n)]].status == Completed
  {
    if (f, n) in table {
      var j := table[(f, n)];
      assert Latest(rows, inst, f, n, j) by {
        forall k | IsNode(rows, inst, f, n, k) && k != j ensures Before(rows, k, j) {
          assert k in s && IsNode(rows, None, f, n, k);
        }
      }
      if i :| Latest(rows, inst, f, n, i) && rows[i].status == Completed {
        if i != j {
          assert Before(rows, i, j) && Before(rows, j, i);
        }
      }
    } else {
      forall k ensures !IsNode(rows, inst, f, n, k) {
        if IsNode(rows, inst, f, n, k) { assert k in s && IsNode(rows, None, f, n, k); }
      }
    }
  }

  /** The table lookup decides exactly `Runnable`. */
  lemma TableDecides(rows: Rows, inst: Option<Instance>, s: seq<TaskId>, table: NodeTable, id: TaskId)
    requires Listing(rows, inst, s) && Tabled(rows, s, table) && id in s
    ensures IsRunnableQueued(rows, rows[id], table) <==> Runnable(rows, inst, id)
  {
    hide TaskDependencies.Parse, Entry, NodeDone;
    var t := rows[id];
    if t.flowId != NOTHING {
      forall d | d in DependsOn(t)
        ensures NodeDone(rows, inst, t.flowId, d) <==>
          (t.flowId, d) in table && table[(t.flowId, d)] in rows && rows[table[(t.flowId, d)]].status == Completed
      {
        DepsAreNamed(t, d);
        EntryIsLatest(rows, inst, s, table, t.flowId, d);
      }
    }
  }
}
