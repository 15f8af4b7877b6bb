/** Task rows, the order they are dispatched in, and when a queued task may run. */
module Tasks {
  import opened Wrappers
  import opened Ids
  import opened TaskDependencies
  import Text

  type TaskId = nat
  type Instance = nat

  datatype Status = Queued | Running | Blocked | Failed | Completed

  /**
    One row. `flowId` and `flowNode` are the stripped extras the dispatcher reads (empty when absent);
    `dependencies` is the stored text; `layer` is the number behind the "L" of the stored layer.
   */
  datatype Task = Task(
    createdAt: int,
    instance: Option<Instance>,
    requirementId: Id,
    flowId: Id,
    flowNode: Id,
    layer: nat,
    dependencies: Option<string>,
    agentId: string,
    status: Status,
    dispatchStatus: string)

  type Rows = map<TaskId, Task>

  const NOTHING := Id("")

  function DependsOn(t: Task): seq<Id> {
    Parse(t.dependencies)
  }

  /** The instance filter of `list_tasks`. */
  predicate Visible(inst: Option<Instance>, t: Task) {
    inst.None? || t.instance == inst
  }

  /** The sort key of `_sorted_board_tasks`: creation time, then id. */
  predicate Before(rows: Rows, a: TaskId, b: TaskId)
    requires a in rows && b in rows
  {
    rows[a].createdAt < rows[b].createdAt || (rows[a].createdAt == rows[b].createdAt && a < b)
  }

  predicate IsNode(rows: Rows, inst: Option<Instance>, f: Id, n: Id, j: TaskId) {
    j in rows && Visible(inst, rows[j]) && rows[j].flowId == f && rows[j].flowNode == n
  }

  /** Of several visible rows for one flow node, the dispatcher looks at the last in key order. */
  ghost predicate Latest(rows: Rows, inst: Option<Instance>, f: Id, n: Id, j: TaskId) {
    && IsNode(rows, inst, f, n, j)
    && forall k :: IsNode(rows, inst, f, n, k) && k != j ==> Before(rows, k, j)
  }

  ghost predicate NodeDone(rows: Rows, inst: Option<Instance>, f: Id, n: Id) {
    exists j :: Latest(rows, inst, f, n, j) && rows[j].status == Completed
  }

  ghost predicate DepsDone(rows: Rows, inst: Option<Instance>, t: Task) {
    forall d :: d in DependsOn(t) ==> NodeDone(rows, inst, t.flowId, d)
  }

  /** What `_is_runnable_queued_task` decides, said without its lookup table. */
  ghost predicate Runnable(rows: Rows, inst: Option<Instance>, id: TaskId) {
    && id in rows && Visible(inst, rows[id])
    && rows[id].status == Queued
    && (DependsOn(rows[id]) != [] ==> rows[id].flowId != NOTHING && DepsDone(rows, inst, rows[id]))
  }

  /**
    In columns: a queued row of the asked workspace; if it lists dependencies it belongs to a flow, and for each of them
    the latest row of that node, among the flow's rows of that workspace, is completed.
   */
  lemma RunnableMeans(rows: Rows, inst: Option<Instance>, id: TaskId)
    ensures Runnable(rows, inst, id) <==>
      && id in rows && rows[id].status == Queued && (inst.Some? ==> rows[id].instance == inst)
      && forall d :: d in DependsOn(rows[id]) ==>
        && rows[id].flowId.text != ""
        && exists j :: j in rows && LastOfNode(rows, inst, rows[id].flowId, d, j) && rows[j].status == Completed
  {
    hide DependsOn;
    if id in rows {
      var f := rows[id].flowId;
      forall d ensures NodeDone(rows, inst, f, d) <==> exists j :: j in rows && LastOfNode(rows, inst, f, d, j) && rows[j].status == Completed {
        forall j ensures Latest(rows, inst, f, d, j) <==> j in rows && LastOfNode(rows, inst, f, d, j) {
          LatestMeans(rows, inst, f, d, j);
        }
      }
      if DependsOn(rows[id]) != [] { assert DependsOn(rows[id])[0] in DependsOn(rows[id]); }
    }
  }

  /** The last row of a node, by creation time and then by id. */
  ghost predicate LastOfNode(rows: Rows, inst: Option<Instance>, f: Id, n: Id, j: TaskId)
    requires j in rows
  {
    && OfNode(rows[j], inst, f, n)
    && forall k :: k in rows && OfNode(rows[k], inst, f, n) ==>
      rows[k].createdAt < rows[j].createdAt || (rows[k].createdAt == rows[j].createdAt && k <= j)
  }

  predicate OfNode(t: Task, inst: Option<Instance>, f: Id, n: Id) {
    t.flowId == f && t.flowNode == n && (inst.Some? ==> t.instance == inst)
  }

  lemma LatestMeans(rows: Rows, inst: Option<Instance>, f: Id, n: Id, j: TaskId)
    ensures Latest(rows, inst, f, n, j) <==> j in rows && LastOfNode(rows, inst, f, n, j)
  {
    forall k ensures IsNode(rows, inst, f, n, k) <==> k in rows && OfNode(rows[k], inst, f, n) {}
    if j in rows && LastOfNode(rows, inst, f, n, j) {
      forall k | IsNode(rows, inst, f, n, k) && k != j ensures Before(rows, k, j) {
        assert OfNode(rows[k], inst, f, n);
      }
    }
    if Latest(rows, inst, f, n, j) {
      forall k | k in rows && OfNode(rows[k], inst, f, n)
        ensures rows[k].createdAt < rows[j].createdAt || (rows[k].createdAt == rows[j].createdAt && k <= j)
      {
        assert IsNode(rows, inst, f, n, k);
      }
    }
  }

  // ----- What happens to one row -----

  /** The answer of the agent gateway to a dispatch message. */
  datatype SendOutcome = Accepted(status: string) | Rejected

  function Settled(t: Task, send: SendOutcome): Task {
    if Text.Strip(t.agentId) == "" then t.(status := Failed, dispatchStatus := "failed")
    else match send
      case Accepted(s) => t.(status := Running, dispatchStatus := s)
      case Rejected => t.(status := Failed, dispatchStatus := "failed")
  }

  /** The columns a dispatch never touches. */
  ghost predicate SameTask(t: Task, u: Task) {
    && t.createdAt == u.createdAt && t.instance == u.instance && t.requirementId == u.requirementId
    && t.flowId == u.flowId && t.flowNode == u.flowNode && t.layer == u.layer
    && t.dependencies == u.dependencies && t.agentId == u.agentId
  }

  lemma SettledKeeps(t: Task, send: SendOutcome)
    ensures SameTask(t, Settled(t, send))
    ensures Settled(t, send).status == Running || Settled(t, send).status == Failed
  {
  }

  /** Same columns and the same set of completed rows give the same answers about dependencies. */
  lemma NodeDoneStable(rows: Rows, rows': Rows, inst: Option<Instance>, f: Id, n: Id)
    requires rows.Keys == rows'.Keys
    requires forall k :: k in rows ==> SameTask(rows[k], rows'[k]) && (rows[k].status == Completed ==> rows'[k].status == Completed)
    ensures NodeDone(rows, inst, f, n) ==> NodeDone(rows', inst, f, n)
  {
    forall k ensures IsNode(rows, inst, f, n, k) <==> IsNode(rows', inst, f, n, k) {}
    if j :| Latest(rows, inst, f, n, j) && rows[j].status == Completed {
      assert Latest(rows', inst, f, n, j) by {
        forall k | IsNode(rows', inst, f, n, k) && k != j ensures Before(rows', k, j) {
          assert IsNode(rows, inst, f, n, k);
        }
      }
    }
  }

  /** Starting one queued task takes exactly that task out of the runnable ones. */
  lemma DispatchKeepsOthersRunnable(rows: Rows, inst: Option<Instance>, id: TaskId, send: SendOutcome, j: TaskId)
    requires id in rows && rows[id].status == Queued
    ensures var rows' := rows[id := Settled(rows[id], send)];
      Runnable(rows', inst, j) <==> Runnable(rows, inst, j) && j != id
  {
    hide Parse, NodeDone;
    var rows' := rows[id := Settled(rows[id], send)];
    SettledKeeps(rows[id], send);
    if j in rows {
      forall d | d in DependsOn(rows[j])
        ensures NodeDone(rows, inst, rows[j].flowId, d) <==> NodeDone(rows', inst, rows[j].flowId, d)
      {
        NodeDoneStable(rows, rows', inst, rows[j].flowId, d);
        NodeDoneStable(rows', rows, inst, rows[j].flowId, d);
      }
    }
  }
}
