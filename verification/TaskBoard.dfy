/**
  The task table of one board and the service methods that change it. A method is one request; the answers of the agent
  gateway, the output files on disk and the clock are parameters, and so is what others commit while a request waits
  for the gateway.
 */
module TaskBoards {
  import opened Wrappers
  import opened Ids
  import opened Sequences
  import opened Tasks
  import opened Listings
  import opened TaskSteps
  import opened SchedulerSteps
  import Text
  import TaskDependencies

  /** `ids` are the first `limit` runnable rows in key order, or all of them if there are fewer. */
  ghost predicate FirstRunnable(rows: Rows, inst: Option<Instance>, ids: seq<TaskId>, limit: nat) {
    && InOrder(rows, ids)
    && |ids| <= limit
    && (forall id :: id in ids ==> Runnable(rows, inst, id))
    && (forall j :: Runnable(rows, inst, j) && j !in ids ==> |ids| == limit && forall id :: id in ids ==> Before(rows, id, j))
  }

  /** The table after dispatching `ids` in turn, the k-th send being answered by `sends(k)`. */
  ghost function AfterDispatch(rows: Rows, ids: seq<TaskId>, sends: nat -> SendOutcome): Rows {
    if ids == [] then rows
    else
      var before := AfterDispatch(rows, ids[..|ids| - 1], sends);
      var id := ids[|ids| - 1];
      if id in before then before[id := Settled(before[id], sends(|ids| - 1))] else before
  }

  /** The row as the dispatcher sends it off. */
  function Dispatched(t: Task): Task {
    t.(status := Running, dispatchStatus := "running")
  }

  /** An update of row `id` that a request decided on when it had read `read`; without the row it changes nothing. */
  ghost function Landed(rows: Rows, id: TaskId, read: Task, next: Task): Rows {
    if id in rows then rows[id := Stored(rows[id], read, next)] else rows
  }

  /** The table after one dispatch, with what others commit while the message is under way. */
  ghost function AfterSend(rows: Rows, id: TaskId, send: SendOutcome, meanwhile: Rows -> Rows): Rows
    requires id in rows
  {
    if WithoutAgent(rows[id]) then rows[id := MarkedFailed(rows[id])]
    else
      var sent := Dispatched(rows[id]);
      Landed(meanwhile(rows[id := sent]), id, sent, Answered(sent, send))
  }

  /**
    A row without an agent fails. Any other is running and marked so while the message is under way; then its mark and its
    dependencies are replaced by those of the dispatcher, and its status only by a failure.
   */
  lemma SendMeans(rows: Rows, id: TaskId, send: SendOutcome, meanwhile: Rows -> Rows)
    requires id in rows
    ensures Text.Strip(rows[id].agentId) == "" ==>
      AfterSend(rows, id, send, meanwhile) == rows[id := rows[id].(status := Failed, dispatchStatus := "failed")]
    ensures Text.Strip(rows[id].agentId) != "" ==>
      var others := meanwhile(rows[id := rows[id].(status := Running, dispatchStatus := "running")]);
      AfterSend(rows, id, send, meanwhile) ==
        if id !in others then others
        else match send
          case Accepted(mark) => others[id := others[id].(dispatchStatus := mark, dependencies := rows[id].dependencies)]
          case Rejected => others[id := others[id].(status := Failed, dispatchStatus := "failed", dependencies := rows[id].dependencies)]
  {
    hide Text.Strip;
  }

  /** If nobody else commits, the dispatch just settles the row: running under the answered mark, or failed. */
  lemma QuietSend(rows: Rows, id: TaskId, send: SendOutcome, meanwhile: Rows -> Rows)
    requires id in rows && forall others :: meanwhile(others) == others
    ensures AfterSend(rows, id, send, meanwhile) == rows[id := Settled(rows[id], send)]
    ensures Settled(rows[id], send) ==
      if Text.Strip(rows[id].agentId) != "" && send.Accepted? then rows[id].(status := Running, dispatchStatus := send.status)
      else rows[id].(status := Failed, dispatchStatus := "failed")
  {
    hide Text.Strip;
    var sent := Dispatched(rows[id]);
    StoredUndisturbed(sent, Answered(sent, send));
    assert rows[id := sent][id := Answered(sent, send)] == rows[id := Answered(sent, send)];
  }

  /** An interruption asks the agent to pause only if there is a running agent to ask. */
  predicate AsksToPause(t: Task) {
    t.status == Running && !WithoutAgent(t) && t.instance.Some?
  }

  ghost function AfterInterrupt(rows: Rows, id: TaskId, meanwhile: Rows -> Rows): Rows
    requires id in rows
  {
    var t := rows[id];
    if t.status != Queued && t.status != Running then rows
    else Landed(if AsksToPause(t) then meanwhile(rows) else rows, id, t, Interrupted(t))
  }

  /**
    Decided on the row as read: one that is queued or running becomes blocked under the mark of an interruption, whatever
    others have made of it while a running agent was asked to pause; any other is left alone.
   */
  lemma InterruptMeans(rows: Rows, id: TaskId, meanwhile: Rows -> Rows)
    requires id in rows
    ensures rows[id].status in {Blocked, Failed, Completed} ==> AfterInterrupt(rows, id, meanwhile) == rows
    ensures rows[id].status in {Queued, Running} ==>
      var asked := rows[id].status == Running && Text.Strip(rows[id].agentId) != "" && rows[id].instance.Some?;
      var others := if asked then meanwhile(rows) else rows;
      AfterInterrupt(rows, id, meanwhile) ==
        if id !in others then others
        else others[id := others[id].(status := Blocked, dispatchStatus := "interrupted", dependencies := rows[id].dependencies)]
  {
    hide Text.Strip;
  }

  lemma QuietInterrupt(rows: Rows, id: TaskId, meanwhile: Rows -> Rows)
    requires id in rows && forall others :: meanwhile(others) == others
    ensures AfterInterrupt(rows, id, meanwhile) == rows[id := Interrupted(rows[id])]
    ensures Interrupted(rows[id]) ==
      if rows[id].status in {Queued, Running} then rows[id].(status := Blocked, dispatchStatus := "interrupted") else rows[id]
  {
    hide Text.Strip;
    StoredUndisturbed(rows[id], Interrupted(rows[id]));
  }

  // ----- Requests that change several rows -----

  ghost predicate RowsOfRequirement(rows: Rows, requirement: Id, ids: seq<TaskId>) {
    InOrder(rows, ids) && forall id :: id in ids <==> id in rows && rows[id].requirementId == requirement
  }

  /** `stop_requirement` writes every row's extras, if only to note the stop. */
  predicate StopWrites(t: Task) {
    true
  }

  predicate ContinueWrites(t: Task) {
    t.status == Blocked && Text.Lower(Text.Strip(t.dispatchStatus)) == "interrupted"
  }

  function Stripping(node: Id): Task -> Task {
    t => Stripped(t, node)
  }

  function StripWrites(node: Id): Task -> bool {
    t => node in DependsOn(t)
  }

  /**
    One turn of the loop: read the row, after what others have committed `before`, and write what follows from that
    reading into what they have made of the table `during` it.
   */
  ghost function AfterTurn(rows: Rows, id: TaskId, change: Task -> Task, writes: Task -> bool, before: Rows -> Rows, during: Rows -> Rows): Rows {
    var seen := before(rows);
    if id !in seen || !writes(seen[id]) then seen else Landed(during(seen), id, seen[id], change(seen[id]))
  }

  ghost function AfterTurns(rows: Rows, ids: seq<TaskId>, n: nat, change: Task -> Task, writes: Task -> bool,
      before: nat -> Rows -> Rows, during: nat -> Rows -> Rows): Rows
    requires n <= |ids|
  {
    if n == 0 then rows
    else AfterTurn(AfterTurns(rows, ids, n - 1, change, writes, before, during), ids[n - 1], change, writes, before(n - 1), during(n - 1))
  }

  /** In columns: the status is written if it changes, mark and dependencies always, over what others have committed. */
  lemma TurnMeans(rows: Rows, id: TaskId, change: Task -> Task, writes: Task -> bool, before: Rows -> Rows, during: Rows -> Rows)
    ensures var seen := before(rows);
      && (id !in seen || !writes(seen[id]) ==> AfterTurn(rows, id, change, writes, before, during) == seen)
      && (id in seen && writes(seen[id]) ==>
            var read, next, others := seen[id], change(seen[id]), during(seen);
            AfterTurn(rows, id, change, writes, before, during) ==
              if id !in others then others
              else others[id := others[id].(
                status := if next.status != read.status then next.status else others[id].status,
                dispatchStatus := next.dispatchStatus, dependencies := next.dependencies)])
  {
  }

  ghost predicate Quiet(others: nat -> Rows -> Rows) {
    forall k, rows :: others(k)(rows) == rows
  }

  /** The change rewrites status and extras only, and is nothing where there is no write. */
  ghost predicate Modest(change: Task -> Task, writes: Task -> bool) {
    forall t :: SameButExtras(t, change(t)) && (!writes(t) ==> change(t) == t)
  }

  /** The first `n` rows are changed, the others are as they were. */
  ghost predicate ChangedUpTo(rows: Rows, after: Rows, ids: seq<TaskId>, n: nat, change: Task -> Task)
    requires n <= |ids|
  {
    after.Keys == rows.Keys && forall id :: id in rows ==> after[id] == if id in ids[..n] then change(rows[id]) else rows[id]
  }

  lemma ChangeNext(rows: Rows, after: Rows, ids: seq<TaskId>, n: nat, change: Task -> Task)
    requires n < |ids| && InOrder(rows, ids) && ChangedUpTo(rows, after, ids, n, change)
    ensures ids[n] in after && ChangedUpTo(rows, after[ids[n] := change(after[ids[n]])], ids, n + 1, change)
  {
    InOrderRows(rows, ids);
    NotBefore(rows, ids, n);
    hide InOrder;
    assert ids[..n + 1] == ids[..n] + [ids[n]];
  }

  lemma {:induction false} QuietPrefix(rows: Rows, ids: seq<TaskId>, n: nat, change: Task -> Task, writes: Task -> bool,
      before: nat -> Rows -> Rows, during: nat -> Rows -> Rows)
    requires InOrder(rows, ids) && n <= |ids| && Quiet(before) && Quiet(during) && Modest(change, writes)
    ensures ChangedUpTo(rows, AfterTurns(rows, ids, n, change, writes, before, during), ids, n, change)
  {
    hide InOrder, Quiet, Modest, AfterTurn;
    if n > 0 {
      QuietPrefix(rows, ids, n - 1, change, writes, before, during);
      hide ChangedUpTo;
      var middle := AfterTurns(rows, ids, n - 1, change, writes, before, during);
      ChangeNext(rows, middle, ids, n - 1, change);
      QuietTurn(middle, ids[n - 1], change, writes, before, during, n - 1);
    }
  }

  lemma QuietTurn(rows: Rows, id: TaskId, change: Task -> Task, writes: Task -> bool, before: nat -> Rows -> Rows, during: nat -> Rows -> Rows, k: nat)
    requires id in rows && Quiet(before) && Quiet(during) && Modest(change, writes)
    ensures AfterTurn(rows, id, change, writes, before(k), during(k)) == rows[id := change(rows[id])]
  {
    assert before(k)(rows) == rows && during(k)(rows) == rows;
    StoredUndisturbed(rows[id], change(rows[id]));
  }

  lemma NotBefore(rows: Rows, ids: seq<TaskId>, i: nat)
    requires InOrder(rows, ids) && i < |ids|
    ensures ids[i] !in ids[..i]
  {
    forall k | 0 <= k < i ensures ids[k] != ids[i] {
      assert Before(rows, ids[k], ids[i]);
    }
  }

  /** If nobody else commits, exactly the rows of the requirement are changed. */
  lemma QuietTurns(rows: Rows, requirement: Id, ids: seq<TaskId>, change: Task -> Task, writes: Task -> bool,
      before: nat -> Rows -> Rows, during: nat -> Rows -> Rows)
    requires RowsOfRequirement(rows, requirement, ids) && Quiet(before) && Quiet(during) && Modest(change, writes)
    ensures AfterTurns(rows, ids, |ids|, change, writes, before, during) == OnRequirement(rows, requirement, change)
  {
    hide InOrder, Quiet, Modest, AfterTurns;
    QuietPrefix(rows, ids, |ids|, change, writes, before, during);
    assert ids[..|ids|] == ids;
  }

  lemma QuietStop(rows: Rows, requirement: Id, ids: seq<TaskId>, before: nat -> Rows -> Rows, during: nat -> Rows -> Rows)
    requires RowsOfRequirement(rows, requirement, ids) && Quiet(before) && Quiet(during)
    ensures var after := AfterTurns(rows, ids, |ids|, Interrupted, StopWrites, before, during);
      && after == OnRequirement(rows, requirement, Interrupted)
      && after.Keys == rows.Keys
      && forall id :: id in rows ==>
        after[id] ==
        if rows[id].requirementId == requirement && rows[id].status in {Queued, Running}
        then rows[id].(status := Blocked, dispatchStatus := "interrupted") else rows[id]
  {
    hide RowsOfRequirement, Quiet, AfterTurns;
    QuietTurns(rows, requirement, ids, Interrupted, StopWrites, before, during);
  }

  lemma QuietContinue(rows: Rows, requirement: Id, ids: seq<TaskId>, before: nat -> Rows -> Rows, during: nat -> Rows -> Rows)
    requires RowsOfRequirement(rows, requirement, ids) && Quiet(before) && Quiet(during)
    ensures var after := AfterTurns(rows, ids, |ids|, ContinuedWithRequirement, ContinueWrites, before, during);
      && after == OnRequirement(rows, requirement, ContinuedWithRequirement)
      && after.Keys == rows.Keys
      && forall id :: id in rows ==>
        after[id] ==
        if rows[id].requirementId == requirement && rows[id].status == Blocked && Text.Lower(Text.Strip(rows[id].dispatchStatus)) == "interrupted"
        then rows[id].(status := Queued, dispatchStatus := "pending") else rows[id]
  {
    hide RowsOfRequirement, Quiet, AfterTurns, Text.Strip, Text.Lower;
    QuietTurns(rows, requirement, ids, ContinuedWithRequirement, ContinueWrites, before, during);
  }

  /** What deleting a row does to the others: their lists lose the node, if they are of its requirement and name it. */
  lemma DeletedMeans(rows: Rows, id: TaskId)
    requires id in rows
    ensures DeletedRows(rows, id).Keys == rows.Keys - {id}
    ensures forall j :: j in rows && j != id ==>
      var after, node := DeletedRows(rows, id)[j], rows[id].flowNode;
      && after == rows[j].(dependencies := after.dependencies)
      && (node.text != "" && rows[j].requirementId == rows[id].requirementId && node in DependsOn(rows[j]) ==>
            forall d :: d in DependsOn(after) <==> d in DependsOn(rows[j]) && d !in TakenOut(rows[j], node))
      && (node.text == "" || rows[j].requirementId != rows[id].requirementId || node !in DependsOn(rows[j]) ==> after == rows[j])
  {
    hide TakenOut, DependsOn;
    var node := rows[id].flowNode;
    forall j, d | j in rows && node in DependsOn(rows[j])
      ensures d in DependsOn(Stripped(rows[j], node)) <==> d in DependsOn(rows[j]) && d !in TakenOut(rows[j], node)
    {
      StrippedDeps(rows[j], node, d);
    }
    hide Without, TaskDependencies.Encode;
  }

  lemma StrippingIsModest(node: Id)
    ensures Modest(Stripping(node), StripWrites(node))
  {
    hide DependsOn, Without, TaskDependencies.Encode;
  }

  lemma QuietDelete(rows: Rows, id: TaskId, ids: seq<TaskId>, before: nat -> Rows -> Rows, during: nat -> Rows -> Rows)
    requires id in rows && Quiet(before) && Quiet(during)
    requires RowsOfRequirement(rows - {id}, rows[id].requirementId, ids)
    ensures rows[id].flowNode == NOTHING ==> DeletedRows(rows, id) == rows - {id}
    ensures rows[id].flowNode != NOTHING ==>
      AfterTurns(rows - {id}, ids, |ids|, Stripping(rows[id].flowNode), StripWrites(rows[id].flowNode), before, during) == DeletedRows(rows, id)
  {
    hide RowsOfRequirement, Quiet, AfterTurns, Stripped, StripWrites, Modest;
    var node := rows[id].flowNode;
    StrippingIsModest(node);
    QuietTurns(rows - {id}, rows[id].requirementId, ids, Stripping(node), StripWrites(node), before, during);
    assert node != NOTHING ==> OnRequirement(rows - {id}, rows[id].requirementId, Stripping(node)) == DeletedRows(rows, id);
    assert node == NOTHING ==> DeletedRows(rows, id) == rows - {id};
  }

  class TaskBoard {
    var rows: Rows

    constructor ()
      ensures rows == map[]
    {
      rows := map[];
    }

    /**
      `dispatch_next_queued_task`: select, claim, write, send, write. `rivals` is what others commit between the selection
      and the claim, `meanwhile` what they commit during the send.
     */
    method DispatchNext(inst: Option<Instance>, resolvable: bool, send: SendOutcome, rivals: Rows -> Rows, meanwhile: Rows -> Rows)
      returns (r: Option<TaskId>)
      modifies this
      ensures r.None? && resolvable ==>
        || (rows == old(rows) && forall j :: !Runnable(old(rows), inst, j))
        || (rows == rivals(old(rows)) && exists id :: FirstRunnable(old(rows), inst, [id], 1) && !QueuedIn(rows, id))
      ensures !resolvable ==> r.None? && rows == old(rows)
      ensures r.Some? ==>
        && FirstRunnable(old(rows), inst, [r.value], 1) && QueuedIn(rivals(old(rows)), r.value)
        && rows == AfterSend(rivals(old(rows)), r.value, send, meanwhile)
    {
      hide Runnable, FirstRunnable, InOrder, Tabled, IsRunnableQueued, WithoutAgent, AfterSend, Stored, Answered, MarkedFailed, Dispatched;
      var tasks := SortedBoardTasks(rows, inst);
      var table := IndexByFlowNode(rows, tasks);
      var candidate: Option<TaskId> := None;
      var i := 0;
      while i < |tasks| && candidate.None?
        invariant 0 <= i <= |tasks| && rows == old(rows)
        invariant candidate.None? ==> forall j :: 0 <= j < i ==> !Runnable(rows, inst, tasks[j])
        invariant candidate.Some? ==> i > 0 && candidate.value == tasks[i - 1] && Runnable(rows, inst, tasks[i - 1])
        invariant candidate.Some? ==> forall j :: 0 <= j < i - 1 ==> !Runnable(rows, inst, tasks[j])
      {
        TableDecides(rows, inst, tasks, table, tasks[i]);
        InOrderRows(rows, tasks);
        if IsRunnableQueued(rows, rows[tasks[i]], table) {
          candidate := Some(tasks[i]);
        }
        i := i + 1;
      }
      if candidate.None? {
        NothingRunnable(rows, inst, tasks);
        return None;
      }
      FirstInListing(rows, inst, tasks, i - 1);
      if !resolvable {
        return None;
      }
      var id := candidate.value;
      rows := rivals(rows);
      // the claim: a conditional update that only matches a queued row
      if !QueuedIn(rows, id) {
        return None;
      }
      ClaimedSend(rows, id, send, meanwhile);
      rows := rows[id := rows[id].(status := Running)];
      var t := rows[id];
      if WithoutAgent(t) {
        rows := rows[id := MarkedFailed(t)];
        return candidate;
      }
      rows := rows[id := Dispatched(t)];
      rows := meanwhile(rows);
      if id in rows {
        rows := rows[id := Stored(rows[id], Dispatched(t), Answered(Dispatched(t), send))];
      }
      return candidate;
    }

    /** `dispatch_queue_for_instance`: dispatch until nothing is runnable or the batch is full. */
    method DispatchQueue(inst: Option<Instance>, limit: nat, resolvable: bool, sends: nat -> SendOutcome)
      returns (dispatched: seq<TaskId>)
      modifies this
      ensures resolvable ==> FirstRunnable(old(rows), inst, dispatched, limit)
      ensures !resolvable ==> dispatched == []
      ensures rows == AfterDispatch(old(rows), dispatched, sends)
    {
      hide Runnable, InOrder, FirstRunnable;
      dispatched := [];
      NoneDispatched(rows, inst);
      for k := 0 to limit
        invariant k == |dispatched| && (!resolvable ==> dispatched == [])
        invariant FirstRunnable(old(rows), inst, dispatched, k)
        invariant rows == AfterDispatch(old(rows), dispatched, sends)
        invariant Remaining(old(rows), rows, inst, dispatched)
      {
        ghost var before := rows;
        var next := DispatchNext(inst, resolvable, sends(k), others => others, others => others);
        if next.None? {
          if resolvable {
            forall id: TaskId | FirstRunnable(before, inst, [id], 1) ensures QueuedIn(before, id) { FirstIsQueued(before, inst, id); }
            NoneLeft(old(rows), before, inst, dispatched, limit);
          }
          return;
        }
        assert dispatched + [next.value] != [] && (dispatched + [next.value])[..k] == dispatched;
        QuietSend(before, next.value, sends(k), others => others);
        ExtendBatch(old(rows), before, inst, dispatched, next.value, sends(k));
        dispatched := dispatched + [next.value];
      }
    }

    /** `reconcile_stale_running_tasks`. */
    method Reconcile(inst: Option<Instance>, hasOutput: TaskId -> bool, stale: TaskId -> bool)
      returns (changed: bool, failed: seq<TaskId>)
      modifies this
      ensures rows == ReconciledRows(old(rows), inst, hasOutput, stale)
      ensures rows.Keys == old(rows).Keys
      ensures forall id :: id in rows ==>
        rows[id] ==
        var t := old(rows)[id];
        if t.status != Running || (inst.Some? && t.instance != inst) then t
        else if hasOutput(id) then t.(status := Completed, dispatchStatus := "completed")
        else if stale(id) then t.(status := Failed, dispatchStatus := "failed")
        else t
      ensures changed <==> rows != old(rows)
      ensures InOrder(old(rows), failed)
      ensures forall id :: id in failed <==>
        && id in old(rows) && old(rows)[id].status == Running && (inst.Some? ==> old(rows)[id].instance == inst)
        && stale(id) && !hasOutput(id)
    {
      hide ReconciledRows, Reconciled, PartWay, InOrder, Visible, TouchesSome, FailedAre;
      changed, failed := false, [];
      var tasks := SortedBoardTasks(rows, inst);
      ghost var rows0 := rows;
      ghost var goal := ReconciledRows(rows0, inst, hasOutput, stale);
      ReconcileStarts(rows0, inst, hasOutput, stale);
      NothingNoted(rows0, hasOutput, stale);
      assert tasks[..0] == [];
      for i := 0 to |tasks|
        invariant PartWay(rows0, goal, tasks[..i], rows)
        invariant changed <==> TouchesSome(rows0, tasks[..i], hasOutput, stale)
        invariant InOrder(rows0, failed) && FailedAre(rows0, tasks[..i], hasOutput, stale, failed)
      {
        var id := tasks[i];
        PartWayNext(rows0, goal, inst, tasks, i, rows);
        ReconciledAt(rows0, inst, hasOutput, stale, id);
        var t := rows[id];
        assert tasks[..i + 1] == tasks[..i] + [id];
        FailedAreListed(rows0, tasks[..i], hasOutput, stale, failed);
        AppendInOrder(rows0, tasks, i, failed);
        NoteOne(rows0, tasks[..i], id, hasOutput, stale, failed);
        rows := rows[id := Reconciled(t, hasOutput(id), stale(id))];
        if t.status == Running {
          if hasOutput(id) {
            changed := true;
          } else if stale(id) {
            changed := true;
            failed := failed + [id];
          }
        }
      }
      assert tasks[..|tasks|] == tasks;
      ReconcileDone(rows0, inst, hasOutput, stale, tasks, rows);
      ReconcileMeans(rows0, inst, hasOutput, stale);
      ReconcileChanges(rows0, inst, hasOutput, stale, tasks);
      FailedMeans(rows0, inst, tasks, hasOutput, stale, failed);
    }

    /** `complete_running_task_with_output`. */
    method CompleteWithOutput(id: TaskId) returns (done: bool)
      requires id in rows
      modifies this
      ensures done <==> old(rows)[id].status == Running
      ensures rows == old(rows)[id := CompletedByOutput(old(rows)[id])]
      ensures rows == if done then old(rows)[id := old(rows)[id].(status := Completed, dispatchStatus := "completed")] else old(rows)
    {
      if rows[id].status != Running {
        assert rows[id := rows[id]] == rows;
        return false;
      }
      rows := rows[id := rows[id].(status := Completed, dispatchStatus := "completed")];
      return true;
    }

    /** `interrupt_task`; an unknown id is a 404. */
    method InterruptTask(id: TaskId, meanwhile: Rows -> Rows) returns (found: bool)
      modifies this
      ensures found <==> id in old(rows)
      ensures rows == if found then AfterInterrupt(old(rows), id, meanwhile) else old(rows)
    {
      hide WithoutAgent;
      if id !in rows {
        return false;
      }
      var t := rows[id];
      if t.status in {Completed, Failed, Blocked} {
        return true;
      }
      if AsksToPause(t) {
        rows := meanwhile(rows);
      }
      if id in rows {
        rows := rows[id := Stored(rows[id], t, t.(status := Blocked, dispatchStatus := "interrupted"))];
      }
      return true;
    }

    /** `continue_task`; an unknown id is a 404. */
    method ContinueTask(id: TaskId) returns (found: bool)
      modifies this
      ensures found <==> id in old(rows)
      ensures rows == if found then old(rows)[id := Continued(old(rows)[id])] else old(rows)
      ensures !found || old(rows)[id].status != Blocked ==> rows == old(rows)
      ensures found && old(rows)[id].status == Blocked ==>
        rows == old(rows)[id :=
          if Text.Lower(Text.Strip(old(rows)[id].dispatchStatus)) in {"interrupted", "stopped", "blocked"}
          then old(rows)[id].(status := Queued, dispatchStatus := "pending")
          else old(rows)[id].(status := Completed, dispatchStatus := "approved")]
    {
      if id !in rows {
        return false;
      }
      var t := rows[id];
      if t.status != Blocked {
        assert rows[id := t] == rows;
        return true;
      }
      var dispatchStatus := Text.Lower(Text.Strip(t.dispatchStatus));
      if dispatchStatus in ["interrupted", "stopped", "blocked"] {
        rows := rows[id := t.(status := Queued, dispatchStatus := "pending")];
      } else {
        rows := rows[id := t.(status := Completed, dispatchStatus := "approved")];
      }
      return true;
    }

    /** The loop shared by the requirement routes; `ids` are the rows listed at its start, in key order. */
    method ChangeRows(requirement: Id, change: Task -> Task, writes: Task -> bool, before: nat -> Rows -> Rows, during: nat -> Rows -> Rows)
      returns (ids: seq<TaskId>)
      modifies this
      ensures RowsOfRequirement(old(rows), requirement, ids)
      ensures rows == AfterTurns(old(rows), ids, |ids|, change, writes, before, during)
    {
      hide InOrder;
      ids := RequirementRows(rows, requirement);
      ghost var listed := rows;
      assert RowsOfRequirement(listed, requirement, ids);
      hide RowsOfRequirement;
      for k := 0 to |ids|
        invariant rows == AfterTurns(old(rows), ids, k, change, writes, before, during)
      {
        rows := before(k)(rows);
        if ids[k] !in rows {
          continue;
        }
        var t := rows[ids[k]];
        if !writes(t) {
          continue;
        }
        rows := during(k)(rows);
        if ids[k] in rows {
          rows := rows[ids[k] := Stored(rows[ids[k]], t, change(t))];
        }
      }
    }

    /** `stop_requirement`; no rows is a 404. */
    method StopRequirement(requirement: Id, before: nat -> Rows -> Rows, during: nat -> Rows -> Rows) returns (ids: seq<TaskId>)
      modifies this
      ensures RowsOfRequirement(old(rows), requirement, ids)
      ensures rows == AfterTurns(old(rows), ids, |ids|, Interrupted, StopWrites, before, during)
    {
      ids := ChangeRows(requirement, Interrupted, StopWrites, before, during);
    }

    /** `continue_requirement`; no rows is a 404. */
    method ContinueRequirement(requirement: Id, before: nat -> Rows -> Rows, during: nat -> Rows -> Rows) returns (ids: seq<TaskId>)
      modifies this
      ensures RowsOfRequirement(old(rows), requirement, ids)
      ensures rows == AfterTurns(old(rows), ids, |ids|, ContinuedWithRequirement, ContinueWrites, before, during)
    {
      ids := ChangeRows(requirement, ContinuedWithRequirement, ContinueWrites, before, during);
    }

    /** `_delete_task_impl`; an unknown id is a 404. `ids` are the rows whose lists are looked at. */
    method DeleteTask(id: TaskId, before: nat -> Rows -> Rows, during: nat -> Rows -> Rows) returns (found: bool, ids: seq<TaskId>)
      modifies this
      ensures found <==> id in old(rows)
      ensures !found ==> rows == old(rows)
      ensures found && old(rows)[id].flowNode == NOTHING ==> rows == old(rows) - {id}
      ensures found && old(rows)[id].flowNode != NOTHING ==>
        && RowsOfRequirement(old(rows) - {id}, old(rows)[id].requirementId, ids)
        && rows == AfterTurns(old(rows) - {id}, ids, |ids|, Stripping(old(rows)[id].flowNode), StripWrites(old(rows)[id].flowNode), before, during)
    {
      if id !in rows {
        return false, [];
      }
      var t := rows[id];
      rows := rows - {id};
      if t.flowNode == NOTHING {
        return true, [];
      }
      ids := RemoveDependency(t.flowNode, t.requirementId, before, during);
      return true, ids;
    }

    /** `_remove_dependency_from_requirement_tasks`. */
    method RemoveDependency(node: Id, requirement: Id, before: nat -> Rows -> Rows, during: nat -> Rows -> Rows) returns (ids: seq<TaskId>)
      modifies this
      ensures RowsOfRequirement(old(rows), requirement, ids)
      ensures rows == AfterTurns(old(rows), ids, |ids|, Stripping(node), StripWrites(node), before, during)
    {
      ids := ChangeRows(requirement, Stripping(node), StripWrites(node), before, during);
    }

    /** `_delete_requirement_tasks_impl`: the ids of the deleted rows, in key order; none is a 404. */
    method DeleteRequirement(requirement: Id) returns (deleted: seq<TaskId>)
      modifies this
      ensures InOrder(old(rows), deleted)
      ensures forall id :: id in deleted <==> id in old(rows) && old(rows)[id].requirementId == requirement
      ensures rows == RequirementDeleted(old(rows), requirement)
      ensures forall id :: id in rows <==> id in old(rows) && old(rows)[id].requirementId != requirement
      ensures forall id :: id in rows ==> rows[id] == old(rows)[id]
    {
      hide InOrder;
      ghost var rows0 := rows;
      var matched := RequirementRows(rows, requirement);
      deleted := [];
      assert rows0 - {} == rows0;
      for i := 0 to |matched|
        invariant deleted == matched[..i]
        invariant rows == rows0 - Elements(deleted)
      {
        assert matched[..i + 1] == matched[..i] + [matched[i]];
        deleted := deleted + [matched[i]];
        rows := rows - {matched[i]};
      }
      assert matched[..|matched|] == matched;
      assert rows == RequirementDeleted(rows0, requirement);
    }
  }

  /** `[task for task in tasks if task_requirement_id(task) == requirement]`. */
  method RequirementRows(rows: Rows, requirement: Id) returns (matched: seq<TaskId>)
    ensures InOrder(rows, matched)
    ensures forall id :: id in matched <==> id in rows && rows[id].requirementId == requirement
  {
    hide InOrder;
    var tasks := SortedBoardTasks(rows, None);
    matched := [];
    NoneInOrder(rows);
    InOrderRows(rows, tasks);
    for i := 0 to |tasks|
      invariant InOrder(rows, matched)
      invariant forall id :: id in matched <==> id in tasks[..i] && rows[id].requirementId == requirement
    {
      assert tasks[..i + 1] == tasks[..i] + [tasks[i]];
      if rows[tasks[i]].requirementId == requirement {
        AppendInOrder(rows, tasks, i, matched);
        matched := matched + [tasks[i]];
      }
    }
    assert tasks[..|tasks|] == tasks;
  }

  /** A send that starts from the claimed row. */
  lemma ClaimedSend(rows: Rows, id: TaskId, send: SendOutcome, meanwhile: Rows -> Rows)
    requires id in rows
    ensures var t := rows[id].(status := Running);
      var claimed := rows[id := t];
      && (WithoutAgent(t) ==> AfterSend(rows, id, send, meanwhile) == claimed[id := MarkedFailed(t)])
      && (!WithoutAgent(t) ==>
            var others := meanwhile(claimed[id := Dispatched(t)]);
            AfterSend(rows, id, send, meanwhile) ==
              if id in others then others[id := Stored(others[id], Dispatched(t), Answered(Dispatched(t), send))] else others)
  {
    hide WithoutAgent, Stored, Answered;
    var t := rows[id].(status := Running);
    AgentColumn(rows[id], t);
    assert rows[id := t][id := Dispatched(t)] == rows[id := Dispatched(rows[id])];
    assert rows[id := t][id := MarkedFailed(t)] == rows[id := MarkedFailed(rows[id])];
  }

  lemma AgentColumn(t: Task, u: Task)
    requires u == t.(status := u.status)
    ensures WithoutAgent(t) <==> WithoutAgent(u)
    ensures MarkedFailed(t) == MarkedFailed(u) && Dispatched(t) == Dispatched(u)
  {
    hide Text.Strip;
  }

  lemma NothingRunnable(rows: Rows, inst: Option<Instance>, tasks: seq<TaskId>)
    requires Listing(rows, inst, tasks) && forall j :: 0 <= j < |tasks| ==> !Runnable(rows, inst, tasks[j])
    ensures forall j :: !Runnable(rows, inst, j)
  {
    forall j | j in rows && Visible(inst, rows[j]) ensures !Runnable(rows, inst, j) {
      assert j in tasks;
    }
  }

  lemma FirstInListing(rows: Rows, inst: Option<Instance>, tasks: seq<TaskId>, i: nat)
    requires Listing(rows, inst, tasks) && i < |tasks| && Runnable(rows, inst, tasks[i])
    requires forall j :: 0 <= j < i ==> !Runnable(rows, inst, tasks[j])
    ensures tasks[i] in rows && rows[tasks[i]].status == Queued
    ensures FirstRunnable(rows, inst, [tasks[i]], 1)
  {
    forall j | Runnable(rows, inst, j) && j != tasks[i] ensures Before(rows, tasks[i], j) {
      assert j in tasks;
      var k :| 0 <= k < |tasks| && tasks[k] == j;
    }
  }

  lemma FirstIsQueued(rows: Rows, inst: Option<Instance>, id: TaskId)
    requires FirstRunnable(rows, inst, [id], 1)
    ensures QueuedIn(rows, id)
  {
    assert id in [id];
  }

  /** What is still runnable after part of a batch. */
  ghost predicate Remaining(rows0: Rows, rows: Rows, inst: Option<Instance>, ids: seq<TaskId>) {
    && rows.Keys == rows0.Keys
    && (forall j :: j in rows ==> SameTask(rows0[j], rows[j]))
    && forall j :: Runnable(rows, inst, j) <==> Runnable(rows0, inst, j) && j !in ids
  }

  lemma NoneDispatched(rows: Rows, inst: Option<Instance>)
    ensures FirstRunnable(rows, inst, [], 0) && Remaining(rows, rows, inst, [])
  {
  }

  lemma NoneLeft(rows0: Rows, rows: Rows, inst: Option<Instance>, ids: seq<TaskId>, limit: nat)
    requires Remaining(rows0, rows, inst, ids) && FirstRunnable(rows0, inst, ids, |ids|) && |ids| <= limit
    requires forall j :: !Runnable(rows, inst, j)
    ensures FirstRunnable(rows0, inst, ids, limit)
  {
    hide Runnable;
    forall j | Runnable(rows0, inst, j) ensures j in ids {
      assert !Runnable(rows, inst, j);
    }
  }

  lemma ExtendBatch(rows0: Rows, rows: Rows, inst: Option<Instance>, ids: seq<TaskId>, id: TaskId, send: SendOutcome)
    requires Remaining(rows0, rows, inst, ids) && FirstRunnable(rows0, inst, ids, |ids|)
    requires id in rows && FirstRunnable(rows, inst, [id], 1)
    ensures FirstRunnable(rows0, inst, ids + [id], |ids| + 1)
    ensures Remaining(rows0, rows[id := Settled(rows[id], send)], inst, ids + [id])
  {
    assert id in [id] && Runnable(rows, inst, id);
    assert rows[id].status == Queued;
    StillRemaining(rows0, rows, inst, ids, id, send);
    BatchInOrder(rows0, rows, inst, ids, id);
  }

  lemma StillRemaining(rows0: Rows, rows: Rows, inst: Option<Instance>, ids: seq<TaskId>, id: TaskId, send: SendOutcome)
    requires Remaining(rows0, rows, inst, ids) && id in rows && rows[id].status == Queued
    ensures Remaining(rows0, rows[id := Settled(rows[id], send)], inst, ids + [id])
  {
    hide Runnable;
    SettledKeeps(rows[id], send);
    forall j ensures Runnable(rows[id := Settled(rows[id], send)], inst, j) <==> Runnable(rows0, inst, j) && j !in ids + [id] {
      DispatchKeepsOthersRunnable(rows, inst, id, send, j);
    }
  }

  lemma BatchInOrder(rows0: Rows, rows: Rows, inst: Option<Instance>, ids: seq<TaskId>, id: TaskId)
    requires Remaining(rows0, rows, inst, ids) && FirstRunnable(rows0, inst, ids, |ids|)
    requires id in rows && FirstRunnable(rows, inst, [id], 1) && Runnable(rows, inst, id)
    ensures FirstRunnable(rows0, inst, ids + [id], |ids| + 1)
  {
    hide Runnable;
    var all := ids + [id];
    assert Runnable(rows0, inst, id) && id !in ids;
    forall j | Runnable(rows0, inst, j) ensures j in rows0 {
      RunnableIsRow(rows0, inst, j);
    }
    forall j | Runnable(rows0, inst, j) && j in rows0 && j !in all ensures forall x :: x in all ==> Before(rows0, x, j) {
      assert Runnable(rows, inst, j) && j !in [id];
      assert id in [id];
      assert Before(rows, id, j);
    }
  }

  lemma RunnableIsRow(rows: Rows, inst: Option<Instance>, j: TaskId)
    requires Runnable(rows, inst, j)
    ensures j in rows
  {
  }

  // ----- Updating rows one at a time -----

  /** The rows of `done` already hold their goal, the others are untouched. */
  ghost predicate PartWay(rows0: Rows, goal: Rows, done: seq<TaskId>, rows: Rows) {
    && rows.Keys == rows0.Keys == goal.Keys
    && forall id :: id in rows ==> rows[id] == if id in done then goal[id] else rows0[id]
  }

  lemma PartWayNext(rows0: Rows, goal: Rows, inst: Option<Instance>, tasks: seq<TaskId>, i: nat, rows: Rows)
    requires Listing(rows0, inst, tasks) && i < |tasks| && PartWay(rows0, goal, tasks[..i], rows)
    ensures tasks[i] in rows && tasks[i] in rows0 && tasks[i] in goal && rows[tasks[i]] == rows0[tasks[i]]
    ensures PartWay(rows0, goal, tasks[..i + 1], rows[tasks[i] := goal[tasks[i]]])
  {
    assert tasks[..i + 1] == tasks[..i] + [tasks[i]];
    forall k | 0 <= k < i ensures tasks[k] != tasks[i] {
      assert Before(rows0, tasks[k], tasks[i]);
    }
  }

  lemma ReconciledAt(rows: Rows, inst: Option<Instance>, hasOutput: TaskId -> bool, stale: TaskId -> bool, id: TaskId)
    requires id in rows
    ensures var goal := ReconciledRows(rows, inst, hasOutput, stale);
      id in goal && goal[id] == if Visible(inst, rows[id]) then Reconciled(rows[id], hasOutput(id), stale(id)) else rows[id]
  {
  }

  lemma ReconcileStarts(rows: Rows, inst: Option<Instance>, hasOutput: TaskId -> bool, stale: TaskId -> bool)
    ensures PartWay(rows, ReconciledRows(rows, inst, hasOutput, stale), [], rows)
    ensures InOrder(rows, [])
  {
  }

  lemma ReconcileMeans(rows: Rows, inst: Option<Instance>, hasOutput: TaskId -> bool, stale: TaskId -> bool)
    ensures var after := ReconciledRows(rows, inst, hasOutput, stale);
      after.Keys == rows.Keys && forall id :: id in rows ==>
        after[id] ==
        var t := rows[id];
        if t.status != Running || (inst.Some? && t.instance != inst) then t
        else if hasOutput(id) then t.(status := Completed, dispatchStatus := "completed")
        else if stale(id) then t.(status := Failed, dispatchStatus := "failed")
        else t
  {
  }

  /** Some of the rows is running and has its output or has lost its heartbeat. */
  ghost predicate TouchesSome(rows: Rows, ids: seq<TaskId>, hasOutput: TaskId -> bool, stale: TaskId -> bool) {
    exists id :: id in ids && id in rows && rows[id].status == Running && (hasOutput(id) || stale(id))
  }

  /** Of the rows, those that fail. */
  ghost predicate FailedAre(rows: Rows, ids: seq<TaskId>, hasOutput: TaskId -> bool, stale: TaskId -> bool, failed: seq<TaskId>) {
    forall id :: id in failed <==> id in ids && id in rows && rows[id].status == Running && stale(id) && !hasOutput(id)
  }

  lemma NothingNoted(rows: Rows, hasOutput: TaskId -> bool, stale: TaskId -> bool)
    ensures !TouchesSome(rows, [], hasOutput, stale) && FailedAre(rows, [], hasOutput, stale, [])
  {
  }

  lemma NoteOne(rows: Rows, ids: seq<TaskId>, id: TaskId, hasOutput: TaskId -> bool, stale: TaskId -> bool, failed: seq<TaskId>)
    requires id in rows && FailedAre(rows, ids, hasOutput, stale, failed)
    ensures TouchesSome(rows, ids + [id], hasOutput, stale) <==>
      TouchesSome(rows, ids, hasOutput, stale) || (rows[id].status == Running && (hasOutput(id) || stale(id)))
    ensures FailedAre(rows, ids + [id], hasOutput, stale,
      if rows[id].status == Running && stale(id) && !hasOutput(id) then failed + [id] else failed)
  {
  }

  lemma FailedAreListed(rows: Rows, ids: seq<TaskId>, hasOutput: TaskId -> bool, stale: TaskId -> bool, failed: seq<TaskId>)
    requires FailedAre(rows, ids, hasOutput, stale, failed)
    ensures forall id :: id in failed ==> id in ids
  {
  }

  lemma FailedMeans(rows: Rows, inst: Option<Instance>, tasks: seq<TaskId>, hasOutput: TaskId -> bool, stale: TaskId -> bool, failed: seq<TaskId>)
    requires Listing(rows, inst, tasks) && FailedAre(rows, tasks, hasOutput, stale, failed)
    ensures forall id :: id in failed <==>
      && id in rows && rows[id].status == Running && (inst.Some? ==> rows[id].instance == inst)
      && stale(id) && !hasOutput(id)
  {
    hide InOrder;
  }

  lemma ReconcileChanges(rows: Rows, inst: Option<Instance>, hasOutput: TaskId -> bool, stale: TaskId -> bool, tasks: seq<TaskId>)
    requires Listing(rows, inst, tasks)
    ensures ReconciledRows(rows, inst, hasOutput, stale) != rows <==> TouchesSome(rows, tasks, hasOutput, stale)
  {
    var after := ReconciledRows(rows, inst, hasOutput, stale);
    if id :| id in tasks && id in rows && rows[id].status == Running && (hasOutput(id) || stale(id)) {
      assert after[id].status != rows[id].status;
    }
    if !TouchesSome(rows, tasks, hasOutput, stale) {
      forall id | id in rows ensures after[id] == rows[id] {
        assert Visible(inst, rows[id]) ==> id in tasks;
      }
    }
  }

  lemma AppendInOrder(rows: Rows, tasks: seq<TaskId>, i: nat, some: seq<TaskId>)
    requires InOrder(rows, tasks) && i < |tasks| && InOrder(rows, some)
    requires forall id :: id in some ==> id in tasks[..i]
    ensures InOrder(rows, some + [tasks[i]])
  {
    forall k | 0 <= k < |some| ensures Before(rows, some[k], tasks[i]) {
      assert some[k] in tasks[..i];
      var j :| 0 <= j < i && tasks[j] == some[k];
    }
  }

  lemma ReconcileDone(rows0: Rows, inst: Option<Instance>, hasOutput: TaskId -> bool, stale: TaskId -> bool, tasks: seq<TaskId>, rows: Rows)
    requires Listing(rows0, inst, tasks)
    requires PartWay(rows0, ReconciledRows(rows0, inst, hasOutput, stale), tasks, rows)
    ensures rows == ReconciledRows(rows0, inst, hasOutput, stale)
    ensures forall id :: id in rows && rows[id] != rows0[id] ==> id in tasks
  {
  }

  /** A dispatch batch changes the dispatched rows, each by its own send, and nothing else. */
  lemma {:induction false} BatchTouchesOnly(rows: Rows, ids: seq<TaskId>, sends: nat -> SendOutcome)
    requires InOrder(rows, ids)
    ensures AfterDispatch(rows, ids, sends).Keys == rows.Keys
    ensures forall j :: j in rows && j !in ids ==> AfterDispatch(rows, ids, sends)[j] == rows[j]
    ensures forall k :: 0 <= k < |ids| ==> ids[k] in rows && AfterDispatch(rows, ids, sends)[ids[k]] == Settled(rows[ids[k]], sends(k))
  {
    hide InOrder, Settled;
    if ids != [] {
      var init, id := ids[..|ids| - 1], ids[|ids| - 1];
      SplitLast(rows, ids);
      BatchTouchesOnly(rows, init, sends);
      var before, after := AfterDispatch(rows, init, sends), AfterDispatch(rows, ids, sends);
      assert after == before[id := Settled(rows[id], sends(|init|))];
      hide AfterDispatch;
      forall j | j in rows && j !in ids ensures after[j] == rows[j] {
        assert j !in init && j != id;
      }
      forall k | 0 <= k < |ids| ensures ids[k] in rows && after[ids[k]] == Settled(rows[ids[k]], sends(k)) {
        assert k < |init| ==> ids[k] == init[k] && init[k] in init;
      }
    }
  }

  lemma SplitLast(rows: Rows, ids: seq<TaskId>)
    requires InOrder(rows, ids) && ids != []
    ensures InOrder(rows, ids[..|ids| - 1])
    ensures forall k :: 0 <= k < |ids| ==> ids[k] in rows
    ensures ids[|ids| - 1] !in ids[..|ids| - 1]
  {
    forall k | 0 <= k < |ids| - 1 ensures ids[k] != ids[|ids| - 1] {
      assert Before(rows, ids[k], ids[|ids| - 1]);
    }
  }
}
