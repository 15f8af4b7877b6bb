/** What the steps of the requests do, in columns, and that undisturbed ones do what the board's methods do. */
module StepMeanings {
  import opened Wrappers
  import opened Ids
  import opened Tasks
  import opened TaskSteps
  import opened SchedulerSteps
  import opened SchedulerRuns
  import opened SchedulerRaces
  import opened RequestCommits
  import Text

  function Mark(t: Task): string {
    Text.Lower(Text.Strip(t.dispatchStatus))
  }

  /** When each change is written, and what it makes of the row as read. */
  lemma ChangesMean(t: Task, node: Id)
    ensures Applies(Interrupt, t) <==> t.status == Queued || t.status == Running
    ensures Applies(Stop, t) && (Applies(Continue, t) <==> t.status == Blocked)
    ensures Applies(Resume, t) <==> t.status == Blocked && Mark(t) == "interrupted"
    ensures (Applies(Complete, t) <==> t.status == Running) && (Applies(Expire, t) <==> t.status == Running)
    ensures Applies(Strip(node), t) <==> node in DependsOn(t)
    ensures t.status == Queued || t.status == Running ==>
      After(Interrupt, t) == After(Stop, t) == t.(status := Blocked, dispatchStatus := "interrupted")
    ensures t.status != Queued && t.status != Running ==> After(Stop, t) == t
    ensures t.status == Blocked && Mark(t) in {"interrupted", "stopped", "blocked"} ==>
      After(Continue, t) == t.(status := Queued, dispatchStatus := "pending")
    ensures t.status == Blocked && Mark(t) !in {"interrupted", "stopped", "blocked"} ==>
      After(Continue, t) == t.(status := Completed, dispatchStatus := "approved")
    ensures t.status == Blocked && Mark(t) == "interrupted" ==> After(Resume, t) == t.(status := Queued, dispatchStatus := "pending")
    ensures t.status == Running ==> After(Complete, t) == t.(status := Completed, dispatchStatus := "completed")
    ensures After(Expire, t) == t.(status := Failed, dispatchStatus := "failed")
    ensures var u := After(Strip(node), t); u == t.(dependencies := u.dependencies)
  {
    hide Text.Strip, Text.Lower, DependsOn, Without;
  }

  /** What is written over a row, whatever has become of it: marks and dependencies always, the status if it changes. */
  lemma WriteMeans(w: World, k: Worker, change: Change)
    requires Enabled(w, Write(k, change)) && w.hands[k].id in w.rows
    ensures var id, read := w.hands[k].id, w.hands[k].row;
      var next, current := After(change, read), w.rows[id];
      Apply(w, Write(k, change)).rows == w.rows[id := current.(
        status := if next.status != read.status then next.status else current.status,
        dispatchStatus := next.dispatchStatus, dependencies := next.dependencies)]
  {
    hide After, Applies, OutOf;
  }

  /** Before the send the row read becomes running, whatever has become of the row; a row that is gone ends the dispatch. */
  lemma PrepareMeans(w: World, k: Worker)
    requires Enabled(w, Prepare(k))
    ensures var id, read, w' := w.hands[k].id, w.hands[k].row, Apply(w, Prepare(k));
      if id in w.rows then
        && w'.rows == w.rows[id := w.rows[id].(
             status := if read.status == Running then w.rows[id].status else Running,
             dispatchStatus := "running", dependencies := read.dependencies)]
        && w'.hands == w.hands[k := Prepared(id, read.(status := Running, dispatchStatus := "running"))]
      else w'.rows == w.rows && w'.hands == w.hands - {k}
  {
    hide OutOf;
  }

  /** After it the answer is written in the same way; a dispatch that found no agent writes the failure at once. */
  lemma SettleMeans(w: World, k: Worker, send: SendOutcome)
    requires Enabled(w, Settle(k, send))
    ensures var id, held, w' := w.hands[k].id, w.hands[k].row, Apply(w, Settle(k, send));
      var goal := if w.hands[k].Loaded? || send == Rejected then Failed else Running;
      var mark := if w.hands[k].Loaded? || send == Rejected then "failed" else send.status;
      && w'.hands == w.hands - {k}
      && w'.rows == if id !in w.rows then w.rows else w.rows[id := w.rows[id].(
           status := if goal == held.status then w.rows[id].status else goal,
           dispatchStatus := mark, dependencies := held.dependencies)]
  {
    hide OutOf, Written;
    WrittenRows(w, Settle(k, send), WriteOf(w, Settle(k, send)).value);
  }

  /** What a request reads: all of the row, or, while a dispatch is sending, only its status. */
  lemma ReadingMeans(w: World, k: Worker, id: TaskId)
    ensures Enabled(w, Read(k, id)) ==> Apply(w, Read(k, id)) == w.(hands := w.hands[k := Reading(id, w.rows[id])])
    ensures Enabled(w, Refresh(k)) && w.hands[k].id !in w.rows ==> Apply(w, Refresh(k)) == w.(hands := w.hands - {k})
    ensures Enabled(w, Refresh(k)) && w.hands[k].id in w.rows ==>
      Apply(w, Refresh(k)) == w.(hands := w.hands[k :=
        if w.hands[k].Claimed? then Loaded(w.hands[k].id, w.rows[w.hands[k].id])
        else Sending(w.hands[k].id, w.hands[k].row.(status := w.rows[w.hands[k].id].status))])
  {
  }

  /** The counts: a row enters the queue when it becomes queued, and is claimed when a claim finds it queued and sets it running. */
  lemma CountsMean(w: World, s: Step, id: TaskId)
    requires Core(w) && Enabled(w, s)
    ensures var w' := Apply(w, s);
      w'.enqueued[id] == w.enqueued[id] + if QueuedIn(w'.rows, id) && !QueuedIn(w.rows, id) then 1 else 0
    ensures var w' := Apply(w, s);
      var claims := s.Claim? && w.hands[s.worker].id == id && QueuedIn(w.rows, id);
      && w'.claimed[id] == w.claimed[id] + (if claims then 1 else 0)
      && (claims ==> w'.rows == w.rows[id := w.rows[id].(status := Running)])
  {
    hide Core, WriteOf, Written, Runnable, Applies, WithoutAgent, DependsOn, OwedWithout, Put;
    WritersWrite(w, s);
    match s
    case Create(j, t) =>
      NotIssued(w, j);
      PutCounts(w, j, t, id);
    case Claim(k) =>
      var j := w.hands[k].id;
      if QueuedIn(w.rows, j) { PutCounts(w, j, w.rows[j].(status := Running), id); }
    case Remove(_) =>
    case Pick(_, _, _) =>
    case Refresh(_) =>
    case Read(_, _) =>
    case _ =>
      var p := WriteOf(w, s).value;
      if p.id in w.rows { WrittenCounts(w, s, p, id); } else { NoRowWritten(w, s, p); }
  }

  lemma PutCounts(w: World, j: TaskId, t: Task, id: TaskId)
    ensures var w' := Put(w, j, t);
      && w'.enqueued[id] == w.enqueued[id] + (if QueuedIn(w'.rows, id) && !QueuedIn(w.rows, id) then 1 else 0)
      && w'.claimed == w.claimed && w'.rows == w.rows[j := t]
  {
  }

  lemma WrittenCounts(w: World, s: Step, p: Pending, id: TaskId)
    requires p.id in w.rows
    ensures var w' := Written(w, s, p);
      && w'.enqueued[id] == w.enqueued[id] + (if QueuedIn(w'.rows, id) && !QueuedIn(w.rows, id) then 1 else 0)
      && w'.claimed == w.claimed
  {
    hide Put, Stored, OutOf;
    PutCounts(OwedLess(w, p.id, OutOf(w, s)), p.id, Stored(w.rows[p.id], p.read, p.next), id);
  }

  /** Continuing a row under one of the three marks, or waking it with its requirement, puts it into the queue once more. */
  lemma RequeuedOnce(w: World, k: Worker, change: Change)
    requires Core(w) && Enabled(w, Write(k, change)) && w.hands[k].id in w.rows
    requires change == Resume || (change == Continue && Mark(w.hands[k].row) in {"interrupted", "stopped", "blocked"})
    requires w.rows[w.hands[k].id].status == w.hands[k].row.status
    ensures var id, w' := w.hands[k].id, Apply(w, Write(k, change));
      && w'.rows == w.rows[id := w.rows[id].(status := Queued, dispatchStatus := "pending", dependencies := w.hands[k].row.dependencies)]
      && w'.enqueued[id] == w.enqueued[id] + 1
  {
    hide Core, Apply, Mark;
    WriteMeans(w, k, change);
    ChangesMean(w.hands[k].row, NOTHING);
    CountsMean(w, Write(k, change), w.hands[k].id);
  }

  // ----- The requests on single rows, commit by commit -----

  /** `interrupt_task`. */
  lemma InterruptIsCommits(ws: seq<World>, steps: seq<Step>, rows: Rows, hands: map<Worker, Hand>, issued: set<TaskId>, k: Worker, id: TaskId)
    returns (ws': seq<World>, steps': seq<Step>)
    requires Stage(ws, steps, rows, hands, issued) && k !in hands && id in rows
    ensures Stage(ws', steps', rows[id := Interrupted(rows[id])], hands, issued) && ws <= ws'
  {
    StageNow(ws, steps, rows, hands, issued);
    if rows[id].status == Queued || rows[id].status == Running {
      ws', steps' := DoChange(ws, steps, rows, hands, issued, k, id, Interrupt);
    } else {
      ws', steps' := ws, steps;
      assert rows[id := rows[id]] == rows;
    }
  }

  /** `continue_task`. */
  lemma ContinueTaskIsCommits(ws: seq<World>, steps: seq<Step>, rows: Rows, hands: map<Worker, Hand>, issued: set<TaskId>, k: Worker, id: TaskId)
    returns (ws': seq<World>, steps': seq<Step>)
    requires Stage(ws, steps, rows, hands, issued) && k !in hands && id in rows
    ensures Stage(ws', steps', rows[id := Continued(rows[id])], hands, issued) && ws <= ws'
  {
    hide Text.Strip, Text.Lower;
    StageNow(ws, steps, rows, hands, issued);
    if rows[id].status == Blocked {
      ws', steps' := DoChange(ws, steps, rows, hands, issued, k, id, Continue);
    } else {
      ws', steps' := ws, steps;
      assert rows[id := rows[id]] == rows;
    }
  }

  /** `reconcile_stale_running_tasks`: the completions, then the failures. */
  lemma ReconcileIsCommits(ws: seq<World>, steps: seq<Step>, rows: Rows, hands: map<Worker, Hand>, issued: set<TaskId>, k: Worker,
      inst: Option<Instance>, hasOutput: TaskId -> bool, stale: TaskId -> bool)
    returns (ws': seq<World>, steps': seq<Step>)
    requires Stage(ws, steps, rows, hands, issued) && k !in hands
    ensures Stage(ws', steps', ReconciledRows(rows, inst, hasOutput, stale), hands, issued) && ws <= ws'
  {
    hide Stage, MayChange, ChangedRows, ReconciledRows;
    StageNow(ws, steps, rows, hands, issued);
    var done := set id | id in rows && Visible(inst, rows[id]) && rows[id].status == Running && hasOutput(id);
    var lost := set id | id in rows && Visible(inst, rows[id]) && rows[id].status == Running && stale(id) && !hasOutput(id);
    forall id | id in done ensures MayChange(ws[|ws| - 1], id, Complete) { MayFinish(ws[|ws| - 1], id, Complete); }
    var ws1, steps1 := DoChangeAll(ws, steps, rows, hands, issued, k, done, Complete);
    var rows1 := ChangedRows(rows, done, Complete);
    StageNow(ws1, steps1, rows1, hands, issued);
    ReconcileInTwo(rows, inst, hasOutput, stale, done, lost);
    forall id | id in lost ensures MayChange(ws1[|ws1| - 1], id, Expire) { MayFinish(ws1[|ws1| - 1], id, Expire); }
    ws', steps' := DoChangeAll(ws1, steps1, rows1, hands, issued, k, lost, Expire);
  }

  lemma MayFinish(w: World, id: TaskId, change: Change)
    requires id in w.rows && w.rows[id].status == Running && (change == Complete || change == Expire)
    ensures MayChange(w, id, change)
  {
  }

  lemma ReconcileInTwo(rows: Rows, inst: Option<Instance>, hasOutput: TaskId -> bool, stale: TaskId -> bool, done: set<TaskId>, lost: set<TaskId>)
    requires done == set id | id in rows && Visible(inst, rows[id]) && rows[id].status == Running && hasOutput(id)
    requires lost == set id | id in rows && Visible(inst, rows[id]) && rows[id].status == Running && stale(id) && !hasOutput(id)
    ensures var rows1 := ChangedRows(rows, done, Complete);
      && (forall id :: id in lost ==> id in rows1 && rows1[id] == rows[id])
      && ChangedRows(rows1, lost, Expire) == ReconciledRows(rows, inst, hasOutput, stale)
  {
    hide Visible;
  }
}
