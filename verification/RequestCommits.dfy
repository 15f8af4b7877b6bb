/** The requests that change several rows, read as runs: if nothing else commits, their commits add up to what they promise. */
module RequestCommits {
  import opened Ids
  import opened Tasks
  import opened TaskSteps
  import opened SchedulerSteps
  import opened SchedulerRaces
  import Text

  /** Rows `ids` changed, the others untouched. */
  ghost function ChangedRows(rows: Rows, ids: set<TaskId>, change: Change): Rows {
    map id | id in rows :: if id in ids then After(change, rows[id]) else rows[id]
  }

  ghost predicate MayChange(w: World, id: TaskId, change: Change) {
    id in w.rows && Applies(change, w.rows[id]) && (change.Strip? ==> Removed(w.rows[id].requirementId, change.node) in w.removed)
  }

  /** One request on one row: read it, write what follows from that. */
  lemma DoChange(ws: seq<World>, steps: seq<Step>, rows: Rows, hands: map<Worker, Hand>, issued: set<TaskId>,
      k: Worker, id: TaskId, change: Change)
    returns (ws': seq<World>, steps': seq<Step>)
    requires Stage(ws, steps, rows, hands, issued) && k !in hands && MayChange(ws[|ws| - 1], id, change)
    ensures id in rows && Stage(ws', steps', rows[id := After(change, rows[id])], hands, issued)
    ensures ws <= ws' && ws'[|ws'| - 1].removed == ws[|ws| - 1].removed
  {
    hide Run, Applies, After;
    var w := ws[|ws| - 1];
    OneMore(ws, steps, Read(k, id));
    var w1 := Apply(w, Read(k, id));
    AfterKeeps(change, rows[id]);
    StoredUndisturbed(rows[id], After(change, rows[id]));
    OneMore(ws + [w1], steps + [Read(k, id)], Write(k, change));
    var w2 := Apply(w1, Write(k, change));
    ws', steps' := ws + [w1] + [w2], steps + [Read(k, id)] + [Write(k, change)];
    WriteLands(w1, k, change, id, rows[id]);
    assert w2.hands == hands;
  }

  lemma WriteLands(w: World, k: Worker, change: Change, id: TaskId, read: Task)
    requires k in w.hands && w.hands[k] == Reading(id, read) && id in w.rows
    ensures var w' := Apply(w, Write(k, change));
      && w'.rows == w.rows[id := Stored(w.rows[id], read, After(change, read))]
      && w'.hands == w.hands - {k} && w'.issued == w.issued && w'.removed == w.removed
  {
    hide Stored, After, OutOf;
  }

  lemma {:induction false} DoChangeAll(ws: seq<World>, steps: seq<Step>, rows: Rows, hands: map<Worker, Hand>, issued: set<TaskId>,
      k: Worker, ids: set<TaskId>, change: Change)
    returns (ws': seq<World>, steps': seq<Step>)
    requires Stage(ws, steps, rows, hands, issued) && k !in hands
    requires forall id :: id in ids ==> MayChange(ws[|ws| - 1], id, change)
    ensures Stage(ws', steps', ChangedRows(rows, ids, change), hands, issued) && ws <= ws'
    decreases |ids|
  {
    hide Stage, Applies, After, MayChange, ChangedRows;
    NoRowChanged(rows, change);
    if ids == {} {
      ws', steps' := ws, steps;
    } else {
      var id :| id in ids;
      var ws1, steps1 := DoChange(ws, steps, rows, hands, issued, k, id, change);
      var rows1 := rows[id := After(change, rows[id])];
      StageNow(ws, steps, rows, hands, issued);
      StageNow(ws1, steps1, rows1, hands, issued);
      forall j | j in ids - {id} ensures MayChange(ws1[|ws1| - 1], j, change) {
        OthersMayStill(ws[|ws| - 1], ws1[|ws1| - 1], id, After(change, rows[id]), j, change);
      }
      ws', steps' := DoChangeAll(ws1, steps1, rows1, hands, issued, k, ids - {id}, change);
      OneRowChanged(rows, ids, id, change);
    }
  }

  lemma NoRowChanged(rows: Rows, change: Change)
    ensures ChangedRows(rows, {}, change) == rows
  {
    hide After;
  }

  lemma OneRowChanged(rows: Rows, ids: set<TaskId>, id: TaskId, change: Change)
    requires id in ids && id in rows
    ensures ChangedRows(rows[id := After(change, rows[id])], ids - {id}, change) == ChangedRows(rows, ids, change)
  {
    hide After;
  }

  lemma OthersMayStill(w: World, w': World, id: TaskId, t: Task, j: TaskId, change: Change)
    requires MayChange(w, j, change) && j != id && w'.rows == w.rows[id := t] && w'.removed == w.removed
    ensures MayChange(w', j, change)
  {
    hide Applies;
  }

  lemma StageNow(ws: seq<World>, steps: seq<Step>, rows: Rows, hands: map<Worker, Hand>, issued: set<TaskId>)
    requires Stage(ws, steps, rows, hands, issued)
    ensures |ws| > 0 && ws[|ws| - 1].rows == rows
  {
  }

  /** `stop_requirement`. */
  lemma StopIsCommits(ws: seq<World>, steps: seq<Step>, rows: Rows, hands: map<Worker, Hand>, issued: set<TaskId>, k: Worker, requirement: Id)
    returns (ws': seq<World>, steps': seq<Step>)
    requires Stage(ws, steps, rows, hands, issued) && k !in hands
    ensures Stage(ws', steps', OnRequirement(rows, requirement, Interrupted), hands, issued) && ws <= ws'
  {
    hide Stage, Interrupted;
    StageNow(ws, steps, rows, hands, issued);
    var ids := set id | id in rows && rows[id].requirementId == requirement;
    ws', steps' := DoChangeAll(ws, steps, rows, hands, issued, k, ids, Stop);
    assert ChangedRows(rows, ids, Stop) == OnRequirement(rows, requirement, Interrupted);
  }

  /** `continue_requirement`. */
  lemma ContinueIsCommits(ws: seq<World>, steps: seq<Step>, rows: Rows, hands: map<Worker, Hand>, issued: set<TaskId>, k: Worker, requirement: Id)
    returns (ws': seq<World>, steps': seq<Step>)
    requires Stage(ws, steps, rows, hands, issued) && k !in hands
    ensures Stage(ws', steps', OnRequirement(rows, requirement, ContinuedWithRequirement), hands, issued) && ws <= ws'
  {
    hide Stage, Text.Lower, Text.Strip;
    StageNow(ws, steps, rows, hands, issued);
    var ids := set id | id in rows && rows[id].requirementId == requirement && Applies(Resume, rows[id]);
    ws', steps' := DoChangeAll(ws, steps, rows, hands, issued, k, ids, Resume);
    assert ChangedRows(rows, ids, Resume) == OnRequirement(rows, requirement, ContinuedWithRequirement);
  }

  /** `delete_task`: the deletion, then one write per row that lists the node. */
  lemma DeletionIsCommits(ws: seq<World>, steps: seq<Step>, rows: Rows, hands: map<Worker, Hand>, issued: set<TaskId>, k: Worker, id: TaskId)
    returns (ws': seq<World>, steps': seq<Step>)
    requires Stage(ws, steps, rows, hands, issued) && k !in hands && id in rows
    ensures Stage(ws', steps', DeletedRows(rows, id), hands, issued) && ws <= ws'
  {
    hide Run, Stripped, DependsOn, OwedWithout;
    var gone, left := rows[id], rows - {id};
    OneMore(ws, steps, Remove(id));
    var ws1, steps1 := ws + [Apply(ws[|ws| - 1], Remove(id))], steps + [Remove(id)];
    assert Stage(ws1, steps1, left, hands, issued);
    if gone.flowNode == NOTHING {
      ws', steps' := ws1, steps1;
      assert left == DeletedRows(rows, id);
    } else {
      var ids := set j | j in left && left[j].requirementId == gone.requirementId && gone.flowNode in DependsOn(left[j]);
      ws', steps' := DoChangeAll(ws1, steps1, left, hands, issued, k, ids, Strip(gone.flowNode));
      StripsThose(rows, id, ids);
    }
  }

  lemma StripsThose(rows: Rows, id: TaskId, ids: set<TaskId>)
    requires id in rows && rows[id].flowNode != NOTHING
    requires ids == set j | j in rows - {id} && rows[j].requirementId == rows[id].requirementId && rows[id].flowNode in DependsOn(rows[j])
    ensures ChangedRows(rows - {id}, ids, Strip(rows[id].flowNode)) == DeletedRows(rows, id)
  {
    hide DependsOn, Without;
  }
}
