/** What each request other than a dispatch does to the rows. */
module TaskSteps {
  import opened Wrappers
  import opened Ids
  import opened Sequences
  import opened Tasks
  import opened TaskDependencies
  import Text

  // ----- Reconciliation and completion by output file -----

  function CompletedByOutput(t: Task): Task {
    if t.status == Running then t.(status := Completed, dispatchStatus := "completed") else t
  }

  /** A failed send and a lost heartbeat leave the same trace. */
  function MarkedFailed(t: Task): Task {
    t.(status := Failed, dispatchStatus := "failed")
  }

  function Reconciled(t: Task, hasOutput: bool, stale: bool): Task {
    if t.status != Running then t
    else if hasOutput then CompletedByOutput(t)
    else if stale then MarkedFailed(t)
    else t
  }

  /** `hasOutput` says whose output file exists, `stale` whose heartbeat is too old. */
  ghost function ReconciledRows(rows: Rows, inst: Option<Instance>, hasOutput: TaskId -> bool, stale: TaskId -> bool): Rows {
    map id | id in rows :: if Visible(inst, rows[id]) then Reconciled(rows[id], hasOutput(id), stale(id)) else rows[id]
  }

  // ----- Interrupt, continue, stop -----

  function Interrupted(t: Task): Task {
    if t.status == Queued || t.status == Running then t.(status := Blocked, dispatchStatus := "interrupted") else t
  }

  function Resumed(t: Task): Task {
    t.(status := Queued, dispatchStatus := "pending")
  }

  /** `continue_task`: an interrupted row is queued again, any other blocked row counts as approved. */
  function Continued(t: Task): Task {
    if t.status != Blocked then t
    else if Text.Lower(Text.Strip(t.dispatchStatus)) in ["interrupted", "stopped", "blocked"] then Resumed(t)
    else t.(status := Completed, dispatchStatus := "approved")
  }

  /** `continue_requirement` only wakes rows that an interruption blocked. */
  function ContinuedWithRequirement(t: Task): Task {
    if t.status == Blocked && Text.Lower(Text.Strip(t.dispatchStatus)) == "interrupted" then Resumed(t) else t
  }

  ghost function OnRequirement(rows: Rows, requirement: Id, change: Task -> Task): Rows {
    map id | id in rows :: if rows[id].requirementId == requirement then change(rows[id]) else rows[id]
  }

  // ----- Deleting -----

  function Without(deps: seq<Id>, node: Id): seq<Id> {
    Filter(deps, d => d != node)
  }

  function Stripped(t: Task, node: Id): Task {
    if node in DependsOn(t) then t.(dependencies := Some(Encode(Without(DependsOn(t), node)))) else t
  }

  /** `_delete_task_impl`: drop the row, then take its node out of the requirement's dependency lists. */
  ghost function DeletedRows(rows: Rows, id: TaskId): Rows
    requires id in rows
  {
    var t := rows[id];
    map j | j in rows && j != id ::
      if t.flowNode != NOTHING && rows[j].requirementId == t.requirementId then Stripped(rows[j], t.flowNode) else rows[j]
  }

  ghost function RequirementDeleted(rows: Rows, requirement: Id): Rows {
    map id | id in rows && rows[id].requirementId != requirement :: rows[id]
  }

  // ----- Creating -----

  datatype Draft = Draft(id: Id, dependsOn: seq<Id>, agentId: string)

  function FlowTask(createdAt: int, inst: Instance, flow: Id, draft: Draft, layer: nat): Task {
    Task(createdAt, Some(inst), flow, flow, Id(Text.Strip(draft.id.text)), layer, Some(Encode(draft.dependsOn)), draft.agentId, Queued, "pending")
  }

  // ----- Facts about the row changes -----

  lemma {:induction false} WithoutMembers(deps: seq<Id>, node: Id, d: Id)
    ensures d in Without(deps, node) <==> d in deps && d != node
  {
    FilterMembers(deps, x => x != node, d);
  }

  /** A list that reads as "no dependencies". */
  const NO_DEPENDENCIES: seq<Id> := [Id("none")]

  /** What stripping a node takes out of a list: the node, and with it a dependency on a node called "none" left alone. */
  function TakenOut(t: Task, node: Id): set<Id> {
    {node} + if Without(DependsOn(t), node) == NO_DEPENDENCIES then Elements(NO_DEPENDENCIES) else {}
  }

  /** The list after stripping, read back from its text. */
  lemma StrippedList(t: Task, node: Id)
    requires node in DependsOn(t)
    ensures var kept := Without(DependsOn(t), node);
      DependsOn(Stripped(t, node)) == if kept == NO_DEPENDENCIES then [] else kept
  {
    hide Parse, Encode;
    var kept := Without(DependsOn(t), node);
    ParseIsClean(t.dependencies);
    forall i | 0 <= i < |kept| ensures Clean(kept[i]) {
      assert kept[i] in kept;
      WithoutMembers(DependsOn(t), node, kept[i]);
      var k :| 0 <= k < |DependsOn(t)| && DependsOn(t)[k] == kept[i];
    }
    RoundTripOfClean(kept);
  }

  /** Whatever the list looks like as text: stripping takes out exactly that. */
  lemma StrippedDeps(t: Task, node: Id, d: Id)
    requires node in DependsOn(t)
    ensures d in DependsOn(Stripped(t, node)) <==> d in DependsOn(t) && d !in TakenOut(t, node)
  {
    hide Parse, Encode, Without;
    var kept := Without(DependsOn(t), node);
    StrippedList(t, node);
    WithoutMembers(DependsOn(t), node, d);
    if kept == NO_DEPENDENCIES {
      assert d in kept <==> d == NO_DEPENDENCIES[0];
    }
  }
}
