/** Which flows can run to their end: those whose waiting rows list only nodes that have a row, and wait in no circle. */
module FlowProgress {
  import opened Wrappers
  import opened Ids
  import opened Sequences
  import opened Graph
  import opened Tasks
  import opened TaskSteps
  import opened SchedulerSteps
  import TaskDependencies
  import Text

  /** Nothing of the flow is running, failed or blocked. */
  ghost predicate Calm(rows: Rows, f: Id) {
    forall id :: id in rows && rows[id].flowId == f ==> rows[id].status == Queued || rows[id].status == Completed
  }

  ghost function Waiting(rows: Rows, f: Id): set<TaskId> {
    set id | id in rows && rows[id].flowId == f && rows[id].status == Queued
  }

  ghost predicate AllFinished(rows: Rows, f: Id) {
    forall id :: id in rows && rows[id].flowId == f ==> rows[id].status == Completed
  }

  /** `confirm_flow` creates all rows of a flow in one workspace. */
  ghost predicate OneInstance(rows: Rows, f: Id) {
    forall j, k :: j in rows && k in rows && rows[j].flowId == f && rows[k].flowId == f ==> rows[j].instance == rows[k].instance
  }

  /** Every waiting row can be sent to an agent. */
  ghost predicate HaveAgents(rows: Rows, f: Id) {
    forall id :: id in Waiting(rows, f) ==> !WithoutAgent(rows[id])
  }

  ghost predicate HasRow(rows: Rows, f: Id, n: Id) {
    exists j :: IsNode(rows, None, f, n, j)
  }

  /** Every node a waiting row lists has a row. */
  ghost predicate Listed(rows: Rows, f: Id) {
    forall id, d :: id in Waiting(rows, f) && d in DependsOn(rows[id]) ==> HasRow(rows, f, d)
  }

  /** The row the dispatcher looks at for its node. */
  ghost predicate Leads(rows: Rows, f: Id, id: TaskId) {
    id in rows && Latest(rows, None, f, rows[id].flowNode, id)
  }

  ghost function OpenDeps(rows: Rows, f: Id, id: TaskId): seq<Id>
    requires id in rows
  {
    Filter(DependsOn(rows[id]), d => !NodeDone(rows, None, f, d))
  }

  /** Per node that still waits the dependencies it waits for. */
  ghost function Open(rows: Rows, f: Id): Deps {
    LeadsUnique(rows, f);
    map id | id in Waiting(rows, f) && Leads(rows, f, id) :: rows[id].flowNode := OpenDeps(rows, f, id)
  }

  lemma LeadsUnique(rows: Rows, f: Id)
    ensures forall j, k :: Leads(rows, f, j) && Leads(rows, f, k) && rows[j].flowNode == rows[k].flowNode ==> j == k
  {
  }

  lemma OpenAt(rows: Rows, f: Id, id: TaskId)
    requires id in Waiting(rows, f) && Leads(rows, f, id)
    ensures rows[id].flowNode in Open(rows, f) && Open(rows, f)[rows[id].flowNode] == OpenDeps(rows, f, id)
  {
    hide Leads, OpenDeps;
    LeadsUnique(rows, f);
  }

  lemma OpenKey(rows: Rows, f: Id, n: Id) returns (id: TaskId)
    requires n in Open(rows, f)
    ensures id in Waiting(rows, f) && Leads(rows, f, id) && rows[id].flowNode == n && Open(rows, f)[n] == OpenDeps(rows, f, id)
  {
    hide Leads, OpenDeps;
    id :| id in Waiting(rows, f) && Leads(rows, f, id) && rows[id].flowNode == n;
    OpenAt(rows, f, id);
  }

  lemma OpenDepsAt(rows: Rows, f: Id, id: TaskId, d: Id)
    requires id in rows
    ensures d in OpenDeps(rows, f, id) <==> d in DependsOn(rows[id]) && !NodeDone(rows, None, f, d)
  {
    FilterMembers(DependsOn(rows[id]), x => !NodeDone(rows, None, f, x), d);
  }

  /** A node that has a row has a leading one. */
  lemma {:induction false} LeadExists(rows: Rows, f: Id, n: Id) returns (lead: TaskId)
    requires HasRow(rows, f, n)
    ensures Latest(rows, None, f, n, lead) && Leads(rows, f, lead)
  {
    var nodes := set k | k in rows && IsNode(rows, None, f, n, k);
    var j :| IsNode(rows, None, f, n, j);
    assert j in nodes;
    lead := LastOf(rows, nodes);
  }

  lemma {:induction false} LastOf(rows: Rows, ids: set<TaskId>) returns (last: TaskId)
    requires ids != {} && forall id :: id in ids ==> id in rows
    ensures last in ids && forall id :: id in ids && id != last ==> Before(rows, id, last)
    decreases |ids|
  {
    var one :| one in ids;
    var others := ids - {one};
    last := one;
    if others != {} {
      var rest := LastOf(rows, others);
      last := if Before(rows, one, rest) then rest else one;
    }
    forall id | id in ids && id != last ensures Before(rows, id, last) {
      assert id == one || id in others;
    }
  }

  // ----- When a waiting row may run -----

  lemma SameView(rows: Rows, f: Id, id: TaskId, d: Id)
    requires OneInstance(rows, f) && id in rows && rows[id].flowId == f
    ensures NodeDone(rows, rows[id].instance, f, d) <==> NodeDone(rows, None, f, d)
  {
    var inst := rows[id].instance;
    assert forall k :: IsNode(rows, inst, f, d, k) <==> IsNode(rows, None, f, d, k);
    assert forall k :: Latest(rows, inst, f, d, k) <==> Latest(rows, None, f, d, k);
  }

  lemma RunnableIff(rows: Rows, f: Id, id: TaskId)
    requires f != NOTHING && OneInstance(rows, f) && id in Waiting(rows, f)
    ensures Runnable(rows, rows[id].instance, id) <==> OpenDeps(rows, f, id) == []
  {
    hide OneInstance, NodeDone, DependsOn, OpenDeps;
    forall d ensures d in OpenDeps(rows, f, id) <==> d in DependsOn(rows[id]) && !NodeDone(rows, rows[id].instance, f, d) {
      OpenDepsAt(rows, f, id, d);
      SameView(rows, f, id, d);
    }
    if OpenDeps(rows, f, id) != [] {
      assert OpenDeps(rows, f, id)[0] in OpenDeps(rows, f, id);
    }
  }

  // ----- One task from dispatch to output file -----

  /** With an accepting agent; a row without an agent fails instead. */
  ghost function RunTask(rows: Rows, id: TaskId): Rows
    requires id in rows
  {
    rows[id := CompletedByOutput(Settled(rows[id], Accepted("accepted")))]
  }

  /** `ids` is a legal order of dispatching tasks of the flow one after the other, ending in `final`. */
  ghost predicate Schedule(rows: Rows, f: Id, ids: seq<TaskId>, final: Rows) {
    if ids == [] then rows == final
    else
      && ids[0] in rows && rows[ids[0]].flowId == f
      && Runnable(rows, rows[ids[0]].instance, ids[0])
      && Schedule(RunTask(rows, ids[0]), f, ids[1..], final)
  }

  ghost predicate CanDrain(rows: Rows, f: Id) {
    exists ids, final :: Schedule(rows, f, ids, final) && AllFinished(final, f)
  }

  lemma RunTaskRow(rows: Rows, id: TaskId)
    requires id in rows
    ensures SameTask(rows[id], RunTask(rows, id)[id])
    ensures RunTask(rows, id)[id].status == if WithoutAgent(rows[id]) then Failed else Completed
  {
    hide Text.Strip;
  }

  /** What one task changes: it no longer waits, and its node is done if the row leads it. */
  lemma NodeDoneAfter(rows: Rows, f: Id, id: TaskId, d: Id)
    requires id in Waiting(rows, f) && !WithoutAgent(rows[id])
    ensures NodeDone(RunTask(rows, id), None, f, d) <==> NodeDone(rows, None, f, d) || (d == rows[id].flowNode && Leads(rows, f, id))
  {
    hide RunTask, WithoutAgent, DependsOn;
    var rows' := RunTask(rows, id);
    RunTaskRow(rows, id);
    RunTaskOthers(rows, id);
    forall k ensures Latest(rows', None, f, d, k) <==> Latest(rows, None, f, d, k) {
      SameLatest(rows, rows', f, d, k);
    }
  }

  lemma RunTaskOthers(rows: Rows, id: TaskId)
    requires id in rows
    ensures RunTask(rows, id).Keys == rows.Keys && forall j :: j in rows && j != id ==> RunTask(rows, id)[j] == rows[j]
    ensures forall j :: j in rows ==> SameTask(rows[j], RunTask(rows, id)[j])
  {
    RunTaskRow(rows, id);
    hide CompletedByOutput, Settled;
  }

  lemma SameLatest(rows: Rows, rows': Rows, f: Id, d: Id, k: TaskId)
    requires rows'.Keys == rows.Keys && forall j :: j in rows ==> SameTask(rows[j], rows'[j])
    ensures Latest(rows', None, f, d, k) <==> Latest(rows, None, f, d, k)
  {
    assert forall j :: IsNode(rows', None, f, d, j) <==> IsNode(rows, None, f, d, j);
  }

  lemma RunTaskFrame(rows: Rows, f: Id, id: TaskId)
    requires id in Waiting(rows, f)
    ensures var rows' := RunTask(rows, id);
      && Waiting(rows', f) == Waiting(rows, f) - {id}
      && (OneInstance(rows, f) ==> OneInstance(rows', f))
      && (forall d :: HasRow(rows', f, d) <==> HasRow(rows, f, d))
      && (forall j :: Leads(rows', f, j) <==> Leads(rows, f, j))
      && (forall j :: j in rows ==> j in rows' && DependsOn(rows'[j]) == DependsOn(rows[j]) && rows'[j].flowNode == rows[j].flowNode)
  {
    hide RunTask, WithoutAgent, TaskDependencies.Parse;
    var rows' := RunTask(rows, id);
    RunTaskRow(rows, id);
    RunTaskOthers(rows, id);
    forall d ensures HasRow(rows', f, d) <==> HasRow(rows, f, d) {
      assert forall j :: IsNode(rows', None, f, d, j) <==> IsNode(rows, None, f, d, j);
    }
    forall j ensures Leads(rows', f, j) <==> Leads(rows, f, j) {
      if j in rows { SameLatest(rows, rows', f, rows[j].flowNode, j); }
    }
  }

  /** The open dependencies afterwards: the node is gone as a key and as a dependency, if the row leads it. */
  lemma OpenAfter(rows: Rows, f: Id, id: TaskId, v: Id, d: Id)
    requires id in Waiting(rows, f) && !WithoutAgent(rows[id])
    ensures var n, rows' := rows[id].flowNode, RunTask(rows, id);
      && (v in Open(rows', f) <==> v in Open(rows, f) && !(v == n && Leads(rows, f, id)))
      && (v in Open(rows', f) ==> (d in Open(rows', f)[v] <==> d in Open(rows, f)[v] && !(d == n && Leads(rows, f, id))))
  {
    hide RunTask, WithoutAgent, DependsOn, Leads, Open, OpenDeps, NodeDone, Waiting, HasRow;
    InRows(rows, f, id);
    var n, rows' := rows[id].flowNode, RunTask(rows, id);
    RunTaskFrame(rows, f, id);
    LeadsUnique(rows, f);
    if v in Open(rows', f) {
      var j := OpenKey(rows', f, v);
      StillWaits(rows, f, id, j);
      InRows(rows, f, j);
      OpenAt(rows, f, j);
      OpenDepsAt(rows, f, j, d);
      OpenDepsAt(rows', f, j, d);
      NodeDoneAfter(rows, f, id, d);
    }
    if v in Open(rows, f) && !(v == n && Leads(rows, f, id)) {
      var j := OpenKey(rows, f, v);
      InRows(rows, f, j);
      OpenAt(rows', f, j);
    }
  }

  lemma StillWaits(rows: Rows, f: Id, id: TaskId, j: TaskId)
    requires id in Waiting(rows, f) && j in Waiting(rows, f) - {id}
    ensures j in rows && j in Waiting(rows, f) && j != id
  {
  }

  // ----- Exactly which flows can drain -----

  ghost predicate Drainable(rows: Rows, f: Id) {
    Calm(rows, f) && HaveAgents(rows, f) && Listed(rows, f) && !HasCycle(Open(rows, f))
  }

  /** In a calm flow whose waiting rows list only nodes with a row, what is waited for is waiting. */
  lemma OpenIsClosed(rows: Rows, f: Id)
    requires Calm(rows, f) && Listed(rows, f)
    ensures Closed(Open(rows, f))
  {
    hide Open, OpenDeps, Listed, Leads, HasRow, DependsOn;
    forall v, d | v in Open(rows, f) && d in Open(rows, f)[v] ensures d in Open(rows, f) {
      var id := OpenKey(rows, f, v);
      OpenDepsAt(rows, f, id, d);
      AwaitedWaits(rows, f, id, d);
    }
  }

  lemma AwaitedWaits(rows: Rows, f: Id, id: TaskId, d: Id)
    requires Calm(rows, f) && Listed(rows, f) && id in Waiting(rows, f)
    requires d in DependsOn(rows[id]) && !NodeDone(rows, None, f, d)
    ensures d in Open(rows, f)
  {
    hide Open, DependsOn, Leads, HasRow;
    assert HasRow(rows, f, d);
    var lead := LeadExists(rows, f, d);
    assert rows[lead].flowId == f && rows[lead].flowNode == d;
    assert rows[lead].status != Completed;
    OpenAt(rows, f, lead);
  }

  /** A row that may run, found by going back from a node that waits. */
  lemma SomeRunnable(rows: Rows, f: Id) returns (id: TaskId)
    requires f != NOTHING && OneInstance(rows, f) && Drainable(rows, f) && Waiting(rows, f) != {}
    ensures id in Waiting(rows, f) && Runnable(rows, rows[id].instance, id)
  {
    hide OneInstance, Listed, HaveAgents, Open, OpenDeps, HasCycle, Runnable, Waiting, Calm, DependsOn, Leads, NodeDone;
    OpenIsClosed(rows, f);
    id :| id in Waiting(rows, f);
    InRows(rows, f, id);
    if OpenDeps(rows, f, id) != [] {
      var d := OpenDeps(rows, f, id)[0];
      OpenDepsAt(rows, f, id, d);
      AwaitedWaits(rows, f, id, d);
      var v := FreeNode(Open(rows, f), d);
      id := OpenKey(rows, f, v);
    }
    RunnableIff(rows, f, id);
  }

  lemma InRows(rows: Rows, f: Id, id: TaskId)
    requires id in Waiting(rows, f)
    ensures id in rows && rows[id].flowId == f && rows[id].status == Queued
  {
  }

  /** A closed graph without cycles has a node that depends on nothing. */
  lemma FreeNode(g: Deps, start: Id) returns (v: Id)
    requires Closed(g) && !HasCycle(g) && start in g
    ensures v in g && g[v] == []
  {
    hide HasCycle, Closed;
    if !(exists x :: x in g && g[x] == []) {
      forall x | x in g && x !in {} ensures Waits(g, {}, x) {
        assert g[x][0] in g[x];
      }
      var p := BackChain(g, {}, start, |g|);
      LongChainMeetsCycle(g, p, start);
      CycleSeen(g, start);
    }
    v :| v in g && g[v] == [];
  }

  lemma CycleSeen(g: Deps, v: Id)
    requires DependsOnCycle(g, v)
    ensures HasCycle(g)
  {
  }

  lemma NewRowsCalm(rows: Rows, f: Id, id: TaskId)
    requires id in Waiting(rows, f)
    ensures !WithoutAgent(rows[id]) ==> (Calm(RunTask(rows, id), f) <==> Calm(rows, f))
    ensures WithoutAgent(rows[id]) ==> !Calm(RunTask(rows, id), f)
  {
    hide RunTask, WithoutAgent, DependsOn;
    RunTaskRow(rows, id);
    RunTaskOthers(rows, id);
    var rows' := RunTask(rows, id);
    assert rows'[id].flowId == f;
    forall j | j in rows && j != id ensures rows'[j] == rows[j] {}
  }

  /** Every node of a cycle depends on something. */
  lemma CycleDepends(g: Deps, c: seq<Id>, n: Id)
    requires IsCycle(g, c) && n in c
    ensures n in g && g[n] != []
  {
    var i :| 0 <= i < |c| && c[i] == n;
    var j := if i == 0 then |c| - 1 else i;
    assert c[j - 1] in g[c[j]];
  }

  /** Same keys and edges, except around a node that depends on nothing: the same cycles. */
  lemma CyclesMatch(g: Deps, g': Deps, gone: set<Id>)
    requires forall n :: n in gone && n in g ==> g[n] == []
    requires forall v :: v in g' <==> v in g && v !in gone
    requires forall v, d {:trigger d in g'[v]} {:trigger d in g[v]} :: v in g' ==> (d in g'[v] <==> d in g[v] && d !in gone)
    ensures HasCycle(g) <==> HasCycle(g')
  {
    if c :| IsCycle(g, c) {
      forall x | x in c ensures x in g' {
        CycleDepends(g, c, x);
      }
      assert IsCycle(g', c);
    }
    if c :| IsCycle(g', c) {
      assert IsCycle(g, c);
    }
  }

  /** Running a task that may run neither opens nor closes a way to the end. */
  lemma RunTaskKeepsDrainable(rows: Rows, f: Id, id: TaskId)
    requires f != NOTHING && OneInstance(rows, f) && id in Waiting(rows, f) && Runnable(rows, rows[id].instance, id)
    ensures var rows' := RunTask(rows, id);
      OneInstance(rows', f) && (Drainable(rows', f) <==> Drainable(rows, f)) && Waiting(rows', f) == Waiting(rows, f) - {id}
  {
    hide OneInstance, Listed, HaveAgents, Open, OpenDeps, HasCycle, Runnable, Calm, RunTask, WithoutAgent, DependsOn, Leads;
    var rows' := RunTask(rows, id);
    RunTaskFrame(rows, f, id);
    NewRowsCalm(rows, f, id);
    if WithoutAgent(rows[id]) {
      NoAgent(rows, f, id);
    } else {
      RunnableIff(rows, f, id);
      RunTaskKeepsListed(rows, f, id);
      RunTaskKeepsAgents(rows, f, id);
      var gone := if Leads(rows, f, id) then {rows[id].flowNode} else {};
      forall n | n in gone && n in Open(rows, f) ensures Open(rows, f)[n] == [] {
        OpenAt(rows, f, id);
      }
      forall v, d {:trigger d in Open(rows', f)[v]} ensures
        && (v in Open(rows', f) <==> v in Open(rows, f) && v !in gone)
        && (v in Open(rows', f) ==> (d in Open(rows', f)[v] <==> d in Open(rows, f)[v] && d !in gone))
      {
        OpenAfter(rows, f, id, v, d);
      }
      SameKeys(rows, f, id, gone);
      CyclesMatch(Open(rows, f), Open(rows', f), gone);
    }
  }

  lemma SameKeys(rows: Rows, f: Id, id: TaskId, gone: set<Id>)
    requires id in Waiting(rows, f) && !WithoutAgent(rows[id])
    requires gone == if Leads(rows, f, id) then {rows[id].flowNode} else {}
    ensures forall v :: v in Open(RunTask(rows, id), f) <==> v in Open(rows, f) && v !in gone
  {
    hide Open, RunTask, Waiting, WithoutAgent, Leads;
    InRows(rows, f, id);
    forall v ensures v in Open(RunTask(rows, id), f) <==> v in Open(rows, f) && v !in gone {
      OpenAfter(rows, f, id, v, v);
    }
  }

  lemma NoAgent(rows: Rows, f: Id, id: TaskId)
    requires id in Waiting(rows, f) && WithoutAgent(rows[id])
    ensures !HaveAgents(rows, f)
  {
    hide WithoutAgent;
  }

  /** The other waiting rows list what they listed; the row itself may run, so its dependencies have rows. */
  lemma RunTaskKeepsListed(rows: Rows, f: Id, id: TaskId)
    requires id in Waiting(rows, f) && OpenDeps(rows, f, id) == []
    ensures Listed(RunTask(rows, id), f) <==> Listed(rows, f)
  {
    hide RunTask, DependsOn, OpenDeps, Leads, NodeDone, HasRow;
    RunTaskFrame(rows, f, id);
    forall d | d in DependsOn(rows[id]) ensures HasRow(rows, f, d) {
      OpenDepsAt(rows, f, id, d);
      DoneHasRow(rows, f, d);
    }
  }

  lemma DoneHasRow(rows: Rows, f: Id, d: Id)
    requires NodeDone(rows, None, f, d)
    ensures HasRow(rows, f, d)
  {
  }

  lemma RunTaskKeepsAgents(rows: Rows, f: Id, id: TaskId)
    requires id in Waiting(rows, f) && !WithoutAgent(rows[id])
    ensures HaveAgents(RunTask(rows, id), f) <==> HaveAgents(rows, f)
  {
    hide RunTask, WithoutAgent, Waiting, Leads, DependsOn, HasRow;
    InRows(rows, f, id);
    RunTaskFrame(rows, f, id);
    RunTaskOthers(rows, id);
    var rows' := RunTask(rows, id);
    forall j | j in Waiting(rows, f) && j != id ensures j in rows && j in rows' && rows'[j] == rows[j] {
      InRows(rows, f, j);
    }
  }

  lemma RunnableWaits(rows: Rows, f: Id, id: TaskId)
    requires id in rows && rows[id].flowId == f && Runnable(rows, rows[id].instance, id)
    ensures id in Waiting(rows, f)
  {
  }

  lemma NoneWaiting(rows: Rows, f: Id)
    ensures AllFinished(rows, f) <==> Calm(rows, f) && Waiting(rows, f) == {}
  {
    forall id | Calm(rows, f) && Waiting(rows, f) == {} && id in rows && rows[id].flowId == f ensures rows[id].status == Completed {
      assert id !in Waiting(rows, f);
    }
  }

  lemma FinishedIsDrainable(rows: Rows, f: Id)
    requires AllFinished(rows, f)
    ensures Drainable(rows, f)
  {
    NoneWaiting(rows, f);
    hide Waiting, OpenDeps, Leads, WithoutAgent, DependsOn;
    assert Open(rows, f) == map[];
    assert !HasCycle(map[]) by {
      forall c ensures !IsCycle(map[], c) {
        if |c| > 0 { assert c[0] in c; }
      }
    }
  }

  /** One schedule that finishes the flow, with one dispatch per waiting row. */
  lemma {:induction false} FlowDrains(rows: Rows, f: Id) returns (ids: seq<TaskId>, final: Rows)
    requires f != NOTHING && OneInstance(rows, f) && Drainable(rows, f)
    ensures Schedule(rows, f, ids, final) && |ids| == |Waiting(rows, f)| && AllFinished(final, f)
    decreases |Waiting(rows, f)|
  {
    hide OneInstance, Drainable, Runnable, RunTask, Waiting, AllFinished;
    NoneWaiting(rows, f);
    DrainableIsCalm(rows, f);
    if Waiting(rows, f) == {} {
      ids, final := [], rows;
    } else {
      var id := SomeRunnable(rows, f);
      RunTaskKeepsDrainable(rows, f, id);
      InRows(rows, f, id);
      ids, final := FlowDrains(RunTask(rows, id), f);
      ids := [id] + ids;
    }
  }

  lemma DrainableIsCalm(rows: Rows, f: Id)
    requires Drainable(rows, f)
    ensures Calm(rows, f)
  {
    hide Calm, Listed, HaveAgents, HasCycle, Open;
  }

  lemma {:induction false} DrainedWasDrainable(rows: Rows, f: Id, ids: seq<TaskId>, final: Rows)
    requires f != NOTHING && OneInstance(rows, f) && Schedule(rows, f, ids, final) && AllFinished(final, f)
    ensures Drainable(rows, f)
    decreases |ids|
  {
    hide OneInstance, Drainable, Runnable, RunTask, Waiting, AllFinished;
    if ids == [] {
      FinishedIsDrainable(rows, f);
    } else {
      RunnableWaits(rows, f, ids[0]);
      RunTaskKeepsDrainable(rows, f, ids[0]);
      DrainedWasDrainable(RunTask(rows, ids[0]), f, ids[1..], final);
    }
  }

  /**
    A flow can be run to its end exactly if nothing of it is running, failed or blocked, its waiting rows have agents
    and list only nodes with a row, and no nodes wait for each other in a circle.
   */
  lemma DrainsIff(rows: Rows, f: Id)
    requires f != NOTHING && OneInstance(rows, f)
    ensures CanDrain(rows, f) <==> Calm(rows, f) && HaveAgents(rows, f) && Listed(rows, f) && !HasCycle(Open(rows, f))
  {
    hide OneInstance, Drainable, Calm, HaveAgents, Listed, HasCycle, Open, Schedule, AllFinished;
    DrainableIs(rows, f);
    if Drainable(rows, f) {
      var ids, final := FlowDrains(rows, f);
    }
    if ids, final :| Schedule(rows, f, ids, final) && AllFinished(final, f) {
      DrainedWasDrainable(rows, f, ids, final);
    }
  }

  lemma DrainableIs(rows: Rows, f: Id)
    ensures Drainable(rows, f) <==> Calm(rows, f) && HaveAgents(rows, f) && Listed(rows, f) && !HasCycle(Open(rows, f))
  {
    hide Calm, HaveAgents, Listed, HasCycle, Open;
  }

  /** And then it does not matter which runnable row is taken: going on until none is runnable takes one dispatch per waiting row and finishes the flow. */
  lemma {:induction false} EveryScheduleDrains(rows: Rows, f: Id, ids: seq<TaskId>, final: Rows)
    requires f != NOTHING && OneInstance(rows, f) && CanDrain(rows, f)
    requires Schedule(rows, f, ids, final)
    requires forall id :: id in Waiting(final, f) ==> !Runnable(final, final[id].instance, id)
    ensures |ids| == |Waiting(rows, f)| && AllFinished(final, f)
    decreases |ids|
  {
    hide OneInstance, Drainable, Runnable, RunTask, Waiting, AllFinished, CanDrain, Calm, HaveAgents, Listed, HasCycle, Open;
    DrainsIff(rows, f);
    DrainableIs(rows, f);
    NoneWaiting(rows, f);
    if ids == [] {
      if Waiting(rows, f) != {} {
        var id := SomeRunnable(rows, f);
      }
    } else {
      RunnableWaits(rows, f, ids[0]);
      RunTaskKeepsDrainable(rows, f, ids[0]);
      DrainsIff(RunTask(rows, ids[0]), f);
      DrainableIs(RunTask(rows, ids[0]), f);
      EveryScheduleDrains(RunTask(rows, ids[0]), f, ids[1..], final);
    }
  }
}
