/** Runs in which a request does not find what it decided on, and the run of a dispatch that nothing disturbs. */
module SchedulerRaces {
  import opened Wrappers
  import opened Ids
  import opened Sequences
  import opened Tasks
  import opened TaskSteps
  import opened SchedulerSteps
  import opened SchedulerRuns
  import TaskDependencies
  import Text

  // ----- Putting runs together -----

  ghost predicate Stage(ws: seq<World>, steps: seq<Step>, rows: Rows, hands: map<Worker, Hand>, issued: set<TaskId>) {
    && Run(ws, steps) && |ws| > 0
    && ws[|ws| - 1].rows == rows && ws[|ws| - 1].hands == hands && ws[|ws| - 1].issued == issued
  }

  lemma Start() returns (ws: seq<World>, steps: seq<Step>)
    ensures Stage(ws, steps, map[], map[], {}) && steps == []
  {
    ws, steps := [EMPTY], [];
  }

  lemma OneMore(ws: seq<World>, steps: seq<Step>, s: Step)
    requires Run(ws, steps) && |ws| > 0 && Enabled(ws[|ws| - 1], s)
    ensures Run(ws + [Apply(ws[|ws| - 1], s)], steps + [s])
  {
    hide Enabled, Apply;
    var ws', steps' := ws + [Apply(ws[|ws| - 1], s)], steps + [s];
    forall i | 0 <= i < |steps'| ensures Next(ws'[i], steps'[i], ws'[i + 1]) {
      assert i < |steps| ==> Next(ws[i], steps[i], ws[i + 1]);
    }
  }

  lemma DoCreate(ws: seq<World>, steps: seq<Step>, rows: Rows, hands: map<Worker, Hand>, issued: set<TaskId>, id: TaskId, t: Task)
    returns (ws': seq<World>, steps': seq<Step>)
    requires Stage(ws, steps, rows, hands, issued)
    requires id !in issued && t.status == Queued && (t.flowId != NOTHING ==> t.requirementId == t.flowId)
    ensures Stage(ws', steps', rows[id := t], hands, issued + {id}) && ws <= ws'
    ensures steps' == steps + [Create(id, t)]
  {
    hide DependsOn, Run;
    var s := Create(id, t);
    OneMore(ws, steps, s);
    ws', steps' := ws + [Apply(ws[|ws| - 1], s)], steps + [s];
  }

  lemma DoClaim(ws: seq<World>, steps: seq<Step>, rows: Rows, hands: map<Worker, Hand>, issued: set<TaskId>,
      k: Worker, inst: Option<Instance>, id: TaskId)
    returns (ws': seq<World>, steps': seq<Step>)
    requires Stage(ws, steps, rows, hands, issued) && k !in hands && Runnable(rows, inst, id) && id in rows
    ensures Stage(ws', steps', rows[id := rows[id].(status := Running)], hands[k := Loaded(id, rows[id].(status := Running))], issued)
    ensures ws <= ws' && steps' == steps + [Pick(k, inst, id)] + [Claim(k)] + [Refresh(k)]
  {
    hide Runnable, Run;
    var w := ws[|ws| - 1];
    RunnableRow(rows, inst, id);
    OneMore(ws, steps, Pick(k, inst, id));
    var w1 := Apply(w, Pick(k, inst, id));
    OneMore(ws + [w1], steps + [Pick(k, inst, id)], Claim(k));
    var w2 := Apply(w1, Claim(k));
    OneMore(ws + [w1] + [w2], steps + [Pick(k, inst, id)] + [Claim(k)], Refresh(k));
    var w3 := Apply(w2, Refresh(k));
    ws', steps' := ws + [w1] + [w2] + [w3], steps + [Pick(k, inst, id)] + [Claim(k)] + [Refresh(k)];
    assert w3.hands == w.hands[k := Loaded(id, rows[id].(status := Running))];
  }

  /** From the reload after the claim to the moment the message goes out. */
  lemma DoSend(ws: seq<World>, steps: seq<Step>, rows: Rows, hands: map<Worker, Hand>, issued: set<TaskId>, k: Worker, id: TaskId)
    returns (ws': seq<World>, steps': seq<Step>)
    requires Stage(ws, steps, rows, hands, issued) && k in hands && id in rows && hands[k] == Loaded(id, rows[id])
    requires rows[id].status == Running && !WithoutAgent(rows[id])
    ensures var sent := rows[id].(dispatchStatus := "running");
      Stage(ws', steps', rows[id := sent], hands[k := Sending(id, sent)], issued)
    ensures ws <= ws'
  {
    hide Run, WithoutAgent;
    var w, sent := ws[|ws| - 1], rows[id].(dispatchStatus := "running");
    OneMore(ws, steps, Prepare(k));
    var w1 := Apply(w, Prepare(k));
    assert w1.rows == rows[id := sent];
    OneMore(ws + [w1], steps + [Prepare(k)], Refresh(k));
    var w2 := Apply(w1, Refresh(k));
    ws', steps' := ws + [w1] + [w2], steps + [Prepare(k)] + [Refresh(k)];
    assert w2.hands == w.hands[k := Sending(id, sent)];
  }

  lemma DoSettle(ws: seq<World>, steps: seq<Step>, rows: Rows, hands: map<Worker, Hand>, issued: set<TaskId>,
      k: Worker, id: TaskId, read: Task, send: SendOutcome)
    returns (ws': seq<World>, steps': seq<Step>)
    requires Stage(ws, steps, rows, hands, issued) && k in hands && id in rows && hands[k] == Sending(id, read)
    ensures Stage(ws', steps', rows[id := Stored(rows[id], read, Answered(read, send))], hands - {k}, issued)
    ensures ws <= ws'
  {
    hide Run, Stored, Answered, WithoutAgent;
    var s := Settle(k, send);
    OneMore(ws, steps, s);
    ws', steps' := ws + [Apply(ws[|ws| - 1], s)], steps + [s];
  }

  lemma DoRead(ws: seq<World>, steps: seq<Step>, rows: Rows, hands: map<Worker, Hand>, issued: set<TaskId>, k: Worker, id: TaskId)
    returns (ws': seq<World>, steps': seq<Step>)
    requires Stage(ws, steps, rows, hands, issued) && k !in hands && id in rows
    ensures Stage(ws', steps', rows, hands[k := Reading(id, rows[id])], issued) && ws <= ws'
  {
    hide Run;
    var s := Read(k, id);
    OneMore(ws, steps, s);
    ws', steps' := ws + [Apply(ws[|ws| - 1], s)], steps + [s];
  }

  lemma DoWrite(ws: seq<World>, steps: seq<Step>, rows: Rows, hands: map<Worker, Hand>, issued: set<TaskId>,
      k: Worker, id: TaskId, read: Task, change: Change)
    returns (ws': seq<World>, steps': seq<Step>)
    requires Stage(ws, steps, rows, hands, issued) && k in hands && id in rows && hands[k] == Reading(id, read)
    requires Applies(change, read) && !change.Strip?
    ensures Stage(ws', steps', rows[id := Stored(rows[id], read, After(change, read))], hands - {k}, issued)
    ensures ws <= ws'
  {
    hide Run, Stored, After, Applies;
    var s := Write(k, change);
    OneMore(ws, steps, s);
    ws', steps' := ws + [Apply(ws[|ws| - 1], s)], steps + [s];
  }

  lemma DoRemove(ws: seq<World>, steps: seq<Step>, rows: Rows, hands: map<Worker, Hand>, issued: set<TaskId>, id: TaskId)
    returns (ws': seq<World>, steps': seq<Step>)
    requires Stage(ws, steps, rows, hands, issued) && id in rows
    ensures Stage(ws', steps', rows - {id}, hands, issued) && ws <= ws' && steps <= steps'
    ensures Removed(rows[id].requirementId, rows[id].flowNode) in ws'[|ws'| - 1].removed
  {
    hide Run, OwedWithout;
    var s := Remove(id);
    OneMore(ws, steps, s);
    ws', steps' := ws + [Apply(ws[|ws| - 1], s)], steps + [s];
  }

  /** The late write of a deletion, whose node is remembered as removed. */
  lemma DoStrip(ws: seq<World>, steps: seq<Step>, rows: Rows, hands: map<Worker, Hand>, issued: set<TaskId>,
      k: Worker, id: TaskId, read: Task, node: Id)
    returns (ws': seq<World>, steps': seq<Step>)
    requires Stage(ws, steps, rows, hands, issued) && k in hands && id in rows && hands[k] == Reading(id, read)
    requires node in DependsOn(read) && Removed(read.requirementId, node) in ws[|ws| - 1].removed
    ensures Stage(ws', steps', rows[id := Stored(rows[id], read, Stripped(read, node))], hands - {k}, issued)
    ensures ws <= ws'
  {
    hide Run, Stored, Stripped, DependsOn, TakenOut;
    var s := Write(k, Strip(node));
    OneMore(ws, steps, s);
    ws', steps' := ws + [Apply(ws[|ws| - 1], s)], steps + [s];
  }

  lemma RemovedGrows(w: World, s: Step)
    ensures w.removed <= Apply(w, s).removed
  {
    hide WriteOf, Stored, OutOf, OwedWithout, Elements;
  }

  lemma {:induction false} RemovedStays(ws: seq<World>, steps: seq<Step>, i: nat, j: nat)
    requires Run(ws, steps) && i <= j < |ws|
    ensures ws[i].removed <= ws[j].removed
    decreases j - i
  {
    hide Enabled, Apply;
    if i < j {
      RemovedStays(ws, steps, i, j - 1);
      RunAt(ws, steps, j - 1);
      RemovedGrows(ws[j - 1], steps[j - 1]);
    }
  }

  // ----- A dispatch that nothing disturbs -----

  /** Then the commits of one dispatch add up to the row `dispatch_next_queued_task` is said to leave. */
  lemma UndisturbedDispatch(ws: seq<World>, steps: seq<Step>, rows: Rows, hands: map<Worker, Hand>, issued: set<TaskId>,
      k: Worker, inst: Option<Instance>, id: TaskId, send: SendOutcome)
    returns (ws': seq<World>, steps': seq<Step>)
    requires Stage(ws, steps, rows, hands, issued) && k !in hands && Runnable(rows, inst, id) && id in rows
    requires !WithoutAgent(rows[id])
    ensures Stage(ws', steps', rows[id := Settled(rows[id], send)], hands, issued) && ws <= ws'
  {
    hide Runnable, Stage, Text.Strip;
    var claimed := rows[id].(status := Running);
    var ws1, steps1 := DoClaim(ws, steps, rows, hands, issued, k, inst, id);
    var rows1, hands1 := rows[id := claimed], hands[k := Loaded(id, claimed)];
    var ws2, steps2 := DoSend(ws1, steps1, rows1, hands1, issued, k, id);
    var sent := claimed.(dispatchStatus := "running");
    var rows2, hands2 := rows1[id := sent], hands1[k := Sending(id, sent)];
    ws', steps' := DoSettle(ws2, steps2, rows2, hands2, issued, k, id, sent, send);
    assert rows2[id := Stored(sent, sent, Answered(sent, send))] == rows[id := Settled(rows[id], send)];
    assert hands2 - {k} == hands;
  }

  // ----- Four races -----

  const FLOW := Id("f")

  function FlowRow(node: string, dependsOn: seq<Id>): Task {
    Task(0, None, FLOW, FLOW, Id(node), 1, Some(TaskDependencies.Encode(dependsOn)), "agent", Queued, "pending")
  }

  lemma FlowRowFacts(node: string)
    ensures DependsOn(FlowRow(node, [])) == [] && DependsOn(FlowRow(node, [Id("a")])) == [Id("a")]
    ensures !WithoutAgent(FlowRow(node, [])) && !WithoutAgent(FlowRow(node, [Id("a")]))
  {
    hide TaskDependencies.Encode, TaskDependencies.Parse;
    TaskDependencies.RoundTripOfClean([]);
    assert TaskDependencies.Clean(Id("a"));
    TaskDependencies.RoundTripOfClean([Id("a")]);
    Text.StripTrimmed("agent");
  }

  /** Row 0, running and with its message out. */
  lemma SendingRow(ws: seq<World>, steps: seq<Step>, rows: Rows, issued: set<TaskId>)
    returns (ws': seq<World>, steps': seq<Step>)
    requires Stage(ws, steps, rows, map[], issued) && 0 in rows && rows[0] == FlowRow("a", [])
    ensures var sent := FlowRow("a", []).(status := Running, dispatchStatus := "running");
      Stage(ws', steps', rows[0 := sent], map[0 := Sending(0, sent)], issued)
    ensures ws <= ws'
  {
    hide Stage, TaskDependencies.Encode;
    FlowRowFacts("a");
    assert Runnable(rows, None, 0);
    var claimed := rows[0].(status := Running);
    var ws1, steps1 := DoClaim(ws, steps, rows, map[], issued, 0, None, 0);
    ws', steps' := DoSend(ws1, steps1, rows[0 := claimed], map[][0 := Loaded(0, claimed)], issued, 0, 0);
    var sent := FlowRow("a", []).(status := Running, dispatchStatus := "running");
    assert rows[0 := claimed][0 := sent] == rows[0 := sent];
    assert map[][0 := Loaded(0, claimed)][0 := Sending(0, sent)] == map[0 := Sending(0, sent)];
  }

  lemma LastStays(ws: seq<World>, ws': seq<World>)
    requires ws <= ws' && |ws| > 0
    ensures ws'[|ws| - 1] == ws[|ws| - 1]
  {
  }

  lemma StageLast(ws: seq<World>, steps: seq<Step>, rows: Rows, hands: map<Worker, Hand>, issued: set<TaskId>)
    requires Stage(ws, steps, rows, hands, issued)
    ensures Run(ws, steps) && |ws| > 0 && ws[|ws| - 1].rows == rows
  {
  }

  /** Row 1 may start once row 0 is completed. */
  lemma DependentRuns(rows: Rows)
    requires rows.Keys == {0, 1} && SameButExtras(FlowRow("a", []), rows[0]) && rows[0].status == Completed
    requires rows[1] == FlowRow("b", [Id("a")])
    ensures Runnable(rows, None, 1)
  {
    hide TaskDependencies.Encode, TaskDependencies.Parse;
    FlowRowFacts("b");
    assert Latest(rows, None, FLOW, Id("a"), 0);
    assert NodeDone(rows, None, FLOW, Id("a"));
  }

  lemma NotDone(rows: Rows)
    requires rows.Keys == {0, 1} && rows[1].flowNode == Id("b") && rows[0].status != Completed
    ensures !Done(rows, FLOW, Id("a"))
  {
  }

  /** A reconciliation completes row 0 while its message is being sent. */
  lemma CompletedWhileSending() returns (ws: seq<World>, steps: seq<Step>)
    ensures var sent := FlowRow("a", []).(status := Running, dispatchStatus := "running");
      Stage(ws, steps, map[0 := CompletedByOutput(sent), 1 := FlowRow("b", [Id("a")])], map[0 := Sending(0, sent)], {0, 1})
  {
    hide Stage, Runnable, TaskDependencies.Encode, TaskDependencies.Parse;
    var a, b := FlowRow("a", []), FlowRow("b", [Id("a")]);
    var sent := a.(status := Running, dispatchStatus := "running");
    var ws0, steps0 := Start();
    ws0, steps0 := DoCreate(ws0, steps0, map[], map[], {}, 0, a);
    ws0, steps0 := DoCreate(ws0, steps0, map[][0 := a], map[], {} + {0}, 1, b);
    var issued := {} + {0} + {1};
    var ws1, steps1 := SendingRow(ws0, steps0, map[][0 := a][1 := b], issued);
    var rows1, hands1 := map[][0 := a][1 := b][0 := sent], map[0 := Sending(0, sent)];
    var ws2, steps2 := DoRead(ws1, steps1, rows1, hands1, issued, 1, 0);
    ws, steps := DoWrite(ws2, steps2, rows1, hands1[1 := Reading(0, sent)], issued, 1, 0, sent, Complete);
    assert Stored(sent, sent, After(Complete, sent)) == CompletedByOutput(sent);
    assert rows1[0 := CompletedByOutput(sent)] == map[0 := CompletedByOutput(sent), 1 := b];
    assert hands1[1 := Reading(0, sent)] - {1} == hands1 && issued == {0, 1};
  }

  /** Then a dependent starts, the send fails, and the failure overwrites the completion. */
  lemma LateRejectionUndoesCompletion() returns (ws: seq<World>, steps: seq<Step>, i: nat)
    ensures Run(ws, steps) && i < |ws| && forall m :: i <= m < |ws| ==> 0 in ws[m].rows
    ensures ws[i].rows[0].status == Completed && ws[|ws| - 1].rows[0].status == Failed
    ensures 1 in ws[|ws| - 1].rows && Started(ws[|ws| - 1].rows[1]) && Id("a") in DependsOn(ws[|ws| - 1].rows[1])
    ensures !Done(ws[|ws| - 1].rows, ws[|ws| - 1].rows[1].flowId, Id("a"))
  {
    hide Stage, Run, Runnable, TaskDependencies.Encode, TaskDependencies.Parse;
    var a, b := FlowRow("a", []), FlowRow("b", [Id("a")]);
    var sent := a.(status := Running, dispatchStatus := "running");
    var done, running := CompletedByOutput(sent), b.(status := Running);
    var rows3, hands3 := map[0 := done, 1 := b], map[0 := Sending(0, sent)];
    var ws3, steps3 := CompletedWhileSending();
    StageLast(ws3, steps3, rows3, hands3, {0, 1});
    i := |ws3| - 1;
    DependentRuns(rows3);
    var ws4, steps4 := DoClaim(ws3, steps3, rows3, hands3, {0, 1}, 1, None, 1);
    var rows4, hands4 := rows3[1 := running], hands3[1 := Loaded(1, running)];
    ws, steps := DoSettle(ws4, steps4, rows4, hands4, {0, 1}, 0, 0, sent, Rejected);
    var rows5 := rows4[0 := Stored(done, sent, Answered(sent, Rejected))];
    StageLast(ws, steps, rows5, hands4 - {0}, {0, 1});
    LastStays(ws3, ws);
    FlowRowFacts("b");
    NotDone(rows5);
    RowStays(ws, steps, i, |ws| - 1, 0);
  }

  /** A row completes while the interruption that has read it as running still waits for the agent to pause. */
  lemma LateInterruptReopensCompletion() returns (ws: seq<World>, steps: seq<Step>, i: nat)
    ensures Run(ws, steps) && i < |ws| && forall m :: i <= m < |ws| ==> 0 in ws[m].rows
    ensures ws[i].rows[0].status == Completed && ws[|ws| - 1].rows[0].status == Blocked
  {
    hide Stage, Run, Runnable, TaskDependencies.Encode, TaskDependencies.Parse;
    var a := FlowRow("a", []);
    var sent := a.(status := Running, dispatchStatus := "running");
    var done := CompletedByOutput(sent);
    var ws0, steps0 := Start();
    ws0, steps0 := DoCreate(ws0, steps0, map[], map[], {}, 0, a);
    var issued := {} + {0};
    var ws1, steps1 := SendingRow(ws0, steps0, map[][0 := a], issued);
    var rows1, hands1 := map[][0 := a][0 := sent], map[0 := Sending(0, sent)];
    var ws2, steps2 := DoRead(ws1, steps1, rows1, hands1, issued, 1, 0);
    var hands2 := hands1[1 := Reading(0, sent)];
    var ws3, steps3 := DoRead(ws2, steps2, rows1, hands2, issued, 2, 0);
    var ws4, steps4 := DoWrite(ws3, steps3, rows1, hands2[2 := Reading(0, sent)], issued, 2, 0, sent, Complete);
    var rows4 := rows1[0 := done];
    assert Stored(sent, sent, After(Complete, sent)) == done;
    assert hands2[2 := Reading(0, sent)] - {2} == hands2;
    StageLast(ws4, steps4, rows4, hands2, issued);
    i := |ws4| - 1;
    ws, steps := DoWrite(ws4, steps4, rows4, hands2, issued, 1, 0, sent, Interrupt);
    StageLast(ws, steps, rows4[0 := Stored(done, sent, After(Interrupt, sent))], hands2 - {1}, issued);
    LastStays(ws4, ws);
    RowStays(ws, steps, i, |ws| - 1, 0);
  }

  /**
    An interruption falls into a send that is then accepted: the dispatcher's extras overwrite the mark, and continuing
    completes the interrupted row as approved.
   */
  lemma InterruptedSendIsApproved() returns (ws: seq<World>, steps: seq<Step>, i: nat)
    ensures Run(ws, steps) && i < |ws| && 0 in ws[i].rows && 0 in ws[|ws| - 1].rows
    ensures ws[i].rows[0].status == Blocked && ws[i].rows[0].dispatchStatus == "accepted"
    ensures ws[|ws| - 1].rows[0].status == Completed && ws[|ws| - 1].rows[0].dispatchStatus == "approved"
  {
    hide Stage, Run, Runnable, TaskDependencies.Encode, TaskDependencies.Parse, Text.Strip, Text.Lower;
    var a := FlowRow("a", []);
    var sent := a.(status := Running, dispatchStatus := "running");
    var blocked := Interrupted(sent);
    var unmarked := blocked.(dispatchStatus := "accepted");
    var ws0, steps0 := Start();
    ws0, steps0 := DoCreate(ws0, steps0, map[], map[], {}, 0, a);
    var issued := {} + {0};
    var ws1, steps1 := SendingRow(ws0, steps0, map[][0 := a], issued);
    var rows1, hands1 := map[][0 := a][0 := sent], map[0 := Sending(0, sent)];
    var ws2, steps2 := DoRead(ws1, steps1, rows1, hands1, issued, 1, 0);
    var ws3, steps3 := DoWrite(ws2, steps2, rows1, hands1[1 := Reading(0, sent)], issued, 1, 0, sent, Interrupt);
    var rows3 := rows1[0 := blocked];
    assert Stored(sent, sent, After(Interrupt, sent)) == blocked;
    assert hands1[1 := Reading(0, sent)] - {1} == hands1;
    var ws4, steps4 := DoSettle(ws3, steps3, rows3, hands1, issued, 0, 0, sent, Accepted("accepted"));
    var rows4, hands4 := rows3[0 := unmarked], hands1 - {0};
    assert Stored(blocked, sent, Answered(sent, Accepted("accepted"))) == unmarked;
    StageLast(ws4, steps4, rows4, hands4, issued);
    i := |ws4| - 1;
    var ws5, steps5 := DoRead(ws4, steps4, rows4, hands4, issued, 1, 0);
    AcceptedReadsBack();
    ws, steps := DoWrite(ws5, steps5, rows4, hands4[1 := Reading(0, unmarked)], issued, 1, 0, unmarked, Continue);
    StageLast(ws, steps, rows4[0 := Stored(unmarked, unmarked, After(Continue, unmarked))], hands4[1 := Reading(0, unmarked)] - {1}, issued);
    LastStays(ws4, ws);
  }

  lemma AcceptedReadsBack()
    ensures Text.Lower(Text.Strip("accepted")) == "accepted"
  {
    Text.StripTrimmed("accepted");
  }

  /** Rows for `a`, for `b` after both others, and for `c`, whose deletion has read row 1 but not rewritten it yet. */
  lemma DeletionUnderWay() returns (ws: seq<World>, steps: seq<Step>)
    ensures var a, b := FlowRow("a", []), FlowRow("b", [Id("a"), Id("c")]);
      Stage(ws, steps, map[0 := a, 1 := b], map[0 := Reading(1, b)], {0, 1, 2})
    ensures Removed(FLOW, Id("c")) in ws[|ws| - 1].removed
  {
    hide Stage, TaskDependencies.Encode, TaskDependencies.Parse;
    var a, b, c := FlowRow("a", []), FlowRow("b", [Id("a"), Id("c")]), FlowRow("c", []);
    var ws0, steps0 := Start();
    ws0, steps0 := DoCreate(ws0, steps0, map[], map[], {}, 0, a);
    ws0, steps0 := DoCreate(ws0, steps0, map[][0 := a], map[], {} + {0}, 1, b);
    ws0, steps0 := DoCreate(ws0, steps0, map[][0 := a][1 := b], map[], {} + {0} + {1}, 2, c);
    var issued := {} + {0} + {1} + {2};
    var ws1, steps1 := DoRemove(ws0, steps0, map[][0 := a][1 := b][2 := c], map[], issued, 2);
    var rows := map[][0 := a][1 := b][2 := c] - {2};
    ws, steps := DoRead(ws1, steps1, rows, map[], issued, 0, 1);
    StageLast(ws1, steps1, rows, map[], issued);
    StageLast(ws, steps, rows, map[][0 := Reading(1, rows[1])], issued);
    RemovedStays(ws, steps, |ws1| - 1, |ws| - 1);
    LastStays(ws1, ws);
    assert rows == map[0 := a, 1 := b] && issued == {0, 1, 2};
    assert map[][0 := Reading(1, rows[1])] == map[0 := Reading(1, b)];
  }

  /**
    A row is interrupted before it has started, and a deletion that had read it before then overwrites the mark: continuing
    completes it as approved, although what it depends on has not even been dispatched.
   */
  lemma LateStrippingSkipsDependencies() returns (ws: seq<World>, steps: seq<Step>)
    ensures Run(ws, steps) && |ws| > 0 && 1 in ws[|ws| - 1].rows
    ensures ws[|ws| - 1].rows[1].status == Completed && ws[|ws| - 1].rows[1].dispatchStatus == "approved"
    ensures Id("a") in DependsOn(ws[|ws| - 1].rows[1]) && !Done(ws[|ws| - 1].rows, ws[|ws| - 1].rows[1].flowId, Id("a"))
  {
    hide Stage, Run, Runnable, TaskDependencies.Encode, TaskDependencies.Parse, Text.Strip, Text.Lower, Stripped, DependsOn;
    var a, b := FlowRow("a", []), FlowRow("b", [Id("a"), Id("c")]);
    var blocked, stripped := Interrupted(b), Stripped(b, Id("c"));
    TwoDependencies();
    PendingReadsBack();
    var ws0, steps0 := DeletionUnderWay();
    var rows0, hands0 := map[0 := a, 1 := b], map[0 := Reading(1, b)];
    StageLast(ws0, steps0, rows0, hands0, {0, 1, 2});
    var ws1, steps1 := DoRead(ws0, steps0, rows0, hands0, {0, 1, 2}, 1, 1);
    var ws2, steps2 := DoWrite(ws1, steps1, rows0, hands0[1 := Reading(1, b)], {0, 1, 2}, 1, 1, b, Interrupt);
    assert Stored(b, b, blocked) == blocked;
    assert hands0[1 := Reading(1, b)] - {1} == hands0;
    var rows2 := rows0[1 := blocked];
    StageLast(ws2, steps2, rows2, hands0, {0, 1, 2});
    RemovedStays(ws2, steps2, |ws0| - 1, |ws2| - 1);
    LastStays(ws0, ws2);
    var ws3, steps3 := DoStrip(ws2, steps2, rows2, hands0, {0, 1, 2}, 0, 1, b, Id("c"));
    var unmarked := Stored(blocked, b, stripped);
    var rows3, hands3 := rows2[1 := unmarked], hands0 - {0};
    var ws4, steps4 := DoRead(ws3, steps3, rows3, hands3, {0, 1, 2}, 1, 1);
    ws, steps := DoWrite(ws4, steps4, rows3, hands3[1 := Reading(1, unmarked)], {0, 1, 2}, 1, 1, unmarked, Continue);
    var approved := Stored(unmarked, unmarked, After(Continue, unmarked));
    StageLast(ws, steps, rows3[1 := approved], hands3[1 := Reading(1, unmarked)] - {1}, {0, 1, 2});
    SameDependencies(approved, stripped);
    NotDone(rows3[1 := approved]);
  }

  lemma SameDependencies(t: Task, u: Task)
    requires t.dependencies == u.dependencies
    ensures DependsOn(t) == DependsOn(u)
  {
  }

  lemma TwoDependencies()
    ensures var b := FlowRow("b", [Id("a"), Id("c")]);
      && Id("c") in DependsOn(b) && Id("a") in DependsOn(Stripped(b, Id("c")))
      && Stripped(b, Id("c")).status == Queued && Stripped(b, Id("c")).dispatchStatus == "pending"
  {
    hide TaskDependencies.Encode, TaskDependencies.Parse, Without;
    var b := FlowRow("b", [Id("a"), Id("c")]);
    assert TaskDependencies.Clean(Id("a")) && TaskDependencies.Clean(Id("c"));
    TaskDependencies.RoundTripOfClean([Id("a"), Id("c")]);
    assert DependsOn(b) == [Id("a"), Id("c")];
    assert "a"[0] != "c"[0];
    WithoutMembers(DependsOn(b), Id("c"), Id("a"));
    assert NO_DEPENDENCIES[0].text[0] == 'n';
    assert Without(DependsOn(b), Id("c")) != NO_DEPENDENCIES;
    StrippedDeps(b, Id("c"), Id("a"));
  }

  lemma PendingReadsBack()
    ensures Text.Lower(Text.Strip("pending")) == "pending"
  {
    Text.StripTrimmed("pending");
  }
}
