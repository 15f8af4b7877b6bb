/** The rows `confirm_flow` creates, as commits, and what their text form leaves of the plan's dependencies. */
module ConfirmedFlows {
  import opened Wrappers
  import opened Ids
  import opened Sequences
  import opened Graph
  import opened FlowCanvas
  import opened Tasks
  import opened TaskSteps
  import opened FlowConfirmation
  import TaskDependencies
  import Text

  /** A row of a flow belongs to the requirement of the same id. */
  ghost predicate FlowsAreRequirements(rows: Rows) {
    forall id :: id in rows && rows[id].flowId != NOTHING ==> rows[id].requirementId == rows[id].flowId
  }

  ghost predicate Fresh(taskIds: seq<TaskId>, rows: Rows) {
    forall i :: 0 <= i < |taskIds| ==> taskIds[i] !in rows
  }

  /** The node a draft's row stands for, and the dependencies that are read back from it. */
  function NodeOf(draft: Draft): Id {
    Id(Text.Strip(draft.id.text))
  }

  function ParsedDeps(draft: Draft): seq<Id> {
    TaskDependencies.Parse(Some(TaskDependencies.Encode(draft.dependsOn)))
  }

  /** The i-th created row. */
  ghost function NewRow(q: Request, placed: seq<Placed>, i: nat): Task
    requires i < |placed| && i < |q.stamps| && placed[i].node in NodeById(q.drafts)
  {
    FlowTask(q.stamps[i], q.inst, q.flow, NodeById(q.drafts)[placed[i].node], placed[i].layer)
  }

  lemma NewRowIs(q: Request, placed: seq<Placed>, i: nat)
    requires i < |placed| && i < |q.stamps| && placed[i].node in NodeById(q.drafts)
    ensures NewRow(q, placed, i) == FlowTask(q.stamps[i], q.inst, q.flow, NodeById(q.drafts)[placed[i].node], placed[i].layer)
  {
  }

  lemma NewRowPrefix(q: Request, placed: seq<Placed>, n: nat, i: nat)
    requires i < n <= |placed| && i < |q.stamps| && placed[i].node in NodeById(q.drafts)
    ensures NewRow(q, placed[..n], i) == NewRow(q, placed, i)
  {
  }

  lemma {:induction false} WithTasksRows(rows: Rows, q: Request, placed: seq<Placed>)
    requires |placed| <= |q.taskIds| && |placed| <= |q.stamps| && Distinct(q.taskIds)
    requires forall i :: 0 <= i < |placed| ==> placed[i].node in NodeById(q.drafts)
    requires Fresh(q.taskIds, rows)
    ensures forall id :: id in WithTasks(rows, q, placed) <==> id in rows || id in q.taskIds[..|placed|]
    ensures forall id :: id in rows ==> WithTasks(rows, q, placed)[id] == rows[id]
    ensures forall i :: 0 <= i < |placed| ==> WithTasks(rows, q, placed)[q.taskIds[i]] == NewRow(q, placed, i)
  {
    hide FlowTask, NodeById, Distinct, NewRow, WithTasks;
    if placed == [] {
      NoTasksYet(rows, q);
    } else {
      var i := |placed| - 1;
      WithTasksRows(rows, q, placed[..i]);
      LastTask(rows, q, placed);
      forall j | 0 <= j < i ensures NewRow(q, placed[..i], j) == NewRow(q, placed, j) {
        NewRowPrefix(q, placed, i, j);
      }
      RowAdded(rows, q.taskIds, i, WithTasks(rows, q, placed[..i]), NewRow(q, placed, i));
    }
  }

  /** Adding the row of the next id leaves the others as they are. */
  lemma RowAdded(rows: Rows, taskIds: seq<TaskId>, i: nat, before: Rows, row: Task)
    requires i < |taskIds| && taskIds[i] !in rows && taskIds[i] !in taskIds[..i]
    requires forall id :: id in before <==> id in rows || id in taskIds[..i]
    ensures var after := before[taskIds[i] := row];
      && (forall id :: id in after <==> id in rows || id in taskIds[..i + 1])
      && (forall id :: id in rows ==> after[id] == before[id])
      && (forall j :: 0 <= j < i ==> taskIds[j] in before && after[taskIds[j]] == before[taskIds[j]])
  {
    assert taskIds[..i + 1] == taskIds[..i] + [taskIds[i]];
    forall j | 0 <= j < i ensures taskIds[j] in taskIds[..i] && taskIds[j] != taskIds[i] {
      assert taskIds[..i][j] == taskIds[j];
    }
  }

  lemma LastTask(rows: Rows, q: Request, placed: seq<Placed>)
    requires placed != [] && |placed| <= |q.taskIds| && |placed| <= |q.stamps| && Distinct(q.taskIds)
    requires forall p :: p in placed ==> p.node in NodeById(q.drafts)
    requires forall i :: 0 <= i < |placed| ==> placed[i].node in NodeById(q.drafts)
    ensures var i := |placed| - 1;
      && WithTasks(rows, q, placed) == WithTasks(rows, q, placed[..i])[q.taskIds[i] := NewRow(q, placed, i)]
      && q.taskIds[i] !in q.taskIds[..i] && q.taskIds[..|placed|] == q.taskIds[..i] + [q.taskIds[i]]
  {
    hide FlowTask, NodeById, Distinct, NewRow;
    DistinctAt(q.taskIds, |placed| - 1);
    NewRowIs(q, placed, |placed| - 1);
  }

  /** One created row: all its columns, and the dependencies it lists. */
  lemma NewRowFacts(q: Request, placed: seq<Placed>, i: nat)
    requires i < |placed| && i < |q.stamps| && placed[i].node in NodeById(q.drafts)
    ensures var t, draft := NewRow(q, placed, i), NodeById(q.drafts)[placed[i].node];
      && t.flowId == t.requirementId == q.flow && t.flowNode == NodeOf(draft) && t.layer == placed[i].layer
      && t.instance == Some(q.inst) && t.status == Queued && t.agentId == draft.agentId
      && DependsOn(t) == ParsedDeps(draft) && draft in q.drafts && draft.id == placed[i].node
    ensures var t, draft := NewRow(q, placed, i), NodeById(q.drafts)[placed[i].node];
      t == Task(q.stamps[i], Some(q.inst), q.flow, q.flow, Id(Text.Strip(draft.id.text)), placed[i].layer,
                Some(TaskDependencies.Encode(draft.dependsOn)), draft.agentId, Queued, "pending")
  {
    hide TaskDependencies.Parse, TaskDependencies.Encode, NodeById;
    DraftTables(q.drafts);
  }

  /** The table after a confirmation: the rows of other flows, and one queued row per node. */
  ghost predicate Extends(base: Rows, rows: Rows, q: Request, placed: seq<Placed>) {
    && |placed| == |q.taskIds| == |q.stamps|
    && (forall i :: 0 <= i < |placed| ==> placed[i].node in NodeById(q.drafts))
    && (forall id :: id in rows <==> id in base || id in q.taskIds)
    && (forall id :: id in base ==> rows[id] == base[id] && base[id].flowId != q.flow)
    && (forall i :: 0 <= i < |placed| ==> q.taskIds[i] in rows && rows[q.taskIds[i]] == NewRow(q, placed, i))
  }

  lemma ConfirmationExtends(rows: Rows, rows': Rows, q: Request, placed: seq<Placed>)
    requires FlowsAreRequirements(rows) && q.flow != NOTHING && Enough(q) && Distinct(q.taskIds) && Fresh(q.taskIds, rows)
    requires Confirmed(rows, rows', q, placed)
    ensures Extends(RequirementDeleted(rows, q.flow), rows', q, placed)
    ensures PlacesAll(q.drafts, placed)
  {
    hide NodeById, PlacesAll, FlowTask;
    var base := RequirementDeleted(rows, q.flow);
    assert forall i :: 0 <= i < |placed| ==> placed[i] in placed;
    WithTasksRows(base, q, placed);
    assert q.taskIds[..|placed|] == q.taskIds;
    assert forall i :: 0 <= i < |placed| ==> q.taskIds[i] in q.taskIds;
  }

  // ----- The plan as the dispatcher reads it back -----

  ghost function DraftNodes(drafts: seq<Draft>): seq<Id> {
    seq(|drafts|, i requires 0 <= i < |drafts| => NodeOf(drafts[i]))
  }

  /** Per node the dependencies the dispatcher will see. */
  ghost function ParsedGraph(drafts: seq<Draft>): Deps {
    if drafts == [] then map[]
    else ParsedGraph(drafts[..|drafts| - 1])[NodeOf(drafts[|drafts| - 1]) := ParsedDeps(drafts[|drafts| - 1])]
  }

  lemma {:induction false} ParsedAt(drafts: seq<Draft>)
    requires Distinct(DraftNodes(drafts))
    ensures ParsedGraph(drafts).Keys == Elements(DraftNodes(drafts))
    ensures forall draft :: draft in drafts ==> NodeOf(draft) in ParsedGraph(drafts) && ParsedGraph(drafts)[NodeOf(draft)] == ParsedDeps(draft)
  {
    hide NodeOf, ParsedDeps, Distinct;
    if drafts != [] {
      var init, last := drafts[..|drafts| - 1], drafts[|drafts| - 1];
      assert DraftNodes(drafts) == DraftNodes(init) + [NodeOf(last)];
      DistinctAppend(DraftNodes(init), NodeOf(last));
      ParsedAt(init);
      forall draft | draft in init ensures NodeOf(draft) != NodeOf(last) {
        assert NodeOf(draft) in DraftNodes(init);
      }
      assert drafts == init + [last];
    }
  }

  /** Ids fit for the text form, known dependencies, no self dependency. */
  ghost predicate GoodDrafts(drafts: seq<Draft>) {
    && Distinct(DraftIds(drafts))
    && (forall i :: 0 <= i < |drafts| ==> TaskDependencies.Clean(drafts[i].id))
    && (forall i, d :: 0 <= i < |drafts| && d in drafts[i].dependsOn ==> d in DraftIds(drafts) && d != drafts[i].id)
  }

  lemma CleanDraft(drafts: seq<Draft>, draft: Draft)
    requires GoodDrafts(drafts) && draft in drafts
    ensures NodeOf(draft) == draft.id && forall d :: d in draft.dependsOn ==> TaskDependencies.Clean(d) && d in DraftIds(drafts) && d != draft.id
    ensures ParsedDeps(draft) == if draft.dependsOn == NO_DEPENDENCIES then [] else draft.dependsOn
  {
    hide TaskDependencies.Encode, TaskDependencies.Parse, Distinct;
    var i :| 0 <= i < |drafts| && drafts[i] == draft;
    Text.StripTrimmed(draft.id.text);
    forall d | d in draft.dependsOn ensures TaskDependencies.Clean(d) {
      assert d in drafts[i].dependsOn;
      assert d in DraftIds(drafts);
      var m :| 0 <= m < |DraftIds(drafts)| && DraftIds(drafts)[m] == d;
      assert drafts[m].id == d;
    }
    forall j | 0 <= j < |draft.dependsOn| ensures TaskDependencies.Clean(draft.dependsOn[j]) {
      assert draft.dependsOn[j] in draft.dependsOn;
    }
    TaskDependencies.RoundTripOfClean(draft.dependsOn);
  }

  lemma GoodNodes(drafts: seq<Draft>)
    requires GoodDrafts(drafts)
    ensures DraftNodes(drafts) == DraftIds(drafts) && Distinct(DraftNodes(drafts))
  {
    hide Distinct, NodeOf, TaskDependencies.Clean;
    forall i | 0 <= i < |drafts| ensures DraftNodes(drafts)[i] == DraftIds(drafts)[i] {
      assert drafts[i] in drafts;
      CleanDraft(drafts, drafts[i]);
    }
    assert DraftNodes(drafts) == DraftIds(drafts);
  }

  /** For good drafts every edge the dispatcher sees is an edge of the layered graph. */
  lemma ParsedEdge(drafts: seq<Draft>, v: Id, d: Id)
    requires GoodDrafts(drafts) && v in ParsedGraph(drafts) && d in ParsedGraph(drafts)[v]
    ensures Distinct(DraftNodes(drafts)) && d in ParsedGraph(drafts)
    ensures v in FlowGraph(drafts) && d in FlowGraph(drafts)[v]
  {
    hide Distinct, NodeOf, ParsedDeps, NodeById, DependsOnByNode, Effective, TaskDependencies.Clean;
    GoodNodes(drafts);
    ParsedAt(drafts);
    assert v in DraftNodes(drafts);
    var i :| 0 <= i < |drafts| && DraftNodes(drafts)[i] == v;
    var draft := drafts[i];
    assert draft in drafts;
    CleanDraft(drafts, draft);
    DraftTables(drafts);
    OnlyDraft(drafts, draft);
    EffectiveEdges(DraftIds(drafts), DependsOnByNode(drafts));
    NodesOf(DraftIds(drafts), DependsOnByNode(drafts));
    assert v in DraftIds(drafts);
  }

  lemma {:induction false} OnlyDraft(drafts: seq<Draft>, draft: Draft)
    requires Distinct(DraftIds(drafts)) && draft in drafts
    ensures draft.id in DependsOnByNode(drafts) && DependsOnByNode(drafts)[draft.id] == draft.dependsOn
  {
    hide Distinct;
    var init, last := drafts[..|drafts| - 1], drafts[|drafts| - 1];
    assert drafts == init + [last];
    assert DraftIds(drafts) == DraftIds(init) + [last.id];
    DistinctAppend(DraftIds(init), last.id);
    if draft in init {
      OnlyDraft(init, draft);
      var i :| 0 <= i < |init| && init[i] == draft;
      assert DraftIds(init)[i] == draft.id;
    }
  }

  lemma {:induction false} ParsedChain(drafts: seq<Draft>, p: seq<Id>)
    requires GoodDrafts(drafts) && Chain(ParsedGraph(drafts), p)
    ensures Chain(FlowGraph(drafts), p)
  {
    hide GoodDrafts, ParsedGraph, FlowGraph;
    forall i | 0 < i < |p| ensures p[i] in FlowGraph(drafts) && p[i - 1] in FlowGraph(drafts)[p[i]] {
      assert p[i] in p;
      ParsedEdge(drafts, p[i], p[i - 1]);
    }
    forall x | x in p ensures x in FlowGraph(drafts) {
      SameNodes(drafts, x);
    }
  }

  lemma SameNodes(drafts: seq<Draft>, v: Id)
    requires GoodDrafts(drafts) && v in ParsedGraph(drafts)
    ensures v in FlowGraph(drafts)
  {
    hide Distinct, NodeOf, ParsedDeps, DependsOnByNode, TaskDependencies.Clean, Effective;
    GoodNodes(drafts);
    ParsedAt(drafts);
    NodesOf(DraftIds(drafts), DependsOnByNode(drafts));
    assert v in DraftIds(drafts);
  }

  /** So a good plan that `confirm_flow` accepts is read back closed and without a cycle. */
  lemma GoodPlanReadsBack(drafts: seq<Draft>)
    requires GoodDrafts(drafts) && !HasCycle(FlowGraph(drafts))
    ensures Distinct(DraftNodes(drafts)) && Closed(ParsedGraph(drafts)) && !HasCycle(ParsedGraph(drafts))
  {
    hide GoodDrafts, ParsedGraph, FlowGraph, Chain, Distinct;
    GoodNodes(drafts);
    forall v, d | v in ParsedGraph(drafts) && d in ParsedGraph(drafts)[v] ensures d in ParsedGraph(drafts) {
      ParsedEdge(drafts, v, d);
    }
    forall c ensures !IsCycle(ParsedGraph(drafts), c) {
      if Chain(ParsedGraph(drafts), c) {
        ParsedChain(drafts, c);
        assert !IsCycle(FlowGraph(drafts), c);
      }
    }
  }
}
