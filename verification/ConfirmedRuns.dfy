/** Confirmed flows inside a run: their creation, what their rows still list later, and when they can drain. */
module ConfirmedRuns {
  import opened Wrappers
  import opened Ids
  import opened Sequences
  import opened Graph
  import opened Tasks
  import opened TaskSteps
  import opened FlowConfirmation
  import opened ConfirmedFlows
  import opened SchedulerSteps
  import opened SchedulerRuns
  import opened SchedulerRaces
  import opened FlowProgress
  import TaskDependencies
  import Text

  // ----- `confirm_flow` as commits -----

  ghost function RowsOf(rows: Rows, requirement: Id): set<TaskId> {
    set id | id in rows && rows[id].requirementId == requirement
  }

  lemma {:induction false} DoRemoveAll(ws: seq<World>, steps: seq<Step>, rows: Rows, hands: map<Worker, Hand>, issued: set<TaskId>, f: Id)
    returns (ws': seq<World>, steps': seq<Step>)
    requires Stage(ws, steps, rows, hands, issued)
    ensures Stage(ws', steps', RequirementDeleted(rows, f), hands, issued) && ws <= ws' && steps <= steps'
    decreases |RowsOf(rows, f)|
  {
    hide Stage;
    if RowsOf(rows, f) == {} {
      forall id | id in rows ensures rows[id].requirementId != f { assert id !in RowsOf(rows, f); }
      assert RequirementDeleted(rows, f) == rows;
      ws', steps' := ws, steps;
    } else {
      var id :| id in RowsOf(rows, f);
      var ws1, steps1 := DoRemove(ws, steps, rows, hands, issued, id);
      assert RowsOf(rows - {id}, f) == RowsOf(rows, f) - {id};
      ws', steps' := DoRemoveAll(ws1, steps1, rows - {id}, hands, issued, f);
      assert RequirementDeleted(rows - {id}, f) == RequirementDeleted(rows, f);
    }
  }

  ghost function Creations(q: Request, placed: seq<Placed>): seq<Step>
    requires |placed| <= |q.taskIds| && |placed| <= |q.stamps| && forall p :: p in placed ==> p.node in NodeById(q.drafts)
  {
    seq(|placed|, a requires 0 <= a < |placed| => Create(q.taskIds[a], NewRow(q, placed, a)))
  }

  lemma {:induction false} DoCreateAll(ws: seq<World>, steps: seq<Step>, rows: Rows, hands: map<Worker, Hand>, issued: set<TaskId>,
      q: Request, placed: seq<Placed>)
    returns (ws': seq<World>, steps': seq<Step>)
    requires Stage(ws, steps, rows, hands, issued)
    requires |placed| <= |q.taskIds| && |placed| <= |q.stamps| && forall p :: p in placed ==> p.node in NodeById(q.drafts)
    requires Distinct(q.taskIds) && forall id :: id in q.taskIds ==> id !in issued
    ensures Stage(ws', steps', WithTasks(rows, q, placed), hands, issued + Elements(q.taskIds[..|placed|])) && ws <= ws'
    ensures steps' == steps + Creations(q, placed)
  {
    hide Stage, FlowTask, NodeById, Distinct, NewRow, ParsedDeps, NodeOf, DependsOn, Creations, Elements;
    if placed == [] {
      ws', steps' := ws, steps;
      NothingCreated(q, issued);
    } else {
      var i := |placed| - 1;
      var ws1, steps1 := DoCreateAll(ws, steps, rows, hands, issued, q, placed[..i]);
      IssuedOnce(q, issued, i);
      NewRowFacts(q, placed, i);
      NewRowIs(q, placed, i);
      ws', steps' := DoCreate(ws1, steps1, WithTasks(rows, q, placed[..i]), hands, issued + Elements(q.taskIds[..i]),
        q.taskIds[i], NewRow(q, placed, i));
      MoreCreations(q, placed);
    }
  }

  lemma IssuedOnce(q: Request, issued: set<TaskId>, i: nat)
    requires i < |q.taskIds| && Distinct(q.taskIds) && forall id :: id in q.taskIds ==> id !in issued
    ensures q.taskIds[i] !in issued + Elements(q.taskIds[..i])
    ensures issued + Elements(q.taskIds[..i]) + {q.taskIds[i]} == issued + Elements(q.taskIds[..i + 1])
  {
    DistinctAt(q.taskIds, i);
    assert q.taskIds[..i + 1] == q.taskIds[..i] + [q.taskIds[i]];
  }

  lemma NothingCreated(q: Request, issued: set<TaskId>)
    ensures Creations(q, []) == [] && issued + Elements(q.taskIds[..0]) == issued
  {
  }

  lemma MoreCreations(q: Request, placed: seq<Placed>)
    requires placed != [] && |placed| <= |q.taskIds| && |placed| <= |q.stamps| && forall p :: p in placed ==> p.node in NodeById(q.drafts)
    ensures var i := |placed| - 1; Creations(q, placed) == Creations(q, placed[..i]) + [Create(q.taskIds[i], NewRow(q, placed, i))]
  {
    var i := |placed| - 1;
    forall a | 0 <= a < i ensures NewRow(q, placed[..i], a) == NewRow(q, placed, a) {
      NewRowPrefix(q, placed, i, a);
    }
  }

  /** Whoever is at work meanwhile: the deletions and insertions of a confirmation, commit by commit, lead to its outcome. */
  lemma ConfirmationIsCommits(ws: seq<World>, steps: seq<Step>, rows: Rows, hands: map<Worker, Hand>, issued: set<TaskId>,
      rows': Rows, q: Request, placed: seq<Placed>)
    returns (ws': seq<World>, steps': seq<Step>)
    requires Stage(ws, steps, rows, hands, issued) && Confirmed(rows, rows', q, placed) && Enough(q)
    requires Distinct(q.taskIds) && forall id :: id in q.taskIds ==> id !in issued
    ensures Stage(ws', steps', rows', hands, issued + Elements(q.taskIds))
    ensures ws <= ws' && steps <= steps' && Born(steps', |steps'|, rows', q)
  {
    hide Stage, PlacesAll, WithTasks, NodeById, Distinct, Born, NewRow;
    var ws1, steps1 := DoRemoveAll(ws, steps, rows, hands, issued, q.flow);
    ws', steps' := DoCreateAll(ws1, steps1, RequirementDeleted(rows, q.flow), hands, issued, q, placed);
    assert q.taskIds[..|placed|] == q.taskIds;
    StageCore(ws, steps, rows, hands, issued);
    CreatedIsBorn(steps1, rows, rows', issued, q, placed);
  }

  lemma StageCore(ws: seq<World>, steps: seq<Step>, rows: Rows, hands: map<Worker, Hand>, issued: set<TaskId>)
    requires Stage(ws, steps, rows, hands, issued)
    ensures FlowsAreRequirements(rows) && forall id :: id in rows ==> id in issued
  {
    RunKeepsBooks(ws, steps, |ws| - 1);
    hide Lists, HandOk, SameButExtras;
    assert forall id :: id in rows ==> RowOk(ws[|ws| - 1], id);
  }

  // ----- Rows born from one request -----

  ghost predicate BornAt(steps: seq<Step>, m: nat, id: TaskId, q: Request, draft: Draft) {
    && m < |steps| && steps[m].Create? && steps[m].id == id && draft in q.drafts
    && steps[m].task.flowId == q.flow && steps[m].task.instance == Some(q.inst)
    && steps[m].task.flowNode == NodeOf(draft) && DependsOn(steps[m].task) == ParsedDeps(draft)
  }

  ghost predicate BornBefore(steps: seq<Step>, i: nat, id: TaskId, q: Request) {
    exists m: nat, draft :: m < i && BornAt(steps, m, id, q, draft)
  }

  /** All rows of the request's flow were created for it, each from one of its drafts. */
  ghost predicate Born(steps: seq<Step>, i: nat, rows: Rows, q: Request) {
    forall id :: id in rows && rows[id].flowId == q.flow ==> q.flow == NOTHING || BornBefore(steps, i, id, q)
  }

  lemma CreatedIsBorn(steps: seq<Step>, rows: Rows, rows': Rows, issued: set<TaskId>, q: Request, placed: seq<Placed>)
    requires FlowsAreRequirements(rows) && Enough(q) && Distinct(q.taskIds) && Fresh(q.taskIds, rows)
    requires Confirmed(rows, rows', q, placed)
    ensures Born(steps + Creations(q, placed), |steps + Creations(q, placed)|, rows', q)
  {
    if q.flow != NOTHING {
      hide Confirmed, NewRow, BornAt, Distinct, Fresh, FlowsAreRequirements, Enough;
      ConfirmationExtends(rows, rows', q, placed);
      var steps' := steps + Creations(q, placed);
      forall id | id in rows' && rows'[id].flowId == q.flow ensures BornBefore(steps', |steps'|, id, q) {
        assert id in q.taskIds;
        var a :| 0 <= a < |q.taskIds| && q.taskIds[a] == id;
        BornHere(steps, q, placed, a);
      }
    }
  }

  lemma BornHere(steps: seq<Step>, q: Request, placed: seq<Placed>, a: nat)
    requires a < |placed| && |placed| <= |q.taskIds| && |placed| <= |q.stamps| && forall p :: p in placed ==> p.node in NodeById(q.drafts)
    ensures a < |placed| && placed[a].node in NodeById(q.drafts)
    ensures BornAt(steps + Creations(q, placed), |steps| + a, q.taskIds[a], q, NodeById(q.drafts)[placed[a].node])
  {
    hide NodeById, NewRow, NodeOf, ParsedDeps, DependsOn;
    assert placed[a] in placed;
    NewRowFacts(q, placed, a);
    assert (steps + Creations(q, placed))[|steps| + a] == Create(q.taskIds[a], NewRow(q, placed, a));
  }

  // ----- Dependency lists only shrink -----

  /** `u` has the columns of `t` and lists nothing that `t` does not. */
  ghost predicate Within(t: Task, u: Task) {
    SameButExtras(t, u) && forall d :: d in DependsOn(u) ==> d in DependsOn(t)
  }

  /** The row and every copy of it list at most what it was created with. */
  ghost predicate AllWithin(w: World, id: TaskId, t: Task) {
    && id in w.issued
    && (id in w.rows ==> Within(t, w.rows[id]))
    && (forall k :: k in w.hands && w.hands[k].id == id && HasCopy(w.hands[k]) ==> Within(t, w.hands[k].row))
  }

  lemma WithinChange(t: Task, read: Task, change: Change)
    requires Within(t, read) && Applies(change, read)
    ensures Within(t, After(change, read))
  {
    AfterKeeps(change, read);
    if change.Strip? {
      hide Stripped, DependsOn, Without, TakenOut;
      forall d | d in DependsOn(Stripped(read, change.node)) ensures d in DependsOn(t) {
        StrippedDeps(read, change.node, d);
      }
    } else {
      hide TaskDependencies.Parse;
      OtherChanges(change, read);
    }
  }

  lemma WithinSend(t: Task, u: Task, v: Task)
    requires Within(t, u) && v == u.(status := v.status, dispatchStatus := v.dispatchStatus)
    ensures Within(t, v)
  {
    hide TaskDependencies.Parse;
  }

  lemma WithinStored(t: Task, current: Task, read: Task, next: Task)
    requires Within(t, current) && Within(t, next)
    ensures Within(t, Stored(current, read, next))
  {
    hide TaskDependencies.Parse;
  }

  lemma NextWithin(w: World, s: Step, id: TaskId, t: Task)
    requires AllWithin(w, id, t) && Enabled(w, s) && WriteOf(w, s).Some? && WriteOf(w, s).value.id == id
    ensures Within(t, WriteOf(w, s).value.next)
  {
    hide Within, After, Applies;
    var p, read := WriteOf(w, s).value, w.hands[s.worker].row;
    assert Within(t, read);
    if s.Write? {
      WithinChange(t, read, s.change);
    } else {
      WithinSend(t, read, p.next);
    }
  }

  /** A hand's copy after a step is an older copy with other marks, or a reading of the row. */
  ghost predicate CopyFrom(w: World, k: Worker, h: Hand)
    requires HasCopy(h)
  {
    || (k in w.hands && HasCopy(w.hands[k]) && w.hands[k].id == h.id
        && h.row == w.hands[k].row.(status := h.row.status, dispatchStatus := h.row.dispatchStatus))
    || (h.id in w.rows && h.row == w.rows[h.id])
  }

  lemma HandsFrom(w: World, s: Step, k: Worker)
    requires Enabled(w, s) && k in Apply(w, s).hands && HasCopy(Apply(w, s).hands[k])
    ensures CopyFrom(w, k, Apply(w, s).hands[k])
  {
    hide Runnable, After, DependsOn, Applies, Stored, OutOf, OwedWithout, Elements, WithoutAgent, Written, Answered;
    if s.Prepare? {
      PreparedFrom(w, s, k);
    } else if IsWriter(s) {
      SettledFrom(w, s);
    }
  }

  lemma PreparedFrom(w: World, s: Step, k: Worker)
    requires Enabled(w, s) && s.Prepare? && k in Apply(w, s).hands
    ensures k in w.hands && (w.hands[k] == Apply(w, s).hands[k] ||
      (w.hands[k].Loaded? && Apply(w, s).hands[k] == Prepared(w.hands[k].id, w.hands[k].row.(status := Running, dispatchStatus := "running"))))
  {
    hide Stored, OutOf;
  }

  lemma SettledFrom(w: World, s: Step)
    requires Enabled(w, s) && (s.Settle? || s.Write?)
    ensures forall k :: k in Apply(w, s).hands ==> k in w.hands && Apply(w, s).hands[k] == w.hands[k]
  {
    hide Stored, OutOf, After, Answered, Applies, WithoutAgent;
  }

  lemma StepKeepsWithin(w: World, s: Step, id: TaskId, t: Task)
    requires AllWithin(w, id, t) && Enabled(w, s)
    ensures AllWithin(Apply(w, s), id, t)
  {
    hide Enabled, Apply, Within, Stored, WriteOf;
    var w' := Apply(w, s);
    IssuedGrows(w, s);
    RowsAfter(w, s);
    WritersWrite(w, s);
    CreatesFresh(w, s);
    if id in w'.rows && (id !in w.rows || w'.rows[id] != w.rows[id]) {
      if s.Claim? {
        WithinSend(t, w.rows[id], w'.rows[id]);
      } else {
        var p := WriteOf(w, s).value;
        NextWithin(w, s, id, t);
        WithinStored(t, w.rows[id], p.read, p.next);
      }
    }
    forall k | k in w'.hands && w'.hands[k].id == id && HasCopy(w'.hands[k]) ensures Within(t, w'.hands[k].row) {
      HandsFrom(w, s, k);
      if k in w.hands && HasCopy(w.hands[k]) && w.hands[k].id == id {
        CopyWithin(w, k, w'.hands[k], t);
      }
    }
  }

  lemma CopyWithin(w: World, k: Worker, h: Hand, t: Task)
    requires AllWithin(w, h.id, t) && HasCopy(h) && CopyFrom(w, k, h)
    ensures Within(t, h.row)
  {
    hide Within;
    if k in w.hands && HasCopy(w.hands[k]) && w.hands[k].id == h.id
       && h.row == w.hands[k].row.(status := h.row.status, dispatchStatus := h.row.dispatchStatus) {
      WithinSend(t, w.hands[k].row, h.row);
    }
  }

  lemma CreatedWithin(w: World, id: TaskId, t: Task)
    requires Core(w) && Enabled(w, Create(id, t))
    ensures AllWithin(Apply(w, Create(id, t)), id, t)
  {
    hide Core, HandOk, DependsOn;
    var w' := Apply(w, Create(id, t));
    forall k | k in w'.hands ensures w'.hands[k].id != id {
      HandIsOk(w, k);
      HandIssued(w, w.hands[k]);
    }
  }

  /** In every run, whatever overlaps: a row never lists a node it was not created with, stale copies included. */
  lemma {:induction false} ListsNeverGrow(ws: seq<World>, steps: seq<Step>, m: nat, i: nat, id: TaskId, t: Task)
    requires Run(ws, steps) && m < |steps| && steps[m] == Create(id, t) && m < i < |ws|
    ensures AllWithin(ws[i], id, t)
    decreases i
  {
    hide Core, ClaimsCounted, Enabled, Apply, AllWithin;
    RunAt(ws, steps, i - 1);
    if i == m + 1 {
      RunKeepsBooks(ws, steps, m);
      CreatedWithin(ws[m], id, t);
    } else {
      ListsNeverGrow(ws, steps, m, i - 1, id, t);
      StepKeepsWithin(ws[i - 1], steps[i - 1], id, t);
    }
  }

  // ----- Which confirmed flows can drain -----

  /** The row is one of the request's, and lists at most what the text form left of its draft's dependencies. */
  ghost predicate DraftRow(t: Task, q: Request, draft: Draft) {
    && draft in q.drafts && t.flowNode == NodeOf(draft) && t.instance == Some(q.inst)
    && forall d :: d in DependsOn(t) ==> d in ParsedDeps(draft)
  }

  ghost predicate OfRequest(t: Task, q: Request) {
    exists draft :: DraftRow(t, q, draft)
  }

  ghost predicate AllOfRequest(rows: Rows, q: Request) {
    forall id :: id in rows && rows[id].flowId == q.flow ==> OfRequest(rows[id], q)
  }

  lemma BornIsOfRequest(ws: seq<World>, steps: seq<Step>, i: nat, q: Request)
    requires Run(ws, steps) && i < |ws| && q.flow != NOTHING && Born(steps, i, ws[i].rows, q)
    ensures AllOfRequest(ws[i].rows, q)
  {
    hide Run, AllWithin, NodeOf, ParsedDeps, DependsOn;
    forall id | id in ws[i].rows && ws[i].rows[id].flowId == q.flow ensures OfRequest(ws[i].rows[id], q) {
      var m: nat, draft :| m < i && BornAt(steps, m, id, q, draft);
      ListsNeverGrow(ws, steps, m, i, id, steps[m].task);
      RowWithin(ws[i], id, steps[m].task);
      assert DraftRow(ws[i].rows[id], q, draft);
    }
  }

  lemma RowWithin(w: World, id: TaskId, t: Task)
    requires AllWithin(w, id, t) && id in w.rows
    ensures w.rows[id].flowNode == t.flowNode && w.rows[id].instance == t.instance
    ensures forall d :: d in DependsOn(w.rows[id]) ==> d in DependsOn(t)
  {
    hide DependsOn;
  }

  lemma RequestIsOneInstance(rows: Rows, q: Request)
    requires AllOfRequest(rows, q)
    ensures OneInstance(rows, q.flow)
  {
    hide NodeOf, ParsedDeps, DependsOn;
    forall id | id in rows && rows[id].flowId == q.flow ensures rows[id].instance == Some(q.inst) {
      var draft :| DraftRow(rows[id], q, draft);
    }
  }

  /** What waits is part of the plan that was read back. */
  lemma OpenWithin(rows: Rows, q: Request, v: Id)
    requires AllOfRequest(rows, q) && Distinct(DraftNodes(q.drafts)) && v in Open(rows, q.flow)
    ensures v in ParsedGraph(q.drafts) && forall d :: d in Open(rows, q.flow)[v] ==> d in ParsedGraph(q.drafts)[v]
  {
    hide Open, OpenDeps, Leads, NodeOf, ParsedDeps, DependsOn, Distinct, DraftNodes, ParsedGraph, NodeDone;
    var id := OpenKey(rows, q.flow, v);
    InRows(rows, q.flow, id);
    assert OfRequest(rows[id], q);
    var draft :| DraftRow(rows[id], q, draft);
    ParsedAt(q.drafts);
    forall d | d in Open(rows, q.flow)[v] ensures d in ParsedGraph(q.drafts)[v] {
      OpenDepsAt(rows, q.flow, id, d);
    }
  }

  lemma OpenHasNoCycle(rows: Rows, q: Request)
    requires AllOfRequest(rows, q) && Distinct(DraftNodes(q.drafts)) && !HasCycle(ParsedGraph(q.drafts))
    ensures !HasCycle(Open(rows, q.flow))
  {
    hide Open, ParsedGraph, Distinct, DraftNodes, AllOfRequest;
    var g, big := Open(rows, q.flow), ParsedGraph(q.drafts);
    forall v | v in g ensures v in big && forall d :: d in g[v] ==> d in big[v] {
      OpenWithin(rows, q, v);
    }
    forall c ensures !IsCycle(g, c) {
      assert !IsCycle(big, c);
    }
  }

  /**
    In any run, whatever requests overlap: a flow whose rows come from one request, with an acyclic plan as read back,
    can be run to its end exactly if it is calm, its waiting rows have agents, and none of them lists a node without a row.
   */
  lemma FlowInRunDrainsIff(ws: seq<World>, steps: seq<Step>, i: nat, q: Request)
    requires Run(ws, steps) && i < |ws| && q.flow != NOTHING && Born(steps, i, ws[i].rows, q)
    requires Distinct(DraftNodes(q.drafts)) && !HasCycle(ParsedGraph(q.drafts))
    ensures var rows := ws[i].rows;
      CanDrain(rows, q.flow) <==> Calm(rows, q.flow) && HaveAgents(rows, q.flow) && Listed(rows, q.flow)
  {
    hide Run, Born, AllOfRequest, OneInstance, CanDrain, Calm, HaveAgents, Listed, HasCycle, Open, Distinct, ParsedGraph, DraftNodes;
    var rows := ws[i].rows;
    BornIsOfRequest(ws, steps, i, q);
    RequestIsOneInstance(rows, q);
    OpenHasNoCycle(rows, q);
    DrainsIff(rows, q.flow);
  }

  ghost predicate Whole(rows: Rows, q: Request) {
    forall draft :: draft in q.drafts ==> HasRow(rows, q.flow, NodeOf(draft))
  }

  /** A well-formed plan none of whose rows has been deleted cannot get stuck by itself, in no state of any run. */
  lemma WholeFlowNeverStuck(ws: seq<World>, steps: seq<Step>, i: nat, q: Request)
    requires Run(ws, steps) && i < |ws| && q.flow != NOTHING && Born(steps, i, ws[i].rows, q) && Whole(ws[i].rows, q)
    requires GoodDrafts(q.drafts) && !HasCycle(FlowGraph(q.drafts))
    ensures var rows := ws[i].rows; CanDrain(rows, q.flow) <==> Calm(rows, q.flow) && HaveAgents(rows, q.flow)
  {
    hide Run, Born, AllOfRequest, CanDrain, Calm, HaveAgents, Listed, HasCycle, Distinct, ParsedGraph, DraftNodes, GoodDrafts, FlowGraph, Whole;
    var rows := ws[i].rows;
    GoodPlanReadsBack(q.drafts);
    FlowInRunDrainsIff(ws, steps, i, q);
    BornIsOfRequest(ws, steps, i, q);
    WholeIsListed(rows, q);
  }

  lemma WholeIsListed(rows: Rows, q: Request)
    requires AllOfRequest(rows, q) && Whole(rows, q) && Closed(ParsedGraph(q.drafts)) && Distinct(DraftNodes(q.drafts))
    ensures Listed(rows, q.flow)
  {
    hide Distinct, NodeOf, ParsedDeps, DependsOn, HasRow, ParsedGraph;
    ParsedAt(q.drafts);
    forall id, d | id in Waiting(rows, q.flow) && d in DependsOn(rows[id]) ensures HasRow(rows, q.flow, d) {
      assert OfRequest(rows[id], q);
      var draft :| DraftRow(rows[id], q, draft);
      assert d in ParsedGraph(q.drafts)[NodeOf(draft)];
      assert d in DraftNodes(q.drafts);
      var a :| 0 <= a < |q.drafts| && DraftNodes(q.drafts)[a] == d;
      assert q.drafts[a] in q.drafts;
    }
  }

  // ----- Right after the confirmation -----

  ghost predicate DraftsHaveAgents(drafts: seq<Draft>) {
    forall draft :: draft in drafts ==> Text.Strip(draft.agentId) != ""
  }

  /** The row shows its draft: the node, the dependencies read back, the agent. */
  ghost predicate Shows(t: Task, q: Request, draft: Draft) {
    DraftRow(t, q, draft) && DependsOn(t) == ParsedDeps(draft) && t.agentId == draft.agentId && t.status == Queued && t.flowId == q.flow
  }

  lemma RowShows(base: Rows, rows: Rows, q: Request, placed: seq<Placed>, a: nat)
    requires Extends(base, rows, q, placed) && a < |placed|
    ensures var id := q.taskIds[a]; id in rows && Shows(rows[id], q, NodeById(q.drafts)[placed[a].node])
    ensures NodeById(q.drafts)[placed[a].node].id == placed[a].node
  {
    hide NodeById, NewRow, NodeOf, ParsedDeps, DependsOn;
    NewRowFacts(q, placed, a);
  }

  lemma SlotOfRow(base: Rows, rows: Rows, q: Request, placed: seq<Placed>, id: TaskId) returns (a: nat)
    requires Extends(base, rows, q, placed) && id in rows && rows[id].flowId == q.flow
    ensures a < |placed| == |q.taskIds| && q.taskIds[a] == id
  {
    hide NodeById, NewRow;
    assert id in q.taskIds;
    a :| 0 <= a < |q.taskIds| && q.taskIds[a] == id;
  }

  lemma SameNodeSameDraft(drafts: seq<Draft>, x: Draft, y: Draft)
    requires Distinct(DraftNodes(drafts)) && x in drafts && y in drafts && NodeOf(x) == NodeOf(y)
    ensures x == y
  {
    hide NodeOf, Distinct;
    var a :| 0 <= a < |drafts| && drafts[a] == x;
    var b :| 0 <= b < |drafts| && drafts[b] == y;
    DistinctIndices(DraftNodes(drafts));
    assert DraftNodes(drafts)[a] == DraftNodes(drafts)[b];
  }

  /** No two rows of the flow stand for one node. */
  lemma OneRowPerNode(base: Rows, rows: Rows, q: Request, placed: seq<Placed>, j: TaskId, k: TaskId)
    requires Extends(base, rows, q, placed) && PlacesAll(q.drafts, placed) && Distinct(DraftNodes(q.drafts))
    requires j in rows && k in rows && rows[j].flowId == rows[k].flowId == q.flow && rows[j].flowNode == rows[k].flowNode
    ensures j == k
  {
    hide Extends, NodeById, NodeOf, ParsedDeps, DependsOn, DraftNodes, Distinct, LongestChain;
    var a := SlotOfRow(base, rows, q, placed, j);
    var b := SlotOfRow(base, rows, q, placed, k);
    RowShows(base, rows, q, placed, a);
    RowShows(base, rows, q, placed, b);
    SlotExists(base, rows, q, placed, a);
    SlotExists(base, rows, q, placed, b);
    SameNodeSameDraft(q.drafts, NodeById(q.drafts)[placed[a].node], NodeById(q.drafts)[placed[b].node]);
    DistinctIndices(Nodes(placed));
    assert Nodes(placed)[a] == Nodes(placed)[b];
  }

  lemma RowForDraft(base: Rows, rows: Rows, q: Request, placed: seq<Placed>, draft: Draft) returns (id: TaskId)
    requires Extends(base, rows, q, placed) && PlacesAll(q.drafts, placed) && Distinct(DraftNodes(q.drafts)) && draft in q.drafts
    ensures id in rows && Shows(rows[id], q, draft)
  {
    hide Extends, Shows, NodeById, DraftNodes, Distinct, LongestChain;
    var i :| 0 <= i < |q.drafts| && q.drafts[i] == draft;
    assert draft.id == DraftIds(q.drafts)[i] && draft.id in Elements(Nodes(placed));
    var a :| 0 <= a < |placed| && Nodes(placed)[a] == draft.id;
    SlotExists(base, rows, q, placed, a);
    RowShows(base, rows, q, placed, a);
    var other := NodeById(q.drafts)[placed[a].node];
    ShownDraft(rows[q.taskIds[a]], q, other);
    SameNodeSameDraft(q.drafts, draft, other);
    id := q.taskIds[a];
  }

  lemma SlotExists(base: Rows, rows: Rows, q: Request, placed: seq<Placed>, a: nat)
    requires Extends(base, rows, q, placed) && a < |placed|
    ensures a < |q.taskIds| && placed[a].node in NodeById(q.drafts)
  {
  }

  lemma ShownDraft(t: Task, q: Request, draft: Draft)
    requires Shows(t, q, draft)
    ensures draft in q.drafts && t.flowNode == NodeOf(draft) && t.status == Queued && t.flowId == q.flow && DraftRow(t, q, draft)
    ensures DependsOn(t) == ParsedDeps(draft) && t.agentId == draft.agentId
  {
  }

  ghost predicate ShowsSome(t: Task, q: Request) {
    exists draft :: Shows(t, q, draft)
  }

  ghost predicate IsShown(rows: Rows, q: Request, draft: Draft) {
    exists id :: id in rows && Shows(rows[id], q, draft)
  }

  ghost predicate OnePerNode(rows: Rows, f: Id) {
    forall j, k, n :: IsNode(rows, None, f, n, j) && IsNode(rows, None, f, n, k) ==> j == k
  }

  /** All of the flow waits, each row as its draft says. */
  ghost predicate AllShow(rows: Rows, q: Request) {
    && (forall id :: id in rows && rows[id].flowId == q.flow ==> ShowsSome(rows[id], q))
    && (forall draft :: draft in q.drafts ==> IsShown(rows, q, draft))
    && OnePerNode(rows, q.flow)
  }

  lemma ConfirmedShows(base: Rows, rows: Rows, q: Request, placed: seq<Placed>)
    requires Extends(base, rows, q, placed) && PlacesAll(q.drafts, placed) && Distinct(DraftNodes(q.drafts))
    ensures AllShow(rows, q)
  {
    hide Extends, PlacesAll, Shows, NodeById, DraftNodes, Distinct;
    forall id | id in rows && rows[id].flowId == q.flow ensures ShowsSome(rows[id], q) {
      var a := SlotOfRow(base, rows, q, placed, id);
      SlotExists(base, rows, q, placed, a);
      RowShows(base, rows, q, placed, a);
    }
    forall draft | draft in q.drafts ensures IsShown(rows, q, draft) {
      var id := RowForDraft(base, rows, q, placed, draft);
    }
    forall j, k, n | IsNode(rows, None, q.flow, n, j) && IsNode(rows, None, q.flow, n, k) ensures j == k {
      OneRowPerNode(base, rows, q, placed, j, k);
    }
  }

  lemma ShowingRow(rows: Rows, q: Request, v: Id) returns (id: TaskId, draft: Draft)
    requires AllShow(rows, q) && Distinct(DraftNodes(q.drafts)) && v in ParsedGraph(q.drafts)
    ensures id in Waiting(rows, q.flow) && Leads(rows, q.flow, id) && rows[id].flowNode == v
    ensures DependsOn(rows[id]) == ParsedGraph(q.drafts)[v] && HasRow(rows, q.flow, v)
  {
    hide Distinct, Shows, NodeOf, ParsedDeps, DependsOn, ParsedGraph;
    ParsedAt(q.drafts);
    assert v in DraftNodes(q.drafts);
    var i :| 0 <= i < |q.drafts| && DraftNodes(q.drafts)[i] == v;
    draft := q.drafts[i];
    assert draft in q.drafts;
    assert IsShown(rows, q, draft);
    id :| id in rows && Shows(rows[id], q, draft);
    ShownDraft(rows[id], q, draft);
    assert IsNode(rows, None, q.flow, v, id);
  }

  lemma NothingDone(rows: Rows, q: Request, d: Id)
    requires AllShow(rows, q)
    ensures !NodeDone(rows, None, q.flow, d)
  {
    hide DraftRow, ParsedDeps, DependsOn;
  }

  lemma OpenIsPlan(rows: Rows, q: Request)
    requires AllShow(rows, q) && Distinct(DraftNodes(q.drafts))
    ensures forall v :: v in Open(rows, q.flow) <==> v in ParsedGraph(q.drafts)
    ensures forall v, d {:trigger d in ParsedGraph(q.drafts)[v]} {:trigger d in Open(rows, q.flow)[v]} ::
      v in Open(rows, q.flow) && v in ParsedGraph(q.drafts) ==> (d in Open(rows, q.flow)[v] <==> d in ParsedGraph(q.drafts)[v])
    ensures HasCycle(Open(rows, q.flow)) <==> HasCycle(ParsedGraph(q.drafts))
  {
    hide Open, OpenDeps, Leads, AllShow, ParsedGraph, Distinct, DraftNodes, HasCycle, Waiting, DependsOn, NodeDone;
    ShowsAreOfRequest(rows, q);
    forall v ensures v in Open(rows, q.flow) <==> v in ParsedGraph(q.drafts) {
      if v in Open(rows, q.flow) { OpenWithin(rows, q, v); }
      if v in ParsedGraph(q.drafts) {
        var id, draft := ShowingRow(rows, q, v);
        OpenAt(rows, q.flow, id);
      }
    }
    forall v, d {:trigger d in ParsedGraph(q.drafts)[v]} | v in Open(rows, q.flow) && v in ParsedGraph(q.drafts)
      ensures d in Open(rows, q.flow)[v] <==> d in ParsedGraph(q.drafts)[v]
    {
      var id, draft := ShowingRow(rows, q, v);
      InRows(rows, q.flow, id);
      OpenAt(rows, q.flow, id);
      OpenDepsAt(rows, q.flow, id, d);
      NothingDone(rows, q, d);
    }
    CyclesMatch(ParsedGraph(q.drafts), Open(rows, q.flow), {});
  }

  lemma ShowsAreOfRequest(rows: Rows, q: Request)
    requires AllShow(rows, q)
    ensures AllOfRequest(rows, q)
  {
    hide DraftRow, ParsedDeps, DependsOn;
  }

  lemma ListedIsClosed(rows: Rows, q: Request)
    requires AllShow(rows, q) && Distinct(DraftNodes(q.drafts))
    ensures Listed(rows, q.flow) <==> Closed(ParsedGraph(q.drafts))
  {
    hide AllShow, ParsedGraph, Distinct, DraftNodes, DependsOn, HasRow, Leads;
    if Listed(rows, q.flow) {
      forall v, d | v in ParsedGraph(q.drafts) && d in ParsedGraph(q.drafts)[v] ensures d in ParsedGraph(q.drafts) {
        var id, draft := ShowingRow(rows, q, v);
        assert HasRow(rows, q.flow, d);
        RowIsNode(rows, q, d);
      }
    }
    if Closed(ParsedGraph(q.drafts)) {
      ShowsAreOfRequest(rows, q);
      WholeWhenShown(rows, q);
      WholeIsListed(rows, q);
    }
  }

  lemma RowIsNode(rows: Rows, q: Request, d: Id)
    requires AllShow(rows, q) && Distinct(DraftNodes(q.drafts)) && HasRow(rows, q.flow, d)
    ensures d in ParsedGraph(q.drafts)
  {
    hide Shows, ParsedGraph, Distinct, NodeOf, ParsedDeps, DraftNodes;
    ParsedAt(q.drafts);
    var j :| IsNode(rows, None, q.flow, d, j);
    assert ShowsSome(rows[j], q);
    var draft :| Shows(rows[j], q, draft);
    ShownDraft(rows[j], q, draft);
  }

  lemma WholeWhenShown(rows: Rows, q: Request)
    requires AllShow(rows, q)
    ensures Whole(rows, q)
  {
    hide Shows, NodeOf;
    forall draft | draft in q.drafts ensures HasRow(rows, q.flow, NodeOf(draft)) {
      assert IsShown(rows, q, draft);
      var id :| id in rows && Shows(rows[id], q, draft);
      ShownDraft(rows[id], q, draft);
      assert IsNode(rows, None, q.flow, NodeOf(draft), id);
    }
  }

  lemma ShownAgents(rows: Rows, q: Request)
    requires AllShow(rows, q)
    ensures Calm(rows, q.flow) && (HaveAgents(rows, q.flow) <==> DraftsHaveAgents(q.drafts))
  {
    hide DraftRow, ParsedDeps, DependsOn, Text.Strip;
    forall draft | draft in q.drafts && HaveAgents(rows, q.flow) ensures Text.Strip(draft.agentId) != "" {
      assert IsShown(rows, q, draft);
      var id :| id in rows && Shows(rows[id], q, draft);
      assert id in Waiting(rows, q.flow);
    }
    forall id | id in Waiting(rows, q.flow) && DraftsHaveAgents(q.drafts) ensures !WithoutAgent(rows[id]) {
      assert ShowsSome(rows[id], q);
      var draft :| Shows(rows[id], q, draft);
      ShownInDrafts(rows[id], q, draft);
    }
  }

  lemma ShownInDrafts(t: Task, q: Request, draft: Draft)
    requires Shows(t, q, draft)
    ensures draft in q.drafts
  {
  }

  /**
    Exactly which confirmed flows can be run to their end: the drafts have agents, and as the stored lists read back,
    every dependency is a node and there is no cycle. Ids are compared as they are stored, without outer blanks.
   */
  lemma ConfirmedFlowDrainsIff(rows: Rows, rows': Rows, q: Request, placed: seq<Placed>)
    requires FlowsAreRequirements(rows) && q.flow != NOTHING && Enough(q) && Distinct(q.taskIds) && Fresh(q.taskIds, rows)
    requires Confirmed(rows, rows', q, placed) && Distinct(DraftNodes(q.drafts))
    ensures CanDrain(rows', q.flow) <==>
      DraftsHaveAgents(q.drafts) && Closed(ParsedGraph(q.drafts)) && !HasCycle(ParsedGraph(q.drafts))
    ensures |Waiting(rows', q.flow)| == |q.drafts|
  {
    hide Confirmed, Extends, PlacesAll, AllShow, DraftNodes, Distinct, Fresh, FlowsAreRequirements, AllOfRequest, OneInstance;
    hide CanDrain, Calm, HaveAgents, Listed, HasCycle, Open, ParsedGraph, Closed, DraftsHaveAgents, Waiting;
    var base := RequirementDeleted(rows, q.flow);
    ConfirmationExtends(rows, rows', q, placed);
    ConfirmedShows(base, rows', q, placed);
    ShowsAreOfRequest(rows', q);
    RequestIsOneInstance(rows', q);
    ShownAgents(rows', q);
    OpenIsPlan(rows', q);
    ListedIsClosed(rows', q);
    DrainsIff(rows', q.flow);
    AllWait(base, rows', q, placed);
    SameSizes(q, placed, rows, rows');
  }

  lemma SameSizes(q: Request, placed: seq<Placed>, rows: Rows, rows': Rows)
    requires Confirmed(rows, rows', q, placed)
    ensures |placed| == |q.drafts|
  {
  }

  lemma AllWait(base: Rows, rows: Rows, q: Request, placed: seq<Placed>)
    requires Extends(base, rows, q, placed) && Distinct(q.taskIds)
    ensures |Waiting(rows, q.flow)| == |placed|
  {
    hide NewRow, NodeById, Distinct, Shows, Extends;
    forall id ensures id in Waiting(rows, q.flow) <==> id in q.taskIds {
      if id in Waiting(rows, q.flow) {
        var a := SlotOfRow(base, rows, q, placed, id);
      }
      if id in q.taskIds {
        var a :| 0 <= a < |q.taskIds| && q.taskIds[a] == id;
        SlotCount(base, rows, q, placed);
        SlotExists(base, rows, q, placed, a);
        RowShows(base, rows, q, placed, a);
        ShownDraft(rows[id], q, NodeById(q.drafts)[placed[a].node]);
      }
    }
    SlotCount(base, rows, q, placed);
    assert Waiting(rows, q.flow) == Elements(q.taskIds);
    DistinctCardinality(q.taskIds);
  }

  lemma SlotCount(base: Rows, rows: Rows, q: Request, placed: seq<Placed>)
    requires Extends(base, rows, q, placed)
    ensures |placed| == |q.taskIds|
  {
  }
}
