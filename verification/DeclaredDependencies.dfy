/** What becomes, over a run, of a dependency that a plan declares. */
module DeclaredDependencies {
  import opened Wrappers
  import opened Ids
  import opened Sequences
  import opened Tasks
  import opened TaskSteps
  import opened ConfirmedFlows
  import opened SchedulerSteps
  import opened SchedulerRuns
  import opened SchedulerRaces
  import TaskDependencies

  /** The deletion of the node, or a write by which a deletion strips it from the row's list, and "none" if only that is left. */
  predicate TakesOut(w: World, s: Step, id: TaskId, d: Id) {
    match s
    case Remove(gone) =>
      gone in w.rows && id in w.rows && w.rows[gone].requirementId == w.rows[id].requirementId && w.rows[gone].flowNode == d
    case Write(k, Strip(node)) =>
      k in w.hands && w.hands[k].Reading? && w.hands[k].id == id && d in TakenOut(w.hands[k].row, node)
    case _ => false
  }

  lemma OwedAfter(w: World, s: Step, id: TaskId, d: Id)
    requires Core(w) && Enabled(w, s) && id in w.rows && id in Apply(w, s).rows
    ensures id in w.owed && id in Apply(w, s).owed
    ensures d in Apply(w, s).owed[id] <==> d in w.owed[id] && !TakesOut(w, s, id, d)
  {
    hide Core, TakenOut, Stored, After, Applies, WithoutAgent, Runnable, Elements, DependsOn, Answered;
    RowKnown(w, id);
    CoreIssued(w, id);
    if s.Write? {
      hide Enabled;
      WriteOwes(w, s);
    }
  }

  lemma WriteOwes(w: World, s: Step)
    requires s.Write? && Enabled(w, s)
    ensures var p := WriteOf(w, s).value;
      WriteOf(w, s).Some? && p.id == w.hands[s.worker].id && p.read == w.hands[s.worker].row && w.hands[s.worker].Reading? &&
      Apply(w, s).owed == (if p.id in w.rows then OwedLess(w, p.id, OutOf(w, s)).owed else w.owed)
  {
    hide TakenOut, Stored, After, Applies;
  }

  ghost predicate TakenBetween(ws: seq<World>, steps: seq<Step>, i: nat, j: nat, id: TaskId, d: Id)
    requires j <= |steps| && j <= |ws|
  {
    exists m :: i <= m < j && TakesOut(ws[m], steps[m], id, d)
  }

  /** Over a run, for as long as the row exists: what it was owed it is still owed exactly if no deletion has taken it out. */
  lemma {:induction false} OwedIff(ws: seq<World>, steps: seq<Step>, i: nat, j: nat, id: TaskId, d: Id)
    requires Run(ws, steps) && i <= j < |ws| && id in ws[i].rows && id in ws[j].rows
    ensures j <= |steps| && id in ws[i].owed && id in ws[j].owed
    ensures d in ws[j].owed[id] <==> d in ws[i].owed[id] && !TakenBetween(ws, steps, i, j, id, d)
    decreases j - i
  {
    hide Core, ClaimsCounted, Enabled, Apply, TakesOut;
    RunAt(ws, steps, i);
    RunKeepsBooks(ws, steps, i);
    RowKnown(ws[i], id);
    if i < j {
      RowStays(ws, steps, i, j, id);
      OwedIff(ws, steps, i, j - 1, id, d);
      RunAt(ws, steps, j - 1);
      RunKeepsBooks(ws, steps, j - 1);
      OwedAfter(ws[j - 1], steps[j - 1], id, d);
      assert TakenBetween(ws, steps, i, j, id, d) <==>
        TakenBetween(ws, steps, i, j - 1, id, d) || TakesOut(ws[j - 1], steps[j - 1], id, d);
    }
  }

  lemma OwedAtBirth(w: World, id: TaskId, t: Task)
    requires Enabled(w, Create(id, t))
    ensures var w' := Apply(w, Create(id, t)); id in w'.rows && id in w'.owed && w'.owed[id] == Elements(DependsOn(t))
  {
    hide DependsOn;
  }

  // ----- From the draft to the running row -----

  /** A row created from the draft, as `confirm_flow` does. */
  predicate FromDraft(t: Task, draft: Draft) {
    t.flowId != NOTHING && t.instance.Some? && t == FlowTask(t.createdAt, t.instance.value, t.flowId, draft, t.layer)
  }

  /** At state `j` the row created by step `i` has not started, or has its declared dependencies completed or taken out. */
  ghost predicate Awaited(ws: seq<World>, steps: seq<Step>, i: nat, j: nat, draft: Draft)
    requires i < |steps| && steps[i].Create? && j <= |steps| < |ws|
  {
    var id := steps[i].id;
    id in ws[j].rows && Started(ws[j].rows[id]) ==>
      forall d :: d in draft.dependsOn ==> Done(ws[j].rows, ws[j].rows[id].flowId, d) || TakenBetween(ws, steps, i + 1, j, id, d)
  }

  ghost predicate AwaitedIn(ws: seq<World>, steps: seq<Step>, i: nat, j: nat, draft: Draft) {
    Run(ws, steps) && HarmlessRun(ws, steps) && i < j <= |steps| && CreatedFrom(steps[i], draft) ==> Awaited(ws, steps, i, j, draft)
  }

  /** In every run of harmless steps. */
  ghost predicate AlwaysAwaited(draft: Draft) {
    forall ws, steps, i: nat, j: nat :: AwaitedIn(ws, steps, i, j, draft)
  }

  predicate CreatedFrom(s: Step, draft: Draft) {
    s.Create? && FromDraft(s.task, draft)
  }

  lemma FromDraftFacts(t: Task, draft: Draft)
    requires FromDraft(t, draft)
    ensures DependsOn(t) == ParsedDeps(draft) && t.flowId != NOTHING
  {
    hide TaskDependencies.Parse, TaskDependencies.Encode;
  }

  lemma NoneReadsAsNothing(draft: Draft)
    ensures draft.dependsOn == NO_DEPENDENCIES ==> ParsedDeps(draft) == [] && Elements(draft.dependsOn) == {Id("none")}
  {
    hide TaskDependencies.Parse, TaskDependencies.Encode;
    if draft.dependsOn == NO_DEPENDENCIES {
      TaskDependencies.RoundTripOfClean(draft.dependsOn);
    }
  }

  /** The text form keeps the declared set exactly for clean lists other than the one that reads as "none". */
  lemma DeclaredIsOwedIff(draft: Draft)
    ensures Elements(ParsedDeps(draft)) == Elements(draft.dependsOn) <==>
      TaskDependencies.AllClean(draft.dependsOn) && draft.dependsOn != NO_DEPENDENCIES
  {
    hide TaskDependencies.Parse, TaskDependencies.Encode, TaskDependencies.Clean;
    TaskDependencies.ParseIsClean(Some(TaskDependencies.Encode(draft.dependsOn)));
    TaskDependencies.RoundTripIff(draft.dependsOn);
    NoneReadsAsNothing(draft);
    if Elements(ParsedDeps(draft)) == Elements(draft.dependsOn) {
      forall m | 0 <= m < |draft.dependsOn| ensures TaskDependencies.Clean(draft.dependsOn[m]) {
        assert draft.dependsOn[m] in Elements(ParsedDeps(draft));
      }
    }
  }

  lemma DeclaredAwaited(ws: seq<World>, steps: seq<Step>, i: nat, j: nat, draft: Draft)
    requires Run(ws, steps) && HarmlessRun(ws, steps) && i < j <= |steps| && CreatedFrom(steps[i], draft)
    requires TaskDependencies.AllClean(draft.dependsOn) && draft.dependsOn != NO_DEPENDENCIES
    ensures |ws| == |steps| + 1 && Awaited(ws, steps, i, j, draft)
  {
    hide HarmlessRun, Done, Started, TakesOut, TaskDependencies.AllClean, FromDraft, ParsedDeps, DependsOn, Apply, Enabled;
    var id := steps[i].id;
    RunAt(ws, steps, i);
    if id in ws[j].rows && Started(ws[j].rows[id]) {
      OwedAtBirth(ws[i], id, steps[i].task);
      FromDraftFacts(steps[i].task, draft);
      DeclaredIsOwedIff(draft);
      forall d | d in draft.dependsOn
        ensures Done(ws[j].rows, ws[j].rows[id].flowId, d) || TakenBetween(ws, steps, i + 1, j, id, d)
      {
        assert d in Elements(draft.dependsOn);
        OwedIff(ws, steps, i + 1, j, id, d);
        StartedOnlyAfterDependencies(ws, steps, j, id, d);
      }
    }
  }

  /** A row that depends on a node called "none" alone starts at once. */
  lemma NoneIsNotAwaited(draft: Draft) returns (ws: seq<World>, steps: seq<Step>)
    requires draft.dependsOn == NO_DEPENDENCIES
    ensures Run(ws, steps) && HarmlessRun(ws, steps) && |ws| == |steps| + 1 && 0 < |steps|
    ensures CreatedFrom(steps[0], draft) && !Awaited(ws, steps, 0, |steps|, draft)
  {
    hide Stage, Run, Runnable, TaskDependencies.Encode, TaskDependencies.Parse, TaskDependencies.Clean, NO_DEPENDENCIES;
    var t := FlowTask(0, 0, FLOW, draft, 1);
    var running := t.(status := Running);
    NoneReadsAsNothing(draft);
    FromDraftFacts(t, draft);
    assert Runnable(map[][0 := t], None, 0) by { MayStart(t); }
    var ws0, steps0 := Start();
    var ws1, steps1 := DoCreate(ws0, steps0, map[], map[], {}, 0, t);
    ws, steps := DoClaim(ws1, steps1, map[][0 := t], map[], {} + {0}, 0, None, 0);
    StageLast(ws, steps, map[][0 := t][0 := running], map[][0 := Loaded(0, running)], {} + {0});
    RunAt(ws, steps, 0);
    assert steps == [Create(0, t), Pick(0, None, 0), Claim(0), Refresh(0)];
    NothingWritten(ws, steps);
    hide HarmlessRun;
    assert !Done(ws[|steps|].rows, FLOW, Id("none"));
    assert Id("none") in Elements(draft.dependsOn);
  }

  lemma MayStart(t: Task)
    requires t.status == Queued && DependsOn(t) == []
    ensures Runnable(map[][0 := t], None, 0)
  {
  }

  lemma NothingWritten(ws: seq<World>, steps: seq<Step>)
    requires |ws| == |steps| + 1 && forall i :: 0 <= i < |steps| ==> !IsWriter(steps[i])
    ensures HarmlessRun(ws, steps)
  {
    hide Harmless;
    forall i | 0 <= i < |steps| ensures Harmless(ws[i], steps[i]) {
      OnlyWritesHarm(ws[i], steps[i]);
    }
  }

  /** End to end, for clean lists: declared dependencies are always awaited, except by the one list that reads as "none". */
  lemma AlwaysAwaitedIff(draft: Draft)
    requires TaskDependencies.AllClean(draft.dependsOn)
    ensures AlwaysAwaited(draft) <==> draft.dependsOn != NO_DEPENDENCIES
  {
    hide HarmlessRun, Run, Awaited, FromDraft, TaskDependencies.AllClean;
    if draft.dependsOn != NO_DEPENDENCIES {
      forall ws, steps, i: nat, j: nat ensures AwaitedIn(ws, steps, i, j, draft) {
        if Run(ws, steps) && HarmlessRun(ws, steps) && i < j <= |steps| && CreatedFrom(steps[i], draft) {
          DeclaredAwaited(ws, steps, i, j, draft);
        }
      }
    } else {
      var ws, steps := NoneIsNotAwaited(draft);
      assert !AwaitedIn(ws, steps, 0, |steps|, draft);
    }
  }
}
