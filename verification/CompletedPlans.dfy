/** What the plan of a completed session is worth: the completion call checks it, a status event does not. */
module CompletedPlans {
  import opened Wrappers
  import opened PlannerNodes
  import opened NodePatches
  import opened PlannerEvents
  import opened PlannerSessions
  import opened SessionRuns
  import Checks = CompletionCheck
  import Text

  /** An event that is read without error, is not skipped as known, and carries the status "completed". */
  ghost predicate Completing(p: Progress, e: Event) {
    && p.session.status == Planning
    && !(EventKeyOf(e).Some? && EventKeyOf(e).value in p.seen)
    && EventNodes(e).Ok? && NormalizeEvent(e).Ok?
    && NormalizeEvent(e).value.nextStatus == Some(Completed)
  }

  /** The plan an event leaves: the nodes it carries, or the old ones. */
  function PlanAfter(s: Session, e: Event): seq<Node> {
    match EventNodes(e)
    case Ok(Some(nodes)) => nodes
    case _ => s.nodes
  }

  /**
    Exactly the events that carry the completed status complete a session that is still planning, and they do so
    whatever its plan is.
   */
  lemma StatusEventSkipsTheCheck(p: Progress, e: Event, now: int)
    requires p.session.status == Planning
    ensures Completing(p, e) <==> ApplyEvent(p, e, now).Ok? && ApplyEvent(p, e, now).value.session.status == Completed
    ensures Completing(p, e) ==>
      var s' := ApplyEvent(p, e, now).value.session;
      s'.completedAt == Some(now) && s'.nodes == PlanAfter(p.session, e)
  {
    hide NormalizeEvent, EventKeyOf, EventNodes, Logged, Operations;
  }

  /** The event of a batch that completed the session, and the plan it did so with. */
  ghost predicate CompletesAt(s: Session, events: seq<Event>, now: int, k: nat, nodes: seq<Node>) {
    && k < |events|
    && ApplyAll(Start(s), events[..k], now).Ok?
    && var p := ApplyAll(Start(s), events[..k], now).value;
    && Completing(p, events[k]) && nodes == PlanAfter(p.session, events[k])
  }

  lemma {:induction false} CompletingEvent(s: Session, events: seq<Event>, now: int) returns (k: nat)
    requires Good(s) && s.status == Planning && ApplyAll(Start(s), events, now).Ok?
    requires ApplyAll(Start(s), events, now).value.session.status == Completed
    ensures CompletesAt(s, events, now, k, ApplyAll(Start(s), events, now).value.session.nodes)
    decreases |events|
  {
    hide ApplyEvent, Good, Completing, PlanAfter;
    var init, last := events[..|events| - 1], events[|events| - 1];
    var p := ApplyAll(Start(s), init, now).value;
    GoodAfter(Start(s), init, now);
    EventEvolves(p, last, now);
    if p.session.status == Planning {
      StatusEventSkipsTheCheck(p, last, now);
      k := |init|;
    } else {
      k := CompletingEvent(s, init, now);
      assert events[..k] == init[..k];
    }
  }

  /** One call that completes a session. */
  lemma CompletingCall(c: Call, s: Session, s': Session) returns (k: nat)
    requires Good(s) && Calls(c, s, s') && s.status == Planning && s'.status == Completed
    ensures c.Ingest? || c.Complete?
    ensures c.Complete? ==> Checks.Completable(s'.nodes)
    ensures c.Ingest? ==> CompletesAt(s, c.events, c.at, k, s'.nodes)
  {
    hide ApplyAll, Good, Checks.Completable, Checks.Verdict, NormalizeAll, NormalizeNode, Completing, PlanAfter, CompletesAt, WithNode, WithoutNode, HasNode;
    k := 0;
    if c.Ingest? {
      k := CompletingEvent(s, c.events, c.at);
    }
  }

  /**
    Over every run from a planning session: the plan of a completed session has passed the completion check exactly
    where the completing call made one; otherwise a status event completed it with the plan of that moment.
   */
  lemma {:induction false} CompletedPlanOrigin(states: seq<Session>, calls: seq<Call>, j: nat) returns (i: nat, k: nat)
    requires Run(states, calls) && j < |states| && states[0].status == Planning && states[j].status == Completed
    ensures i < j && i < |calls| && (calls[i].Ingest? || calls[i].Complete?) && states[i].status == Planning
    ensures calls[i].Complete? ==> Checks.Completable(states[j].nodes)
    ensures calls[i].Ingest? ==> CompletesAt(states[i], calls[i].events, calls[i].at, k, states[j].nodes)
  {
    hide Good, Calls, Checks.Completable, CompletesAt, Evolves;
    RunEvolves(states, calls, j - 1, j);
    if states[j - 1].status == Planning {
      i := j - 1;
      k := CompletingCall(calls[i], states[i], states[j]);
    } else {
      FinishedForever(states, calls, j - 1, j);
      i, k := CompletedPlanOrigin(states, calls, j - 1);
    }
  }

  /** A status event that says the plan is complete. */
  const DONE := Event("status", "", "", "", "", "", Some("completed"), None)

  lemma DoneReads()
    ensures EventKeyOf(DONE) == None && EventNodes(DONE) == Ok(None)
    ensures NormalizeEvent(DONE).Ok? && NormalizeEvent(DONE).value.nextStatus == Some(Completed)
  {
    hide FirstNonEmpty, Field;
    Text.StripTrimmed("status");
    Text.StripTrimmed("completed");
    hide Text.Strip;
    assert Text.Lower("status") == "status" && Text.Lower("completed") == "completed";
  }

  /** So there is a run to a completed session for every plan that would not pass the check. */
  lemma UncheckedCompletion(s: Session, now: int) returns (s': Session)
    requires Good(s) && s.status == Planning && !Checks.Completable(s.nodes)
    ensures Run([s, s'], [Ingest([DONE], now)]) && s'.status == Completed && !Checks.Completable(s'.nodes)
  {
    hide NormalizeEvent, EventKeyOf, EventNodes, Checks.Completable, ApplyEvent, Good;
    DoneReads();
    OneEvent(Start(s), DONE, now);
    StatusEventSkipsTheCheck(Start(s), DONE, now);
    s' := ApplyEvent(Start(s), DONE, now).value.session;
  }

  lemma OneEvent(p: Progress, e: Event, now: int)
    ensures ApplyAll(p, [e], now) == ApplyEvent(p, e, now)
  {
    assert [e][..0] == [];
  }
}
