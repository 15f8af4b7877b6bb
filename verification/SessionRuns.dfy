/** What holds over every sequence of calls on one planner session. */
module SessionRuns {
  import opened Wrappers
  import opened Ids
  import opened Sequences
  import opened PlannerNodes
  import opened NodePatches
  import opened PlannerEvents
  import opened PlannerSessions
  import Checks = CompletionCheck
  import Text

  // ----- Invariant and evolution -----

  ghost predicate Numbered(messages: seq<Message>) {
    forall i :: 0 <= i < |messages| ==> messages[i].number == i + 1
  }

  /** Nodes are normalised, messages are numbered 1, 2, 3, …, and `completed_at` is set exactly when completed. */
  ghost predicate Good(s: Session) {
    && AllNormal(s.nodes)
    && Numbered(s.messages)
    && (s.completedAt.Some? <==> s.status == Completed)
  }

  /** How a session may change: a finished one keeps its plan, revisions grow with the plan, the log only grows. */
  ghost predicate Evolves(s: Session, s': Session) {
    && (s.status != Planning ==>
          s'.status == s.status && s'.nodes == s.nodes && s'.revision == s.revision && s'.completedAt == s.completedAt)
    && s.revision <= s'.revision
    && (s'.revision == s.revision && s.revision >= 1 ==> s'.nodes == s.nodes)
    && s.messages <= s'.messages
  }

  lemma EvolvesTransitive(a: Session, b: Session, c: Session)
    requires Evolves(a, b) && Evolves(b, c)
    ensures Evolves(a, c)
  {
  }

  lemma {:induction false} NumberedMax(messages: seq<Message>)
    requires Numbered(messages)
    ensures MaxNumber(messages) == |messages|
  {
    if messages != [] {
      NumberedMax(messages[..|messages| - 1]);
    }
  }

  lemma LoggedGood(messages: seq<Message>, body: Content)
    requires Numbered(messages)
    ensures Numbered(Logged(messages, body)) && messages <= Logged(messages, body)
  {
    NumberedMax(messages);
  }

  // ----- One callback event -----

  lemma EventNodesNormal(e: Event)
    ensures EventNodes(e).Ok? && EventNodes(e).value.Some? ==> AllNormal(EventNodes(e).value.value)
  {
    if e.Event? && e.payload.Some? && e.payload.value.nodes.Some? {
      CallbackNodesNormal(e.payload.value.nodes.value);
    }
  }

  /** An accepted event either leaves session and patch alone or goes through the three updates. */
  lemma EventShape(p: Progress, e: Event, now: int) returns (changed: bool, next: Option<seq<Node>>, n: NormalEvent)
    requires ApplyEvent(p, e, now).Ok?
    ensures var q := ApplyEvent(p, e, now).value;
      if changed then
        && q.session == WithStatus(WithMessage(WithNodes(p.session, next), n), n, now)
        && q.ops == p.ops + (if next.Some? && next.value != p.session.nodes then Operations(p.session.nodes, next.value) else [])
        && (p.session.status == Planning || (next.None? && n.nextStatus.None?))
      else q.session == p.session && q.ops == p.ops
    ensures next.Some? ==> AllNormal(next.value)
  {
    hide EventKeyOf, NormalizeEvent, AllNormal, EventNodes, Logged, Operations, WithStatus, WithMessage, WithNodes;
    EventNodesNormal(e);
    changed, next, n := false, None, NormalEvent(None, None, None, false);
    var key := EventKeyOf(e);
    if !(key.Some? && key.value in p.seen) {
      next, n := EventNodes(e).value, NormalizeEvent(e).value;
      changed := p.session.status == Planning || (next.None? && n.nextStatus.None?);
    }
  }

  lemma NodesEvolve(s: Session, next: Option<seq<Node>>)
    requires Good(s) && (next.Some? ==> AllNormal(next.value)) && (s.status == Planning || next.None?)
    ensures Good(WithNodes(s, next)) && Evolves(s, WithNodes(s, next)) && WithNodes(s, next).status == s.status
  {
    hide AllNormal, Numbered;
  }

  lemma MessageEvolves(s: Session, n: NormalEvent)
    requires Good(s)
    ensures Good(WithMessage(s, n)) && Evolves(s, WithMessage(s, n)) && WithMessage(s, n).status == s.status
  {
    hide AllNormal, Numbered, Logged;
    if n.message.Some? { LoggedGood(s.messages, n.message.value); }
  }

  lemma StatusEvolves(s: Session, n: NormalEvent, now: int)
    requires Good(s) && (s.status == Planning || n.nextStatus.None?)
    ensures Good(WithStatus(s, n, now)) && Evolves(s, WithStatus(s, n, now))
  {
    hide AllNormal, Numbered;
  }

  lemma EventEvolves(p: Progress, e: Event, now: int)
    requires Good(p.session) && ApplyEvent(p, e, now).Ok?
    ensures var q := ApplyEvent(p, e, now).value;
      Good(q.session) && Evolves(p.session, q.session)
  {
    hide ApplyEvent, AllNormal, Good, WithNodes, WithMessage, WithStatus, Evolves, Operations;
    var changed, next, n := EventShape(p, e, now);
    if changed {
      var s1 := WithNodes(p.session, next);
      var s2 := WithMessage(s1, n);
      NodesEvolve(p.session, next);
      MessageEvolves(s1, n);
      StatusEvolves(s2, n, now);
      EvolvesTransitive(p.session, s1, s2);
      EvolvesTransitive(p.session, s2, WithStatus(s2, n, now));
    } else {
      NoChangeEvolves(p.session);
    }
  }

  lemma NoChangeEvolves(s: Session)
    ensures Evolves(s, s)
  {
  }

  lemma NodesAfter(s: Session, next: Option<seq<Node>>, n: NormalEvent, now: int)
    ensures WithStatus(WithMessage(WithNodes(s, next), n), n, now).nodes == if next.Some? then next.value else s.nodes
  {
  }

  lemma EventPatches(p: Progress, e: Event, now: int, base: map<Id, Node>)
    requires ApplyEvent(p, e, now).Ok? && Replay(p.ops, base) == ById(p.session.nodes)
    ensures var q := ApplyEvent(p, e, now).value;
      Replay(q.ops, base) == ById(q.session.nodes)
  {
    hide ApplyEvent, AllNormal, WithNodes, WithMessage, WithStatus, Operations, Replay, ById;
    var changed, next, n := EventShape(p, e, now);
    if changed {
      NodesAfter(p.session, next, n, now);
      if next.Some? && next.value != p.session.nodes {
        ReplayConcat(p.ops, Operations(p.session.nodes, next.value), base);
        PatchReplays(p.session.nodes, next.value);
      } else {
        assert p.ops + [] == p.ops;
      }
    }
  }

  lemma {:induction false} EventsEvolve(p: Progress, events: seq<Event>, now: int, base: map<Id, Node>)
    requires Good(p.session) && ApplyAll(p, events, now).Ok?
    requires Replay(p.ops, base) == ById(p.session.nodes)
    ensures var q := ApplyAll(p, events, now).value;
      Good(q.session) && Evolves(p.session, q.session) && Replay(q.ops, base) == ById(q.session.nodes)
  {
    hide ApplyEvent, Good;
    if events != [] {
      var init, last := events[..|events| - 1], events[|events| - 1];
      EventsEvolve(p, init, now, base);
      var q := ApplyAll(p, init, now).value;
      EventEvolves(q, last, now);
      EventPatches(q, last, now, base);
      EvolvesTransitive(p.session, q.session, ApplyEvent(q, last, now).value.session);
    }
  }

  /** Replaying everything a batch publishes on the old dictionary of nodes gives the new one. */
  lemma BatchPatchReplays(s: Session, events: seq<Event>, now: int)
    requires Good(s) && BatchOutcome(s, events, now).Ok?
    ensures var p := BatchOutcome(s, events, now).value;
      Replay(p.ops, ById(s.nodes)) == ById(p.session.nodes)
  {
    hide ApplyAll, Good;
    EventsEvolve(Start(s), events, now, ById(s.nodes));
  }

  // ----- Redelivery -----

  /** An event that can be recognised when it comes again. */
  ghost predicate Identified(e: Event) {
    EventKeyOf(e).Some? && !IsNodesEvent(e)
  }

  lemma {:induction false} KeysGrow(p: Progress, events: seq<Event>, n: nat, now: int)
    requires n <= |events| && ApplyAll(p, events, now).Ok?
    ensures ApplyAll(p, events[..n], now).Ok?
    ensures ApplyAll(p, events[..n], now).value.session.messages <= ApplyAll(p, events, now).value.session.messages
    decreases |events|
  {
    hide ApplyEvent;
    if n == |events| {
      assert events[..n] == events;
    } else {
      var init := events[..|events| - 1];
      assert init[..n] == events[..n];
      KeysGrow(p, init, n, now);
      EventMessages(ApplyAll(p, init, now).value, events[|events| - 1], now);
    }
  }

  lemma EventMessages(p: Progress, e: Event, now: int)
    requires ApplyEvent(p, e, now).Ok?
    ensures p.session.messages <= ApplyEvent(p, e, now).value.session.messages
  {
    hide EventKeyOf, NormalizeEvent, EventNodes, Logged, WithStatus, WithMessage;
    if NormalizeEvent(e).Ok? {
      forall next ensures p.session.messages <= WithStatus(WithMessage(WithNodes(p.session, next), NormalizeEvent(e).value), NormalizeEvent(e).value, now).messages {
        WritesExtend(WithNodes(p.session, next), NormalizeEvent(e).value, now);
      }
    }
  }

  lemma WritesExtend(s: Session, n: NormalEvent, now: int)
    ensures s.messages <= WithStatus(WithMessage(s, n), n, now).messages
  {
  }

  lemma PrefixKeys(a: seq<Message>, b: seq<Message>)
    requires a <= b
    ensures LoggedKeys(a) <= LoggedKeys(b)
  {
    forall m | m in a ensures m in b {
      var i :| 0 <= i < |a| && a[i] == m;
      assert b[i] == m;
    }
  }

  lemma NewMessageKey(messages: seq<Message>, body: Content)
    requires FieldsKey(body.fields).Some?
    ensures FieldsKey(body.fields).value in LoggedKeys(Logged(messages, body))
  {
    var m := Message(MaxNumber(messages) + 1, body);
    assert Logged(messages, body)[|messages|] == m;
    assert m in Logged(messages, body);
  }

  lemma OnlyNodesEventsAreSilent(e: Event)
    requires NormalizeEvent(e).Ok? && !IsNodesEvent(e)
    ensures NormalizeEvent(e).value.message.Some?
  {
  }

  /** The three ways an identified event can have gone through, and what each leaves behind. */
  lemma FirstDelivery(p: Progress, e: Event, now: int)
    requires Identified(e) && ApplyEvent(p, e, now).Ok?
    ensures var key, q := EventKeyOf(e).value, ApplyEvent(p, e, now).value;
      || (key in p.seen && q == p)
      || (p.session.status != Planning && q.session == p.session && q.seen == p.seen + {key} && ConfirmsTerminal(p.session.status, e))
      || (key in LoggedKeys(q.session.messages) && q.seen == p.seen + {key})
  {
    hide EventNodes, NormalizeEvent, Logged, LoggedKeys, FieldsKey;
    NotNodes(e);
    if NormalizeEvent(e).Ok? {
      var n := NormalizeEvent(e).value;
      OnlyNodesEventsAreSilent(e);
      MessageCarriesKey(e);
      NewMessageKey(p.session.messages, n.message.value);
      assert WithStatus(WithMessage(p.session, n), n, now).messages == Logged(p.session.messages, n.message.value);
    }
  }

  lemma NotNodes(e: Event)
    requires !IsNodesEvent(e)
    ensures EventNodes(e) == Ok(None)
  {
  }

  /** The event repeats the status a finished session already has. */
  ghost predicate ConfirmsTerminal(status: Status, e: Event) {
    NormalizeEvent(e).Ok? && NormalizeEvent(e).value.nextStatus == Some(status)
  }

  /** The same event on the final session: skipped by its key, or confirmed again without effect. */
  lemma SecondDelivery(p: Progress, e: Event, now: int)
    requires Identified(e)
    requires EventKeyOf(e).value in p.seen || (p.session.status != Planning && ConfirmsTerminal(p.session.status, e))
    ensures ApplyEvent(p, e, now).Ok?
    ensures var q := ApplyEvent(p, e, now).value;
      q.session == p.session && q.ops == p.ops && p.seen <= q.seen && EventKeyOf(e).value in q.seen
  {
    hide EventNodes, NormalizeEvent, FieldsKey;
    NotNodes(e);
  }

  /** Both deliveries side by side: `p` runs the batch first, `q` runs it again on a session that has evolved from the outcome. */
  lemma {:induction false} Replayed(p: Progress, q: Progress, events: seq<Event>, n: nat, now: int, later: int)
    requires n <= |events| && (forall i :: 0 <= i < |events| ==> Identified(events[i]))
    requires Good(p.session) && ApplyAll(p, events, now).Ok?
    requires Evolves(ApplyAll(p, events, now).value.session, q.session)
    requires p.seen <= q.seen && LoggedKeys(q.session.messages) <= q.seen
    ensures ApplyAll(p, events[..n], now).Ok? && ApplyAll(q, events[..n], later).Ok?
    ensures var p', q' := ApplyAll(p, events[..n], now).value, ApplyAll(q, events[..n], later).value;
      q'.session == q.session && q'.ops == q.ops && p'.seen <= q'.seen && q.seen <= q'.seen
    decreases n
  {
    hide ApplyEvent, Good, Identified, LoggedKeys, Evolves;
    KeysGrow(p, events, n, now);
    if n > 0 {
      Replayed(p, q, events, n - 1, now, later);
      var e := events[n - 1];
      assert Identified(e);
      assert events[..n][..n - 1] == events[..n - 1];
      var p', q' := ApplyAll(p, events[..n - 1], now).value, ApplyAll(q, events[..n - 1], later).value;
      EvolvedLog(ApplyAll(p, events, now).value.session, q.session);
      PrefixKeys(ApplyAll(p, events[..n], now).value.session.messages, q.session.messages);
      TerminalSticks(p, events, n - 1, now);
      RepeatOne(p', q', e, now, later);
    }
  }

  lemma EvolvedLog(s: Session, t: Session)
    requires Evolves(s, t)
    ensures s.messages <= t.messages && (s.status != Planning ==> t.status == s.status)
  {
  }

  lemma RepeatOne(p: Progress, q: Progress, e: Event, now: int, later: int)
    requires Identified(e) && ApplyEvent(p, e, now).Ok? && p.seen <= q.seen
    requires LoggedKeys(ApplyEvent(p, e, now).value.session.messages) <= q.seen
    requires p.session.status != Planning ==> q.session.status == p.session.status
    ensures ApplyEvent(q, e, later).Ok?
    ensures var p', q' := ApplyEvent(p, e, now).value, ApplyEvent(q, e, later).value;
      q'.session == q.session && q'.ops == q.ops && p'.seen <= q'.seen && q.seen <= q'.seen
  {
    hide ApplyEvent, LoggedKeys, ConfirmsTerminal, IsNodesEvent, EventKeyOf;
    FirstDelivery(p, e, now);
    SecondDelivery(q, e, later);
  }

  /** If the session was finished part-way through a batch, it still is at the end. */
  lemma TerminalSticks(p: Progress, events: seq<Event>, n: nat, now: int)
    requires n <= |events| && Good(p.session) && ApplyAll(p, events, now).Ok? && ApplyAll(p, events[..n], now).Ok?
    ensures var s, t := ApplyAll(p, events[..n], now).value.session, ApplyAll(p, events, now).value.session;
      s.status != Planning ==> t.status == s.status
    decreases |events|
  {
    hide ApplyEvent, Good;
    if n < |events| {
      var init := events[..|events| - 1];
      assert init[..n] == events[..n];
      TerminalSticks(p, init, n, now);
      GoodAfter(p, init, now);
      EventEvolves(ApplyAll(p, init, now).value, events[|events| - 1], now);
    } else {
      assert events[..n] == events;
    }
  }

  lemma {:induction false} GoodAfter(p: Progress, events: seq<Event>, now: int)
    requires Good(p.session) && ApplyAll(p, events, now).Ok?
    ensures Good(ApplyAll(p, events, now).value.session)
  {
    hide ApplyEvent, Good;
    if events != [] {
      GoodAfter(p, events[..|events| - 1], now);
      EventEvolves(ApplyAll(p, events[..|events| - 1], now).value, events[|events| - 1], now);
    }
  }

  /** Delivering an applied batch of identified events again, to the session it has become, changes nothing and publishes no patch. */
  lemma RedeliveredLater(s: Session, events: seq<Event>, now: int, t: Session, later: int)
    requires Good(s) && BatchOutcome(s, events, now).Ok? && Evolves(BatchOutcome(s, events, now).value.session, t)
    requires forall i :: 0 <= i < |events| ==> Identified(events[i])
    ensures BatchOutcome(t, events, later).Ok?
    ensures BatchOutcome(t, events, later).value.session == t && BatchOutcome(t, events, later).value.ops == []
  {
    hide ApplyAll, Good, Identified, Evolves;
    var once := BatchOutcome(s, events, now).value.session;
    assert events[..|events|] == events;
    KeysGrow(Start(s), events, 0, now);
    NoEvents(Start(s), events, now);
    EvolvedLog(once, t);
    PrefixKeys(s.messages, t.messages);
    Replayed(Start(s), Start(t), events, |events|, now, later);
  }

  lemma NoEvents(p: Progress, events: seq<Event>, now: int)
    ensures ApplyAll(p, events[..0], now) == Ok(p)
  {
  }

  // ----- Every call -----

  lemma {:induction false} NormalizeAllNormal(raws: seq<RawNode>)
    requires NormalizeAll(raws).Ok?
    ensures AllNormal(NormalizeAll(raws).value)
  {
    hide Normal, NormalizeNode;
    if raws != [] {
      NormalizeAllNormal(raws[..|raws| - 1]);
      NormalizedIsNormal(raws[|raws| - 1]);
    }
  }

  lemma WithNodeNormal(nodes: seq<Node>, n: Node)
    requires AllNormal(nodes) && Normal(n)
    ensures AllNormal(WithNode(nodes, n)) && AllNormal(nodes + [n])
  {
    hide Normal;
    forall x | x in WithNode(nodes, n) ensures Normal(x) {
      var i :| 0 <= i < |nodes| && WithNode(nodes, n)[i] == x;
      assert nodes[i] in nodes;
    }
  }

  lemma {:induction false} WithoutNodeNormal(nodes: seq<Node>, id: Id)
    requires AllNormal(nodes)
    ensures AllNormal(WithoutNode(nodes, id))
  {
    hide Normal;
    if nodes != [] {
      var init, last := nodes[..|nodes| - 1], nodes[|nodes| - 1];
      assert forall n :: n in init ==> n in nodes;
      WithoutNodeNormal(init, id);
      assert last in nodes;
      WithoutDepNormal(last, id);
    }
  }

  lemma WithoutDepNormal(n: Node, id: Id)
    requires Normal(n)
    ensures Normal(WithoutDep(n, id))
  {
    FilterDistinct(n.dependsOn, d => d != id);
    forall d | d in WithoutDep(n, id).dependsOn ensures d in n.dependsOn {
      FilterMembers(n.dependsOn, x => x != id, d);
    }
  }

  lemma SpokenGood(messages: seq<Message>, body: Content)
    requires Numbered(messages)
    ensures Numbered(Spoken(messages, body)) && messages <= Spoken(messages, body)
  {
    LoggedGood(messages, body);
  }

  lemma SubmittedGood(s: Session, raws: Option<seq<RawNode>>)
    requires Good(s) && s.status == Planning && !(raws.Some? && NormalizeAll(raws.value).Err?)
    ensures var t := Submitted(s, SubmittedNodes(raws));
      Good(t) && Evolves(s, t) && t.status == Planning
  {
    hide AllNormal, NormalizeAll;
    if raws.Some? { NormalizeAllNormal(raws.value); }
  }

  /** Every call keeps the invariant and lets the session evolve only as it may. */
  lemma CallEvolves(c: Call, s: Session, s': Session)
    requires Good(s) && Calls(c, s, s')
    ensures Good(s') && Evolves(s, s')
  {
    hide AllNormal, Normal, NormalizeNode, NormalizeAll, ApplyAll, Checks.Completable, Checks.Verdict, Logged, Spoken, WithNode, WithoutNode, HasNode, FirstWithId, Replay, ById;
    match c
    case Ingest(events, at) =>
      if BatchOutcome(s, events, at).Ok? {
        NothingReplayed(s);
        EventsEvolve(Start(s), events, at, ById(s.nodes));
      }
    case Upsert(raw) =>
      NormalizedIsNormal(raw);
      if NormalizeNode(raw).Ok? { WithNodeNormal(s.nodes, NormalizeNode(raw).value); }
    case Delete(nodeId) => WithoutNodeNormal(s.nodes, Id(Text.Strip(nodeId)));
    case Complete(raws, body, now) =>
      if !(raws.Some? && NormalizeAll(raws.value).Err?) && s.status == Planning {
        SubmittedGood(s, raws);
        CompletionEvolves(s, SubmittedNodes(raws), body, now, s');
      }
    case Finish(end, last) => SpokenGood(s.messages, last);
    case Append(message) => LoggedGood(s.messages, message);
    case Restore(seeds) => if NormalizeAll(seeds).Ok? { NormalizeAllNormal(seeds); }
  }

  lemma NothingReplayed(s: Session)
    ensures Replay([], ById(s.nodes)) == ById(s.nodes)
  {
  }

  lemma CompletionEvolves(s: Session, nodes: Option<seq<Node>>, body: Content, now: int, s': Session)
    requires var t := Submitted(s, nodes); Good(t) && Evolves(s, t) && t.status == Planning
    requires s.status == Planning && CompletionOutcome(s, nodes, body, now, s')
    ensures Good(s') && Evolves(s, s')
  {
    hide AllNormal, Logged, Numbered, Checks.Completable, Checks.Verdict, Spoken;
    var t := Submitted(s, nodes);
    SpokenGood(t.messages, body);
    if !Checks.Completable(t.nodes) {
      var e :| Checks.Verdict(t.nodes, Some(e)) && s' == Refused(t, VerdictText(e), body.fields);
      LoggedGood(t.messages, Content("assistant", "error", VerdictText(e), map["status" := "failed"] + body.fields));
    }
  }

  ghost predicate Run(states: seq<Session>, calls: seq<Call>) {
    && |states| == |calls| + 1
    && Good(states[0])
    && forall i :: 0 <= i < |calls| ==> Calls(calls[i], states[i], states[i + 1])
  }

  lemma {:induction false} RunEvolves(states: seq<Session>, calls: seq<Call>, i: nat, j: nat)
    requires Run(states, calls) && i <= j < |states|
    ensures Good(states[i]) && Good(states[j]) && Evolves(states[i], states[j])
    decreases j
  {
    hide Good, Evolves, Calls;
    if j == 0 {
      NoChangeEvolves(states[0]);
    } else {
      RunEvolves(states, calls, if i < j then i else j - 1, j - 1);
      CallEvolves(calls[j - 1], states[j - 1], states[j]);
      NoChangeEvolves(states[j]);
      if i < j { EvolvesTransitive(states[i], states[j - 1], states[j]); }
    }
  }

  /** Once a session has left planning, its status, plan, revision and completion time never change again. */
  lemma FinishedForever(states: seq<Session>, calls: seq<Call>, i: nat, j: nat)
    requires Run(states, calls) && i <= j < |states| && states[i].status != Planning
    ensures states[j].status == states[i].status && states[j].nodes == states[i].nodes
    ensures states[j].revision == states[i].revision && states[j].completedAt == states[i].completedAt
  {
    RunEvolves(states, calls, i, j);
  }

  /** After any later calls: delivering an applied batch of identified events once more changes nothing and publishes no patch. */
  lemma RedeliveryChangesNothing(states: seq<Session>, calls: seq<Call>, i: nat, j: nat, later: int)
    requires Run(states, calls) && i < j < |states| && calls[i].Ingest? && BatchOutcome(states[i], calls[i].events, calls[i].at).Ok?
    requires forall k :: 0 <= k < |calls[i].events| ==> Identified(calls[i].events[k])
    ensures var again := BatchOutcome(states[j], calls[i].events, later);
      again.Ok? && again.value.session == states[j] && again.value.ops == []
  {
    hide Good, Evolves, Identified, BatchOutcome;
    RunEvolves(states, calls, i, j);
    RunEvolves(states, calls, i + 1, j);
    assert Calls(calls[i], states[i], states[i + 1]);
    RedeliveredLater(states[i], calls[i].events, calls[i].at, states[j], later);
  }

  /** A revision number names one plan: clients that saw the same revision (of at least 1) saw the same nodes. */
  lemma RevisionNamesPlan(states: seq<Session>, calls: seq<Call>, i: nat, j: nat)
    requires Run(states, calls) && i < |states| && j < |states| && states[i].revision == states[j].revision >= 1
    ensures states[i].nodes == states[j].nodes
  {
    if i <= j { RunEvolves(states, calls, i, j); } else { RunEvolves(states, calls, j, i); }
  }

  /** In every state the completion time is set exactly when the session is completed, and the log grows from state to state. */
  lemma CompletionTimeAndLog(states: seq<Session>, calls: seq<Call>, i: nat, j: nat)
    requires Run(states, calls) && i <= j < |states|
    ensures states[j].completedAt.Some? <==> states[j].status == Completed
    ensures states[i].messages <= states[j].messages && states[i].revision <= states[j].revision
  {
    RunEvolves(states, calls, i, j);
  }

  // ----- Where the code promises less -----

  /** `replace_nodes` keeps a finished session finished exactly when it is given the plan the session already has. */
  lemma ReplacingKeepsFinishedIff(s: Session, nodes: seq<Node>)
    requires s.status != Planning
    ensures Evolves(s, Replaced(s, nodes)) <==> nodes == s.nodes
  {
  }

  /** Nobody but the deleted node itself lists it. */
  ghost predicate Unreferenced(nodes: seq<Node>, id: Id) {
    forall k :: k in ById(nodes) && k != id ==> id !in ById(nodes)[k].dependsOn
  }

  lemma KeepsId(n: Node, id: Id)
    ensures WithoutDep(n, id).id == n.id
  {
  }

  lemma ByIdAppend(nodes: seq<Node>, n: Node)
    ensures ById(nodes + [n]) == ById(nodes)[n.id := n]
  {
    assert (nodes + [n])[..|nodes|] == nodes;
  }

  lemma {:induction false} WithoutNodeById(nodes: seq<Node>, id: Id)
    ensures var m := ById(WithoutNode(nodes, id));
      && m.Keys == ById(nodes).Keys - {id}
      && forall k :: k in m ==> m[k] == WithoutDep(ById(nodes)[k], id)
  {
    hide WithoutDep;
    if nodes != [] {
      var init, last := nodes[..|nodes| - 1], nodes[|nodes| - 1];
      WithoutNodeById(init, id);
      KeepsId(last, id);
      var rest := WithoutNode(init, id);
      if last.id != id {
        ByIdAppend(rest, WithoutDep(last, id));
        assert WithoutNode(nodes, id) == rest + [WithoutDep(last, id)];
      } else {
        assert WithoutNode(nodes, id) == rest;
      }
    }
  }

  lemma WithoutDepSameIff(n: Node, id: Id)
    ensures WithoutDep(n, id) == n <==> id !in n.dependsOn
  {
    if id in n.dependsOn {
      FilterMembers(n.dependsOn, d => d != id, id);
    } else {
      FilterAll(n.dependsOn, d => d != id);
    }
  }

  lemma OneDeletion(m: map<Id, Node>, id: Id)
    ensures Replay([DeleteNode(id)], m) == m - {id}
  {
  }

  /** The single published deletion brings a client up to date exactly when no other node listed the deleted one. */
  lemma DeletionPatchExactIff(s: Session, id: Id)
    requires HasNode(s.nodes, id)
    ensures Replay([DeleteNode(id)], ById(s.nodes)) == ById(Deleted(s, id).nodes) <==> Unreferenced(s.nodes, id)
  {
    hide ById, WithoutNode, WithoutDep, Replay;
    var before, after := ById(s.nodes), ById(WithoutNode(s.nodes, id));
    WithoutNodeById(s.nodes, id);
    OneDeletion(before, id);
    assert Deleted(s, id).nodes == WithoutNode(s.nodes, id);
    hide Deleted;
    forall k | k in after ensures after[k] == before[k] <==> id !in before[k].dependsOn {
      WithoutDepSameIff(before[k], id);
    }
    if Unreferenced(s.nodes, id) {
      assert before - {id} == after;
    }
    if before - {id} == after {
      forall k | k in before && k != id ensures id !in before[k].dependsOn {
        assert k in after;
      }
    }
  }

  /** The single published upsert always brings a client up to date. */
  lemma UpsertPatchReplays(s: Session, n: Node)
    requires FirstWithId(s.nodes, n.id) != Some(n)
    ensures Replay([UpsertNode(n)], ById(s.nodes)) == ById(Upserted(s, n).nodes)
  {
    assert Replay([UpsertNode(n)], ById(s.nodes)) == ById(s.nodes)[n.id := n];
    if HasNode(s.nodes, n.id) {
      WithNodeById(s.nodes, n);
    } else {
      assert (s.nodes + [n])[..|s.nodes|] == s.nodes;
    }
  }

  lemma {:induction false} WithNodeById(nodes: seq<Node>, n: Node)
    ensures ById(WithNode(nodes, n)) == if HasNode(nodes, n.id) then ById(nodes)[n.id := n] else ById(nodes)
  {
    if nodes != [] {
      var init, last := nodes[..|nodes| - 1], nodes[|nodes| - 1];
      WithNodeById(init, n);
      assert WithNode(nodes, n)[..|nodes| - 1] == WithNode(init, n);
      assert NodeIds(nodes) == NodeIds(init) + [last.id];
    }
  }

  // ----- The published tail of the log -----

  const MESSAGE_LIMIT: nat := 400

  /** `_load_message_records` keeps the first rows, not the last. */
  function Loaded(messages: seq<Message>): seq<Message> {
    if |messages| <= MESSAGE_LIMIT then messages else messages[..MESSAGE_LIMIT]
  }

  /** The chunk `_publish_messages_appended` sends after `count` appends, if it sends one. */
  function PublishedChunk(messages: seq<Message>, count: nat): Option<seq<Message>> {
    var loaded := Loaded(messages);
    var n := if count == 0 then 1 else count;
    if |loaded| < n then None else Some(loaded[|loaded| - n..])
  }

  /** The chunk holds the messages just appended exactly as long as the log fits the load limit. */
  lemma ChunkIsTheTailIff(messages: seq<Message>, count: nat)
    requires Numbered(messages) && 1 <= count <= |messages|
    ensures PublishedChunk(messages, count) == Some(messages[|messages| - count..]) <==> |messages| <= 400
    ensures |messages| > 400 ==> PublishedChunk(messages, count) == if count <= 400 then Some(messages[400 - count..400]) else None
    ensures PublishedChunk(messages, 0) == PublishedChunk(messages, 1)
  {
    if |messages| > MESSAGE_LIMIT && PublishedChunk(messages, count).Some? {
      var chunk, tail := PublishedChunk(messages, count).value, messages[|messages| - count..];
      assert chunk[count - 1].number == MESSAGE_LIMIT;
      assert tail[count - 1].number == |messages|;
    }
  }
}
