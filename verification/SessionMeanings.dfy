/** What the service calls make of a planner session, column by column. */
module SessionMeanings {
  import opened Wrappers
  import opened Ids
  import opened Sequences
  import opened PlannerNodes
  import opened PlannerEvents
  import opened PlannerSessions
  import opened PlannerMeanings
  import opened NodePatches
  import Checks = CompletionCheck
  import Text

  // ----- Messages -----

  /** A message is appended under the number after the largest so far, 1 if there is none. */
  lemma LoggedMeans(messages: seq<Message>, body: Content)
    ensures |Logged(messages, body)| == |messages| + 1 && messages <= Logged(messages, body)
    ensures var last := Logged(messages, body)[|messages|];
      && last.body == body
      && (forall i :: 0 <= i < |messages| ==> messages[i].number < last.number)
      && (messages == [] ==> last.number == 1)
      && (messages != [] ==> last.number == 1 || exists i :: 0 <= i < |messages| && messages[i].number + 1 == last.number)
  {
    LargestNumber(messages);
  }

  lemma {:induction false} LargestNumber(messages: seq<Message>)
    ensures forall i :: 0 <= i < |messages| ==> messages[i].number <= MaxNumber(messages)
    ensures MaxNumber(messages) == 0 || exists i :: 0 <= i < |messages| && messages[i].number == MaxNumber(messages)
  {
    if messages != [] {
      var init := messages[..|messages| - 1];
      LargestNumber(init);
      assert forall i :: 0 <= i < |init| ==> init[i] == messages[i];
      if MaxNumber(messages) == MaxNumber(init) && MaxNumber(messages) != 0 {
        var i :| 0 <= i < |init| && init[i].number == MaxNumber(init);
        assert messages[i].number == MaxNumber(messages);
      } else if MaxNumber(messages) != 0 {
        assert messages[|messages| - 1].number == MaxNumber(messages);
      }
    }
  }

  // ----- Single nodes -----

  /** Only the plan, its revision and the last error have changed, and the revision says so. */
  ghost predicate Revised(s: Session, s': Session) {
    s' == s.(nodes := s'.nodes, revision := s.revision + 1, lastError := None)
  }

  lemma {:induction false} FirstMeans(nodes: seq<Node>, id: Id)
    ensures FirstWithId(nodes, id).None? <==> forall i :: 0 <= i < |nodes| ==> nodes[i].id != id
    ensures FirstWithId(nodes, id).Some? ==>
      exists i :: 0 <= i < |nodes| && nodes[i] == FirstWithId(nodes, id).value && nodes[i].id == id && forall j :: 0 <= j < i ==> nodes[j].id != id
  {
    if nodes != [] {
      var rest := nodes[1..];
      FirstMeans(rest, id);
      assert forall i :: 0 <= i < |rest| ==> rest[i] == nodes[i + 1];
      if nodes[0].id != id && FirstWithId(rest, id).Some? {
        var i :| 0 <= i < |rest| && rest[i] == FirstWithId(rest, id).value && rest[i].id == id && forall j :: 0 <= j < i ==> rest[j].id != id;
        assert nodes[i + 1] == FirstWithId(nodes, id).value;
        forall j | 0 <= j < i + 1 ensures nodes[j].id != id { assert j > 0 ==> nodes[j] == rest[j - 1]; }
      }
      assert nodes[0].id != id ==> forall i :: 0 < i < |nodes| ==> nodes[i] == rest[i - 1];
    }
  }

  /** The first node of its id is the given one. */
  ghost predicate Stands(nodes: seq<Node>, n: Node) {
    exists i :: 0 <= i < |nodes| && nodes[i] == n && forall j :: 0 <= j < i ==> nodes[j].id != n.id
  }

  /** Every node of that id is replaced, in place; if there is none, the node is appended. */
  lemma UpsertMeans(s: Session, n: Node)
    ensures Stands(s.nodes, n) ==> Upserted(s, n) == s
    ensures !Stands(s.nodes, n) ==>
      var s' := Upserted(s, n);
      && Revised(s, s')
      && ((exists i :: 0 <= i < |s.nodes| && s.nodes[i].id == n.id) ==>
            |s'.nodes| == |s.nodes| && forall i :: 0 <= i < |s.nodes| ==> s'.nodes[i] == if s.nodes[i].id == n.id then n else s.nodes[i])
      && (!(exists i :: 0 <= i < |s.nodes| && s.nodes[i].id == n.id) ==> s'.nodes == s.nodes + [n])
  {
    FirstMeans(s.nodes, n.id);
    HasMeans(s.nodes, n.id);
    hide HasNode;
    if Stands(s.nodes, n) {
      var i :| 0 <= i < |s.nodes| && s.nodes[i] == n && forall j :: 0 <= j < i ==> s.nodes[j].id != n.id;
      assert s.nodes[i].id == n.id;
    }
  }

  lemma HasMeans(nodes: seq<Node>, id: Id)
    ensures HasNode(nodes, id) <==> exists i :: 0 <= i < |nodes| && nodes[i].id == id
  {
    if i :| 0 <= i < |nodes| && nodes[i].id == id { assert NodeIds(nodes)[i] == id; }
  }

  /** `rest` are, in order, the nodes of other ids, each without its dependency on `id`. */
  ghost predicate OthersWithout(nodes: seq<Node>, id: Id, rest: seq<Node>, at: seq<nat>) {
    && |at| == |rest|
    && (forall i: nat :: i in at <==> i < |nodes| && nodes[i].id != id)
    && (forall x, y :: 0 <= x < y < |at| ==> at[x] < at[y])
    && forall x :: 0 <= x < |at| ==> at[x] < |nodes| && rest[x] == nodes[at[x]].(dependsOn := Filter(nodes[at[x]].dependsOn, d => d != id))
  }

  lemma {:induction false} WithoutNodeMeans(nodes: seq<Node>, id: Id) returns (at: seq<nat>)
    ensures OthersWithout(nodes, id, WithoutNode(nodes, id), at)
  {
    hide Filter;
    if nodes == [] {
      at := [];
    } else {
      var init, last := nodes[..|nodes| - 1], nodes[|nodes| - 1];
      at := WithoutNodeMeans(init, id);
      OthersMore(init, id, WithoutNode(init, id), at, last);
      assert nodes == init + [last] && WithoutNode(init, id) + [] == WithoutNode(init, id);
      if last.id != id { at := at + [|init|]; }
    }
  }

  lemma OthersMore(nodes: seq<Node>, id: Id, rest: seq<Node>, at: seq<nat>, last: Node)
    requires OthersWithout(nodes, id, rest, at)
    ensures last.id == id ==> OthersWithout(nodes + [last], id, rest, at)
    ensures last.id != id ==> OthersWithout(nodes + [last], id, rest + [WithoutDep(last, id)], at + [|nodes|])
  {
    hide Filter;
    var more := nodes + [last];
    forall x | 0 <= x < |at| ensures at[x] < |nodes| && more[at[x]] == nodes[at[x]] { assert at[x] in at; }
    forall i: nat ensures i in (if last.id != id then at + [|nodes|] else at) <==> i < |more| && more[i].id != id {
      assert i in at <==> i < |nodes| && nodes[i].id != id;
      assert i < |nodes| ==> more[i] == nodes[i];
    }
  }

  /** The node goes, and with it every dependency on it; an unknown id changes nothing. */
  lemma DeleteMeans(s: Session, id: Id) returns (at: seq<nat>)
    ensures (forall i :: 0 <= i < |s.nodes| ==> s.nodes[i].id != id) ==> Deleted(s, id) == s
    ensures (exists i :: 0 <= i < |s.nodes| && s.nodes[i].id == id) ==>
      Revised(s, Deleted(s, id)) && OthersWithout(s.nodes, id, Deleted(s, id).nodes, at)
  {
    hide OthersWithout, WithoutNode;
    HasMeans(s.nodes, id);
    at := WithoutNodeMeans(s.nodes, id);
  }

  // ----- Whole plans -----

  lemma ReplaceMeans(s: Session, nodes: seq<Node>)
    ensures Replaced(s, nodes).nodes == nodes && (if nodes == s.nodes then Replaced(s, nodes) == s else Revised(s, Replaced(s, nodes)))
  {
  }

  /** The given plan seeds a session that is planning and has never been revised, unless it is empty; nothing else changes. */
  lemma RestoreMeans(s: Session, nodes: seq<Node>)
    ensures Restored(s, nodes) == s.(nodes := if s.status == Planning && s.revision == 0 && nodes != [] then nodes else s.nodes)
  {
  }

  lemma {:induction false} NormalizeAllMeans(raws: seq<RawNode>)
    ensures NormalizeAll(raws).Ok? <==> forall i :: 0 <= i < |raws| ==> NormalizeNode(raws[i]).Ok?
    ensures NormalizeAll(raws).Ok? ==>
      |NormalizeAll(raws).value| == |raws| && forall i :: 0 <= i < |raws| ==> NormalizeNode(raws[i]) == Ok(NormalizeAll(raws).value[i])
  {
    hide NormalizeNode;
    if raws != [] {
      var init := raws[..|raws| - 1];
      NormalizeAllMeans(init);
      assert forall i :: 0 <= i < |init| ==> init[i] == raws[i];
    }
  }

  /** One more message at the end, or none if it says nothing. */
  ghost predicate SaysLast(before: seq<Message>, after: seq<Message>, role: string, kind: string, text: string, fields: Fields) {
    && before <= after
    && (text == "" ==> after == before)
    && (text != "" ==> |after| == |before| + 1 && after[|before|].body == Content(role, kind, text, fields))
  }

  /** Completing: the submitted plan, or the one that is there, is checked; it completes the session, or fails it with the reason. */
  lemma CompleteMeans(s: Session, nodes: Option<seq<Node>>, body: Content, now: int, s': Session)
    requires CompletionOutcome(s, nodes, body, now, s')
    ensures s'.nodes == nodes.UnwrapOr(s.nodes)
    ensures s'.revision == if s'.nodes == s.nodes then s.revision else s.revision + 1
    ensures Checks.Completable(s'.nodes) ==>
      && s'.status == Completed && s'.completedAt == Some(now) && s'.lastError == None
      && SaysLast(s.messages, s'.messages, body.role, body.kind, body.text, body.fields)
    ensures !Checks.Completable(s'.nodes) ==>
      && s'.status == Failed && s'.completedAt == None
      && exists e :: Checks.Verdict(s'.nodes, Some(e)) && s'.lastError == Some(Reason(e))
          && |s'.messages| == |s.messages| + 1 && s.messages <= s'.messages
          && s'.messages[|s.messages|].body
             == Content("assistant", "error", Reason(e), if "status" in body.fields then body.fields else body.fields["status" := "failed"])
  {
    hide Checks.Completable, Checks.Verdict, Refused, CompletedSession, VerdictText, Reason, SaysLast;
    var t := Submitted(s, nodes);
    CompletedMeans(t, body, now);
    if !Checks.Completable(t.nodes) {
      var e :| Checks.Verdict(t.nodes, Some(e)) && s' == Refused(t, VerdictText(e), body.fields);
      ReasonIsText(e);
      RefusedMeans(t, Reason(e), body.fields);
    }
  }

  lemma CompletedMeans(t: Session, body: Content, now: int)
    ensures var s' := CompletedSession(t, body, now);
      && s'.nodes == t.nodes && s'.revision == t.revision
      && s'.status == Completed && s'.completedAt == Some(now) && s'.lastError == None
      && SaysLast(t.messages, s'.messages, body.role, body.kind, body.text, body.fields)
  {
    hide MaxNumber;
  }

  lemma RefusedMeans(t: Session, reason: string, fields: Fields)
    ensures var s' := Refused(t, reason, fields);
      && s'.nodes == t.nodes && s'.revision == t.revision
      && s'.status == Failed && s'.completedAt == None && s'.lastError == Some(reason)
      && |s'.messages| == |t.messages| + 1 && t.messages <= s'.messages
      && s'.messages[|t.messages|].body
         == Content("assistant", "error", reason, if "status" in fields then fields else fields["status" := "failed"])
  {
    hide MaxNumber;
    assert map["status" := "failed"] + fields == if "status" in fields then fields else fields["status" := "failed"];
  }

  function Reason(e: Checks.CompletionError): string {
    if e.WrongSize? then "planner session completion requires 2-12 nodes"
    else if e.DuplicateId? then "planner session completion found duplicate node id: " + e.id.text
    else if e.UnknownDependency? then "planner session completion found unknown dependency: " + e.dependency.text
    else if e.NoSensitiveNode? then "planner session completion requires at least one sensitive node"
    else "planner session completion found cyclic depends_on"
  }

  lemma ReasonIsText(e: Checks.CompletionError)
    ensures VerdictText(e) == Reason(e)
  {
  }

  /** Failing or stopping: the text is said last, and is the last error of a failure only. */
  lemma EndMeans(s: Session, end: Status, body: Content)
    requires end == Failed || end == Stopped
    ensures var s' := Ended(s, end, body);
      && s'.status == end && s'.completedAt == None && s'.nodes == s.nodes && s'.revision == s.revision
      && s'.lastError == (if end == Failed then Some(body.text) else None)
      && SaysLast(s.messages, s'.messages, body.role, body.kind, body.text, body.fields)
  {
  }

  // ----- One callback event -----

  /** A fresh event on a planning session: the plan it carries, the status it asks for, its message, its error. */
  lemma PlanningEventMeans(p: Progress, e: Event, now: int)
    requires p.session.status == Planning && ApplyEvent(p, e, now).Ok? && !(EventKeyOf(e).Some? && EventKeyOf(e).value in p.seen)
    ensures NormalizeEvent(e).Ok? && EventNodes(e).Ok?
    ensures var n, carried := NormalizeEvent(e).value, EventNodes(e).value;
      var s, q := p.session, ApplyEvent(p, e, now).value;
      && q.session.nodes == carried.UnwrapOr(s.nodes)
      && q.session.revision == (if q.session.nodes == s.nodes then s.revision else s.revision + 1)
      && q.session.status == n.nextStatus.UnwrapOr(Planning)
      && q.session.completedAt == (match n.nextStatus
           case Some(Completed) => Some(now)
           case Some(Failed) => None
           case Some(Stopped) => None
           case _ => s.completedAt)
      && q.session.lastError == (if n.clearError then None else if n.lastError.Some? then n.lastError else s.lastError)
      && q.session.messages == (if n.message.Some? then Logged(s.messages, n.message.value) else s.messages)
      && q.seen == p.seen + (if EventKeyOf(e).Some? then {EventKeyOf(e).value} else {})
      && q.accepted == p.accepted + 1 && q.appended == p.appended + (if n.message.Some? then 1 else 0)
      && q.ops == p.ops + (if q.session.nodes == s.nodes then [] else Operations(s.nodes, q.session.nodes))
  {
    hide NormalizeEvent, EventKeyOf, EventNodes, Operations, Logged, WithNodes, WithMessage, WithStatus;
    SideEffectsOf(e);
    var n, carried := NormalizeEvent(e).value, EventNodes(e).value;
    NodesWritten(p.session, carried);
    MessageWritten(WithNodes(p.session, carried), n);
    StatusWritten(WithMessage(WithNodes(p.session, carried), n), n, now);
    assert p.ops + [] == p.ops && p.seen + {} == p.seen;
  }

  lemma NodesWritten(s: Session, carried: Option<seq<Node>>)
    ensures var s' := WithNodes(s, carried);
      s' == s.(nodes := carried.UnwrapOr(s.nodes), revision := if s'.nodes == s.nodes then s.revision else s.revision + 1)
  {
  }

  lemma MessageWritten(s: Session, n: NormalEvent)
    ensures WithMessage(s, n) == s.(messages := if n.message.Some? then Logged(s.messages, n.message.value) else s.messages)
  {
    hide Logged;
  }

  lemma StatusWritten(s: Session, n: NormalEvent, now: int)
    requires s.status == Planning && (n.clearError ==> n.nextStatus.Some?)
    ensures WithStatus(s, n, now) == s.(
      status := n.nextStatus.UnwrapOr(Planning),
      completedAt := (match n.nextStatus
        case Some(Completed) => Some(now)
        case Some(Failed) => None
        case Some(Stopped) => None
        case _ => s.completedAt),
      lastError := if n.clearError then None else if n.lastError.Some? then n.lastError else s.lastError)
  {
  }

  lemma SideEffectsOf(e: Event)
    requires NormalizeEvent(e).Ok?
    ensures NormalizeEvent(e).value.clearError ==> NormalizeEvent(e).value.nextStatus.Some?
  {
    if e.Event? { SideEffectsMean(e); }
  }

  /** On a finished session: an event that would change plan or status is refused, one that confirms them is only counted. */
  lemma FinishedEventMeans(p: Progress, e: Event, now: int)
    requires p.session.status != Planning && !(EventKeyOf(e).Some? && EventKeyOf(e).value in p.seen)
    requires NormalizeEvent(e).Ok? && EventNodes(e).Ok?
    ensures var n, carried, s := NormalizeEvent(e).value, EventNodes(e).value, p.session;
      var confirms := (carried.Some? ==> carried.value == s.nodes) && (n.nextStatus.Some? ==> n.nextStatus.value == s.status);
      && (!confirms ==> ApplyEvent(p, e, now) == Err(Conflict))
      && (confirms ==>
            && ApplyEvent(p, e, now).Ok?
            && var q := ApplyEvent(p, e, now).value;
            && q.accepted == p.accepted + 1 && q.ops == p.ops
            && (carried.Some? || n.nextStatus.Some? ==> q.session == s && q.appended == p.appended)
            && (carried.None? && n.nextStatus.None? ==>
                  && q.session.nodes == s.nodes && q.session.status == s.status && q.session.revision == s.revision
                  && q.session.messages == (if n.message.Some? then Logged(s.messages, n.message.value) else s.messages)
                  && q.session.lastError == (if n.lastError.Some? then n.lastError else s.lastError)))
  {
    hide NormalizeEvent, EventKeyOf, EventNodes, Operations, Logged;
    assert p.ops + [] == p.ops;
  }

  /** Raised are what cannot be read, plans that are missing, and what a finished session contradicts; all else goes through. */
  lemma RaisesIff(p: Progress, e: Event, now: int)
    ensures var s := p.session;
      ApplyEvent(p, e, now).Ok? <==>
        || (EventKeyOf(e).Some? && EventKeyOf(e).value in p.seen)
        || (NormalizeEvent(e).Ok? && PlanGiven(e)
            && (s.status != Planning ==>
                  && (TypeOf(e) == "flow.nodes" ==> CallbackNodes(e.payload.value.nodes.value) == s.nodes)
                  && (NormalizeEvent(e).value.nextStatus.Some? ==> NormalizeEvent(e).value.nextStatus.value == s.status)))
  {
    hide NormalizeEvent, Text.Strip, Text.Lower, EventKeyOf, CallbackNodes;
    ObjectsOnly(e);
  }

  lemma ObjectsOnly(e: Event)
    ensures NormalizeEvent(e).Ok? ==> e.Event?
  {
    hide EventStatus, EventFields, FirstNonEmpty, Text.Strip, Text.Lower;
  }

  predicate PlanGiven(e: Event) {
    e.Event? && (TypeOf(e) == "flow.nodes" ==> e.payload.Some? && e.payload.value.nodes.Some?)
  }

  /** A batch is its events, one after the other: cut in two, the second part goes on where the first ends. */
  lemma {:induction false} BatchesCompose(p: Progress, a: seq<Event>, b: seq<Event>, now: int)
    ensures ApplyAll(p, a + b, now) == match ApplyAll(p, a, now) case Err(error) => Err(error) case Ok(q) => ApplyAll(q, b, now)
    ensures forall e :: ApplyAll(p, [e], now) == ApplyEvent(p, e, now)
  {
    hide ApplyEvent;
    forall e ensures ApplyAll(p, [e], now) == ApplyEvent(p, e, now) {
      assert [e][..0] == [];
    }
    if b == [] {
      assert a + b == a;
    } else {
      BatchesCompose(p, a, b[..|b| - 1], now);
      assert (a + b)[..|a + b| - 1] == a + b[..|b| - 1];
    }
  }

  /** An event whose key is known is passed over. */
  lemma KnownEventMeans(p: Progress, e: Event, now: int)
    requires EventKeyOf(e).Some? && EventKeyOf(e).value in p.seen
    ensures ApplyEvent(p, e, now) == Ok(p)
  {
  }

  /** A batch of one event or more starts from the session as it is; the known keys are those of the stored messages. */
  lemma StartMeans(s: Session, key: Key, e: Event, events: seq<Event>, now: int)
    ensures BatchOutcome(s, [], now) == Err(BadRequest) && BatchOutcome(s, [e] + events, now) == ApplyAll(Start(s), [e] + events, now)
    ensures key in Start(s).seen <==> exists i :: 0 <= i < |s.messages| && FieldsKey(s.messages[i].body.fields) == Some(key)
    ensures Start(s).session == s && Start(s).ops == [] && Start(s).accepted == Start(s).appended == 0
  {
    hide FieldsKey;
    if i :| 0 <= i < |s.messages| && FieldsKey(s.messages[i].body.fields) == Some(key) {
      assert s.messages[i] in s.messages;
    }
    if key in Start(s).seen {
      var m :| m in s.messages && FieldsKey(m.body.fields).Some? && FieldsKey(m.body.fields).value == key;
      var i :| 0 <= i < |s.messages| && s.messages[i] == m;
    }
  }
}
