/**
  One planner session and the service calls that change it. A call works on the locked row and commits
  once; a call that raises before its commit leaves the session as it was.
 */
module PlannerSessions {
  import opened Wrappers
  import opened Ids
  import opened Sequences
  import opened PlannerNodes
  import opened NodePatches
  import opened PlannerEvents
  import Checks = CompletionCheck
  import Text

  datatype Message = Message(number: nat, body: Content)

  datatype Session = Session(
    status: Status, revision: nat, nodes: seq<Node>, lastError: Option<string>, completedAt: Option<int>, messages: seq<Message>)

  // ----- The message log -----

  function MaxNumber(messages: seq<Message>): nat {
    if messages == [] then 0
    else
      var rest := MaxNumber(messages[..|messages| - 1]);
      if messages[|messages| - 1].number > rest then messages[|messages| - 1].number else rest
  }

  /** Append a message under the number after the largest one. */
  function Logged(messages: seq<Message>, body: Content): seq<Message> {
    messages + [Message(MaxNumber(messages) + 1, body)]
  }

  function LoggedKeys(messages: seq<Message>): set<Key> {
    set m | m in messages && FieldsKey(m.body.fields).Some? :: FieldsKey(m.body.fields).value
  }

  // ----- Callback events -----

  datatype Progress = Progress(session: Session, seen: set<Key>, ops: seq<Operation>, accepted: nat, appended: nat)

  function Remember(seen: set<Key>, key: Option<Key>): set<Key> {
    match key case Some(k) => seen + {k} case None => seen
  }

  predicate IsNodesEvent(e: Event) {
    e.Event? && EventType(e) == "flow.nodes"
  }

  /** The node list a `flow.nodes` event carries; it must be an array. */
  function EventNodes(e: Event): Result<Option<seq<Node>>, Error> {
    if !IsNodesEvent(e) then Ok(None)
    else if e.payload.None? || e.payload.value.nodes.None? then Err(BadRequest)
    else Ok(Some(CallbackNodes(e.payload.value.nodes.value)))
  }

  function WithNodes(s: Session, next: Option<seq<Node>>): Session {
    if next.Some? && next.value != s.nodes then s.(nodes := next.value, revision := s.revision + 1) else s
  }

  function WithStatus(s: Session, n: NormalEvent, now: int): Session {
    match n.nextStatus
    case Some(next) =>
      var moved := if s.status != next then s.(status := next, completedAt := if next == Completed then Some(now) else None) else s;
      if n.clearError then moved.(lastError := None)
      else if n.lastError.Some? then moved.(lastError := n.lastError)
      else moved
    case None => if n.lastError.Some? then s.(lastError := n.lastError) else s
  }

  function WithMessage(s: Session, n: NormalEvent): Session {
    match n.message case Some(body) => s.(messages := Logged(s.messages, body)) case None => s
  }

  /** A finished session only accepts events that would not change it. */
  predicate TerminalConflict(s: Session, next: Option<seq<Node>>, n: NormalEvent) {
    && s.status != Planning
    && ((next.Some? && next.value != s.nodes) || (n.nextStatus.Some? && n.nextStatus.value != s.status))
  }

  /** One turn of the loop in `_apply_events_by_token`. */
  function ApplyEvent(p: Progress, e: Event, now: int): Result<Progress, Error> {
    var key := EventKeyOf(e);
    if key.Some? && key.value in p.seen then Ok(p)
    else
      match EventNodes(e)
      case Err(error) => Err(error)
      case Ok(next) =>
        match NormalizeEvent(e)
        case Err(error) => Err(error)
        case Ok(n) =>
          if TerminalConflict(p.session, next, n) then Err(Conflict)
          else if p.session.status != Planning && (next.Some? || n.nextStatus.Some?) then
            Ok(p.(accepted := p.accepted + 1, seen := Remember(p.seen, key)))
          else
            var s := p.session;
            Ok(Progress(
              WithStatus(WithMessage(WithNodes(s, next), n), n, now),
              Remember(p.seen, key),
              p.ops + (if next.Some? && next.value != s.nodes then Operations(s.nodes, next.value) else []),
              p.accepted + 1,
              p.appended + if n.message.Some? then 1 else 0))
  }

  function ApplyAll(p: Progress, events: seq<Event>, now: int): Result<Progress, Error> {
    if events == [] then Ok(p)
    else
      match ApplyAll(p, events[..|events| - 1], now)
      case Err(error) => Err(error)
      case Ok(q) => ApplyEvent(q, events[|events| - 1], now)
  }

  function Start(s: Session): Progress {
    Progress(s, LoggedKeys(s.messages), [], 0, 0)
  }

  function BatchOutcome(s: Session, events: seq<Event>, now: int): Result<Progress, Error> {
    if events == [] then Err(BadRequest) else ApplyAll(Start(s), events, now)
  }

  // ----- Node calls -----

  function WithNode(nodes: seq<Node>, n: Node): seq<Node> {
    seq(|nodes|, i requires 0 <= i < |nodes| => if nodes[i].id == n.id then n else nodes[i])
  }

  function FirstWithId(nodes: seq<Node>, id: Id): Option<Node> {
    if nodes == [] then None else if nodes[0].id == id then Some(nodes[0]) else FirstWithId(nodes[1..], id)
  }

  function Changed(s: Session, nodes: seq<Node>): Session {
    s.(nodes := nodes, revision := s.revision + 1, lastError := None)
  }

  predicate HasNode(nodes: seq<Node>, id: Id) {
    id in NodeIds(nodes)
  }

  lemma HasNodeOneMore(nodes: seq<Node>, i: nat, id: Id)
    requires i < |nodes|
    ensures HasNode(nodes[..i + 1], id) <==> HasNode(nodes[..i], id) || nodes[i].id == id
  {
    assert NodeIds(nodes[..i + 1]) == NodeIds(nodes[..i]) + [nodes[i].id];
  }

  /** The replacement loop of `upsert_node`. */
  method ReplaceOrAppend(nodes: seq<Node>, n: Node) returns (next: seq<Node>)
    ensures next == if HasNode(nodes, n.id) then WithNode(nodes, n) else nodes + [n]
  {
    hide HasNode;
    next := [];
    var replaced := false;
    NoNodeYet(nodes, n.id);
    for i := 0 to |nodes|
      invariant next == WithNode(nodes[..i], n)
      invariant replaced <==> HasNode(nodes[..i], n.id)
    {
      HasNodeOneMore(nodes, i, n.id);
      if nodes[i].id == n.id {
        next := next + [n];
        replaced := true;
      } else {
        next := next + [nodes[i]];
      }
    }
    assert nodes[..|nodes|] == nodes;
    if !replaced {
      NothingReplaced(nodes, n);
      next := next + [n];
    }
  }

  lemma NoNodeYet(nodes: seq<Node>, id: Id)
    ensures !HasNode(nodes[..0], id)
  {
  }

  lemma NothingReplaced(nodes: seq<Node>, n: Node)
    requires !HasNode(nodes, n.id)
    ensures WithNode(nodes, n) == nodes
  {
    forall i | 0 <= i < |nodes| ensures nodes[i].id != n.id {
      assert NodeIds(nodes)[i] == nodes[i].id;
    }
  }

  /** The removal loop of `delete_node`. */
  method RemoveNode(nodes: seq<Node>, id: Id) returns (next: seq<Node>, removed: bool)
    ensures next == WithoutNode(nodes, id) && (removed <==> HasNode(nodes, id))
  {
    hide HasNode;
    next, removed := [], false;
    NoNodeYet(nodes, id);
    for i := 0 to |nodes|
      invariant next == WithoutNode(nodes[..i], id)
      invariant removed <==> HasNode(nodes[..i], id)
    {
      HasNodeOneMore(nodes, i, id);
      assert nodes[..i + 1][..i] == nodes[..i];
      if nodes[i].id == id {
        removed := true;
        continue;
      }
      next := next + [WithoutDep(nodes[i], id)];
    }
    assert nodes[..|nodes|] == nodes;
  }

  function Upserted(s: Session, n: Node): Session {
    if FirstWithId(s.nodes, n.id) == Some(n) then s
    else Changed(s, if HasNode(s.nodes, n.id) then WithNode(s.nodes, n) else s.nodes + [n])
  }

  function WithoutDep(n: Node, id: Id): Node {
    n.(dependsOn := Filter(n.dependsOn, d => d != id))
  }

  function WithoutNode(nodes: seq<Node>, id: Id): seq<Node> {
    if nodes == [] then []
    else WithoutNode(nodes[..|nodes| - 1], id) + if nodes[|nodes| - 1].id == id then [] else [WithoutDep(nodes[|nodes| - 1], id)]
  }

  function Deleted(s: Session, id: Id): Session {
    if HasNode(s.nodes, id) then Changed(s, WithoutNode(s.nodes, id)) else s
  }

  function NormalizeAll(raws: seq<RawNode>): Result<seq<Node>, Error> {
    if raws == [] then Ok([])
    else
      match NormalizeAll(raws[..|raws| - 1])
      case Err(error) => Err(error)
      case Ok(nodes) =>
        match NormalizeNode(raws[|raws| - 1])
        case Err(error) => Err(error)
        case Ok(n) => Ok(nodes + [n])
  }

  function Replaced(s: Session, nodes: seq<Node>): Session {
    if nodes == s.nodes then s else Changed(s, nodes)
  }

  /** `create_or_restore_session`: the client's nodes seed a session nobody has revised yet. */
  function Restored(s: Session, nodes: seq<Node>): Session {
    if s.status == Planning && s.revision == 0 && nodes != [] && nodes != s.nodes then s.(nodes := nodes) else s
  }

  // ----- Ending a session -----

  function Spoken(messages: seq<Message>, body: Content): seq<Message> {
    if body.text == "" then messages else Logged(messages, body)
  }

  function Ended(s: Session, status: Status, body: Content): Session
    requires status == Failed || status == Stopped
  {
    s.(status := status, messages := Spoken(s.messages, body),
       lastError := if status == Failed then Some(body.text) else None, completedAt := None)
  }

  function Submitted(s: Session, nodes: Option<seq<Node>>): Session {
    if nodes.Some? && nodes.value != s.nodes then s.(nodes := nodes.value, revision := s.revision + 1) else s
  }

  function VerdictText(e: Checks.CompletionError): string {
    match e
    case WrongSize => "planner session completion requires 2-12 nodes"
    case DuplicateId(id) => "planner session completion found duplicate node id: " + id.text
    case UnknownDependency(d) => "planner session completion found unknown dependency: " + d.text
    case NoSensitiveNode => "planner session completion requires at least one sensitive node"
    case CyclicDependencies => "planner session completion found cyclic depends_on"
  }

  function CompletedSession(s: Session, body: Content, now: int): Session {
    s.(status := Completed, messages := Spoken(s.messages, body), lastError := None, completedAt := Some(now))
  }

  function Refused(s: Session, error: string, fields: Fields): Session {
    s.(status := Failed, lastError := Some(error), completedAt := None,
       messages := Logged(s.messages, Content("assistant", "error", error, map["status" := "failed"] + fields)))
  }

  // ----- The service object -----

  /** The calls of the service, `replace_nodes` apart. */
  datatype Call =
    | Ingest(events: seq<Event>, at: int)
    | Upsert(raw: RawNode)
    | Delete(nodeId: string)
    | Complete(raws: Option<seq<RawNode>>, body: Content, now: int)
    | Finish(end: Status, last: Content)
    | Append(message: Content)
    | Restore(seeds: seq<RawNode>)

  /** What a call makes of the session, errors included. */
  ghost predicate Calls(c: Call, s: Session, s': Session) {
    match c
    case Ingest(events, at) => s' == (match BatchOutcome(s, events, at) case Ok(p) => p.session case Err(_) => s)
    case Upsert(raw) =>
      s' == (match NormalizeNode(raw) case Ok(n) => if s.status == Planning then Upserted(s, n) else s case Err(_) => s)
    case Delete(nodeId) =>
      var id := Id(Text.Strip(nodeId));
      s' == if id.text == "" || s.status != Planning then s else Deleted(s, id)
    case Complete(raws, body, now) =>
      if (raws.Some? && NormalizeAll(raws.value).Err?) || s.status != Planning then s' == s
      else CompletionOutcome(s, SubmittedNodes(raws), body, now, s')
    case Finish(end, last) => (end == Failed || end == Stopped) && s' == if s.status == Planning then Ended(s, end, last) else s
    case Append(message) => s' == s.(messages := Logged(s.messages, message)) || s' == s
    case Restore(seeds) => s' == (match NormalizeAll(seeds) case Ok(nodes) => Restored(s, nodes) case Err(_) => s)
  }

  class PlannerSession {
    var status: Status
    var revision: nat
    var nodes: seq<Node>
    var lastError: Option<string>
    var completedAt: Option<int>
    var messages: seq<Message>
    /** Every patch operation published so far. */
    var published: seq<Operation>

    ghost function State(): Session
      reads this
    {
      Session(status, revision, nodes, lastError, completedAt, messages)
    }

    constructor (seed: seq<Node>)
      ensures State() == Session(Planning, 0, seed, None, None, []) && published == []
    {
      status, revision, nodes, lastError, completedAt, messages, published := Planning, 0, seed, None, None, [], [];
    }

    /** Write the working copy back: the commit. */
    method Commit(s: Session, ops: seq<Operation>)
      modifies this
      ensures State() == s && published == old(published) + ops
    {
      status, revision, nodes, lastError, completedAt, messages := s.status, s.revision, s.nodes, s.lastError, s.completedAt, s.messages;
      published := published + ops;
    }

    /** `_apply_events_by_token`. */
    method ApplyEvents(events: seq<Event>, now: int) returns (r: Result<nat, Error>)
      modifies this
      ensures events == [] ==> r == Err(BadRequest)
      ensures Calls(Call.Ingest(events, now), old(State()), State())
      ensures match BatchOutcome(old(State()), events, now)
        case Ok(p) => r == Ok(p.accepted) && State() == p.session && published == old(published) + p.ops
        case Err(error) => r == Err(error) && State() == old(State()) && published == old(published)
    {
      hide ApplyEvent;
      if events == [] {
        return Err(BadRequest);
      }
      var p := Start(Session(status, revision, nodes, lastError, completedAt, messages));
      for i := 0 to |events|
        invariant State() == old(State()) && published == old(published)
        invariant ApplyAll(Start(State()), events[..i], now) == Ok(p)
      {
        assert events[..i + 1][..i] == events[..i];
        var step := ApplyEvent(p, events[i], now);
        if step.Err? {
          ErrorsStay(Start(State()), events, i + 1, now);
          return Err(step.error);
        }
        p := step.value;
      }
      assert events[..|events|] == events;
      Commit(p.session, p.ops);
      return Ok(p.accepted);
    }

    /** `upsert_node`. */
    method UpsertNode(raw: RawNode) returns (r: Result<(), Error>)
      modifies this
      ensures Calls(Call.Upsert(raw), old(State()), State())
      ensures match NormalizeNode(raw)
        case Err(error) => r == Err(error) && State() == old(State()) && published == old(published)
        case Ok(n) =>
          if old(status) != Planning then r == Err(Conflict) && State() == old(State()) && published == old(published)
          else
            && r == Ok(()) && State() == Upserted(old(State()), n)
            && published == old(published) + if FirstWithId(old(nodes), n.id) == Some(n) then [] else [Operation.UpsertNode(n)]
    {
      var normal := NormalizeNode(raw);
      if normal.Err? {
        return Err(normal.error);
      }
      var n := normal.value;
      if status != Planning {
        return Err(Conflict);
      }
      if FirstWithId(nodes, n.id) == Some(n) {
        return Ok(());
      }
      var next := ReplaceOrAppend(nodes, n);
      nodes := next;
      revision := revision + 1;
      lastError := None;
      published := published + [Operation.UpsertNode(n)];
      return Ok(());
    }

    /** `delete_node`: the published patch only names the node. */
    method DeleteNode(nodeId: string) returns (r: Result<(), Error>)
      modifies this
      ensures Calls(Call.Delete(nodeId), old(State()), State())
      ensures var id := Id(Text.Strip(nodeId));
        if id.text == "" then r == Err(BadRequest) && State() == old(State()) && published == old(published)
        else if old(status) != Planning then r == Err(Conflict) && State() == old(State()) && published == old(published)
        else
          && r == Ok(()) && State() == Deleted(old(State()), id)
          && published == old(published) + if HasNode(old(nodes), id) then [Operation.DeleteNode(id)] else []
    {
      hide HasNode, WithoutNode, Text.Strip;
      var id := Id(Text.Strip(nodeId));
      if id.text == "" {
        return Err(BadRequest);
      }
      if status != Planning {
        return Err(Conflict);
      }
      var next, removed := RemoveNode(nodes, id);
      if !removed {
        return Ok(());
      }
      nodes := next;
      revision := revision + 1;
      lastError := None;
      published := published + [Operation.DeleteNode(id)];
      return Ok(());
    }

    /** `replace_nodes`: the one node call without a terminal guard. */
    method ReplaceNodes(raws: seq<RawNode>) returns (r: Result<(), Error>)
      modifies this
      ensures match NormalizeAll(raws)
        case Err(error) => r == Err(error) && State() == old(State()) && published == old(published)
        case Ok(next) =>
          && r == Ok(()) && State() == Replaced(old(State()), next)
          && published == old(published) + if next == old(nodes) then [] else Operations(old(nodes), next)
    {
      var normal := NormalizeAll(raws);
      if normal.Err? {
        return Err(normal.error);
      }
      if normal.value == nodes {
        return Ok(());
      }
      var ops := BuildNodeOperations(nodes, normal.value);
      nodes := normal.value;
      revision := revision + 1;
      lastError := None;
      published := published + ops;
      return Ok(());
    }

    /** `complete_session`: a plan that fails the check ends the session as failed, and the call still raises. */
    method Complete(raws: Option<seq<RawNode>>, content: string, fields: Fields, now: int) returns (r: Result<(), Error>)
      modifies this
      ensures Calls(Call.Complete(raws, Content("assistant", "status", Text.Strip(content), fields), now), old(State()), State())
      ensures raws.Some? && NormalizeAll(raws.value).Err? ==> r == Err(NormalizeAll(raws.value).error) && State() == old(State())
      ensures !(raws.Some? && NormalizeAll(raws.value).Err?) && old(status) != Planning ==> r == Err(Conflict) && State() == old(State())
      ensures !(raws.Some? && NormalizeAll(raws.value).Err?) && old(status) == Planning ==>
        CompletionOutcome(old(State()), SubmittedNodes(raws), Content("assistant", "status", Text.Strip(content), fields), now, State())
        && (r.Ok? <==> status == Completed)
      ensures published == old(published) + if nodes == old(nodes) then [] else Operations(old(nodes), nodes)
    {
      hide Checks.Completable, Checks.Verdict, Operations, NormalizeAll, Logged;
      var submitted: Option<seq<Node>> := None;
      if raws.Some? {
        var normal := NormalizeAll(raws.value);
        if normal.Err? {
          return Err(normal.error);
        }
        submitted := Some(normal.value);
      }
      if status != Planning {
        return Err(Conflict);
      }
      var s := Session(status, revision, nodes, lastError, completedAt, messages);
      var ops: seq<Operation> := [];
      if submitted.Some? && submitted.value != nodes {
        ops := BuildNodeOperations(nodes, submitted.value);
        s := s.(nodes := submitted.value, revision := revision + 1);
      }
      assert s == Submitted(State(), submitted);
      var verdict := Checks.ValidateCompletionNodes(s.nodes);
      if verdict.Some? {
        RefusalIsOutcome(State(), submitted, Content("assistant", "status", Text.Strip(content), fields), now, verdict.value);
        Commit(Refused(s, VerdictText(verdict.value), fields), ops);
        return Err(BadRequest);
      }
      Commit(CompletedSession(s, Content("assistant", "status", Text.Strip(content), fields), now), ops);
      return Ok(());
    }

    /** `_set_terminal_state`, behind `fail_session` and `stop_session`. */
    method SetTerminalState(end: Status, role: string, kind: string, content: string, fields: Fields) returns (r: Result<(), Error>)
      requires end == Failed || end == Stopped
      modifies this
      ensures Calls(Call.Finish(end, Content(role, kind, Text.Strip(content), fields)), old(State()), State())
      ensures published == old(published)
      ensures if old(status) != Planning then r == Err(Conflict) && State() == old(State())
        else r == Ok(()) && State() == Ended(old(State()), end, Content(role, kind, Text.Strip(content), fields))
    {
      if status != Planning {
        return Err(Conflict);
      }
      var text := Text.Strip(content);
      if text != "" {
        messages := Logged(messages, Content(role, kind, text, fields));
      }
      status := end;
      lastError := if end == Failed then Some(text) else None;
      completedAt := None;
      return Ok(());
    }

    /** `append_message`. */
    method AppendMessage(role: string, kind: string, content: string, fields: Fields) returns (r: Result<(), Error>)
      modifies this
      ensures Calls(Call.Append(Content(Text.Lower(Text.Strip(role)), FirstNonEmpty([Text.Lower(Text.Strip(kind)), "message"]), Text.Strip(content), fields)), old(State()), State())
      ensures published == old(published)
      ensures var role' := Text.Lower(Text.Strip(role));
        if !KnownRole(role') then r == Err(BadRequest) && State() == old(State())
        else r == Ok(()) && State() == old(State()).(messages :=
          Logged(old(messages), Content(role', FirstNonEmpty([Text.Lower(Text.Strip(kind)), "message"]), Text.Strip(content), fields)))
    {
      var role' := Text.Lower(Text.Strip(role));
      if !KnownRole(role') {
        return Err(BadRequest);
      }
      messages := Logged(messages, Content(role', FirstNonEmpty([Text.Lower(Text.Strip(kind)), "message"]), Text.Strip(content), fields));
      return Ok(());
    }

    /** The node part of `create_or_restore_session` on an existing row. */
    method Restore(raws: seq<RawNode>) returns (r: Result<(), Error>)
      modifies this
      ensures Calls(Call.Restore(raws), old(State()), State())
      ensures published == old(published)
      ensures match NormalizeAll(raws)
        case Err(error) => r == Err(error) && State() == old(State())
        case Ok(next) => r == Ok(()) && State() == Restored(old(State()), next)
    {
      var normal := NormalizeAll(raws);
      if normal.Err? {
        return Err(normal.error);
      }
      if status == Planning && revision == 0 {
        if normal.value != [] && nodes != normal.value {
          nodes := normal.value;
        }
      }
      return Ok(());
    }
  }

  function SubmittedNodes(raws: Option<seq<RawNode>>): Option<seq<Node>> {
    match raws case None => None case Some(xs) => match NormalizeAll(xs) case Ok(ns) => Some(ns) case Err(_) => None
  }

  /** What a completion attempt on a planning session commits. */
  ghost predicate CompletionOutcome(s: Session, nodes: Option<seq<Node>>, body: Content, now: int, s': Session) {
    var t := Submitted(s, nodes);
    if Checks.Completable(t.nodes) then s' == CompletedSession(t, body, now)
    else exists e :: Checks.Verdict(t.nodes, Some(e)) && s' == Refused(t, VerdictText(e), body.fields)
  }

  lemma RefusalIsOutcome(s: Session, nodes: Option<seq<Node>>, body: Content, now: int, e: Checks.CompletionError)
    requires Checks.Verdict(Submitted(s, nodes).nodes, Some(e)) && !Checks.Completable(Submitted(s, nodes).nodes)
    ensures CompletionOutcome(s, nodes, body, now, Refused(Submitted(s, nodes), VerdictText(e), body.fields))
  {
  }

  lemma {:induction false} ErrorsStay(p: Progress, events: seq<Event>, n: nat, now: int)
    requires n <= |events| && ApplyAll(p, events[..n], now).Err?
    ensures ApplyAll(p, events, now) == ApplyAll(p, events[..n], now)
    decreases |events|
  {
    if n == |events| {
      assert events[..n] == events;
    } else {
      var init := events[..|events| - 1];
      assert init[..n] == events[..n];
      ErrorsStay(p, init, n, now);
    }
  }
}
