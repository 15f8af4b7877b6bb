/** What the normalised nodes and events of a planner session are, said of the raw ones. */
module PlannerMeanings {
  import opened Wrappers
  import opened Ids
  import opened Sequences
  import opened PlannerNodes
  import opened PlannerEvents
  import opened PlannerSessions
  import Text

  // ----- Nodes -----

  /** A list entry is text that reads, without outer blanks, as `d`. */
  predicate Says(item: Option<string>, d: Id) {
    item.Some? && Text.Strip(item.value) == d.text
  }

  /** `a` is first said before `b` is. */
  ghost predicate SaidBefore(items: seq<Option<string>>, a: Id, b: Id) {
    exists i :: 0 <= i < |items| && Says(items[i], a) && forall j :: 0 <= j <= i ==> !Says(items[j], b)
  }

  ghost predicate IsSaid(items: seq<Option<string>>, d: Id) {
    exists i :: 0 <= i < |items| && Says(items[i], d)
  }

  /** `deps` are the ids the entries read as, in the order they first occur, without blanks and the node itself. */
  ghost predicate ReadsAs(items: seq<Option<string>>, node: Id, deps: seq<Id>) {
    && Distinct(deps)
    && (forall d :: d in deps <==> d.text != "" && d != node && IsSaid(items, d))
    && forall x, y :: 0 <= x < y < |deps| ==> SaidBefore(items, deps[x], deps[y])
  }

  lemma SaidMore(items: seq<Option<string>>, last: Option<string>, d: Id)
    ensures IsSaid(items + [last], d) <==> IsSaid(items, d) || Says(last, d)
  {
    hide Says;
    var more := items + [last];
    if i :| 0 <= i < |items| && Says(items[i], d) { assert more[i] == items[i]; }
    if Says(last, d) { assert more[|items|] == last; }
    if i :| 0 <= i < |more| && Says(more[i], d) { assert i < |items| ==> items[i] == more[i]; }
  }

  lemma SaidBeforeMore(items: seq<Option<string>>, last: Option<string>, a: Id, b: Id)
    ensures SaidBefore(items, a, b) ==> SaidBefore(items + [last], a, b)
    ensures IsSaid(items, a) && !IsSaid(items, b) ==> SaidBefore(items + [last], a, b)
  {
    hide Says;
    var more := items + [last];
    assert forall i :: 0 <= i < |items| ==> more[i] == items[i];
    if SaidBefore(items, a, b) {
      var i :| 0 <= i < |items| && Says(items[i], a) && forall j :: 0 <= j <= i ==> !Says(items[j], b);
      assert Says(more[i], a);
    }
    if IsSaid(items, a) && !IsSaid(items, b) {
      var i :| 0 <= i < |items| && Says(items[i], a);
      assert Says(more[i], a);
    }
  }

  lemma {:induction false} NormalDepsMean(items: seq<Option<string>>, node: Id)
    ensures ReadsAs(items, node, NormalDeps(items, node))
  {
    hide Says, SaidBefore, IsSaid, Distinct, ReadText, NormalDeps;
    NormalDepsFacts(items, node);
    NormalDepsStep(items, node);
    if items == [] {
      forall d ensures !IsSaid([], d) { NothingSaid(d); }
    } else {
      var init, last := items[..|items| - 1], items[|items| - 1];
      NormalDepsMean(init, node);
      var before, deps := NormalDeps(init, node), NormalDeps(items, node);
      var read := Id(ReadText(last));
      assert items == init + [last];
      forall d ensures IsSaid(items, d) <==> IsSaid(init, d) || (last.Some? && d == read) {
        SaidMore(init, last, d);
        SaysRead(last, d);
      }
      forall x, y | 0 <= x < y < |deps| ensures SaidBefore(items, deps[x], deps[y]) {
        SaidBeforeMore(init, last, deps[x], deps[y]);
        if y == |before| {
          assert deps[x] == before[x] && before[x] in before && deps[y] == read && read !in before;
        } else {
          assert deps[x] == before[x] && deps[y] == before[y];
        }
      }
    }
  }

  lemma NormalDepsStep(items: seq<Option<string>>, node: Id)
    ensures items == [] ==> NormalDeps(items, node) == []
    ensures items != [] ==>
      var before, last := NormalDeps(items[..|items| - 1], node), items[|items| - 1];
      var d := Id(ReadText(last));
      NormalDeps(items, node) == if last.None? || d.text == "" || d == node || d in before then before else before + [d]
  {
    hide ReadText;
  }

  lemma NothingSaid(d: Id)
    ensures !IsSaid([], d)
  {
  }

  lemma SaysRead(item: Option<string>, d: Id)
    ensures Says(item, d) <==> item.Some? && d == Id(ReadText(item))
  {
    hide Text.Strip;
  }

  function TextOf(value: Option<string>): string {
    if value.Some? then Text.Strip(value.value) else ""
  }

  function Either<T>(first: Option<T>, second: Option<T>): Option<T> {
    if first.Some? then first else second
  }

  /** A node of a callback, said of the raw one. */
  ghost predicate Shows(raw: RawNode, n: Node) {
    && n.id.text == TextOf(Either(raw.id, raw.nodeId))
    && n.title == (if TextOf(Either(raw.title, raw.name)) != "" then TextOf(Either(raw.title, raw.name)) else n.id.text)
    && n.description == TextOf(raw.description) && n.sensitive == raw.sensitive
    && ReadsAs(Either(raw.dependsOn, raw.dependsOnCamel).UnwrapOr([]), n.id, n.dependsOn)
  }

  lemma CallbackNodeMeans(raw: RawNode)
    ensures NormalizeCallbackNode(raw).Some? <==> Named(raw)
    ensures NormalizeCallbackNode(raw).Some? ==> Shows(raw, NormalizeCallbackNode(raw).value)
  {
    hide ReadsAs, Text.Strip, NormalDeps;
    var items := Either(raw.dependsOn, raw.dependsOnCamel).UnwrapOr([]);
    NormalDepsMean(items, Id(TextOf(Either(raw.id, raw.nodeId))));
  }

  /** `nodes` are, in order, what the raw nodes with an id show. */
  ghost predicate ShowInOrder(raws: seq<RawNode>, nodes: seq<Node>, at: seq<nat>) {
    && |at| == |nodes|
    && (forall i: nat :: i in at <==> i < |raws| && Named(raws[i]))
    && (forall x, y :: 0 <= x < y < |at| ==> at[x] < at[y])
    && forall x :: 0 <= x < |at| ==> at[x] < |raws| && Shows(raws[at[x]], nodes[x])
  }

  predicate Named(raw: RawNode) {
    TextOf(Either(raw.id, raw.nodeId)) != ""
  }

  lemma {:induction false} CallbackNodesMean(raws: seq<RawNode>) returns (at: seq<nat>)
    ensures ShowInOrder(raws, CallbackNodes(raws), at)
  {
    hide ShowInOrder, NormalizeCallbackNode, Shows, Named;
    if raws == [] {
      at := [];
      NothingShown();
    } else {
      var init, last := raws[..|raws| - 1], raws[|raws| - 1];
      at := CallbackNodesMean(init);
      CallbackNodeMeans(last);
      ShowMore(init, CallbackNodes(init), at, last, NormalizeCallbackNode(last));
      assert raws == init + [last] && CallbackNodes(init) + [] == CallbackNodes(init);
      if Named(last) { at := at + [|init|]; }
    }
  }

  lemma NothingShown()
    ensures ShowInOrder([], [], [])
  {
  }

  lemma ShowMore(raws: seq<RawNode>, nodes: seq<Node>, at: seq<nat>, last: RawNode, n: Option<Node>)
    requires ShowInOrder(raws, nodes, at) && (n.Some? <==> Named(last)) && (n.Some? ==> Shows(last, n.value))
    ensures n.Some? ==> ShowInOrder(raws + [last], nodes + [n.value], at + [|raws|])
    ensures n.None? ==> ShowInOrder(raws + [last], nodes, at)
  {
    hide Shows, Named;
    var more := raws + [last];
    forall x | 0 <= x < |at| ensures at[x] < |raws| && more[at[x]] == raws[at[x]] { assert at[x] in at; }
    forall i: nat ensures i in (if n.Some? then at + [|raws|] else at) <==> i < |more| && Named(more[i]) {
      assert i in at <==> i < |raws| && Named(raws[i]);
      assert i < |raws| ==> more[i] == raws[i];
    }
  }

  /**
    An accepted event of the type "flow.nodes" leaves the session with the plan it carries: a node per raw node with an
    id, in order, with its dependencies.
   */
  lemma FlowNodesEventMeans(p: Progress, e: Event, now: int) returns (at: seq<nat>)
    requires p.session.status == Planning && e.Event? && Text.Lower(Text.Strip(e.etype)) == "flow.nodes"
    requires ApplyEvent(p, e, now).Ok? && !(EventKeyOf(e).Some? && EventKeyOf(e).value in p.seen)
    ensures e.payload.Some? && e.payload.value.nodes.Some?
    ensures ShowInOrder(e.payload.value.nodes.value, ApplyEvent(p, e, now).value.session.nodes, at)
    ensures var s, s' := p.session, ApplyEvent(p, e, now).value.session;
      s'.revision == (if s'.nodes == s.nodes then s.revision else s.revision + 1) && s'.messages == s.messages
  {
    hide NormalizeEvent, EventKeyOf, CallbackNodes, ShowInOrder, Text.Lower, Text.Strip;
    at := CallbackNodesMean(e.payload.value.nodes.value);
    NodesEventIsSilent(e);
  }

  lemma NodesEventIsSilent(e: Event)
    requires IsNodesEvent(e) && NormalizeEvent(e).Ok?
    ensures NormalizeEvent(e).value.message.None?
  {
    hide Text.Strip, Text.Lower, EventStatus, FirstNonEmpty, EventFields;
  }

  /** A node sent by a client needs id and title; otherwise it reads the same way. */
  lemma ClientNodeMeans(raw: RawNode)
    ensures NormalizeNode(raw) == Err(BadRequest) <==> TextOf(raw.id) == "" || TextOf(raw.title) == ""
    ensures NormalizeNode(raw).Ok? ==>
      var n := NormalizeNode(raw).value;
      && n.id.text == TextOf(raw.id) && n.title == TextOf(raw.title)
      && n.description == TextOf(raw.description) && n.sensitive == raw.sensitive
      && ReadsAs(raw.dependsOn.UnwrapOr([]), n.id, n.dependsOn)
  {
    hide ReadsAs, Text.Strip, NormalDeps;
    NormalDepsMean(raw.dependsOn.UnwrapOr([]), Id(TextOf(raw.id)));
  }

  // ----- Events -----

  /** The first of the texts that is not empty, if there is one. */
  lemma {:induction false} FirstNonEmptyMeans(texts: seq<string>)
    ensures FirstNonEmpty(texts) == "" <==> forall i :: 0 <= i < |texts| ==> texts[i] == ""
    ensures FirstNonEmpty(texts) != "" ==>
      exists i :: 0 <= i < |texts| && texts[i] == FirstNonEmpty(texts) && forall j :: 0 <= j < i ==> texts[j] == ""
  {
    if texts != [] {
      var rest := texts[1..];
      FirstNonEmptyMeans(rest);
      assert forall i :: 0 <= i < |rest| ==> rest[i] == texts[i + 1];
      if texts[0] == "" && FirstNonEmpty(rest) != "" {
        var i :| 0 <= i < |rest| && rest[i] == FirstNonEmpty(rest) && forall j :: 0 <= j < i ==> rest[j] == "";
        forall j | 0 <= j < i + 1 ensures texts[j] == "" { assert j > 0 ==> texts[j] == rest[j - 1]; }
        assert texts[i + 1] == FirstNonEmpty(texts);
      }
      assert texts[0] == "" ==> forall i :: 0 < i < |texts| ==> texts[i] == rest[i - 1];
    }
  }

  /** The status an event asks for: its own word if it has one, else its payload's, in any case and without outer blanks. */
  function StatusAsked(e: Event): string
    requires e.Event?
  {
    Text.Lower(if e.status.Some? then Text.Strip(e.status.value) else TextAt(FieldsOf(e), "status"))
  }

  predicate Asks(next: Option<Status>, word: string) {
    && (next == None <==> word == "") && (next == Some(Planning) <==> word == "planning")
    && (next == Some(Completed) <==> word == "completed") && (next == Some(Failed) <==> word == "failed")
    && (next == Some(Stopped) <==> word == "stopped")
  }

  lemma EventStatusMeans(e: Event)
    requires e.Event?
    ensures var status := EventStatus(e.status, match e.payload case Some(p) => p.fields case None => map[]);
      if StatusAsked(e) in {"", "planning", "completed", "failed", "stopped"} then status.Ok? && Asks(status.value, StatusAsked(e))
      else status == Err(BadRequest)
  {
    hide Text.Strip, Text.Lower;
  }

  lemma StatusMeans(e: Event)
    requires e.Event? && NormalizeEvent(e).Ok?
    ensures Asks(NormalizeEvent(e).value.nextStatus, StatusAsked(e))
  {
    hide Text.Strip, Text.Lower, FirstNonEmpty, EventFields, ErrorFields, EventStatus, Asks, Field;
    EventStatusMeans(e);
  }

  /** Refused are non-objects, unknown status words, and unknown roles where the role counts; nothing else. */
  lemma AcceptedIff(e: Event)
    ensures NormalizeEvent(e).Ok? <==>
      && e.Event?
      && StatusAsked(e) in {"", "planning", "completed", "failed", "stopped"}
      && (Special(TypeOf(e)) || OrElse(Text.Lower(Text.Strip(e.role)), "assistant") in {"user", "assistant", "system"})
    ensures NormalizeEvent(e).Err? ==> NormalizeEvent(e) == Err(BadRequest)
  {
    hide Text.Strip, Text.Lower, FirstNonEmpty, EventFields, ErrorFields, EventStatus, Asks, Field;
    if e.Event? { EventStatusMeans(e); }
  }

  function TypeOf(e: Event): string
    requires e.Event?
  {
    Text.Lower(Text.Strip(e.etype))
  }

  function FieldsOf(e: Event): Fields
    requires e.Event?
  {
    match e.payload case Some(p) => p.fields case None => map[]
  }

  function TextAt(fields: Fields, key: string): string {
    if key in fields then Text.Strip(fields[key]) else ""
  }

  function OrElse(a: string, b: string): string {
    if a != "" then a else b
  }

  lemma FirstOf(a: string, b: string, c: string)
    ensures FirstNonEmpty([a, b]) == OrElse(a, b) && FirstNonEmpty([a, b, c]) == OrElse(a, OrElse(b, c))
  {
    assert [a, b][1..] == [b] && [b][1..] == [] && [a, b, c][1..] == [b, c] && [b, c][1..] == [c] && [c][1..] == [];
    assert FirstNonEmpty([]) == "" && FirstNonEmpty([b]) == b && FirstNonEmpty([c]) == c && FirstNonEmpty([b, c]) == OrElse(b, c);
  }

  lemma FirstOfMore(a: string, b: string, c: string, d: string, e: string)
    ensures FirstNonEmpty([a, b, c, d]) == OrElse(a, OrElse(b, OrElse(c, d)))
    ensures FirstNonEmpty([a, b, c, d, e]) == OrElse(a, OrElse(b, OrElse(c, OrElse(d, e))))
  {
    FirstOf(b, c, d);
    FirstOf(c, d, e);
    assert [a, b, c, d][1..] == [b, c, d] && [b, c, d, e][1..] == [c, d, e] && [a, b, c, d, e][1..] == [b, c, d, e];
  }

  /** The message says this, in this role and kind. */
  ghost predicate Speaks(e: Event, role: string, kind: string, text: string) {
    && NormalizeEvent(e).Ok? && NormalizeEvent(e).value.message.Some?
    && var m := NormalizeEvent(e).value.message.value;
    && m.role == role && m.kind == kind && m.text == text
  }

  /** The payload looked into: the event's own, with the type and the status added where they are missing. */
  lemma LookedInto(e: Event, next: Option<Status>, key: string)
    requires e.Event? && key != "event_type" && key != "status"
    ensures Field(EventFields(e, next), key) == TextAt(FieldsOf(e), key)
  {
    hide Text.Strip, Text.Lower;
  }

  lemma AgentMessageMeans(e: Event)
    requires e.Event? && TypeOf(e) == "assistant_delta" && NormalizeEvent(e).Ok?
    ensures Speaks(e, "assistant", TypeOf(e), OrElse(Text.Strip(e.content), OrElse(TextAt(FieldsOf(e), "delta"), TextAt(FieldsOf(e), "content"))))
  {
    hide Text.Strip, Text.Lower, EventStatus, EventFields, Field, FirstNonEmpty;
    var next := NormalizeEvent(e).value.nextStatus;
    LookedInto(e, next, "delta");
    LookedInto(e, next, "content");
    FirstOf(Text.Strip(e.content), TextAt(FieldsOf(e), "delta"), TextAt(FieldsOf(e), "content"));
  }

  lemma ToolMessageMeans(e: Event)
    requires e.Event? && TypeOf(e) in {"tool_call_start", "tool_call_delta", "tool_call_end"} && NormalizeEvent(e).Ok?
    ensures Speaks(e, "assistant", TypeOf(e),
      OrElse(Text.Strip(e.content), OrElse(TextAt(FieldsOf(e), "summary"), OrElse(TextAt(FieldsOf(e), "name"), TextAt(FieldsOf(e), "tool_name")))))
  {
    hide Text.Strip, Text.Lower, EventStatus, EventFields, Field, FirstNonEmpty;
    var next := NormalizeEvent(e).value.nextStatus;
    LookedInto(e, next, "summary");
    LookedInto(e, next, "name");
    LookedInto(e, next, "tool_name");
    FirstOfMore(Text.Strip(e.content), TextAt(FieldsOf(e), "summary"), TextAt(FieldsOf(e), "name"), TextAt(FieldsOf(e), "tool_name"), "");
  }

  /** A status message falls back to the payload's message, and then to its status, or else the one the event asks for. */
  lemma StatusMessageMeans(e: Event)
    requires e.Event? && TypeOf(e) == "status" && NormalizeEvent(e).Ok?
    ensures var next := NormalizeEvent(e).value.nextStatus;
      var asked := if "status" in FieldsOf(e) || next.None? then TextAt(FieldsOf(e), "status") else StatusWord(next.value).UnwrapOr("");
      Speaks(e, "system", "status", OrElse(Text.Strip(e.content), OrElse(TextAt(FieldsOf(e), "message"), asked)))
  {
    hide Text.Lower, EventStatus, EventFields, Field, FirstNonEmpty;
    var next := NormalizeEvent(e).value.nextStatus;
    LookedInto(e, next, "message");
    StatusLookedInto(e, next);
    hide Text.Strip;
    var asked := if "status" in FieldsOf(e) || next.None? then TextAt(FieldsOf(e), "status") else StatusWord(next.value).UnwrapOr("");
    FirstOf(Text.Strip(e.content), TextAt(FieldsOf(e), "message"), asked);
  }

  lemma StatusLookedInto(e: Event, next: Option<Status>)
    requires e.Event?
    ensures Field(EventFields(e, next), "status") ==
      if "status" in FieldsOf(e) || next.None? then TextAt(FieldsOf(e), "status") else StatusWord(next.value).UnwrapOr("")
  {
    hide Text.Lower;
    if next.Some? { Text.StripTrimmed(StatusText(next.value)); }
    hide Text.Strip;
  }

  lemma ErrorMessageMeans(e: Event)
    requires e.Event? && TypeOf(e) == "error" && NormalizeEvent(e).Ok?
    ensures var given := FieldsOf(e);
      var text := OrElse(Text.Strip(e.content), OrElse(Text.Strip(e.detail), OrElse(Text.Strip(e.error), OrElse(TextAt(given, "detail"), TextAt(given, "error")))));
      Speaks(e, "system", "error", text) && NormalizeEvent(e).value.lastError == if text == "" then None else Some(text)
  {
    hide Text.Strip, Text.Lower, EventStatus, EventFields, ErrorFields, Field, FirstNonEmpty;
    var next := NormalizeEvent(e).value.nextStatus;
    LookedInto(e, next, "detail");
    LookedInto(e, next, "error");
    FirstOfMore(Text.Strip(e.content), Text.Strip(e.detail), Text.Strip(e.error), TextAt(FieldsOf(e), "detail"), TextAt(FieldsOf(e), "error"));
  }

  predicate Special(t: string) {
    t in {"assistant_delta", "tool_call_start", "tool_call_delta", "tool_call_end", "status", "flow.nodes", "error"}
  }

  /** Any other event speaks in the role it names, the assistant's if it names none. */
  lemma OtherMessageMeans(e: Event)
    requires e.Event? && !Special(TypeOf(e))
    ensures var role := OrElse(Text.Lower(Text.Strip(e.role)), "assistant");
      && (role !in {"user", "assistant", "system"} ==> NormalizeEvent(e).Err?)
      && (NormalizeEvent(e).Ok? ==>
            Speaks(e, role, OrElse(Text.Lower(Text.Strip(e.kind)), OrElse(TypeOf(e), "message")),
              OrElse(Text.Strip(e.content), OrElse(TextAt(FieldsOf(e), "content"), TextAt(FieldsOf(e), "message")))))
  {
    hide Text.Strip, Text.Lower, EventStatus, EventFields, Field, FirstNonEmpty;
    forall next ensures Field(EventFields(e, next), "content") == TextAt(FieldsOf(e), "content") { LookedInto(e, next, "content"); }
    forall next ensures Field(EventFields(e, next), "message") == TextAt(FieldsOf(e), "message") { LookedInto(e, next, "message"); }
    FirstOf(Text.Strip(e.content), TextAt(FieldsOf(e), "content"), TextAt(FieldsOf(e), "message"));
    FirstOf(Text.Lower(Text.Strip(e.kind)), TypeOf(e), "message");
  }

  /** Only error events set the last error, only other statuses than "failed" clear it, and only plans are silent. */
  lemma SideEffectsMean(e: Event)
    requires e.Event? && NormalizeEvent(e).Ok?
    ensures var n := NormalizeEvent(e).value;
      && (n.message.None? <==> TypeOf(e) == "flow.nodes")
      && (n.lastError.Some? ==> TypeOf(e) == "error")
      && (n.clearError <==> n.nextStatus.Some? && n.nextStatus.value != Failed)
  {
    hide Text.Strip, Text.Lower, EventStatus, EventFields, ErrorFields, FirstNonEmpty, Field;
  }

  /** The stored payload is the event's own, with the type, the status and the error text added where they are missing. */
  lemma StoredFieldsMean(e: Event)
    requires e.Event? && NormalizeEvent(e).Ok? && NormalizeEvent(e).value.message.Some?
    ensures var n, m, given := NormalizeEvent(e).value, NormalizeEvent(e).value.message.value, FieldsOf(e);
      m.fields == if TypeOf(e) == "error" && m.text != ""
        then map["detail" := m.text, "error" := m.text] + WithTypeAndStatus(e, n.nextStatus)
        else WithTypeAndStatus(e, n.nextStatus)
  {
    hide Text.Strip, Text.Lower, EventStatus, EventFields, ErrorFields, FirstNonEmpty, Field;
    var n := NormalizeEvent(e).value;
    EventFieldsMean(e, n.nextStatus);
    ErrorFieldsMean(EventFields(e, n.nextStatus), n.message.value.text);
  }

  function WithTypeAndStatus(e: Event, next: Option<Status>): Fields
    requires e.Event?
  {
    map["event_type" := OrElse(TypeOf(e), "message")]
    + (if next.Some? then map["status" := StatusWord(next.value).UnwrapOr("")] else map[])
    + FieldsOf(e)
  }

  lemma EventFieldsMean(e: Event, next: Option<Status>)
    requires e.Event?
    ensures EventFields(e, next) == WithTypeAndStatus(e, next)
  {
    hide Text.Strip, Text.Lower;
    assert "event_type" != "status" by { assert |"event_type"| == 10 && |"status"| == 6; }
  }

  lemma ErrorFieldsMean(fields: Fields, text: string)
    ensures ErrorFields(fields, text) == if text == "" then fields else map["detail" := text, "error" := text] + fields
  {
    assert "detail" != "error" by { assert |"detail"| == 6 && |"error"| == 5; }
  }

  function StatusWord(s: Status): Option<string> {
    if s.Planning? then Some("planning") else if s.Completed? then Some("completed")
    else if s.Failed? then Some("failed") else if s.Stopped? then Some("stopped") else None
  }

  /** The dedupe key: the event id of the payload if it has one, else its request id. */
  lemma KeyMeans(e: Event)
    requires e.Event?
    ensures var event, request := TextAt(FieldsOf(e), "event_id"), TextAt(FieldsOf(e), "request_id");
      EventKeyOf(e) == if event != "" then Some(EventKey(event)) else if request != "" then Some(RequestKey(request)) else None
  {
    hide Text.Strip;
  }
}
