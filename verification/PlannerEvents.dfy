/** Normalising what callers send to a planner session: nodes and callback events. */
module PlannerEvents {
  import opened Wrappers
  import opened Ids
  import opened Sequences
  import opened PlannerNodes
  import Text

  datatype Error = BadRequest | Conflict

  /** `_read_text` of an optional JSON string: absent and non-string values read as "". */
  function ReadText(value: Option<string>): string {
    match value case None => "" case Some(s) => Text.Strip(s)
  }

  // ----- Nodes -----

  /** A JSON node object; `None` stands for an absent key or a value of another type. */
  datatype RawNode = RawNode(
    id: Option<string>, nodeId: Option<string>, title: Option<string>, name: Option<string>,
    description: Option<string>, dependsOn: Option<seq<Option<string>>>, dependsOnCamel: Option<seq<Option<string>>>,
    sensitive: bool)

  /** Trim, then drop blanks, the node itself and repetitions. */
  function NormalDeps(items: seq<Option<string>>, node: Id): seq<Id> {
    if items == [] then []
    else
      var init := NormalDeps(items[..|items| - 1], node);
      var d := Id(ReadText(items[|items| - 1]));
      if items[|items| - 1].None? || d.text == "" || d == node || d in init then init else init + [d]
  }

  /** `_normalize_node_payload`: id and title are required. */
  function NormalizeNode(raw: RawNode): Result<Node, Error> {
    var id, title := ReadText(raw.id), ReadText(raw.title);
    if id == "" || title == "" then Err(BadRequest)
    else
      Ok(Node(Id(id), title, ReadText(raw.description),
              NormalDeps(match raw.dependsOn case Some(items) => items case None => [], Id(id)), raw.sensitive))
  }

  /** `_normalize_callback_node_payload`: a node without id is skipped, a missing title falls back to the id. */
  function NormalizeCallbackNode(raw: RawNode): Option<Node> {
    var id := ReadText(if raw.id.Some? then raw.id else raw.nodeId);
    if id == "" then None
    else
      var title := ReadText(if raw.title.Some? then raw.title else raw.name);
      var items := if raw.dependsOn.Some? then raw.dependsOn.value else match raw.dependsOnCamel case Some(xs) => xs case None => [];
      Some(Node(Id(id), if title == "" then id else title, ReadText(raw.description), NormalDeps(items, Id(id)), raw.sensitive))
  }

  /** What every stored node looks like. */
  ghost predicate Normal(n: Node) {
    && n.id.text != "" && Text.Trimmed(n.id.text)
    && n.title != "" && Text.Trimmed(n.title)
    && Text.Trimmed(n.description)
    && Distinct(n.dependsOn)
    && forall d :: d in n.dependsOn ==> d.text != "" && Text.Trimmed(d.text) && d != n.id
  }

  ghost predicate AllNormal(nodes: seq<Node>) {
    forall n :: n in nodes ==> Normal(n)
  }

  lemma {:induction false} NormalDepsFacts(items: seq<Option<string>>, node: Id)
    ensures Distinct(NormalDeps(items, node))
    ensures forall d :: d in NormalDeps(items, node) ==> d.text != "" && Text.Trimmed(d.text) && d != node
  {
    if items != [] {
      var init, last := items[..|items| - 1], items[|items| - 1];
      NormalDepsFacts(init, node);
      if last.Some? { Text.StripTrims(last.value); }
      DistinctAppend(NormalDeps(init, node), Id(ReadText(last)));
    }
  }

  lemma ReadTextTrims(value: Option<string>)
    ensures Text.Trimmed(ReadText(value))
  {
    if value.Some? { Text.StripTrims(value.value); }
  }

  lemma NormalizedIsNormal(raw: RawNode)
    ensures NormalizeNode(raw).Ok? ==> Normal(NormalizeNode(raw).value)
    ensures NormalizeCallbackNode(raw).Some? ==> Normal(NormalizeCallbackNode(raw).value)
  {
    ReadTextTrims(raw.id);
    ReadTextTrims(raw.nodeId);
    ReadTextTrims(raw.title);
    ReadTextTrims(raw.name);
    ReadTextTrims(raw.description);
    hide Text.Trimmed, Distinct, ReadText;
    var id := Id(ReadText(raw.id));
    NormalDepsFacts(match raw.dependsOn case Some(items) => items case None => [], id);
    var id' := Id(ReadText(if raw.id.Some? then raw.id else raw.nodeId));
    NormalDepsFacts(if raw.dependsOn.Some? then raw.dependsOn.value else match raw.dependsOnCamel case Some(xs) => xs case None => [], id');
  }

  function Items(deps: seq<Id>): seq<Option<string>> {
    seq(|deps|, i requires 0 <= i < |deps| => Some(deps[i].text))
  }

  /** A stored node, read back as JSON. */
  function AsRaw(n: Node): RawNode {
    RawNode(Some(n.id.text), None, Some(n.title), None, Some(n.description),
            Some(Items(n.dependsOn)), None, n.sensitive)
  }

  lemma {:induction false} NormalDepsAgain(deps: seq<Id>, node: Id)
    requires Distinct(deps) && forall d :: d in deps ==> d.text != "" && Text.Trimmed(d.text) && d != node
    ensures NormalDeps(Items(deps), node) == deps
  {
    if deps != [] {
      var init, last := deps[..|deps| - 1], deps[|deps| - 1];
      assert Items(deps)[..|deps| - 1] == Items(init);
      assert last in deps;
      NormalDepsAgain(init, node);
      Text.StripTrimmed(last.text);
      assert deps == init + [last];
    }
  }

  /** The service normalises stored nodes every time it reads them; that changes nothing. */
  lemma ReadingBackChangesNothing(n: Node)
    requires Normal(n)
    ensures NormalizeNode(AsRaw(n)) == Ok(n)
  {
    Text.StripTrimmed(n.id.text);
    Text.StripTrimmed(n.title);
    Text.StripTrimmed(n.description);
    NormalDepsAgain(n.dependsOn, n.id);
    assert Id(n.id.text) == n.id;
  }

  function CallbackNodes(raws: seq<RawNode>): seq<Node> {
    if raws == [] then []
    else
      CallbackNodes(raws[..|raws| - 1]) +
      match NormalizeCallbackNode(raws[|raws| - 1]) case Some(n) => [n] case None => []
  }

  lemma {:induction false} CallbackNodesNormal(raws: seq<RawNode>)
    ensures AllNormal(CallbackNodes(raws))
  {
    if raws != [] {
      CallbackNodesNormal(raws[..|raws| - 1]);
      NormalizedIsNormal(raws[|raws| - 1]);
    }
  }

  // ----- Events -----

  datatype Status = Planning | Completed | Failed | Stopped

  /** The string entries of a payload, keyed in snake case. */
  type Fields = map<string, string>

  function Field(fields: Fields, key: string): string {
    if key in fields then Text.Strip(fields[key]) else ""
  }

  datatype Payload = Payload(fields: Fields, nodes: Option<seq<RawNode>>)

  datatype Event =
    | NotAnObject
    | Event(etype: string, role: string, kind: string, content: string, detail: string, error: string,
            status: Option<string>, payload: Option<Payload>)

  datatype Key = EventKey(text: string) | RequestKey(text: string)

  /** `event_id` identifies an event, else `request_id` does, else nothing. */
  function FieldsKey(fields: Fields): Option<Key> {
    if Field(fields, "event_id") != "" then Some(EventKey(Field(fields, "event_id")))
    else if Field(fields, "request_id") != "" then Some(RequestKey(Field(fields, "request_id")))
    else None
  }

  function EventKeyOf(e: Event): Option<Key> {
    if e.NotAnObject? || e.payload.None? then None else FieldsKey(e.payload.value.fields)
  }

  datatype Content = Content(role: string, kind: string, text: string, fields: Fields)

  datatype NormalEvent = NormalEvent(message: Option<Content>, nextStatus: Option<Status>, lastError: Option<string>, clearError: bool)

  function ParseStatus(text: string): Option<Status> {
    if text == "planning" then Some(Planning)
    else if text == "completed" then Some(Completed)
    else if text == "failed" then Some(Failed)
    else if text == "stopped" then Some(Stopped)
    else None
  }

  function StatusText(s: Status): string {
    match s case Planning => "planning" case Completed => "completed" case Failed => "failed" case Stopped => "stopped"
  }

  /** `_resolve_callback_event_status`: a string on the event itself goes before the payload's. */
  function EventStatus(status: Option<string>, fields: Fields): Result<Option<Status>, Error> {
    var text := Text.Lower(if status.Some? then Text.Strip(status.value) else Field(fields, "status"));
    if text == "" then Ok(None)
    else match ParseStatus(text) case Some(s) => Ok(Some(s)) case None => Err(BadRequest)
  }

  function FirstNonEmpty(texts: seq<string>): string {
    if texts == [] then "" else if texts[0] != "" then texts[0] else FirstNonEmpty(texts[1..])
  }

  function EventType(e: Event): string
    requires e.Event?
  {
    Text.Lower(Text.Strip(e.etype))
  }

  function WithDefault(fields: Fields, key: string, value: string): Fields {
    if key in fields then fields else fields[key := value]
  }

  /** The payload after `setdefault("event_type", …)` and the resolved status. */
  function EventFields(e: Event, next: Option<Status>): Fields
    requires e.Event?
  {
    var fields := match e.payload case Some(p) => p.fields case None => map[];
    var typed := WithDefault(fields, "event_type", if EventType(e) == "" then "message" else EventType(e));
    match next case Some(s) => WithDefault(typed, "status", StatusText(s)) case None => typed
  }

  function ErrorFields(fields: Fields, content: string): Fields {
    if content == "" then fields else WithDefault(WithDefault(fields, "detail", content), "error", content)
  }

  function KnownRole(role: string): bool {
    role == "user" || role == "assistant" || role == "system"
  }

  /** `_normalize_planner_callback_event`. */
  function NormalizeEvent(e: Event): Result<NormalEvent, Error> {
    if e.NotAnObject? then Err(BadRequest)
    else
      match EventStatus(e.status, match e.payload case Some(p) => p.fields case None => map[])
      case Err(error) => Err(error)
      case Ok(next) =>
        var t, fields, content := EventType(e), EventFields(e, next), Text.Strip(e.content);
        var clear := next.Some? && next != Some(Failed);
        if t == "assistant_delta" then
          var text := FirstNonEmpty([content, Field(fields, "delta"), Field(fields, "content")]);
          Ok(NormalEvent(Some(Content("assistant", t, text, fields)), next, None, clear))
        else if t == "tool_call_start" || t == "tool_call_delta" || t == "tool_call_end" then
          var text := FirstNonEmpty([content, Field(fields, "summary"), Field(fields, "name"), Field(fields, "tool_name")]);
          Ok(NormalEvent(Some(Content("assistant", t, text, fields)), next, None, clear))
        else if t == "status" then
          var text := FirstNonEmpty([content, Field(fields, "message"), Field(fields, "status")]);
          Ok(NormalEvent(Some(Content("system", t, text, fields)), next, None, clear))
        else if t == "flow.nodes" then
          Ok(NormalEvent(None, next, None, clear))
        else if t == "error" then
          var text := FirstNonEmpty([content, Text.Strip(e.detail), Text.Strip(e.error), Field(fields, "detail"), Field(fields, "error")]);
          Ok(NormalEvent(Some(Content("system", t, text, ErrorFields(fields, text))), next, if text == "" then None else Some(text), clear))
        else
          var role := Text.Lower(Text.Strip(e.role));
          var kind := FirstNonEmpty([Text.Lower(Text.Strip(e.kind)), t, "message"]);
          var text := FirstNonEmpty([content, Field(fields, "content"), Field(fields, "message")]);
          if KnownRole(if role == "" then "assistant" else role)
          then Ok(NormalEvent(Some(Content(if role == "" then "assistant" else role, kind, text, fields)), next, None, clear))
          else Err(BadRequest)
  }

  lemma DefaultKeepsKey(fields: Fields, key: string, value: string)
    requires key != "event_id" && key != "request_id"
    ensures FieldsKey(WithDefault(fields, key, value)) == FieldsKey(fields)
  {
  }

  /** The message a callback event leaves behind carries the event's own dedupe key. */
  lemma MessageCarriesKey(e: Event)
    requires NormalizeEvent(e).Ok? && NormalizeEvent(e).value.message.Some?
    ensures e.payload.Some? ==> FieldsKey(NormalizeEvent(e).value.message.value.fields) == EventKeyOf(e)
  {
    hide Text.Strip, Text.Lower, FieldsKey, FirstNonEmpty, Field;
    var n := NormalizeEvent(e).value;
    if e.payload.Some? {
      var base := e.payload.value.fields;
      var typed := if EventType(e) == "" then "message" else EventType(e);
      DefaultKeepsKey(base, "event_type", typed);
      var withType := WithDefault(base, "event_type", typed);
      if n.nextStatus.Some? { DefaultKeepsKey(withType, "status", StatusText(n.nextStatus.value)); }
      var fields := EventFields(e, n.nextStatus);
      if n.lastError.Some? {
        DefaultKeepsKey(fields, "detail", n.lastError.value);
        DefaultKeepsKey(WithDefault(fields, "detail", n.lastError.value), "error", n.lastError.value);
      }
    }
  }
}
