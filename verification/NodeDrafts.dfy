/** From the planner's loosely typed answer to a list of plan nodes: id normalisation and draft clean-up. */
module NodeDrafts {
  import opened CompletionCheck
  import opened Graph
  import opened Ids
  import opened PlannerNodes
  import opened Sequences
  import opened Wrappers
  import TaskDependencies
  import Text

  const MAX_NODES: nat := 12

  // ----- Ids -----

  predicate Allowed(c: char) {
    'a' <= c <= 'z' || 'A' <= c <= 'Z' || '0' <= c <= '9' || c == '_' || c == '-'
  }

  function SkipForeign(s: string): (r: string)
    ensures |r| <= |s|
  {
    if s != "" && !Allowed(s[0]) then SkipForeign(s[1..]) else s
  }

  /** `re.sub(r"[^a-zA-Z0-9_-]+", "_", s)`. */
  function Collapse(s: string): string
    decreases |s|
  {
    if s == "" then ""
    else if Allowed(s[0]) then [s[0]] + Collapse(s[1..])
    else "_" + Collapse(SkipForeign(s[1..]))
  }

  function TrimLeft(s: string): string {
    if s != "" && s[0] == '_' then TrimLeft(s[1..]) else s
  }

  function TrimRight(s: string): string {
    if s != "" && s[|s| - 1] == '_' then TrimRight(s[..|s| - 1]) else s
  }

  function Digit(d: nat): char
    requires d < 10
  {
    "0123456789"[d]
  }

  function Decimal(n: nat): string {
    if n < 10 then [Digit(n)] else Decimal(n / 10) + [Digit(n % 10)]
  }

  function FallbackText(index: nat): string {
    "node_" + Decimal(index)
  }

  /** The normalised id before it is made unique. */
  function BaseText(raw: Option<string>, fallbackIndex: nat): string {
    var given := Text.Strip(raw.UnwrapOr(""));
    var value := TrimRight(TrimLeft(Collapse(if given == "" then FallbackText(fallbackIndex) else given)));
    if value == "" then FallbackText(fallbackIndex) else value
  }

  function Suffixed(base: string, k: nat): Id {
    Id(base + "_" + Decimal(k))
  }

  ghost predicate FirstFreeSuffix(base: string, seen: set<Id>, k: nat) {
    && k >= 2 && Suffixed(base, k) !in seen
    && forall j :: 2 <= j < k ==> Suffixed(base, j) in seen
  }

  /** The base itself if it is free, else the base with the first free suffix. */
  ghost predicate Chosen(base: string, seen: set<Id>, id: Id) {
    if Id(base) !in seen then id == Id(base)
    else exists k: nat :: FirstFreeSuffix(base, seen, k) && id == Suffixed(base, k)
  }

  lemma ChosenIsNew(base: string, seen: set<Id>, id: Id)
    requires Chosen(base, seen, id)
    ensures id !in seen
  {
  }

  lemma DigitInjective(a: nat, b: nat)
    requires a < 10 && b < 10 && Digit(a) == Digit(b)
    ensures a == b
  {
    assert "0123456789"[a] as int == 48 + a && "0123456789"[b] as int == 48 + b;
  }

  lemma {:induction false} DecimalInjective(a: nat, b: nat)
    requires Decimal(a) == Decimal(b)
    ensures a == b
  {
    DecimalLength(a / 10);
    DecimalLength(b / 10);
    if a >= 10 && b >= 10 {
      var x, y := Decimal(a / 10), Decimal(b / 10);
      assert (x + [Digit(a % 10)])[..|x|] == x && (y + [Digit(b % 10)])[..|y|] == y;
      assert |x| == |y|;
      assert (x + [Digit(a % 10)])[|x|] == Digit(a % 10);
      DecimalInjective(a / 10, b / 10);
      DigitInjective(a % 10, b % 10);
    } else if a < 10 && b < 10 {
      assert [Digit(a)][0] == [Digit(b)][0];
      DigitInjective(a, b);
    } else {
      assert false;
    }
  }

  lemma {:induction false} DecimalLength(n: nat)
    ensures |Decimal(n)| > 0
  {
    if n >= 10 { DecimalLength(n / 10); }
  }

  lemma SuffixedInjective(base: string, a: nat, b: nat)
    requires Suffixed(base, a) == Suffixed(base, b)
    ensures a == b
  {
    var prefix := base + "_";
    assert (prefix + Decimal(a))[|prefix|..] == Decimal(a) && (prefix + Decimal(b))[|prefix|..] == Decimal(b);
    DecimalInjective(a, b);
  }

  /** The suffixes tried before `n`. */
  ghost function Tried(base: string, n: nat): set<Id> {
    if n <= 2 then {} else Tried(base, n - 1) + {Suffixed(base, n - 1)}
  }

  lemma {:induction false} TriedMembers(base: string, n: nat, x: Id)
    ensures x in Tried(base, n) <==> exists k :: 2 <= k < n && x == Suffixed(base, k)
  {
    if n > 2 { TriedMembers(base, n - 1, x); }
  }

  /** Every suffix tried is a different id, so at most |seen| of them can be taken. */
  lemma {:induction false} TriedSize(base: string, n: nat)
    ensures |Tried(base, n)| == if n <= 2 then 0 else n - 2
  {
    if n > 2 {
      TriedSize(base, n - 1);
      var last := Suffixed(base, n - 1);
      TriedMembers(base, n - 1, last);
      if k :| 2 <= k < n - 1 && last == Suffixed(base, k) {
        SuffixedInjective(base, n - 1, k);
      }
    }
  }

  /** `_normalize_node_id`. The loop ends because `seen` cannot hold every suffix. */
  method NormalizeNodeId(raw: Option<string>, fallbackIndex: nat, seen: set<Id>) returns (id: Id)
    ensures Chosen(BaseText(raw, fallbackIndex), seen, id)
  {
    hide BaseText, Suffixed;
    var value := BaseText(raw, fallbackIndex);
    if Id(value) !in seen {
      return Id(value);
    }
    var suffix := 2;
    while Suffixed(value, suffix) in seen
      invariant suffix >= 2
      invariant Tried(value, suffix) <= seen
      invariant forall j :: 2 <= j < suffix ==> Suffixed(value, j) in seen
      decreases |seen| + 2 - suffix
    {
      TriedSize(value, suffix + 1);
      SubsetCardinality(Tried(value, suffix + 1), seen);
      suffix := suffix + 1;
    }
    assert FirstFreeSuffix(value, seen, suffix);
    id := Suffixed(value, suffix);
  }

  ghost predicate AllAllowed(s: string) {
    forall c :: c in s ==> Allowed(c)
  }

  lemma {:induction false} CollapseShape(s: string)
    ensures AllAllowed(Collapse(s))
    decreases |s|
  {
    if s != "" {
      if Allowed(s[0]) { CollapseShape(s[1..]); } else { CollapseShape(SkipForeign(s[1..])); }
    }
  }

  lemma {:induction false} TrimShape(s: string)
    ensures AllAllowed(s) ==> AllAllowed(TrimLeft(s)) && AllAllowed(TrimRight(s))
    decreases |s|
  {
    if s != "" {
      TrimShape(s[1..]);
      TrimShape(s[..|s| - 1]);
    }
  }

  lemma {:induction false} DecimalShape(n: nat)
    ensures AllAllowed(Decimal(n)) && Decimal(n) != ""
  {
    if n >= 10 { DecimalShape(n / 10); }
  }

  lemma BaseShape(raw: Option<string>, fallbackIndex: nat)
    ensures AllAllowed(BaseText(raw, fallbackIndex)) && BaseText(raw, fallbackIndex) != ""
  {
    hide TrimLeft, TrimRight, Collapse, Text.Strip;
    DecimalShape(fallbackIndex);
    var given := Text.Strip(raw.UnwrapOr(""));
    var text := Collapse(if given == "" then FallbackText(fallbackIndex) else given);
    CollapseShape(if given == "" then FallbackText(fallbackIndex) else given);
    TrimShape(text);
    TrimShape(TrimLeft(text));
  }

  lemma ChosenShape(raw: Option<string>, fallbackIndex: nat, seen: set<Id>, id: Id)
    requires Chosen(BaseText(raw, fallbackIndex), seen, id)
    ensures AllAllowed(id.text) && TaskDependencies.Clean(id)
  {
    hide BaseText, Decimal;
    var base := BaseText(raw, fallbackIndex);
    BaseShape(raw, fallbackIndex);
    if Id(base) in seen {
      var k: nat :| FirstFreeSuffix(base, seen, k) && id == Suffixed(base, k);
      DecimalShape(k);
    }
    AllowedIsClean(id);
  }

  lemma AllowedIsClean(id: Id)
    requires AllAllowed(id.text) && id.text != ""
    ensures TaskDependencies.Clean(id)
  {
    assert id.text[0] in id.text && id.text[|id.text| - 1] in id.text;
  }

  // ----- Drafts -----

  /** One entry of the node list; an absent or wrongly typed field reads as `None`. */
  datatype Item =
    | NotAnObject
    | Object(id: Option<string>, title: Option<string>, description: Option<string>,
             dependsOn: Option<seq<Option<string>>>, sensitive: Option<bool>)

  datatype ParseError = MissingNodes | EmptyNodes

  predicate Usable(item: Item) {
    item.Object? && Text.Strip(item.title.UnwrapOr("")) != ""
  }

  /** The dependency entries that are text, stripped and not blank. */
  function DeclaredDeps(raw: seq<Option<string>>): seq<Id> {
    if raw == [] then []
    else
      var dep := Text.Strip(raw[|raw| - 1].UnwrapOr(""));
      DeclaredDeps(raw[..|raw| - 1]) + if dep == "" then [] else [Id(dep)]
  }

  /** `[dep for dep in deps if dep in known and dep != own]`. */
  function KnownOthers(deps: seq<Id>, known: set<Id>, own: Id): seq<Id> {
    if deps == [] then []
    else
      var d := deps[|deps| - 1];
      KnownOthers(deps[..|deps| - 1], known, own) + if d in known && d != own then [d] else []
  }

  lemma {:induction false} KnownOthersMembers(deps: seq<Id>, known: set<Id>, own: Id, d: Id)
    ensures d in KnownOthers(deps, known, own) <==> d in deps && d in known && d != own
  {
    if deps != [] {
      KnownOthersMembers(deps[..|deps| - 1], known, own, d);
      assert deps == deps[..|deps| - 1] + [deps[|deps| - 1]];
    }
  }

  /** The positions of the usable items among the first `n`. */
  function UsableAt(items: seq<Item>, n: nat): seq<nat>
    requires n <= |items|
  {
    if n == 0 then []
    else UsableAt(items, n - 1) + if Usable(items[n - 1]) then [n - 1] else []
  }

  /** `node` is the draft of the item at `index`, after drafts with the ids in `seen`. */
  ghost predicate DraftOf(item: Item, index: nat, seen: set<Id>, node: Node) {
    && item.Object?
    && Chosen(BaseText(item.id, index + 1), seen, node.id)
    && node.title == Text.Strip(item.title.UnwrapOr(""))
    && node.description == Text.Strip(item.description.UnwrapOr(""))
    && node.dependsOn == DeclaredDeps(item.dependsOn.UnwrapOr([]))
    && node.sensitive == item.sensitive.UnwrapOr(false)
  }

  /** One draft per usable item, in order, with ids made unique from left to right. */
  ghost predicate Drafts(items: seq<Item>, n: nat, drafts: seq<Node>)
    requires n <= |items|
  {
    && |drafts| == |UsableAt(items, n)|
    && forall x :: 0 <= x < |drafts| ==>
      UsableAt(items, n)[x] < n && DraftOf(items[UsableAt(items, n)[x]], UsableAt(items, n)[x], Elements(NodeIds(drafts[..x])), drafts[x])
  }

  function Cleaned(node: Node, known: set<Id>, existing: map<Id, string>): Node {
    node.(dependsOn := KnownOthers(node.dependsOn, known, node.id),
          description :=
            if node.description != "" then node.description
            else if node.id in existing then existing[node.id] else "")
  }

  /** A draft's final form: the last one becomes sensitive if none is. */
  ghost predicate Finished(drafts: seq<Node>, existing: map<Id, string>, nodes: seq<Node>) {
    && |nodes| == |drafts|
    && forall x :: 0 <= x < |nodes| ==>
      nodes[x] == Cleaned(drafts[x], Elements(NodeIds(drafts)), existing).(
        sensitive := drafts[x].sensitive || (x == |drafts| - 1 && !HasSensitive(drafts)))
  }

  ghost predicate Parsed(items: seq<Item>, existing: map<Id, string>, nodes: seq<Node>) {
    exists drafts :: Drafts(items, |items|, drafts) && Finished(drafts, existing, nodes)
  }

  lemma DraftsStep(items: seq<Item>, n: nat, drafts: seq<Node>)
    requires n < |items| && Drafts(items, n, drafts)
    ensures !Usable(items[n]) ==> Drafts(items, n + 1, drafts)
    ensures forall node :: Usable(items[n]) && DraftOf(items[n], n, Elements(NodeIds(drafts)), node) ==> Drafts(items, n + 1, drafts + [node])
  {
    hide DraftOf, NodeIds;
    forall node | Usable(items[n]) && DraftOf(items[n], n, Elements(NodeIds(drafts)), node) ensures Drafts(items, n + 1, drafts + [node]) {
      var more := drafts + [node];
      forall x | 0 <= x < |more| ensures UsableAt(items, n + 1)[x] < n + 1
        && DraftOf(items[UsableAt(items, n + 1)[x]], UsableAt(items, n + 1)[x], Elements(NodeIds(more[..x])), more[x])
      {
        if x < |drafts| {
          assert more[..x] == drafts[..x];
        } else {
          assert more[..x] == drafts;
        }
      }
    }
  }

  lemma IdsStep(drafts: seq<Node>, node: Node)
    ensures NodeIds(drafts + [node]) == NodeIds(drafts) + [node.id]
    ensures Elements(NodeIds(drafts + [node])) == Elements(NodeIds(drafts)) + {node.id}
  {
  }

  /** The dependency loop of one item. */
  method ReadDependencies(raw: seq<Option<string>>) returns (deps: seq<Id>)
    ensures deps == DeclaredDeps(raw)
  {
    deps := [];
    for i := 0 to |raw|
      invariant deps == DeclaredDeps(raw[..i])
    {
      assert raw[..i + 1][..i] == raw[..i];
      if raw[i].Some? {
        var dep := Text.Strip(raw[i].value);
        if dep != "" {
          deps := deps + [Id(dep)];
        }
      }
    }
    assert raw[..|raw|] == raw;
  }

  method NormalizeItems(items: seq<Item>) returns (drafts: seq<Node>)
    ensures Drafts(items, |items|, drafts)
  {
    hide DraftOf, Drafts, BaseText, NodeIds, Text.Strip;
    drafts := [];
    NoDrafts(items);
    var seen: set<Id> := {};
    for index := 0 to |items|
      invariant Drafts(items, index, drafts)
      invariant seen == Elements(NodeIds(drafts))
    {
      DraftsStep(items, index, drafts);
      var item := items[index];
      if !Usable(item) {
        continue;
      }
      var id := NormalizeNodeId(item.id, index + 1, seen);
      var deps := ReadDependencies(item.dependsOn.UnwrapOr([]));
      var node := Node(id, Text.Strip(item.title.UnwrapOr("")), Text.Strip(item.description.UnwrapOr("")), deps, item.sensitive.UnwrapOr(false));
      NodeIsDraft(item, index, seen, node);
      IdsStep(drafts, node);
      seen := seen + {id};
      drafts := drafts + [node];
    }
  }

  lemma NoDrafts(items: seq<Item>)
    ensures Drafts(items, 0, []) && Elements(NodeIds([])) == {}
  {
  }

  lemma NodeIsDraft(item: Item, index: nat, seen: set<Id>, node: Node)
    requires Usable(item) && Chosen(BaseText(item.id, index + 1), seen, node.id)
    requires node.title == Text.Strip(item.title.UnwrapOr("")) && node.description == Text.Strip(item.description.UnwrapOr(""))
    requires node.dependsOn == DeclaredDeps(item.dependsOn.UnwrapOr([])) && node.sensitive == item.sensitive.UnwrapOr(false)
    ensures DraftOf(item, index, seen, node)
  {
  }

  /** The second loop and the sensitivity default. */
  method Finish(drafts: seq<Node>, existing: map<Id, string>) returns (nodes: seq<Node>)
    ensures Finished(drafts, existing, nodes)
  {
    hide NodeIds, Elements, KnownOthers;
    var known := set node | node in drafts :: node.id;
    KnownAre(drafts);
    nodes := [];
    var anySensitive := false;
    for i := 0 to |drafts|
      invariant |nodes| == i
      invariant forall x :: 0 <= x < i ==> nodes[x] == Cleaned(drafts[x], known, existing)
      invariant anySensitive <==> exists x :: 0 <= x < i && drafts[x].sensitive
    {
      nodes := nodes + [Cleaned(drafts[i], known, existing)];
      anySensitive := anySensitive || drafts[i].sensitive;
    }
    if !anySensitive && |nodes| > 0 {
      nodes := nodes[|nodes| - 1 := nodes[|nodes| - 1].(sensitive := true)];
    }
  }

  lemma KnownAre(drafts: seq<Node>)
    ensures (set node | node in drafts :: node.id) == Elements(NodeIds(drafts))
  {
    forall node | node in drafts ensures node.id in NodeIds(drafts) {
      var x :| 0 <= x < |drafts| && drafts[x] == node;
      assert NodeIds(drafts)[x] == node.id;
    }
  }

  /** `_parse_nodes_from_message`, after the JSON has been read: only the first twelve entries count. */
  method ParseNodes(payload: Option<seq<Item>>, existing: map<Id, string>) returns (r: Result<seq<Node>, ParseError>)
    ensures r == Err(MissingNodes) <==> payload.UnwrapOr([]) == []
    ensures payload.UnwrapOr([]) != [] ==>
      match r
      case Ok(nodes) => nodes != [] && Parsed(FirstTwelve(payload.UnwrapOr([])), existing, nodes)
      case Err(e) => e == EmptyNodes && forall item :: item in FirstTwelve(payload.UnwrapOr([])) ==> !Usable(item)
  {
    hide Usable, Drafts, Finished;
    var all := payload.UnwrapOr([]);
    if all == [] {
      return Err(MissingNodes);
    }
    var items := FirstTwelve(all);
    var drafts := NormalizeItems(items);
    EmptyIff(items, drafts);
    if drafts == [] {
      return Err(EmptyNodes);
    }
    var nodes := Finish(drafts, existing);
    FinishedLength(drafts, existing, nodes);
    assert Parsed(items, existing, nodes);
    r := Ok(nodes);
  }

  function FirstTwelve(items: seq<Item>): (r: seq<Item>)
    ensures r <= items && |r| == if |items| < 12 then |items| else 12
  {
    if |items| <= MAX_NODES then items else items[..MAX_NODES]
  }

  lemma FinishedLength(drafts: seq<Node>, existing: map<Id, string>, nodes: seq<Node>)
    requires Finished(drafts, existing, nodes)
    ensures |nodes| == |drafts|
  {
  }

  lemma EmptyIff(items: seq<Item>, drafts: seq<Node>)
    requires Drafts(items, |items|, drafts)
    ensures drafts == [] <==> forall item :: item in items ==> !Usable(item)
  {
    NothingUsable(items, |items|);
    assert items[..|items|] == items;
  }

  lemma {:induction false} NothingUsable(items: seq<Item>, n: nat)
    requires n <= |items|
    ensures |UsableAt(items, n)| <= n
    ensures UsableAt(items, n) == [] <==> forall item :: item in items[..n] ==> !Usable(item)
  {
    hide Usable;
    if n > 0 {
      NothingUsable(items, n - 1);
      assert items[..n] == items[..n - 1] + [items[n - 1]];
    }
  }

  // ----- What a parsed plan is worth -----

  lemma OneDraft(items: seq<Item>, n: nat, drafts: seq<Node>, x: nat)
    requires n <= |items| && Drafts(items, n, drafts) && x < |drafts|
    ensures drafts[x].id !in NodeIds(drafts[..x])
    ensures AllAllowed(drafts[x].id.text) && TaskDependencies.Clean(drafts[x].id)
  {
    hide AllAllowed, TaskDependencies.Clean, BaseText, Chosen;
    var index := UsableAt(items, n)[x];
    var seen := Elements(NodeIds(drafts[..x]));
    assert DraftOf(items[index], index, seen, drafts[x]);
    ChosenIsNew(BaseText(items[index].id, index + 1), seen, drafts[x].id);
    ChosenShape(items[index].id, index + 1, seen, drafts[x].id);
  }

  lemma {:induction false} DraftIdsDistinct(items: seq<Item>, n: nat, drafts: seq<Node>, m: nat)
    requires n <= |items| && Drafts(items, n, drafts) && m <= |drafts|
    ensures Distinct(NodeIds(drafts[..m]))
  {
    hide Drafts, AllAllowed, TaskDependencies.Clean;
    if m > 0 {
      DraftIdsDistinct(items, n, drafts, m - 1);
      OneDraft(items, n, drafts, m - 1);
      assert drafts[..m] == drafts[..m - 1] + [drafts[m - 1]];
      IdsStep(drafts[..m - 1], drafts[m - 1]);
      DistinctAppend(NodeIds(drafts[..m - 1]), drafts[m - 1].id);
    }
  }

  /**
    Every plan that parses has one to twelve nodes with distinct ids that survive the task encoding, dependencies
    only on other nodes of the plan, and a sensitive node.
   */
  lemma ParsedPlanIsSound(all: seq<Item>, existing: map<Id, string>, nodes: seq<Node>)
    requires nodes != [] && Parsed(FirstTwelve(all), existing, nodes)
    ensures 1 <= |nodes| <= 12
    ensures Distinct(NodeIds(nodes)) && HasSensitive(nodes)
    ensures forall x :: 0 <= x < |nodes| ==> AllAllowed(nodes[x].id.text) && TaskDependencies.Clean(nodes[x].id)
    ensures forall x, d :: 0 <= x < |nodes| && d in nodes[x].dependsOn ==> d in NodeIds(nodes) && d != nodes[x].id
  {
    hide AllAllowed, TaskDependencies.Clean, Distinct, Finished, DraftOf, KnownOthers, HasSensitive, UsableAt;
    var items := FirstTwelve(all);
    var drafts: seq<Node> :| Drafts(items, |items|, drafts) && Finished(drafts, existing, nodes);
    NothingUsable(items, |items|);
    FinishedIds(drafts, existing, nodes);
    FinishedLength(drafts, existing, nodes);
    FinishedSensitive(drafts, existing, nodes);
    DraftIdsDistinct(items, |items|, drafts, |drafts|);
    forall x | 0 <= x < |nodes| ensures AllAllowed(nodes[x].id.text) && TaskDependencies.Clean(nodes[x].id) {
      OneDraft(items, |items|, drafts, x);
    }
    assert drafts[..|drafts|] == drafts;
    forall x, d | 0 <= x < |nodes| && d in nodes[x].dependsOn ensures d in NodeIds(nodes) && d != nodes[x].id {
      KnownOthersMembers(drafts[x].dependsOn, Elements(NodeIds(drafts)), drafts[x].id, d);
    }
  }

  lemma FinishedSensitive(drafts: seq<Node>, existing: map<Id, string>, nodes: seq<Node>)
    requires Finished(drafts, existing, nodes) && nodes != []
    ensures HasSensitive(nodes)
  {
    hide Cleaned;
    if y :| 0 <= y < |drafts| && drafts[y].sensitive {
      assert nodes[y].sensitive;
    } else {
      assert nodes[|nodes| - 1].sensitive;
    }
  }

  /** So of the checks a plan must pass to be completed, only its size and acyclicity are left open. */
  lemma OnlySizeAndCyclesRemain(all: seq<Item>, existing: map<Id, string>, nodes: seq<Node>)
    requires nodes != [] && Parsed(FirstTwelve(all), existing, nodes)
    ensures Completable(nodes) <==> |nodes| >= 2 && !HasCycle(ListedDeps(nodes))
  {
    hide Parsed, Distinct, HasCycle, AllAllowed, TaskDependencies.Clean;
    ParsedPlanIsSound(all, existing, nodes);
    ListedKeys(nodes);
    forall v, d | v in ListedDeps(nodes) && d in ListedDeps(nodes)[v] ensures d in ListedDeps(nodes) {
      assert v in NodeIds(nodes);
      var x :| 0 <= x < |nodes| && NodeIds(nodes)[x] == v;
      ListedAt(nodes, x);
    }
  }

  // ----- What each node is made of -----

  /** A text that is not blank. */
  predicate Shown(text: Option<string>) {
    text.Some? && Text.Strip(text.value) != ""
  }

  /** The nodes come from exactly the objects with a title among the first twelve entries, in order. */
  ghost predicate FromEntries(all: seq<Item>, at: seq<nat>) {
    && (forall i: nat :: i in at <==> i < 12 && i < |all| && all[i].Object? && Shown(all[i].title))
    && forall x, y :: 0 <= x < y < |at| ==> at[x] < at[y]
  }

  function StrippedEntries(raw: seq<Option<string>>): seq<Id> {
    seq(|raw|, i requires 0 <= i < |raw| => Id(Text.Strip(raw[i].UnwrapOr(""))))
  }

  /** One node, told from its entry: `last` if it is the last node and no entry asked for approval. */
  ghost predicate MadeFrom(item: Item, node: Node, ids: set<Id>, existing: map<Id, string>, last: bool) {
    && item.Object? && item.title.Some? && node.title == Text.Strip(item.title.value)
    && (Shown(item.description) ==> node.description == Text.Strip(item.description.value))
    && (!Shown(item.description) && node.id in existing ==> node.description == existing[node.id])
    && (!Shown(item.description) && node.id !in existing ==> node.description == "")
    && (node.sensitive <==> item.sensitive == Some(true) || last)
    && node.dependsOn == Filter(StrippedEntries(item.dependsOn.UnwrapOr([])), (d: Id) => d.text != "" && d in ids && d != node.id)
  }

  lemma {:induction false} UsableMeans(items: seq<Item>, n: nat)
    requires n <= |items|
    ensures forall i: nat :: i in UsableAt(items, n) <==> i < n && items[i].Object? && Shown(items[i].title)
    ensures forall x, y :: 0 <= x < y < |UsableAt(items, n)| ==> UsableAt(items, n)[x] < UsableAt(items, n)[y]
  {
    if n > 0 {
      UsableMeans(items, n - 1);
      UsableIsShown(items[n - 1]);
      hide Usable, Shown;
      var before := UsableAt(items, n - 1);
      assert forall x :: 0 <= x < |before| ==> before[x] in before;
    }
  }

  lemma UsableIsShown(item: Item)
    ensures Usable(item) <==> item.Object? && Shown(item.title)
  {
    Text.StripTrimmed("");
    hide Text.Strip;
  }

  lemma {:induction false} KnownOthersMean(raw: seq<Option<string>>, ids: set<Id>, own: Id)
    ensures KnownOthers(DeclaredDeps(raw), ids, own) == Filter(StrippedEntries(raw), (d: Id) => d.text != "" && d in ids && d != own)
  {
    hide Text.Strip, KnownOthers, Filter;
    if raw == [] {
      NoneKnown(ids, own);
    } else {
      var init, d := raw[..|raw| - 1], Id(Text.Strip(raw[|raw| - 1].UnwrapOr("")));
      var keep := (d: Id) => d.text != "" && d in ids && d != own;
      KnownOthersMean(init, ids, own);
      KnownOthersMore(DeclaredDeps(init), ids, own, d);
      assert StrippedEntries(raw) == StrippedEntries(init) + [d];
      FilterConcat(StrippedEntries(init), [d], keep);
      if keep(d) { FilterAll([d], keep); } else { FilterNone([d], keep); }
      assert d.text == "" ==> DeclaredDeps(raw) == DeclaredDeps(init);
    }
  }

  lemma NoneKnown(ids: set<Id>, own: Id)
    ensures KnownOthers([], ids, own) == [] == Filter([], (d: Id) => d.text != "" && d in ids && d != own)
  {
  }

  lemma KnownOthersMore(deps: seq<Id>, ids: set<Id>, own: Id, d: Id)
    ensures KnownOthers(deps + [d], ids, own) == KnownOthers(deps, ids, own) + if d in ids && d != own then [d] else []
  {
    assert (deps + [d])[..|deps|] == deps;
  }

  predicate Asks(item: Item) {
    item.Object? && item.sensitive == Some(true)
  }

  ghost predicate NobodyAsks(all: seq<Item>, at: seq<nat>) {
    forall y :: 0 <= y < |at| ==> at[y] < |all| && !Asks(all[at[y]])
  }

  /** Every node of a parsed plan, field by field, from the entry it was made from. */
  lemma ParsedNodesMean(all: seq<Item>, existing: map<Id, string>, nodes: seq<Node>) returns (at: seq<nat>)
    requires nodes != [] && Parsed(FirstTwelve(all), existing, nodes)
    ensures FromEntries(all, at) && |at| == |nodes|
    ensures forall x :: 0 <= x < |nodes| ==>
      at[x] < |all| && MadeFrom(all[at[x]], nodes[x], Elements(NodeIds(nodes)), existing, x == |nodes| - 1 && NobodyAsks(all, at))
  {
    hide Finished, Drafts, UsableAt, Elements, NodeIds, MadeFrom, Shown, NobodyAsks;
    var items := FirstTwelve(all);
    var drafts: seq<Node> :| Drafts(items, |items|, drafts) && Finished(drafts, existing, nodes);
    at := UsableAt(items, |items|);
    UsableMeans(items, |items|);
    FinishedLength(drafts, existing, nodes);
    DraftsLength(items, drafts);
    assert forall x :: 0 <= x < |at| ==> at[x] in at;
    AllInTwelve(all, at);
    AskedMeans(all, drafts);
    forall x | 0 <= x < |nodes|
      ensures MadeFrom(all[at[x]], nodes[x], Elements(NodeIds(nodes)), existing, x == |nodes| - 1 && NobodyAsks(all, at))
    {
      assert at[x] in at;
      NodeAt(items, existing, drafts, nodes, x);
    }
  }

  lemma DraftsLength(items: seq<Item>, drafts: seq<Node>)
    requires Drafts(items, |items|, drafts)
    ensures |drafts| == |UsableAt(items, |items|)|
  {
  }

  lemma AskedMeans(all: seq<Item>, drafts: seq<Node>)
    requires Drafts(FirstTwelve(all), |FirstTwelve(all)|, drafts)
    ensures HasSensitive(drafts) <==> !NobodyAsks(all, UsableAt(FirstTwelve(all), |FirstTwelve(all)|))
  {
    hide UsableAt, DraftOf;
    var items := FirstTwelve(all);
    var at := UsableAt(items, |items|);
    forall x | 0 <= x < |drafts| ensures at[x] < |items| && Asks(all[at[x]]) == drafts[x].sensitive {
      DraftAsks(items[at[x]], at[x], Elements(NodeIds(drafts[..x])), drafts[x]);
    }
  }

  lemma DraftAsks(item: Item, index: nat, seen: set<Id>, draft: Node)
    requires DraftOf(item, index, seen, draft)
    ensures Asks(item) == draft.sensitive
  {
    hide Chosen, BaseText, DeclaredDeps, Text.Strip;
  }

  lemma NodeAt(items: seq<Item>, existing: map<Id, string>, drafts: seq<Node>, nodes: seq<Node>, x: nat)
    requires Drafts(items, |items|, drafts) && Finished(drafts, existing, nodes) && x < |nodes|
    requires x < |UsableAt(items, |items|)| && UsableAt(items, |items|)[x] < |items| && Shown(items[UsableAt(items, |items|)[x]].title)
    requires items[UsableAt(items, |items|)[x]].Object?
    ensures MadeFrom(items[UsableAt(items, |items|)[x]], nodes[x], Elements(NodeIds(nodes)), existing, x == |nodes| - 1 && !HasSensitive(drafts))
  {
    hide UsableAt, DraftOf, Elements, NodeIds, MadeFrom, KnownOthers, DeclaredDeps, HasSensitive, Cleaned;
    FinishedIds(drafts, existing, nodes);
    var index := UsableAt(items, |items|)[x];
    var item, seen := items[index], Elements(NodeIds(drafts[..x]));
    assert DraftOf(item, index, seen, drafts[x]);
    DraftDeps(item, index, seen, drafts[x], Elements(NodeIds(drafts)));
    OneNode(item, index, seen, drafts[x], nodes[x], Elements(NodeIds(nodes)), existing, x == |nodes| - 1 && !HasSensitive(drafts));
  }

  lemma DraftDeps(item: Item, index: nat, seen: set<Id>, draft: Node, ids: set<Id>)
    requires DraftOf(item, index, seen, draft) && item.Object?
    ensures KnownOthers(draft.dependsOn, ids, draft.id) ==
      Filter(StrippedEntries(item.dependsOn.UnwrapOr([])), (d: Id) => d.text != "" && d in ids && d != draft.id)
  {
    hide KnownOthers, DeclaredDeps, Chosen, BaseText, Filter, Text.Strip;
    KnownOthersMean(item.dependsOn.UnwrapOr([]), ids, draft.id);
  }

  lemma AllInTwelve(all: seq<Item>, at: seq<nat>)
    requires forall i: nat :: i in at <==> i < |FirstTwelve(all)| && FirstTwelve(all)[i].Object? && Shown(FirstTwelve(all)[i].title)
    requires forall x, y :: 0 <= x < y < |at| ==> at[x] < at[y]
    ensures FromEntries(all, at)
  {
    hide Shown;
    var items := FirstTwelve(all);
    assert forall i :: 0 <= i < |items| ==> items[i] == all[i];
  }

  lemma OneNode(item: Item, index: nat, seen: set<Id>, draft: Node, node: Node, ids: set<Id>, existing: map<Id, string>, last: bool)
    requires DraftOf(item, index, seen, draft) && item.title.Some?
    requires node == Cleaned(draft, ids, existing).(sensitive := draft.sensitive || last)
    requires KnownOthers(draft.dependsOn, ids, draft.id) ==
      Filter(StrippedEntries(item.dependsOn.UnwrapOr([])), (d: Id) => d.text != "" && d in ids && d != draft.id)
    ensures MadeFrom(item, node, ids, existing, last)
  {
    hide KnownOthers, DeclaredDeps, Chosen, BaseText, Filter;
    Text.StripTrimmed("");
    hide Text.Strip;
  }

  // ----- What an id is made of -----

  /** The number a text of digits stands for. */
  function Value(s: string): int {
    if s == "" then 0 else 10 * Value(s[..|s| - 1]) + (s[|s| - 1] as int - '0' as int)
  }

  lemma {:induction false} DecimalMeans(n: nat)
    ensures Value(Decimal(n)) == n
    ensures forall c :: c in Decimal(n) ==> '0' <= c <= '9'
    ensures n > 0 ==> Decimal(n)[0] != '0'
  {
    DigitMeans(n % 10);
    if n >= 10 {
      DecimalMeans(n / 10);
      assert Decimal(n)[..|Decimal(n)| - 1] == Decimal(n / 10);
    } else {
      assert [Digit(n)][..0] == [];
    }
  }

  lemma DigitMeans(d: nat)
    requires d < 10
    ensures Digit(d) as int == '0' as int + d
  {
  }

  /** The hyphen, the underscore, the digits, the capitals and the small letters of ASCII. */
  lemma AllowedMeans(c: char)
    ensures var code := c as int;
      Allowed(c) <==> code == 45 || code == 95 || 48 <= code <= 57 || 65 <= code <= 90 || 97 <= code <= 122
  {
  }

  /** A run of other characters becomes one underscore; allowed characters stay. */
  lemma CollapseMeans(front: string, run: string, rest: string)
    requires AllAllowed(front) && run != "" && (forall c :: c in run ==> !Allowed(c)) && (rest == "" || Allowed(rest[0]))
    ensures Collapse(front) == front
    ensures Collapse(front + run + rest) == front + "_" + Collapse(rest)
  {
    CollapseAllowed(front);
    CollapseFront(front, run + rest);
    assert front + run + rest == front + (run + rest);
    assert Collapse(run + rest) == "_" + Collapse(rest) by {
      assert run[0] in run && (run + rest)[0] == run[0] && (run + rest)[1..] == run[1..] + rest;
      SkipRun(run[1..], rest);
    }
  }

  lemma {:induction false} CollapseFront(front: string, rest: string)
    requires AllAllowed(front)
    ensures Collapse(front + rest) == front + Collapse(rest)
  {
    if front == "" {
      assert front + rest == rest;
    } else {
      assert front[0] in front && forall c :: c in front[1..] ==> c in front;
      CollapseFront(front[1..], rest);
      assert (front + rest)[0] == front[0] && (front + rest)[1..] == front[1..] + rest;
    }
  }

  lemma {:induction false} SkipRun(run: string, rest: string)
    requires (forall c :: c in run ==> !Allowed(c)) && (rest == "" || Allowed(rest[0]))
    ensures SkipForeign(run + rest) == rest
  {
    if run == "" {
      assert run + rest == rest;
    } else {
      assert (run + rest)[1..] == run[1..] + rest && (run + rest)[0] == run[0];
      SkipRun(run[1..], rest);
    }
  }

  ghost predicate Underscores(s: string) {
    forall c :: c in s ==> c == '_'
  }

  /** What is left between the outer underscores of the collapsed text is the base; if nothing is, "node_" and the number. */
  lemma BaseMeans(raw: Option<string>, index: nat) returns (left: string, mid: string, right: string)
    ensures var given := Text.Strip(raw.UnwrapOr(""));
      given == "" ==> BaseText(raw, index) == "node_" + Decimal(index)
    ensures var given := Text.Strip(raw.UnwrapOr(""));
      given != "" ==>
        && Collapse(given) == left + mid + right && Underscores(left) && Underscores(right)
        && (mid == "" || (mid[0] != '_' && mid[|mid| - 1] != '_'))
        && BaseText(raw, index) == if mid == "" then "node_" + Decimal(index) else mid
  {
    hide Text.Strip, Collapse, TrimLeft, TrimRight, Decimal;
    var given := Text.Strip(raw.UnwrapOr(""));
    if given == "" {
      FallbackStays(index);
      left, mid, right := "", "", "";
    } else {
      var text := Collapse(given);
      left := TrimLeftMeans(text);
      right := TrimRightMeans(TrimLeft(text));
      mid := TrimRight(TrimLeft(text));
      TrimmedStart(text);
      TrimmedStart(TrimLeft(text));
      TrimmedEnd(TrimLeft(text));
      TrimNothing();
      assert text == left + mid + right;
    }
  }

  lemma FallbackStays(index: nat)
    ensures TrimRight(TrimLeft(Collapse(FallbackText(index)))) == FallbackText(index) == "node_" + Decimal(index)
  {
    hide Decimal, Collapse;
    DecimalShape(index);
    DecimalDigits(index);
    var s := FallbackText(index);
    CollapseAllowed(s);
    assert s[0] == 'n' && s[|s| - 1] == Decimal(index)[|Decimal(index)| - 1];
  }

  lemma {:induction false} TrimLeftMeans(s: string) returns (left: string)
    ensures s == left + TrimLeft(s) && Underscores(left)
  {
    left := "";
    if s != "" && s[0] == '_' {
      var more := TrimLeftMeans(s[1..]);
      left := [s[0]] + more;
    }
  }

  lemma {:induction false} TrimRightMeans(s: string) returns (right: string)
    ensures s == TrimRight(s) + right && Underscores(right)
  {
    right := "";
    if s != "" && s[|s| - 1] == '_' {
      var more := TrimRightMeans(s[..|s| - 1]);
      right := more + [s[|s| - 1]];
    }
  }

  // ----- Which declared dependencies survive -----

  /** An entry of the dependency list reads, without outer blanks, as `d`. */
  ghost predicate Declares(item: Item, d: Id) {
    item.Object? && d.text != "" && exists i :: 0 <= i < |item.dependsOn.UnwrapOr([])| && Reads(item.dependsOn.UnwrapOr([])[i], d)
  }

  predicate Reads(entry: Option<string>, d: Id) {
    entry.Some? && Text.Strip(entry.value) == d.text
  }

  lemma {:induction false} DeclaredMembers(raw: seq<Option<string>>, d: Id)
    ensures d in DeclaredDeps(raw) <==> d.text != "" && exists i :: 0 <= i < |raw| && Reads(raw[i], d)
  {
    hide Text.Strip;
    if raw != [] {
      var init, last := raw[..|raw| - 1], raw[|raw| - 1];
      DeclaredMembers(init, d);
      BlankReads(last);
      if i :| 0 <= i < |raw| && Reads(raw[i], d) {
        if i < |init| { assert Reads(init[i], d); }
      }
      if i :| 0 <= i < |init| && Reads(init[i], d) {
        assert Reads(raw[i], d);
      }
      if last.Some? && Text.Strip(last.value) == d.text { assert Reads(raw[|raw| - 1], d); }
    }
  }

  lemma BlankReads(entry: Option<string>)
    ensures entry.None? ==> Text.Strip(entry.UnwrapOr("")) == ""
  {
  }

  /** The item that became the x-th node. */
  function ItemOf(items: seq<Item>, x: nat): Option<Item> {
    if x < |UsableAt(items, |items|)| && UsableAt(items, |items|)[x] < |items| then Some(items[UsableAt(items, |items|)[x]]) else None
  }

  /**
    Dependencies are matched against the final ids but are not normalised themselves: a node depends on `d` exactly if
    its item declares `d` and `d` is the final id of another node. A target whose id was changed loses its dependents.
   */
  lemma DependencySurvivesIff(all: seq<Item>, existing: map<Id, string>, nodes: seq<Node>, x: nat, d: Id)
    requires nodes != [] && Parsed(FirstTwelve(all), existing, nodes) && x < |nodes|
    ensures ItemOf(FirstTwelve(all), x).Some?
    ensures d in nodes[x].dependsOn <==>
      Declares(ItemOf(FirstTwelve(all), x).value, d) && exists y :: 0 <= y < |nodes| && y != x && nodes[y].id == d
  {
    hide Distinct, DeclaredDeps, Reads, Chosen, BaseText, Text.Strip, KnownOthers, HasSensitive, UsableAt;
    var items := FirstTwelve(all);
    var drafts: seq<Node> :| Drafts(items, |items|, drafts) && Finished(drafts, existing, nodes);
    var index := UsableAt(items, |items|)[x];
    assert DraftOf(items[index], index, Elements(NodeIds(drafts[..x])), drafts[x]);
    DeclaredMembers(items[index].dependsOn.UnwrapOr([]), d);
    KnownOthersMembers(drafts[x].dependsOn, Elements(NodeIds(drafts)), drafts[x].id, d);
    FinishedIds(drafts, existing, nodes);
    ParsedPlanIsSound(all, existing, nodes);
    OtherId(nodes, x, d);
  }

  lemma FinishedIds(drafts: seq<Node>, existing: map<Id, string>, nodes: seq<Node>)
    requires Finished(drafts, existing, nodes)
    ensures NodeIds(nodes) == NodeIds(drafts)
    ensures forall x :: 0 <= x < |nodes| ==>
      nodes[x].id == drafts[x].id && nodes[x].dependsOn == KnownOthers(drafts[x].dependsOn, Elements(NodeIds(drafts)), drafts[x].id)
  {
    hide KnownOthers, HasSensitive;
  }

  lemma OtherId(nodes: seq<Node>, x: nat, d: Id)
    requires x < |nodes| && Distinct(NodeIds(nodes))
    ensures d in NodeIds(nodes) && d != nodes[x].id <==> exists y :: 0 <= y < |nodes| && y != x && nodes[y].id == d
  {
    hide Distinct;
    DistinctIndices(NodeIds(nodes));
    if d in NodeIds(nodes) {
      var y :| 0 <= y < |nodes| && NodeIds(nodes)[y] == d;
      assert nodes[y].id == d;
    }
    if y :| 0 <= y < |nodes| && y != x && nodes[y].id == d {
      assert NodeIds(nodes)[y] == d;
      assert NodeIds(nodes)[x] != NodeIds(nodes)[y];
    }
  }

  // When an entry keeps its id.

  lemma {:induction false} CollapseAllowed(s: string)
    requires AllAllowed(s)
    ensures Collapse(s) == s
    decreases |s|
  {
    if s != "" {
      assert s[0] in s && forall c :: c in s[1..] ==> c in s;
      CollapseAllowed(s[1..]);
      assert s == [s[0]] + s[1..];
    }
  }

  lemma {:induction false} TrimmedStart(s: string)
    ensures TrimLeft(s) == "" || TrimLeft(s)[0] != '_'
    ensures s != "" && s[0] != '_' ==> TrimRight(s) != "" && TrimRight(s)[0] == s[0]
    decreases |s|
  {
    if s != "" {
      TrimmedStart(s[1..]);
      TrimmedStart(s[..|s| - 1]);
    }
  }

  lemma BaseStart(raw: Option<string>, fallbackIndex: nat)
    ensures BaseText(raw, fallbackIndex) != "" && BaseText(raw, fallbackIndex)[0] != '_'
  {
    hide Text.Strip, Collapse, TrimLeft, TrimRight, Decimal;
    var given := Text.Strip(raw.UnwrapOr(""));
    var text := Collapse(if given == "" then FallbackText(fallbackIndex) else given);
    TrimmedStart(text);
    TrimmedStart(TrimLeft(text));
    TrimNothing();
    assert FallbackText(fallbackIndex)[0] == 'n';
  }

  lemma TrimNothing()
    ensures TrimRight("") == ""
  {
  }

  lemma {:induction false} DecimalDigits(n: nat)
    ensures Decimal(n) != "" && Decimal(n)[|Decimal(n)| - 1] != '_'
  {
    DecimalLength(n);
    assert forall d: nat :: d < 10 ==> "0123456789"[d] as int == 48 + d;
  }

  /** Text of allowed characters without outer underscores is its own base. */
  lemma OwnBase(s: string, raw: Option<string>, fallbackIndex: nat)
    requires s != "" && AllAllowed(s) && s[0] != '_' && s[|s| - 1] != '_' && Text.Strip(raw.UnwrapOr("")) == s
    ensures BaseText(raw, fallbackIndex) == s
  {
    hide Text.Strip, Collapse;
    CollapseAllowed(s);
  }

  lemma SuffixedBase(raw: Option<string>, index: nat, k: nat)
    requires Text.Strip(raw.UnwrapOr("")) != ""
    ensures Id(Text.Strip(raw.UnwrapOr(""))) != Suffixed(BaseText(raw, index), k)
  {
    hide Text.Strip, BaseText, Decimal;
    var base, given := BaseText(raw, index), Text.Strip(raw.UnwrapOr(""));
    var s := Suffixed(base, k).text;
    BaseShape(raw, index);
    BaseStart(raw, index);
    DecimalShape(k);
    DecimalDigits(k);
    assert AllAllowed(s) && s[0] == base[0] && s[|s| - 1] == Decimal(k)[|Decimal(k)| - 1];
    if given == s {
      OwnBase(s, raw, index);
    }
  }

  /** An entry keeps the id it gives exactly if normalising leaves that as it is and no earlier node has got it. */
  lemma KeepsIdIff(all: seq<Item>, existing: map<Id, string>, nodes: seq<Node>, x: nat)
    requires nodes != [] && Parsed(FirstTwelve(all), existing, nodes) && x < |nodes|
    ensures ItemOf(FirstTwelve(all), x).Some? && ItemOf(FirstTwelve(all), x).value.Object?
    ensures var given := Text.Strip(ItemOf(FirstTwelve(all), x).value.id.UnwrapOr(""));
      given != "" ==>
        (nodes[x].id == Id(given) <==> Normal(given) && forall y :: 0 <= y < x ==> nodes[y].id != Id(given))
  {
    hide BaseText, Text.Strip, Suffixed, UsableAt, DeclaredDeps, Normal, Cleaned, HasSensitive, Finished, Chosen, Elements, NodeIds;
    var items := FirstTwelve(all);
    var drafts: seq<Node> :| Drafts(items, |items|, drafts) && Finished(drafts, existing, nodes);
    FinishedLength(drafts, existing, nodes);
    FinishedIds(drafts, existing, nodes);
    var index := UsableAt(items, |items|)[x];
    var raw, seen := items[index].id, Elements(NodeIds(drafts[..x]));
    assert DraftOf(items[index], index, seen, drafts[x]);
    var given := Text.Strip(raw.UnwrapOr(""));
    if given != "" {
      ChosenKeepsIff(raw, index + 1, seen, drafts[x].id);
      EarlierIds(drafts, nodes, x, Id(given));
    }
  }

  lemma ChosenKeepsIff(raw: Option<string>, index: nat, seen: set<Id>, id: Id)
    requires Chosen(BaseText(raw, index), seen, id) && Text.Strip(raw.UnwrapOr("")) != ""
    ensures var given := Text.Strip(raw.UnwrapOr("")); id == Id(given) <==> Normal(given) && Id(given) !in seen
  {
    hide BaseText, Text.Strip, Suffixed, Normal;
    BaseIsNormal(raw, index);
    var base := BaseText(raw, index);
    forall k: nat ensures Id(Text.Strip(raw.UnwrapOr(""))) != Suffixed(base, k) {
      SuffixedBase(raw, index, k);
    }
  }

  /** What normalising leaves as it is: allowed characters only, and no outer underscores. */
  predicate Normal(s: string) {
    s != "" && (forall c :: c in s ==> Allowed(c)) && s[0] != '_' && s[|s| - 1] != '_'
  }

  lemma {:induction false} TrimmedEnd(s: string)
    ensures TrimRight(s) == "" || TrimRight(s)[|TrimRight(s)| - 1] != '_'
  {
    if s != "" { TrimmedEnd(s[..|s| - 1]); }
  }

  lemma BaseIsNormal(raw: Option<string>, index: nat)
    requires Text.Strip(raw.UnwrapOr("")) != ""
    ensures BaseText(raw, index) == Text.Strip(raw.UnwrapOr("")) <==> Normal(Text.Strip(raw.UnwrapOr("")))
  {
    var given := Text.Strip(raw.UnwrapOr(""));
    if Normal(given) {
      OwnBase(given, raw, index);
    }
    hide Text.Strip, Collapse, TrimLeft, Decimal;
    BaseShape(raw, index);
    BaseStart(raw, index);
    TrimmedEnd(TrimLeft(Collapse(given)));
    DecimalDigits(index);
    assert FallbackText(index)[|FallbackText(index)| - 1] == Decimal(index)[|Decimal(index)| - 1];
  }

  lemma EarlierIds(drafts: seq<Node>, nodes: seq<Node>, x: nat, id: Id)
    requires x < |nodes| == |drafts| && forall y :: 0 <= y < |nodes| ==> nodes[y].id == drafts[y].id
    ensures id in Elements(NodeIds(drafts[..x])) <==> exists y :: 0 <= y < x && nodes[y].id == id
  {
    if id in NodeIds(drafts[..x]) {
      var y :| 0 <= y < x && NodeIds(drafts[..x])[y] == id;
      assert nodes[y].id == id;
    }
    if y :| 0 <= y < x && nodes[y].id == id {
      assert NodeIds(drafts[..x])[y] == id;
    }
  }

  function Plain(id: string, dependsOn: seq<Option<string>>): Item {
    Object(Some(id), Some("t"), None, Some(dependsOn), None)
  }

  /** Trimming an id loses its dependents, and of two items with one id the second cannot be depended on. */
  lemma RenamedTargets(existing: map<Id, string>, nodes: seq<Node>)
    requires Parsed([Plain("a_", []), Plain("b", []), Plain("b", []), Plain("c", [Some("a_"), Some("b")])], existing, nodes)
    ensures |nodes| == 4
    ensures nodes[0].id == Id("a") && nodes[1].id == Id("b") && nodes[2].id == Id("b_2") && nodes[3].id == Id("c")
    ensures nodes[3].dependsOn == [Id("b")]
  {
    hide Drafts, Finished, DraftOf, KnownOthers, BaseText, Suffixed, DeclaredDeps, UsableAt, NodeIds, Elements;
    var items := [Plain("a_", []), Plain("b", []), Plain("b", []), Plain("c", [Some("a_"), Some("b")])];
    var drafts: seq<Node> :| Drafts(items, |items|, drafts) && Finished(drafts, existing, nodes);
    AllUsable(items);
    DraftsAt(items, drafts);
    FinishedLength(drafts, existing, nodes);
    FinishedIds(drafts, existing, nodes);
    PlainBases();
    NoDrafts(items);
    DifferentIds();
    assert drafts[..0] == [];
    FreeBase(items[0], 0, {}, drafts[0], "a");
    SeenStep(drafts, 0);
    assert Elements(NodeIds(drafts[..1])) == {Id("a")};
    FreeBase(items[1], 1, {Id("a")}, drafts[1], "b");
    SeenStep(drafts, 1);
    assert Elements(NodeIds(drafts[..2])) == {Id("a"), Id("b")};
    TakenBase(items[2], 2, {Id("a"), Id("b")}, drafts[2]);
    SeenStep(drafts, 2);
    assert Elements(NodeIds(drafts[..3])) == {Id("a"), Id("b"), Id("b_2")};
    FreeBase(items[3], 3, {Id("a"), Id("b"), Id("b_2")}, drafts[3], "c");
    SeenStep(drafts, 3);
    assert drafts[..4] == drafts;
    assert Elements(NodeIds(drafts)) == {Id("a"), Id("b"), Id("b_2"), Id("c")};
    LastDeclared();
    LastKnown({Id("a"), Id("b"), Id("b_2"), Id("c")});
  }

  lemma DifferentIds()
    ensures Id("b") != Id("a") && Id("c") !in {Id("a"), Id("b"), Id("b_2")} && Id("a_") !in {Id("a"), Id("b"), Id("b_2"), Id("c")}
  {
    assert "a"[0] == 'a' && "b"[0] == 'b' && "c"[0] == 'c' && "b_2"[0] == 'b' && |"a_"| == 2 && |"a"| == 1 && |"b"| == 1 && |"c"| == 1 && |"b_2"| == 3;
  }

  lemma SeenStep(drafts: seq<Node>, k: nat)
    requires k < |drafts|
    ensures Elements(NodeIds(drafts[..k + 1])) == Elements(NodeIds(drafts[..k])) + {drafts[k].id}
  {
    assert drafts[..k + 1] == drafts[..k] + [drafts[k]];
    IdsStep(drafts[..k], drafts[k]);
  }

  lemma DraftsAt(items: seq<Item>, drafts: seq<Node>)
    requires |items| == 4 && Drafts(items, 4, drafts) && UsableAt(items, 4) == [0, 1, 2, 3]
    ensures |drafts| == 4
    ensures forall x :: 0 <= x < 4 ==> DraftOf(items[x], x, Elements(NodeIds(drafts[..x])), drafts[x])
  {
    hide DraftOf, Elements, NodeIds, UsableAt;
    forall x | 0 <= x < 4 ensures DraftOf(items[x], x, Elements(NodeIds(drafts[..x])), drafts[x]) {
      assert UsableAt(items, 4)[x] == x;
    }
  }

  lemma AllUsable(items: seq<Item>)
    requires |items| == 4 && forall i :: 0 <= i < 4 ==> items[i].Object? && items[i].title == Some("t")
    ensures UsableAt(items, 4) == [0, 1, 2, 3]
  {
    Text.StripTrimmed("t");
    assert forall i :: 0 <= i < 4 ==> Usable(items[i]);
    hide Usable;
    assert UsableAt(items, 1) == [0];
    assert UsableAt(items, 2) == [0, 1];
    assert UsableAt(items, 3) == [0, 1, 2];
  }

  lemma PlainBases()
    ensures BaseText(Some("a_"), 1) == "a" && BaseText(Some("b"), 2) == "b" && BaseText(Some("b"), 3) == "b" && BaseText(Some("c"), 4) == "c"
  {
    Text.StripTrimmed("a_");
    Text.StripTrimmed("b");
    Text.StripTrimmed("c");
    hide Text.Strip;
    assert "a_"[1..] == "_" && "_"[1..] == "" && "a_"[..1] == "a";
    assert Collapse("_") == "_" && Collapse("a_") == "a_" && TrimLeft("a_") == "a_" && TrimRight("a_") == "a";
    OneLetter("b");
    OneLetter("c");
  }

  lemma OneLetter(s: string)
    requires |s| == 1 && 'a' <= s[0] <= 'z'
    ensures TrimRight(TrimLeft(Collapse(s))) == s
  {
    assert s[1..] == "" && Collapse(s) == s;
  }

  lemma FreeBase(item: Item, index: nat, seen: set<Id>, node: Node, base: string)
    requires DraftOf(item, index, seen, node) && item.Object? && BaseText(item.id, index + 1) == base && Id(base) !in seen
    ensures node.id == Id(base) && node.dependsOn == DeclaredDeps(item.dependsOn.UnwrapOr([]))
  {
    hide BaseText, Text.Strip;
  }

  lemma TakenBase(item: Item, index: nat, seen: set<Id>, node: Node)
    requires DraftOf(item, index, seen, node) && item.Object? && BaseText(item.id, index + 1) == "b" && seen == {Id("a"), Id("b")}
    ensures node.id == Id("b_2")
  {
    hide BaseText, Text.Strip;
    assert Decimal(2) == "2" && Suffixed("b", 2) == Id("b_2");
    assert |Suffixed("b", 2).text| == 3 && Suffixed("b", 2) !in seen;
    var k: nat :| FirstFreeSuffix("b", seen, k) && node.id == Suffixed("b", k);
    assert k == 2;
  }

  lemma LastDeclared()
    ensures DeclaredDeps([Some("a_"), Some("b")]) == [Id("a_"), Id("b")]
  {
    Text.StripTrimmed("a_");
    Text.StripTrimmed("b");
    hide Text.Strip;
    var raw := [Some("a_"), Some("b")];
    assert raw[..1] == [Some("a_")] && raw[..1][..0] == [];
    assert DeclaredDeps([Some("a_")]) == [Id("a_")];
  }

  lemma LastKnown(known: set<Id>)
    requires Id("b") in known && Id("a_") !in known
    ensures KnownOthers([Id("a_"), Id("b")], known, Id("c")) == [Id("b")]
  {
    var deps := [Id("a_"), Id("b")];
    assert deps[..1] == [Id("a_")] && deps[..1][..0] == [];
    assert KnownOthers([Id("a_")], known, Id("c")) == [];
    assert "b"[0] != "c"[0];
  }
}
