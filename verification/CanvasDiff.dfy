/**
  `_diff_flow_canvas_nodes` and the planner operations built from it: a second patch builder. It compares every card,
  not the last card of every id, so repeated ids can make it publish an outdated node.
 */
module CanvasDiff {
  import opened Ids
  import opened NodePatches
  import opened PlannerNodes
  import opened Sequences

  /** A canvas node: what the planner stores, and the fields only the canvas has. */
  datatype Card = Card(node: Node, face: string)

  function NodesOf(cards: seq<Card>): seq<Node> {
    if cards == [] then [] else NodesOf(cards[..|cards| - 1]) + [cards[|cards| - 1].node]
  }

  /** `{node.id: node for node in cards}`. */
  function CardById(cards: seq<Card>): map<Id, Card> {
    if cards == [] then map[]
    else CardById(cards[..|cards| - 1])[cards[|cards| - 1].node.id := cards[|cards| - 1]]
  }

  lemma {:induction false} CardTable(cards: seq<Card>)
    ensures CardById(cards).Keys == ById(NodesOf(cards)).Keys
    ensures forall id :: id in CardById(cards) ==>
      CardById(cards)[id] in cards && CardById(cards)[id].node.id == id && CardById(cards)[id].node == ById(NodesOf(cards))[id]
    ensures forall c :: c in cards ==> c.node.id in CardById(cards)
  {
    if cards != [] {
      var init, last := cards[..|cards| - 1], cards[|cards| - 1];
      CardTable(init);
      assert NodesOf(cards)[..|NodesOf(cards)| - 1] == NodesOf(init);
      assert cards == init + [last];
    }
  }

  predicate Changed(previousById: map<Id, Card>, c: Card) {
    !(c.node.id in previousById && previousById[c.node.id] == c)
  }

  function Patched(previousById: map<Id, Card>, current: seq<Card>): seq<Card> {
    if current == [] then []
    else
      var last := current[|current| - 1];
      Patched(previousById, current[..|current| - 1]) + if Changed(previousById, last) then [last] else []
  }

  function Upserted(cards: seq<Card>): seq<Operation> {
    if cards == [] then [] else Upserted(cards[..|cards| - 1]) + [UpsertNode(cards[|cards| - 1].node)]
  }

  function PlannerOperations(previous: seq<Card>, current: seq<Card>): seq<Operation> {
    Deletions(KeyOrder(NodesOf(previous)), ById(NodesOf(current))) + Upserted(Patched(CardById(previous), current))
  }

  lemma {:induction false} PatchedMembers(previousById: map<Id, Card>, current: seq<Card>, c: Card)
    ensures c in Patched(previousById, current) <==> c in current && Changed(previousById, c)
  {
    if current != [] {
      PatchedMembers(previousById, current[..|current| - 1], c);
      assert current == current[..|current| - 1] + [current[|current| - 1]];
    }
  }

  lemma NodesStep(cards: seq<Card>)
    requires cards != []
    ensures var init, last := cards[..|cards| - 1], cards[|cards| - 1];
      ById(NodesOf(cards)) == ById(NodesOf(init))[last.node.id := last.node]
  {
    assert NodesOf(cards)[..|NodesOf(cards)| - 1] == NodesOf(cards[..|cards| - 1]);
  }

  lemma UpsertStep(cards: seq<Card>, m: map<Id, Node>)
    requires cards != []
    ensures var init, last := cards[..|cards| - 1], cards[|cards| - 1];
      Replay(Upserted(cards), m) == Replay(Upserted(init), m)[last.node.id := last.node]
  {
    assert Upserted(cards)[..|Upserted(cards)| - 1] == Upserted(cards[..|cards| - 1]);
  }

  /** Replaying upserts overwrites a map with the last node of every id. */
  lemma {:induction false} UpsertsOverwrite(cards: seq<Card>, m: map<Id, Node>)
    ensures Replay(Upserted(cards), m) == m + ById(NodesOf(cards))
  {
    if cards == [] {
      assert m + map[] == m;
    } else {
      hide ById, NodesOf, Upserted, Replay;
      UpsertsOverwrite(cards[..|cards| - 1], m);
      UpsertStep(cards, m);
      NodesStep(cards);
    }
  }

  method DiffCanvasNodes(previous: seq<Card>, current: seq<Card>) returns (patched: seq<Card>, removed: seq<Operation>)
    ensures patched == Patched(CardById(previous), current)
    ensures removed == Deletions(KeyOrder(NodesOf(previous)), ById(NodesOf(current)))
  {
    var previousById, currentById := CardById(previous), ById(NodesOf(current));
    patched := [];
    for i := 0 to |current|
      invariant patched == Patched(previousById, current[..i])
    {
      assert current[..i + 1][..i] == current[..i];
      if Changed(previousById, current[i]) {
        patched := patched + [current[i]];
      }
    }
    assert current[..|current|] == current;
    removed := DeletedNodes(KeyOrder(NodesOf(previous)), currentById);
  }

  /** Card `i` is the last of its id that differs from the previous plan. */
  ghost predicate LastChanged(previousById: map<Id, Card>, cards: seq<Card>, i: nat) {
    && i < |cards| && Changed(previousById, cards[i])
    && forall j :: i < j < |cards| && cards[j].node.id == cards[i].node.id ==> !Changed(previousById, cards[j])
  }

  /** Card `i` is the last of its id. */
  ghost predicate LastOfId(cards: seq<Card>, i: nat) {
    i < |cards| && forall j :: i < j < |cards| ==> cards[j].node.id != cards[i].node.id
  }

  /** For no id is the last changed card older than the last card, unless both hold the same node. */
  ghost predicate PatchesAreFinal(previous: seq<Card>, current: seq<Card>) {
    forall i: nat, j: nat :: SameNode(CardById(previous), current, i, j)
  }

  ghost predicate SameNode(previousById: map<Id, Card>, cards: seq<Card>, i: nat, j: nat) {
    LastChanged(previousById, cards, i) && LastOfId(cards, j) && cards[i].node.id == cards[j].node.id ==> cards[i].node == cards[j].node
  }

  /** The last changed card of an id is its entry in the patched table. */
  lemma {:induction false} LastChangedWins(previousById: map<Id, Card>, cards: seq<Card>, i: nat)
    requires LastChanged(previousById, cards, i)
    ensures var last := ById(NodesOf(Patched(previousById, cards)));
      cards[i].node.id in last && last[cards[i].node.id] == cards[i].node
    decreases |cards|
  {
    hide ById, NodesOf, Patched, Changed;
    var init := cards[..|cards| - 1];
    PatchedStep(previousById, cards);
    if i < |init| {
      assert forall j :: 0 <= j < |init| ==> init[j] == cards[j];
      LastChangedWins(previousById, init, i);
    }
  }

  lemma PatchedStep(previousById: map<Id, Card>, cards: seq<Card>)
    requires cards != []
    ensures var init, last := cards[..|cards| - 1], cards[|cards| - 1];
      ById(NodesOf(Patched(previousById, cards))) ==
        if Changed(previousById, last) then ById(NodesOf(Patched(previousById, init)))[last.node.id := last.node]
        else ById(NodesOf(Patched(previousById, init)))
  {
    hide ById, NodesOf, Changed;
    var init, last := cards[..|cards| - 1], cards[|cards| - 1];
    var patched := Patched(previousById, cards);
    if Changed(previousById, last) {
      assert patched[..|patched| - 1] == Patched(previousById, init);
      NodesStep(patched);
    } else {
      assert patched == Patched(previousById, init);
    }
  }

  lemma {:induction false} LastChangedExists(previousById: map<Id, Card>, cards: seq<Card>, id: Id) returns (i: nat)
    requires id in ById(NodesOf(Patched(previousById, cards)))
    ensures LastChanged(previousById, cards, i) && cards[i].node.id == id
    decreases |cards|
  {
    hide ById, NodesOf, Patched, Changed;
    NothingPatched(previousById);
    var init, last := cards[..|cards| - 1], cards[|cards| - 1];
    PatchedStep(previousById, cards);
    if Changed(previousById, last) && last.node.id == id {
      i := |cards| - 1;
    } else {
      i := LastChangedExists(previousById, init, id);
    }
  }

  lemma NothingPatched(previousById: map<Id, Card>)
    ensures ById(NodesOf(Patched(previousById, []))) == map[]
  {
  }

  /** The same for all cards: against an empty plan every card is a change. */
  lemma {:induction false} AllPatched(cards: seq<Card>)
    ensures Patched(map[], cards) == cards
  {
    if cards != [] {
      AllPatched(cards[..|cards| - 1]);
      assert cards == cards[..|cards| - 1] + [cards[|cards| - 1]];
    }
  }

  lemma LastOfIdWins(cards: seq<Card>, j: nat)
    requires LastOfId(cards, j)
    ensures cards[j].node.id in ById(NodesOf(cards)) && ById(NodesOf(cards))[cards[j].node.id] == cards[j].node
  {
    hide ById, NodesOf, Patched;
    AllPatched(cards);
    LastChangedWins(map[], cards, j);
  }

  lemma LastOfIdExists(cards: seq<Card>, id: Id) returns (j: nat)
    requires id in ById(NodesOf(cards))
    ensures LastOfId(cards, j) && cards[j].node.id == id
  {
    hide ById, NodesOf, Patched;
    AllPatched(cards);
    j := LastChangedExists(map[], cards, id);
  }

  // ----- What the operations are -----

  ghost predicate LastIs(cards: seq<Card>, c: Card) {
    exists k: nat :: LastOfId(cards, k) && cards[k] == c
  }

  /** Card `i` is not the last card its id had before. */
  ghost predicate IsNew(previous: seq<Card>, current: seq<Card>, i: nat) {
    i < |current| && !LastIs(previous, current[i])
  }

  /** Exactly the new cards, in order. */
  ghost predicate NewCards(previous: seq<Card>, current: seq<Card>, patched: seq<Card>, at: seq<nat>) {
    && |at| == |patched|
    && (forall i: nat :: i in at <==> IsNew(previous, current, i))
    && (forall x, y :: 0 <= x < y < |at| ==> at[x] < at[y])
    && forall x :: 0 <= x < |at| ==> at[x] < |current| && patched[x] == current[at[x]]
  }

  lemma {:induction false} TableMeans(cards: seq<Card>, c: Card)
    ensures c.node.id in CardById(cards) && CardById(cards)[c.node.id] == c <==> LastIs(cards, c)
  {
    if cards != [] {
      var init, last := cards[..|cards| - 1], cards[|cards| - 1];
      TableMeans(init, c);
      LastStep(cards, c);
    }
  }

  lemma LastStep(cards: seq<Card>, c: Card)
    requires cards != []
    ensures var init, last := cards[..|cards| - 1], cards[|cards| - 1];
      LastIs(cards, c) <==> c == last || (c.node.id != last.node.id && LastIs(init, c))
  {
    var init, last := cards[..|cards| - 1], cards[|cards| - 1];
    forall k: nat ensures LastOfId(cards, k) <==> k == |init| || (k < |init| && LastOfId(init, k) && init[k].node.id != last.node.id) {
      LastInInit(cards, k);
    }
    hide LastOfId;
    assert forall k: nat :: k < |init| ==> init[k] == cards[k];
    if c == last {
      assert LastOfId(cards, |init|) && cards[|init|] == c;
    }
  }

  lemma LastInInit(cards: seq<Card>, k: nat)
    requires cards != []
    ensures var init, last := cards[..|cards| - 1], cards[|cards| - 1];
      LastOfId(cards, k) <==> k == |init| || (k < |init| && LastOfId(init, k) && init[k].node.id != last.node.id)
  {
    var init, last := cards[..|cards| - 1], cards[|cards| - 1];
    assert forall j :: 0 <= j < |init| ==> init[j] == cards[j];
  }

  lemma {:induction false} PatchedMeans(previous: seq<Card>, current: seq<Card>) returns (at: seq<nat>)
    ensures NewCards(previous, current, Patched(CardById(previous), current), at)
  {
    hide CardById, LastIs;
    if current == [] {
      at := [];
    } else {
      var init, last := current[..|current| - 1], current[|current| - 1];
      at := PatchedMeans(previous, init);
      TableMeans(previous, last);
      assert current == init + [last];
      NewCardsMore(previous, init, Patched(CardById(previous), init), at, last);
      if Changed(CardById(previous), last) { at := at + [|init|]; }
    }
  }

  lemma NewCardsMore(previous: seq<Card>, current: seq<Card>, patched: seq<Card>, at: seq<nat>, last: Card)
    requires NewCards(previous, current, patched, at)
    ensures if LastIs(previous, last)
      then NewCards(previous, current + [last], patched, at)
      else NewCards(previous, current + [last], patched + [last], at + [|current|])
  {
    hide LastIs;
    var more := current + [last];
    assert forall i: nat :: i < |current| ==> (IsNew(previous, more, i) <==> IsNew(previous, current, i));
    assert IsNew(previous, more, |current|) <==> !LastIs(previous, last);
    hide IsNew;
    assert forall x :: 0 <= x < |at| ==> at[x] in at && more[at[x]] == current[at[x]];
    assert forall i: nat :: IsNew(previous, more, i) ==> i <= |current| by { NewInRange(previous, more); }
  }

  lemma NewInRange(previous: seq<Card>, current: seq<Card>)
    ensures forall i: nat :: IsNew(previous, current, i) ==> i < |current|
  {
  }

  /** First the deletions of the ids that are gone, then an upsert of the node of every new card. */
  lemma OperationsMean(previous: seq<Card>, current: seq<Card>) returns (gone: seq<Id>, patched: seq<Card>, at: seq<nat>)
    ensures NewCards(previous, current, patched, at)
    ensures |PlannerOperations(previous, current)| == |gone| + |patched|
    ensures forall x :: 0 <= x < |gone| ==> PlannerOperations(previous, current)[x] == DeleteNode(gone[x])
    ensures forall x :: 0 <= x < |patched| ==> PlannerOperations(previous, current)[|gone| + x] == UpsertNode(patched[x].node)
    ensures gone == Filter(KeyOrder(NodesOf(previous)), (id: Id) => id !in NodeIds(NodesOf(current)))
    ensures |NodesOf(previous)| == |previous| && forall i :: 0 <= i < |previous| ==> NodesOf(previous)[i] == previous[i].node
  {
    hide NewCards, Patched, Deletions, KeyOrder, Filter, NodesOf, Upserted;
    patched := Patched(CardById(previous), current);
    at := PatchedMeans(previous, current);
    DeletionsMean(KeyOrder(NodesOf(previous)), ById(NodesOf(current)));
    var after := ById(NodesOf(current));
    gone := Filter(KeyOrder(NodesOf(previous)), (id: Id) => id !in after);
    GoneMean(KeyOrder(NodesOf(previous)), NodesOf(current));
    UpsertedMeans(patched);
    NodesMean(previous);
  }

  lemma GoneMean(keys: seq<Id>, nodes: seq<Node>)
    ensures Filter(keys, (id: Id) => id !in ById(nodes)) == Filter(keys, (id: Id) => id !in NodeIds(nodes))
  {
    forall id ensures id in ById(nodes) <==> id in NodeIds(nodes) {
      ByIdKeys(nodes);
      if id in ById(nodes) { TableId(nodes, id); }
      if i :| 0 <= i < |nodes| && NodeIds(nodes)[i] == id { assert nodes[i] in nodes; }
    }
    FilterSame(keys, (id: Id) => id !in ById(nodes), (id: Id) => id !in NodeIds(nodes));
  }

  lemma {:induction false} UpsertedMeans(cards: seq<Card>)
    ensures |Upserted(cards)| == |cards|
    ensures forall i :: 0 <= i < |cards| ==> Upserted(cards)[i] == UpsertNode(cards[i].node)
  {
    if cards != [] { UpsertedMeans(cards[..|cards| - 1]); }
  }

  lemma {:induction false} NodesMean(cards: seq<Card>)
    ensures |NodesOf(cards)| == |cards|
    ensures forall i :: 0 <= i < |cards| ==> NodesOf(cards)[i] == cards[i].node
  {
    if cards != [] { NodesMean(cards[..|cards| - 1]); }
  }

  ghost predicate Agree(some: map<Id, Node>, all: map<Id, Node>) {
    forall id :: id in some ==> id in all && some[id] == all[id]
  }

  /** The condition on the inputs says that the patched table agrees with the new plan. */
  lemma FinalIffTablesAgree(previous: seq<Card>, current: seq<Card>)
    ensures PatchesAreFinal(previous, current) <==>
      Agree(ById(NodesOf(Patched(CardById(previous), current))), ById(NodesOf(current)))
  {
    hide ById, NodesOf, Patched, CardById, LastChanged, LastOfId;
    var last, after := ById(NodesOf(Patched(CardById(previous), current))), ById(NodesOf(current));
    if PatchesAreFinal(previous, current) {
      forall id | id in last ensures id in after && last[id] == after[id] {
        PatchedIds(previous, current, id);
        var i := LastChangedExists(CardById(previous), current, id);
        var j := LastOfIdExists(current, id);
        LastChangedWins(CardById(previous), current, i);
        LastOfIdWins(current, j);
        assert SameNode(CardById(previous), current, i, j);
      }
    }
    if Agree(last, after) {
      forall i: nat, j: nat ensures SameNode(CardById(previous), current, i, j) {
        if LastChanged(CardById(previous), current, i) && LastOfId(current, j) {
          LastChangedWins(CardById(previous), current, i);
          LastOfIdWins(current, j);
        }
      }
    }
  }

  lemma PatchedIds(previous: seq<Card>, current: seq<Card>, id: Id)
    requires id in ById(NodesOf(Patched(CardById(previous), current)))
    ensures id in ById(NodesOf(current))
  {
    var patched := Patched(CardById(previous), current);
    CardTable(patched);
    CardTable(current);
    PatchedMembers(CardById(previous), current, CardById(patched)[id]);
  }

  lemma UnpatchedIds(previous: seq<Card>, current: seq<Card>, id: Id)
    requires id in ById(NodesOf(current)) && id !in ById(NodesOf(Patched(CardById(previous), current)))
    ensures id in ById(NodesOf(previous)) && ById(NodesOf(previous))[id] == ById(NodesOf(current))[id]
  {
    var patched := Patched(CardById(previous), current);
    CardTable(patched);
    CardTable(current);
    CardTable(previous);
    PatchedMembers(CardById(previous), current, CardById(current)[id]);
  }

  /** Replaying the operations gives the new plan exactly if no id is last patched with a card that a later one outdates. */
  lemma DiffReplaysIff(previous: seq<Card>, current: seq<Card>)
    ensures Replay(PlannerOperations(previous, current), ById(NodesOf(previous))) == ById(NodesOf(current))
       <==> PatchesAreFinal(previous, current)
  {
    hide ById, Replay, Deletions, KeyOrder, Upserted, Patched, NodesOf, PatchesAreFinal, CardById;
    FinalIffTablesAgree(previous, current);
    var before, after := ById(NodesOf(previous)), ById(NodesOf(current));
    var patched := Patched(CardById(previous), current);
    var deletions := Deletions(KeyOrder(NodesOf(previous)), after);
    var kept, last := Replay(deletions, before), ById(NodesOf(patched));
    ByIdKeys(NodesOf(previous));
    ReplayDeletions(KeyOrder(NodesOf(previous)), after, before);
    ReplayConcat(deletions, Upserted(patched), before);
    UpsertsOverwrite(patched, kept);
    forall id | id in last ensures id in after { PatchedIds(previous, current, id); }
    forall id | id in after && id !in last ensures id in kept && kept[id] == after[id] {
      UnpatchedIds(previous, current, id);
    }
    assert (kept + last).Keys == after.Keys;
    assert forall id :: id in after ==> (kept + last)[id] == if id in last then last[id] else kept[id];
    if kept + last == after {
      forall id | id in last ensures last[id] == after[id] { assert (kept + last)[id] == last[id]; }
    }
  }

  /** Without repeated ids it always does. */
  lemma DiffReplaysForDistinctIds(previous: seq<Card>, current: seq<Card>)
    requires Distinct(NodeIds(NodesOf(current)))
    ensures Replay(PlannerOperations(previous, current), ById(NodesOf(previous))) == ById(NodesOf(current))
  {
    hide Replay, PlannerOperations, ById, Patched, PatchesAreFinal, CardById, NodesOf, Distinct, Changed;
    FinalIffTablesAgree(previous, current);
    var patched := Patched(CardById(previous), current);
    forall id | id in ById(NodesOf(patched)) ensures id in ById(NodesOf(current)) && ById(NodesOf(patched))[id] == ById(NodesOf(current))[id] {
      CardTable(patched);
      PatchedMembers(CardById(previous), current, CardById(patched)[id]);
      OnlyCard(current, CardById(patched)[id]);
    }
    assert PatchesAreFinal(previous, current);
    DiffReplaysIff(previous, current);
  }

  lemma {:induction false} OnlyCard(cards: seq<Card>, c: Card)
    requires Distinct(NodeIds(NodesOf(cards))) && c in cards
    ensures c.node.id in ById(NodesOf(cards)) && ById(NodesOf(cards))[c.node.id] == c.node
  {
    var init, last := cards[..|cards| - 1], cards[|cards| - 1];
    assert cards == init + [last];
    assert NodesOf(cards) == NodesOf(init) + [last.node];
    assert NodesOf(cards)[..|NodesOf(cards)| - 1] == NodesOf(init);
    assert NodeIds(NodesOf(cards)) == NodeIds(NodesOf(init)) + [last.node.id];
    DistinctAppend(NodeIds(NodesOf(init)), last.node.id);
    if c in init {
      OnlyCard(init, c);
      TableId(NodesOf(init), c.node.id);
    }
  }

  lemma {:induction false} TableId(nodes: seq<Node>, id: Id)
    requires id in ById(nodes)
    ensures id in NodeIds(nodes)
  {
    var init, last := nodes[..|nodes| - 1], nodes[|nodes| - 1];
    assert NodeIds(nodes) == NodeIds(init) + [last.id];
    if id != last.id {
      TableId(init, id);
    }
  }

  /** With repeated ids it need not: the first of two cards is published although the second, unchanged one, wins. */
  lemma RepeatedIdsMislead(earlier: Node, newer: Node)
    requires earlier.id == newer.id && earlier != newer
    ensures var previous, current := [Card(newer, "")], [Card(earlier, ""), Card(newer, "")];
      Replay(PlannerOperations(previous, current), ById(NodesOf(previous))) != ById(NodesOf(current))
  {
    hide ById, NodesOf, Replay, PlannerOperations;
    var previous, current := [Card(newer, "")], [Card(earlier, ""), Card(newer, "")];
    assert CardById(previous) == map[newer.id := Card(newer, "")] by {
      assert previous[..0] == [];
    }
    assert LastChanged(CardById(previous), current, 0) && LastOfId(current, 1);
    assert !SameNode(CardById(previous), current, 0, 1);
    DiffReplaysIff(previous, current);
  }
}
