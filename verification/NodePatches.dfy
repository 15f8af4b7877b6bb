/** `_build_node_operations`: the patch a session publishes when its node list changes. */
module NodePatches {
  import opened Ids
  import opened PlannerNodes
  import opened Sequences

  datatype Operation = DeleteNode(id: Id) | UpsertNode(node: Node)

  /** The list as a dictionary; of several nodes with one id the last wins. */
  function ById(nodes: seq<Node>): map<Id, Node> {
    if nodes == [] then map[]
    else ById(nodes[..|nodes| - 1])[nodes[|nodes| - 1].id := nodes[|nodes| - 1]]
  }

  /** Dictionary order: ids by first occurrence. */
  function KeyOrder(nodes: seq<Node>): seq<Id> {
    if nodes == [] then []
    else
      var init := KeyOrder(nodes[..|nodes| - 1]);
      if nodes[|nodes| - 1].id in init then init else init + [nodes[|nodes| - 1].id]
  }

  function Deletions(keys: seq<Id>, current: map<Id, Node>): seq<Operation> {
    if keys == [] then []
    else
      Deletions(keys[..|keys| - 1], current) +
      if keys[|keys| - 1] in current then [] else [DeleteNode(keys[|keys| - 1])]
  }

  function Upserts(previous: map<Id, Node>, nodes: seq<Node>, current: map<Id, Node>): seq<Operation>
    requires forall n :: n in nodes ==> n.id in current
  {
    if nodes == [] then []
    else
      var id := nodes[|nodes| - 1].id;
      assert nodes[|nodes| - 1] in nodes;
      Upserts(previous, nodes[..|nodes| - 1], current) +
      if id in previous && previous[id] == current[id] then [] else [UpsertNode(current[id])]
  }

  lemma {:induction false} ByIdKeys(nodes: seq<Node>)
    ensures forall n :: n in nodes ==> n.id in ById(nodes)
    ensures forall id :: id in ById(nodes) <==> id in KeyOrder(nodes)
    ensures forall id :: id in ById(nodes) ==> ById(nodes)[id].id == id && ById(nodes)[id] in nodes
  {
    if nodes != [] {
      var init, last := nodes[..|nodes| - 1], nodes[|nodes| - 1];
      ByIdKeys(init);
      assert nodes == init + [last];
    }
  }

  function Operations(previous: seq<Node>, current: seq<Node>): seq<Operation> {
    ByIdKeys(current);
    Deletions(KeyOrder(previous), ById(current)) + Upserts(ById(previous), current, ById(current))
  }

  /** The dictionary comprehension, one entry after the other. */
  method IndexNodes(nodes: seq<Node>) returns (byId: map<Id, Node>, keys: seq<Id>)
    ensures byId == ById(nodes) && keys == KeyOrder(nodes)
  {
    byId, keys := map[], [];
    for i := 0 to |nodes|
      invariant byId == ById(nodes[..i]) && keys == KeyOrder(nodes[..i])
    {
      assert nodes[..i + 1][..i] == nodes[..i];
      byId := byId[nodes[i].id := nodes[i]];
      if nodes[i].id !in keys {
        keys := keys + [nodes[i].id];
      }
    }
    assert nodes[..|nodes|] == nodes;
  }

  /** The loop over the nodes that were there before. */
  method DeletedNodes(keys: seq<Id>, currentById: map<Id, Node>) returns (operations: seq<Operation>)
    ensures operations == Deletions(keys, currentById)
  {
    operations := [];
    for i := 0 to |keys|
      invariant operations == Deletions(keys[..i], currentById)
    {
      assert keys[..i + 1][..i] == keys[..i];
      if keys[i] !in currentById {
        operations := operations + [DeleteNode(keys[i])];
      }
    }
    assert keys[..|keys|] == keys;
  }

  /** The loop over the nodes that are there now. */
  method UpsertedNodes(previousById: map<Id, Node>, current: seq<Node>, currentById: map<Id, Node>) returns (operations: seq<Operation>)
    requires forall n :: n in current ==> n.id in currentById
    ensures operations == Upserts(previousById, current, currentById)
  {
    operations := [];
    for i := 0 to |current|
      invariant operations == Upserts(previousById, current[..i], currentById)
    {
      assert current[..i + 1][..i] == current[..i];
      var id := current[i].id;
      if !(id in previousById && previousById[id] == currentById[id]) {
        operations := operations + [UpsertNode(currentById[id])];
      }
    }
    assert current[..|current|] == current;
  }

  method BuildNodeOperations(previous: seq<Node>, current: seq<Node>) returns (operations: seq<Operation>)
    ensures operations == Operations(previous, current)
  {
    hide ById, KeyOrder;
    var previousById, previousKeys := IndexNodes(previous);
    var currentById, _ := IndexNodes(current);
    ByIdKeys(current);
    var deletions := DeletedNodes(previousKeys, currentById);
    var upserts := UpsertedNodes(previousById, current, currentById);
    operations := deletions + upserts;
  }

  // ----- Replaying a patch -----

  function Replay1(op: Operation, m: map<Id, Node>): map<Id, Node> {
    match op
    case DeleteNode(id) => m - {id}
    case UpsertNode(node) => m[node.id := node]
  }

  function Replay(ops: seq<Operation>, m: map<Id, Node>): map<Id, Node> {
    if ops == [] then m else Replay1(ops[|ops| - 1], Replay(ops[..|ops| - 1], m))
  }

  lemma {:induction false} ReplayConcat(a: seq<Operation>, b: seq<Operation>, m: map<Id, Node>)
    ensures Replay(a + b, m) == Replay(b, Replay(a, m))
  {
    if b == [] {
      assert a + b == a;
    } else {
      ReplayConcat(a, b[..|b| - 1], m);
      assert (a + b)[..|a + b| - 1] == a + b[..|b| - 1];
    }
  }

  lemma {:induction false} ReplayDeletions(keys: seq<Id>, current: map<Id, Node>, m: map<Id, Node>)
    ensures var r := Replay(Deletions(keys, current), m);
      && (forall id :: id in r <==> id in m && !(id in keys && id !in current))
      && (forall id :: id in r ==> r[id] == m[id])
  {
    if keys != [] {
      var init, last := keys[..|keys| - 1], keys[|keys| - 1];
      ReplayDeletions(init, current, m);
      assert keys == init + [last];
      if last !in current {
        ReplayConcat(Deletions(init, current), [DeleteNode(last)], m);
        assert Replay([DeleteNode(last)], Replay(Deletions(init, current), m)) == Replay(Deletions(init, current), m) - {last};
      } else {
        assert Deletions(init, current) + [] == Deletions(init, current);
      }
    }
  }

  ghost predicate Mentions(nodes: seq<Node>, id: Id) {
    exists n :: n in nodes && n.id == id
  }

  lemma MentionsOneMore(init: seq<Node>, last: Node)
    ensures forall id :: Mentions(init + [last], id) <==> Mentions(init, id) || last.id == id
  {
    forall id ensures Mentions(init + [last], id) <==> Mentions(init, id) || last.id == id {
      if last.id == id { assert last in init + [last]; }
      if Mentions(init, id) {
        var n :| n in init && n.id == id;
        assert n in init + [last];
      }
    }
  }

  lemma {:induction false} ReplayUpserts(previous: map<Id, Node>, nodes: seq<Node>, current: map<Id, Node>, m: map<Id, Node>)
    requires forall n :: n in nodes ==> n.id in current
    requires forall id :: id in current ==> current[id].id == id
    requires forall id :: id in m ==> id in previous && m[id] == previous[id]
    requires forall id :: id in current && id in previous ==> id in m
    ensures var r := Replay(Upserts(previous, nodes, current), m);
      && (forall id :: id in r <==> id in m || Mentions(nodes, id))
      && (forall id :: id in r ==> (Mentions(nodes, id) ==> id in current) && r[id] == if Mentions(nodes, id) then current[id] else m[id])
  {
    hide Mentions;
    if nodes == [] {
      NoMention();
    } else {
      var init, last := nodes[..|nodes| - 1], nodes[|nodes| - 1];
      assert nodes == init + [last];
      MentionsOneMore(init, last);
      ReplayUpserts(previous, init, current, m);
      var id := last.id;
      if id in previous && previous[id] == current[id] {
        assert Upserts(previous, init, current) + [] == Upserts(previous, init, current);
      } else {
        var op := UpsertNode(current[id]);
        var before := Replay(Upserts(previous, init, current), m);
        ReplayConcat(Upserts(previous, init, current), [op], m);
        assert Replay([op], before) == before[id := current[id]];
      }
    }
  }

  lemma NoMention()
    ensures forall id :: !Mentions([], id)
  {
  }

  /** Replaying the patch on the old dictionary gives the new one, duplicates in either list included. */
  lemma PatchReplays(previous: seq<Node>, current: seq<Node>)
    ensures Replay(Operations(previous, current), ById(previous)) == ById(current)
  {
    var before, after := ById(previous), ById(current);
    var deletions := Deletions(KeyOrder(previous), after);
    ByIdKeys(previous);
    ByIdKeys(current);
    ReplayDeletions(KeyOrder(previous), after, before);
    var kept := Replay(deletions, before);
    ReplayUpserts(before, current, after, kept);
    ReplayConcat(deletions, Upserts(before, current, after), before);
    var r := Replay(Operations(previous, current), before);
    forall id ensures id in r <==> id in after {
      if id in after { assert after[id] in current && after[id].id == id; }
    }
    forall id | id in r ensures r[id] == after[id] {
      assert after[id] in current && after[id].id == id;
    }
  }

  /** No patch is published exactly when the dictionaries agree, whatever happened to the order. */
  lemma NoPatchIff(previous: seq<Node>, current: seq<Node>)
    ensures Operations(previous, current) == [] <==> ById(previous) == ById(current)
  {
    PatchReplays(previous, current);
    if ById(previous) == ById(current) {
      ByIdKeys(previous);
      ByIdKeys(current);
      NoDeletions(KeyOrder(previous), ById(current));
      NoUpserts(ById(previous), current, ById(current));
    }
  }

  lemma {:induction false} NoDeletions(keys: seq<Id>, current: map<Id, Node>)
    requires forall id :: id in keys ==> id in current
    ensures Deletions(keys, current) == []
  {
    if keys != [] {
      assert keys[|keys| - 1] in keys;
      NoDeletions(keys[..|keys| - 1], current);
    }
  }

  lemma {:induction false} NoUpserts(previous: map<Id, Node>, nodes: seq<Node>, current: map<Id, Node>)
    requires previous == current && forall n :: n in nodes ==> n.id in current
    ensures Upserts(previous, nodes, current) == []
  {
    if nodes != [] {
      assert nodes[|nodes| - 1] in nodes;
      NoUpserts(previous, nodes[..|nodes| - 1], current);
    }
  }

  // ----- What the operations are -----

  /** Node `i` is the last of its id, the one the dictionary holds. */
  lemma {:induction false} LastNodeCounts(nodes: seq<Node>, i: nat)
    requires i < |nodes| && forall j :: i < j < |nodes| ==> nodes[j].id != nodes[i].id
    ensures nodes[i].id in ById(nodes) && ById(nodes)[nodes[i].id] == nodes[i]
  {
    var init := nodes[..|nodes| - 1];
    if i < |init| {
      assert init[i] == nodes[i] && nodes[|nodes| - 1].id != nodes[i].id;
      LastNodeCounts(init, i);
    }
  }

  lemma {:induction false} KeyOrderMeans(nodes: seq<Node>)
    ensures FirstSeen(NodeIds(nodes), (id: Id) => true, KeyOrder(nodes))
  {
    hide FirstSeen;
    if nodes == [] {
      NothingSeen<Id>((id: Id) => true);
      assert NodeIds(nodes) == [];
    } else {
      var init, last := nodes[..|nodes| - 1], nodes[|nodes| - 1];
      KeyOrderMeans(init);
      FirstSeenMore(NodeIds(init), (id: Id) => true, KeyOrder(init), last.id);
      assert NodeIds(nodes) == NodeIds(init) + [last.id];
    }
  }

  /** The deletions name, in that order, the old ids that are no longer there. */
  lemma {:induction false} DeletionsMean(keys: seq<Id>, current: map<Id, Node>)
    ensures Deletions(keys, current) == Names(Filter(keys, (id: Id) => id !in current))
  {
    hide Filter;
    if keys == [] {
      FilterNone<Id>([], (id: Id) => id !in current);
    } else {
      var init, last := keys[..|keys| - 1], keys[|keys| - 1];
      DeletionsMean(init, current);
      FilterConcat(init, [last], (id: Id) => id !in current);
      if last in current { FilterNone([last], (id: Id) => id !in current); } else { FilterAll([last], (id: Id) => id !in current); }
      assert keys == init + [last];
    }
  }

  function Names(ids: seq<Id>): seq<Operation> {
    seq(|ids|, i requires 0 <= i < |ids| => DeleteNode(ids[i]))
  }

  /** The upserts carry the last node of every id listed that is new or has changed, in the order of the list. */
  ghost predicate Carries(previous: map<Id, Node>, nodes: seq<Node>, current: map<Id, Node>, ops: seq<Operation>, at: seq<nat>) {
    && |at| == |ops|
    && (forall i: nat :: i in at <==> i < |nodes| && Differs(previous, current, nodes[i].id))
    && (forall x, y :: 0 <= x < y < |at| ==> at[x] < at[y])
    && forall x :: 0 <= x < |at| ==> at[x] < |nodes| && nodes[at[x]].id in current && ops[x] == UpsertNode(current[nodes[at[x]].id])
  }

  predicate Differs(previous: map<Id, Node>, current: map<Id, Node>, id: Id) {
    !(id in previous && id in current && previous[id] == current[id])
  }

  lemma {:induction false} UpsertsMean(previous: map<Id, Node>, nodes: seq<Node>, current: map<Id, Node>) returns (at: seq<nat>)
    requires forall n :: n in nodes ==> n.id in current
    ensures Carries(previous, nodes, current, Upserts(previous, nodes, current), at)
  {
    hide Differs, Carries, Upserts;
    if nodes == [] {
      at := [];
      NothingCarried(previous, current);
    } else {
      var init, last := nodes[..|nodes| - 1], nodes[|nodes| - 1];
      assert nodes == init + [last] && last in nodes;
      assert forall n :: n in init ==> n in nodes;
      at := UpsertsMean(previous, init, current);
      UpsertsMore(previous, nodes, current);
      CarriesMore(previous, init, current, Upserts(previous, init, current), at, last);
      if Differs(previous, current, last.id) { at := at + [|init|]; }
    }
  }

  lemma NothingCarried(previous: map<Id, Node>, current: map<Id, Node>)
    ensures Carries(previous, [], current, Upserts(previous, [], current), [])
  {
  }

  lemma UpsertsMore(previous: map<Id, Node>, nodes: seq<Node>, current: map<Id, Node>)
    requires nodes != [] && forall n :: n in nodes ==> n.id in current
    ensures forall n :: n in nodes[..|nodes| - 1] ==> n.id in current
    ensures nodes[|nodes| - 1].id in current
    ensures var before, id := Upserts(previous, nodes[..|nodes| - 1], current), nodes[|nodes| - 1].id;
      Upserts(previous, nodes, current) == if Differs(previous, current, id) then before + [UpsertNode(current[id])] else before
  {
    assert nodes[|nodes| - 1] in nodes;
  }

  lemma CarriesMore(previous: map<Id, Node>, nodes: seq<Node>, current: map<Id, Node>, ops: seq<Operation>, at: seq<nat>, last: Node)
    requires Carries(previous, nodes, current, ops, at) && last.id in current
    ensures if Differs(previous, current, last.id)
      then Carries(previous, nodes + [last], current, ops + [UpsertNode(current[last.id])], at + [|nodes|])
      else Carries(previous, nodes + [last], current, ops, at)
  {
    hide Differs;
    var more := nodes + [last];
    forall x | 0 <= x < |at| ensures at[x] < |nodes| && more[at[x]] == nodes[at[x]] { assert at[x] in at; }
    forall i: nat ensures i in at <==> i < |nodes| && Differs(previous, current, more[i].id) {
      assert i in at <==> i < |nodes| && Differs(previous, current, nodes[i].id);
      assert i < |nodes| ==> more[i] == nodes[i];
    }
  }

  /** A patch is its deletions, in the order the old ids first occur, and then its upserts. */
  lemma OperationsMean(previous: seq<Node>, current: seq<Node>) returns (gone: seq<Id>, upserts: seq<Operation>, at: seq<nat>)
    ensures Operations(previous, current) == Names(gone) + upserts
    ensures Carries(ById(previous), current, ById(current), upserts, at)
    ensures gone == Filter(KeyOrder(previous), (id: Id) => id !in ById(current)) && FirstSeen(NodeIds(previous), (id: Id) => true, KeyOrder(previous))
  {
    hide ById, KeyOrder, FirstSeen, Filter, Carries;
    ByIdKeys(current);
    KeyOrderMeans(previous);
    DeletionsMean(KeyOrder(previous), ById(current));
    gone := Filter(KeyOrder(previous), (id: Id) => id !in ById(current));
    upserts := Upserts(ById(previous), current, ById(current));
    at := UpsertsMean(ById(previous), current, ById(current));
  }
}
