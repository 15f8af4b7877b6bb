/** Planner nodes as the session service stores them. */
module PlannerNodes {
  import opened Ids
  import opened Sequences
  import opened Graph

  datatype Node = Node(id: Id, title: string, description: string, dependsOn: seq<Id>, sensitive: bool)

  function NodeIds(nodes: seq<Node>): seq<Id> {
    seq(|nodes|, i requires 0 <= i < |nodes| => nodes[i].id)
  }

  /** The dependency lists by id; a repeated id keeps its last list. */
  function ListedDeps(nodes: seq<Node>): Deps {
    if nodes == [] then map[]
    else ListedDeps(nodes[..|nodes| - 1])[nodes[|nodes| - 1].id := nodes[|nodes| - 1].dependsOn]
  }

  lemma {:induction false} ListedKeys(nodes: seq<Node>)
    ensures ListedDeps(nodes).Keys == Elements(NodeIds(nodes))
  {
    if nodes != [] {
      var init := nodes[..|nodes| - 1];
      ListedKeys(init);
      assert NodeIds(nodes) == NodeIds(init) + [nodes[|nodes| - 1].id];
    }
  }

  lemma {:induction false} ListedAt(nodes: seq<Node>, i: nat)
    requires i < |nodes| && Distinct(NodeIds(nodes))
    ensures nodes[i].id in ListedDeps(nodes) && ListedDeps(nodes)[nodes[i].id] == nodes[i].dependsOn
  {
    var init, last := nodes[..|nodes| - 1], nodes[|nodes| - 1];
    assert NodeIds(nodes) == NodeIds(init) + [last.id];
    DistinctAppend(NodeIds(init), last.id);
    if i < |init| {
      ListedAt(init, i);
      assert nodes[i].id == NodeIds(init)[i];
    }
  }
}
