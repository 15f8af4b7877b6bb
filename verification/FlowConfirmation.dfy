/** `confirm_flow`: turn a confirmed plan into queued task rows, layer by layer. */
module FlowConfirmation {
  import opened Wrappers
  import opened Ids
  import opened Sequences
  import opened Graph
  import opened FlowCanvas
  import opened Countdown
  import opened ReleaseOrder
  import opened Tasks
  import opened TaskSteps
  import opened TaskBoards

  datatype ConfirmError = EmptyFlow | CyclicFlow

  function DraftIds(drafts: seq<Draft>): seq<Id> {
    seq(|drafts|, i requires 0 <= i < |drafts| => drafts[i].id)
  }

  /** `{node.id: node.depends_on for node in drafts}`. */
  function DependsOnByNode(drafts: seq<Draft>): map<Id, seq<Id>> {
    if drafts == [] then map[]
    else DependsOnByNode(drafts[..|drafts| - 1])[drafts[|drafts| - 1].id := drafts[|drafts| - 1].dependsOn]
  }

  /** `{node.id: node for node in drafts}`. */
  function NodeById(drafts: seq<Draft>): map<Id, Draft> {
    if drafts == [] then map[]
    else NodeById(drafts[..|drafts| - 1])[drafts[|drafts| - 1].id := drafts[|drafts| - 1]]
  }

  ghost function FlowGraph(drafts: seq<Draft>): Deps {
    Effective(DraftIds(drafts), DependsOnByNode(drafts))
  }

  lemma {:induction false} DraftTables(drafts: seq<Draft>)
    ensures NodeById(drafts).Keys == DependsOnByNode(drafts).Keys == Elements(DraftIds(drafts))
    ensures forall v :: v in NodeById(drafts) ==>
      NodeById(drafts)[v].id == v && NodeById(drafts)[v] in drafts && DependsOnByNode(drafts)[v] == NodeById(drafts)[v].dependsOn
  {
    if drafts != [] {
      var init, last := drafts[..|drafts| - 1], drafts[|drafts| - 1];
      DraftTables(init);
      assert DraftIds(drafts) == DraftIds(init) + [last.id];
      assert drafts == init + [last];
    }
  }

  /** Of several drafts of one id the last counts. */
  lemma {:induction false} LastDraftCounts(drafts: seq<Draft>, i: nat)
    requires i < |drafts| && forall j :: i < j < |drafts| ==> drafts[j].id != drafts[i].id
    ensures drafts[i].id in NodeById(drafts) && NodeById(drafts)[drafts[i].id] == drafts[i]
    ensures drafts[i].id in DependsOnByNode(drafts) && DependsOnByNode(drafts)[drafts[i].id] == drafts[i].dependsOn
  {
    var init := drafts[..|drafts| - 1];
    if i < |init| {
      assert drafts[i] == init[i] && drafts[|drafts| - 1].id != drafts[i].id;
      LastDraftCounts(init, i);
    }
  }

  /** One created row: which node, and its one-based layer. */
  datatype Placed = Placed(node: Id, layer: nat)

  function Nodes(placed: seq<Placed>): seq<Id> {
    seq(|placed|, i requires 0 <= i < |placed| => placed[i].node)
  }

  datatype Request = Request(flow: Id, inst: Instance, drafts: seq<Draft>, taskIds: seq<TaskId>, stamps: seq<int>)

  /** Rows are inserted in creation order, the i-th with the i-th fresh id and clock reading. */
  ghost function WithTasks(rows: Rows, q: Request, placed: seq<Placed>): Rows
    requires |placed| <= |q.taskIds| && |placed| <= |q.stamps|
    requires forall p :: p in placed ==> p.node in NodeById(q.drafts)
  {
    if placed == [] then rows
    else
      var i := |placed| - 1;
      WithTasks(rows, q, placed[..i])[q.taskIds[i] :=
        FlowTask(q.stamps[i], q.inst, q.flow, NodeById(q.drafts)[placed[i].node], placed[i].layer)]
  }

  /** Every node is placed exactly once, in the layer its longest dependency chain asks for. */
  ghost predicate PlacesAll(drafts: seq<Draft>, placed: seq<Placed>) {
    && Distinct(Nodes(placed))
    && Elements(Nodes(placed)) == Elements(DraftIds(drafts))
    && forall p :: p in placed ==> LongestChain(FlowGraph(drafts), p.node, p.layer)
  }

  /** The outcome of a successful confirmation. */
  ghost predicate Confirmed(rows0: Rows, rows: Rows, q: Request, placed: seq<Placed>) {
    && |placed| == |q.drafts| <= |q.taskIds| && |placed| <= |q.stamps|
    && PlacesAll(q.drafts, placed)
    && (forall p :: p in placed ==> p.node in NodeById(q.drafts))
    && rows == WithTasks(RequirementDeleted(rows0, q.flow), q, placed)
  }

  ghost predicate Enough(q: Request) {
    |q.taskIds| == |q.stamps| == |q.drafts|
  }

  /** The rows of a confirmation that went through, whatever is repeated: one per draft, in place of the requirement's old ones. */
  ghost predicate Inserted(rows0: Rows, rows: Rows, q: Request, placed: seq<Placed>) {
    && |placed| == |q.drafts| <= |q.taskIds| && |placed| <= |q.stamps|
    && multiset(Nodes(placed)) == multiset(DraftIds(q.drafts))
    && (forall p :: p in placed ==> p.node in NodeById(q.drafts))
    && rows == WithTasks(RequirementDeleted(rows0, q.flow), q, placed)
  }

  /** A repeated node is reported as a cycle, unless it has no dependencies; then the layers promise nothing. */
  method ConfirmFlow(board: TaskBoard, q: Request) returns (r: Result<seq<TaskId>, ConfirmError>, ghost placed: seq<Placed>)
    requires Enough(q)
    modifies board
    ensures r.Err? ==> board.rows == old(board.rows)
    ensures r == Err(EmptyFlow) <==> q.drafts == []
    ensures r.Ok? ==> r.value == q.taskIds && Inserted(old(board.rows), board.rows, q, placed)
    ensures r.Ok? ==> forall i, j :: 0 <= i < j < |placed| ==> placed[i].layer <= placed[j].layer
    ensures r.Ok? && Distinct(DraftIds(q.drafts)) ==> Fifo(DraftIds(q.drafts), FlowGraph(q.drafts), Nodes(placed))
    ensures q.drafts != [] ==> exists s ::
      Released(DraftIds(q.drafts), Entered(DraftIds(q.drafts), FlowGraph(q.drafts), |q.drafts|), s)
      && (r == Err(CyclicFlow) <==> |s| != |q.drafts|)
    ensures RootsOnce(DraftIds(q.drafts), FlowGraph(q.drafts)) ==>
      && (r == Err(CyclicFlow) <==> q.drafts != [] && (HasCycle(FlowGraph(q.drafts)) || !Distinct(DraftIds(q.drafts))))
      && (r.Ok? ==> Confirmed(old(board.rows), board.rows, q, placed))
  {
    hide HasCycle, PlacesAll, IsLayering, Distinct, EndsWithUnresolved, RootsOnce, Flatten, NodeById, WithTasks, PlacedBy, FlowGraph, Released, Entered, Fifo;
    placed := [];
    if q.drafts == [] {
      return Err(EmptyFlow), placed;
    }
    ghost var ok := RootsOnce(DraftIds(q.drafts), FlowGraph(q.drafts));
    var layers := ResolveLayers(DraftIds(q.drafts), DependsOnByNode(q.drafts), Raise);
    GraphOf(q.drafts);
    if layers.None? {
      return Err(CyclicFlow), placed;
    }
    LayeredSize(q.drafts, layers.value);
    var replaced := board.DeleteRequirement(q.flow);
    var created := CreateTasks(board, q, layers.value);
    placed := PlacedBy(layers.value);
    PlacedByNodes(layers.value);
    PlacedRises(layers.value);
    if Distinct(DraftIds(q.drafts)) { DistinctRootsOnce(DraftIds(q.drafts), FlowGraph(q.drafts)); }
    if ok { PlacedLayers(q.drafts, layers.value); }
    assert q.taskIds[..|placed|] == q.taskIds;
    return Ok(created), placed;
  }

  lemma GraphOf(drafts: seq<Draft>)
    ensures FlowGraph(drafts) == Effective(DraftIds(drafts), DependsOnByNode(drafts))
  {
  }

  ghost function LayerPlaced(layer: seq<Id>, number: nat): seq<Placed> {
    seq(|layer|, s requires 0 <= s < |layer| => Placed(layer[s], number))
  }

  ghost function PlacedBy(layers: seq<seq<Id>>): seq<Placed> {
    if layers == [] then []
    else PlacedBy(layers[..|layers| - 1]) + LayerPlaced(layers[|layers| - 1], |layers|)
  }

  lemma {:induction false} FlattenInit<T>(ss: seq<seq<T>>)
    ensures ss != [] ==> Flatten(ss) == Flatten(ss[..|ss| - 1]) + ss[|ss| - 1]
  {
    if ss != [] {
      FlattenAppend(ss[..|ss| - 1], ss[|ss| - 1]);
      assert ss == ss[..|ss| - 1] + [ss[|ss| - 1]];
    }
  }

  lemma {:induction false} PlacedByNodes(layers: seq<seq<Id>>)
    ensures Nodes(PlacedBy(layers)) == Flatten(layers)
    ensures forall p :: p in PlacedBy(layers) ==> 1 <= p.layer <= |layers| && p.node in layers[p.layer - 1]
  {
    if layers != [] {
      var init, last := layers[..|layers| - 1], layers[|layers| - 1];
      PlacedByNodes(init);
      FlattenInit(layers);
      assert Nodes(PlacedBy(layers)) == Nodes(PlacedBy(init)) + last;
      forall p | p in PlacedBy(layers) ensures 1 <= p.layer <= |layers| && p.node in layers[p.layer - 1] {
        if p in PlacedBy(init) {
          assert layers[p.layer - 1] == init[p.layer - 1];
        }
      }
    }
  }

  /** Rows are created layer by layer. */
  lemma {:induction false} PlacedRises(layers: seq<seq<Id>>)
    ensures forall i, j :: 0 <= i < j < |PlacedBy(layers)| ==> PlacedBy(layers)[i].layer <= PlacedBy(layers)[j].layer
  {
    if layers != [] {
      var init := layers[..|layers| - 1];
      PlacedRises(init);
      PlacedByNodes(init);
      assert forall i :: 0 <= i < |PlacedBy(init)| ==> PlacedBy(init)[i] in PlacedBy(init);
    }
  }

  lemma LayeredSize(drafts: seq<Draft>, layers: seq<seq<Id>>)
    requires multiset(Flatten(layers)) == multiset(DraftIds(drafts))
    ensures |PlacedBy(layers)| == |drafts|
    ensures forall p :: p in PlacedBy(layers) ==> p.node in NodeById(drafts)
  {
    PlacedByNodes(layers);
    SameBag(Flatten(layers), DraftIds(drafts));
    DraftTables(drafts);
    forall p | p in PlacedBy(layers) ensures p.node in NodeById(drafts) {
      FlattenMembers(layers, p.node);
      assert p.node in Elements(Flatten(layers));
    }
  }

  lemma PlacedLayers(drafts: seq<Draft>, layers: seq<seq<Id>>)
    requires IsLayering(FlowGraph(drafts), layers, Elements(DraftIds(drafts)))
    ensures PlacesAll(drafts, PlacedBy(layers))
  {
    PlacedByNodes(layers);
  }

  lemma {:induction false} PlacedPrefix(layers: seq<seq<Id>>, k: nat)
    requires k <= |layers|
    ensures |PlacedBy(layers[..k])| <= |PlacedBy(layers)|
    ensures PlacedBy(layers[..k]) == PlacedBy(layers)[..|PlacedBy(layers[..k])|]
  {
    if k < |layers| {
      var init := layers[..|layers| - 1];
      PlacedPrefix(init, k);
      assert init[..k] == layers[..k];
    } else {
      assert layers[..k] == layers;
    }
  }

  /** The nested creation loop. */
  method CreateTasks(board: TaskBoard, q: Request, layers: seq<seq<Id>>) returns (created: seq<TaskId>)
    requires |PlacedBy(layers)| <= |q.taskIds| && |PlacedBy(layers)| <= |q.stamps|
    requires forall p :: p in PlacedBy(layers) ==> p.node in NodeById(q.drafts)
    modifies board
    ensures board.rows == WithTasks(old(board.rows), q, PlacedBy(layers))
    ensures created == q.taskIds[..|PlacedBy(layers)|]
  {
    hide FlowTask, PlacedBy, LayerPlaced, WithTasks, NodeById;
    var nodeById := NodeById(q.drafts);
    created := [];
    ghost var placed: seq<Placed> := [];
    NonePlaced(layers);
    NoTasksYet(board.rows, q);
    for k := 0 to |layers|
      invariant placed == PlacedBy(layers[..k]) && placed <= PlacedBy(layers)
      invariant board.rows == WithTasks(old(board.rows), q, placed)
      invariant created == q.taskIds[..|placed|]
    {
      ghost var before := placed;
      PlacedOneMore(layers, k);
      for s := 0 to |layers[k]|
        invariant placed == before + LayerPlaced(layers[k], k + 1)[..s]
        invariant |LayerPlaced(layers[k], k + 1)| == |layers[k]| && placed <= PlacedBy(layers)
        invariant board.rows == WithTasks(old(board.rows), q, placed)
        invariant created == q.taskIds[..|placed|]
      {
        var i := |created|;
        LayerSlot(layers, k, s, before);
        ghost var next := placed + [Placed(layers[k][s], k + 1)];
        PlaceTask(old(board.rows), q, PlacedBy(layers), placed, Placed(layers[k][s], k + 1));
        var node := nodeById[layers[k][s]];
        board.rows := board.rows[q.taskIds[i] := FlowTask(q.stamps[i], q.inst, q.flow, node, k + 1)];
        created := created + [q.taskIds[i]];
        placed := next;
      }
      assert LayerPlaced(layers[k], k + 1)[..|layers[k]|] == LayerPlaced(layers[k], k + 1);
    }
    assert layers[..|layers|] == layers;
  }

  lemma NoTasksYet(rows: Rows, q: Request)
    ensures WithTasks(rows, q, []) == rows
  {
  }

  lemma PlaceTask(rows: Rows, q: Request, all: seq<Placed>, placed: seq<Placed>, p: Placed)
    requires |all| <= |q.taskIds| && |all| <= |q.stamps| && forall x :: x in all ==> x.node in NodeById(q.drafts)
    requires placed + [p] <= all
    ensures p.node in NodeById(q.drafts) && forall x :: x in placed ==> x.node in NodeById(q.drafts)
    ensures forall x :: x in placed + [p] ==> x.node in NodeById(q.drafts)
    ensures WithTasks(rows, q, placed + [p]) ==
      WithTasks(rows, q, placed)[q.taskIds[|placed|] :=
        FlowTask(q.stamps[|placed|], q.inst, q.flow, NodeById(q.drafts)[p.node], p.layer)]
  {
    var next := placed + [p];
    forall x | x in next ensures x in all {
      var i :| 0 <= i < |next| && next[i] == x;
      assert all[i] == x;
    }
    assert p in next;
    assert next[..|placed|] == placed;
    assert forall x :: x in placed ==> x in next;
  }

  lemma NonePlaced(layers: seq<seq<Id>>)
    ensures PlacedBy(layers[..0]) == []
  {
  }

  lemma PlacedOneMore(layers: seq<seq<Id>>, k: nat)
    requires k < |layers|
    ensures PlacedBy(layers[..k + 1]) == PlacedBy(layers[..k]) + LayerPlaced(layers[k], k + 1)
    ensures PlacedBy(layers[..k + 1]) <= PlacedBy(layers)
    ensures |LayerPlaced(layers[k], k + 1)| == |layers[k]|
  {
    assert layers[..k + 1][..k] == layers[..k];
    PlacedPrefix(layers, k + 1);
  }

  lemma LayerSlot(layers: seq<seq<Id>>, k: nat, s: nat, before: seq<Placed>)
    requires k < |layers| && s < |layers[k]| && before == PlacedBy(layers[..k])
    ensures |LayerPlaced(layers[k], k + 1)| == |layers[k]|
    ensures (before + LayerPlaced(layers[k], k + 1)[..s]) + [Placed(layers[k][s], k + 1)] == before + LayerPlaced(layers[k], k + 1)[..s + 1]
    ensures before + LayerPlaced(layers[k], k + 1)[..s + 1] <= PlacedBy(layers)
  {
    PlacedOneMore(layers, k);
  }
}
