/** `_resolve_canvas_depends_on`: which dependencies a canvas node ends up with. */
module CanvasDependencies {
  import opened Wrappers
  import opened Ids
  import opened Sequences
  import Text

  /** `declared` holds `depends_on` when the client sent that field at all. */
  datatype CanvasNode = CanvasNode(id: Id, declared: Option<seq<string>>)
  datatype CanvasEdge = CanvasEdge(source: Id, target: Id)

  function KnownIds(nodes: seq<CanvasNode>): set<Id> {
    set i | 0 <= i < |nodes| :: nodes[i].id
  }

  /** What `_normalize_depends_on_values` keeps of a list: trimmed, known, not the node itself, first occurrences. */
  ghost function Kept(raw: seq<string>, node: Id, known: set<Id>): seq<Id> {
    if raw == [] then []
    else
      var init := Kept(raw[..|raw| - 1], node, known);
      var d := Id(Text.Strip(raw[|raw| - 1]));
      if d.text == "" || d == node || d !in known || d in init then init else init + [d]
  }

  /** The sources of the edges into `target`, first occurrences only. */
  ghost function Sources(edges: seq<CanvasEdge>, target: Id, known: set<Id>): seq<Id> {
    if edges == [] then []
    else
      var init := Sources(edges[..|edges| - 1], target, known);
      var e := edges[|edges| - 1];
      if e.target == target && e.source in known && e.target in known && e.source != e.target && e.source !in init
      then init + [e.source] else init
  }

  function TextsOf(ids: seq<Id>): seq<string> {
    seq(|ids|, i requires 0 <= i < |ids| => ids[i].text)
  }

  ghost function Resolved(node: CanvasNode, edges: seq<CanvasEdge>, known: set<Id>): seq<Id> {
    Kept(match node.declared case Some(raw) => raw case None => TextsOf(Sources(edges, node.id, known)), node.id, known)
  }

  method NormalizeDependsOnValues(raw: seq<string>, node: Id, known: set<Id>) returns (normalized: seq<Id>)
    ensures normalized == Kept(raw, node, known)
  {
    normalized := [];
    var seen: set<Id> := {};
    for i := 0 to |raw|
      invariant normalized == Kept(raw[..i], node, known)
      invariant forall d :: d in seen <==> d in normalized
    {
      assert raw[..i + 1][..i] == raw[..i];
      var dependency := Id(Text.Strip(raw[i]));
      if dependency.text == "" || dependency == node || dependency !in known || dependency in seen {
        continue;
      }
      seen := seen + {dependency};
      normalized := normalized + [dependency];
    }
    assert raw[..|raw|] == raw;
  }

  method EdgeDependencies(nodes: seq<CanvasNode>, edges: seq<CanvasEdge>) returns (deps: map<Id, seq<Id>>)
    ensures deps.Keys == KnownIds(nodes)
    ensures forall v :: v in deps ==> deps[v] == Sources(edges, v, KnownIds(nodes))
  {
    var known := KnownIds(nodes);
    deps := map v | v in known :: [];
    for i := 0 to |edges|
      invariant deps.Keys == known
      invariant forall v :: v in deps ==> deps[v] == Sources(edges[..i], v, known)
    {
      assert edges[..i + 1][..i] == edges[..i];
      var edge := edges[i];
      if edge.source !in known || edge.target !in known {
        continue;
      }
      if edge.source == edge.target {
        continue;
      }
      if edge.source !in deps[edge.target] {
        deps := deps[edge.target := deps[edge.target] + [edge.source]];
      }
    }
    assert edges[..|edges|] == edges;
  }

  /** The whole table; of two nodes with one id the later wins. */
  ghost function ResolvedTable(nodes: seq<CanvasNode>, edges: seq<CanvasEdge>, known: set<Id>): map<Id, seq<Id>> {
    if nodes == [] then map[]
    else
      var last := nodes[|nodes| - 1];
      ResolvedTable(nodes[..|nodes| - 1], edges, known)[last.id := Resolved(last, edges, known)]
  }

  method ResolveCanvasDependsOn(nodes: seq<CanvasNode>, edges: seq<CanvasEdge>) returns (r: map<Id, seq<Id>>)
    ensures r == ResolvedTable(nodes, edges, KnownIds(nodes))
  {
    hide Kept, Sources, KnownIds;
    var known := KnownIds(nodes);
    var edgeDeps := EdgeDependencies(nodes, edges);
    r := map[];
    for i := 0 to |nodes|
      invariant r == ResolvedTable(nodes[..i], edges, known)
    {
      assert nodes[..i + 1][..i] == nodes[..i];
      var node := nodes[i];
      IdIsKnown(nodes, i);
      var raw := match node.declared case Some(raw) => raw case None => TextsOf(edgeDeps[node.id]);
      var normalized := NormalizeDependsOnValues(raw, node.id, known);
      r := r[node.id := normalized];
    }
    assert nodes[..|nodes|] == nodes;
  }

  lemma IdIsKnown(nodes: seq<CanvasNode>, i: nat)
    requires i < |nodes|
    ensures nodes[i].id in KnownIds(nodes)
  {
  }

  // ----- What the result is worth -----

  lemma {:induction false} KeptMembers(raw: seq<string>, node: Id, known: set<Id>)
    ensures Distinct(Kept(raw, node, known))
    ensures forall d :: d in Kept(raw, node, known) <==>
      d.text != "" && d != node && d in known && exists i :: 0 <= i < |raw| && Text.Strip(raw[i]) == d.text
    ensures forall d :: d in Kept(raw, node, known) ==> Text.Trimmed(d.text)
  {
    hide Text.Strip, Text.Trimmed;
    if raw != [] {
      var init, last := raw[..|raw| - 1], raw[|raw| - 1];
      KeptMembers(init, node, known);
      var x := Id(Text.Strip(last));
      Text.StripTrims(last);
      DistinctAppend(Kept(init, node, known), x);
      assert forall i :: 0 <= i < |init| ==> raw[i] == init[i];
    }
  }

  /** The dependencies are distinct, known, trimmed and never the node itself; nothing else is lost. */
  lemma ResolvedDependencies(node: CanvasNode, edges: seq<CanvasEdge>, known: set<Id>, d: Id)
    ensures Distinct(Resolved(node, edges, known))
    ensures d in Resolved(node, edges, known) ==> d in known && d != node.id && Text.Trimmed(d.text)
    ensures node.declared.Some? && d in known && d != node.id && d.text != "" ==>
      (d in Resolved(node, edges, known) <==> exists i :: 0 <= i < |node.declared.value| && Text.Strip(node.declared.value[i]) == d.text)
  {
    KeptMembers(match node.declared case Some(raw) => raw case None => TextsOf(Sources(edges, node.id, known)), node.id, known);
  }

  lemma {:induction false} KeptOfKept(ids: seq<Id>, node: Id, known: set<Id>)
    requires Distinct(ids)
    requires forall i :: 0 <= i < |ids| ==> ids[i] in known && ids[i] != node && ids[i].text != "" && Text.Trimmed(ids[i].text)
    ensures Kept(TextsOf(ids), node, known) == ids
  {
    if ids != [] {
      var init, last := ids[..|ids| - 1], ids[|ids| - 1];
      assert TextsOf(ids)[..|ids| - 1] == TextsOf(init);
      KeptOfKept(init, node, known);
      Text.StripTrimmed(last.text);
      assert ids == init + [last];
    }
  }

  /** Normalising the nodes first and resolving again, as `_to_flow_drafts_from_canvas` does, changes nothing. */
  lemma ResolvingAgainChangesNothing(node: CanvasNode, edges: seq<CanvasEdge>, known: set<Id>)
    ensures var once := Resolved(node, edges, known);
      Resolved(node.(declared := Some(TextsOf(once))), edges, known) == once
  {
    var once := Resolved(node, edges, known);
    KeptMembers(match node.declared case Some(raw) => raw case None => TextsOf(Sources(edges, node.id, known)), node.id, known);
    forall i | 0 <= i < |once| ensures once[i] in known && once[i] != node.id && once[i].text != "" && Text.Trimmed(once[i].text) {
      assert once[i] in once;
    }
    KeptOfKept(once, node.id, known);
  }

  lemma {:induction false} SourcesMembers(edges: seq<CanvasEdge>, target: Id, known: set<Id>)
    ensures Distinct(Sources(edges, target, known))
    ensures forall d :: d in Sources(edges, target, known) <==>
      d in known && target in known && d != target && CanvasEdge(d, target) in edges
  {
    if edges != [] {
      var init, e := edges[..|edges| - 1], edges[|edges| - 1];
      SourcesMembers(init, target, known);
      assert edges == init + [e];
      DistinctAppend(Sources(init, target, known), e.source);
    }
  }

  /** `s` is a known node with an edge to `target`, and reads as `d` without outer blanks. */
  ghost predicate SourceOf(edges: seq<CanvasEdge>, known: set<Id>, target: Id, d: Id, s: Id) {
    s in known && s != target && CanvasEdge(s, target) in edges && Text.Strip(s.text) == d.text
  }

  /** Without a declared list, a node depends on exactly the known ids that the sources of its edges read as. */
  lemma UndeclaredFollowsEdges(node: CanvasNode, edges: seq<CanvasEdge>, known: set<Id>, d: Id)
    requires node.declared.None? && node.id in known
    ensures d in Resolved(node, edges, known) <==>
      d.text != "" && d in known && d != node.id && exists s :: SourceOf(edges, known, node.id, d, s)
  {
    hide Text.Strip, Text.Trimmed;
    var sources := Sources(edges, node.id, known);
    SourcesMembers(edges, node.id, known);
    KeptMembers(TextsOf(sources), node.id, known);
    if i :| 0 <= i < |sources| && Text.Strip(TextsOf(sources)[i]) == d.text {
      assert sources[i] in sources && SourceOf(edges, known, node.id, d, sources[i]);
    }
    if s :| SourceOf(edges, known, node.id, d, s) {
      assert s in sources;
      var i :| 0 <= i < |sources| && sources[i] == s;
      assert Text.Strip(TextsOf(sources)[i]) == d.text;
    }
  }

  /** With distinct ids every node gets its own entry, and there are no others. */
  lemma {:induction false} TableEntries(nodes: seq<CanvasNode>, edges: seq<CanvasEdge>, known: set<Id>)
    requires forall i, j :: 0 <= i < j < |nodes| ==> nodes[i].id != nodes[j].id
    ensures ResolvedTable(nodes, edges, known).Keys == KnownIds(nodes)
    ensures forall i :: 0 <= i < |nodes| ==> ResolvedTable(nodes, edges, known)[nodes[i].id] == Resolved(nodes[i], edges, known)
  {
    hide Kept, Sources, Resolved;
    if nodes != [] {
      var init, last := nodes[..|nodes| - 1], nodes[|nodes| - 1];
      TableEntries(init, edges, known);
      assert KnownIds(nodes) == KnownIds(init) + {last.id} by {
        assert nodes == init + [last];
        forall d ensures d in KnownIds(nodes) <==> d in KnownIds(init) + {last.id} {
          if i :| 0 <= i < |nodes| && nodes[i].id == d { if i < |init| { assert init[i].id == d; } }
          if i :| 0 <= i < |init| && init[i].id == d { assert nodes[i].id == d; }
        }
      }
    }
  }

  // ----- In which order -----

  function Stripped(raw: seq<string>): seq<Id> {
    seq(|raw|, i requires 0 <= i < |raw| => Id(Text.Strip(raw[i])))
  }

  /** A list is read in the order its entries first occur. */
  lemma {:induction false} KeptMeans(raw: seq<string>, node: Id, known: set<Id>)
    ensures FirstSeen(Stripped(raw), (d: Id) => d.text != "" && d != node && d in known, Kept(raw, node, known))
  {
    hide FirstSeen, Text.Strip;
    var keep := (d: Id) => d.text != "" && d != node && d in known;
    if raw == [] {
      NothingSeen(keep);
      assert Stripped(raw) == [];
    } else {
      var init, last := raw[..|raw| - 1], Id(Text.Strip(raw[|raw| - 1]));
      KeptMeans(init, node, known);
      FirstSeenMore(Stripped(init), keep, Kept(init, node, known), last);
      assert Stripped(raw) == Stripped(init) + [last];
    }
  }

  function Into(sources: seq<Id>, target: Id): seq<CanvasEdge> {
    seq(|sources|, i requires 0 <= i < |sources| => CanvasEdge(sources[i], target))
  }

  /** The sources of a node come in the order of its first edges from them. */
  lemma {:induction false} SourcesMean(edges: seq<CanvasEdge>, target: Id, known: set<Id>)
    ensures FirstSeen(edges, (e: CanvasEdge) => e.target == target && e.source in known && target in known && e.source != target,
      Into(Sources(edges, target, known), target))
  {
    hide FirstSeen;
    var keep := (e: CanvasEdge) => e.target == target && e.source in known && target in known && e.source != target;
    if edges == [] {
      NothingSeen(keep);
      assert Into([], target) == [];
    } else {
      var init, last := edges[..|edges| - 1], edges[|edges| - 1];
      SourcesMean(init, target, known);
      var before := Sources(init, target, known);
      FirstSeenMore(init, keep, Into(before, target), last);
      IntoMembers(before, target, last.source);
      assert Into(before + [last.source], target) == Into(before, target) + [CanvasEdge(last.source, target)];
      assert edges == init + [last];
    }
  }

  lemma IntoMembers(sources: seq<Id>, target: Id, d: Id)
    ensures CanvasEdge(d, target) in Into(sources, target) <==> d in sources
  {
    if d in sources {
      var i :| 0 <= i < |sources| && sources[i] == d;
      assert Into(sources, target)[i] == CanvasEdge(d, target);
    }
    if CanvasEdge(d, target) in Into(sources, target) {
      var i :| 0 <= i < |sources| && Into(sources, target)[i] == CanvasEdge(d, target);
    }
  }

  /** Of two nodes with one id the later one's entry counts. */
  lemma {:induction false} LastNodeCounts(nodes: seq<CanvasNode>, edges: seq<CanvasEdge>, known: set<Id>, i: nat)
    requires i < |nodes| && forall j :: i < j < |nodes| ==> nodes[j].id != nodes[i].id
    ensures nodes[i].id in ResolvedTable(nodes, edges, known)
    ensures ResolvedTable(nodes, edges, known)[nodes[i].id] == Resolved(nodes[i], edges, known)
  {
    hide Resolved;
    var init := nodes[..|nodes| - 1];
    if i < |init| {
      assert init[i] == nodes[i] && nodes[|nodes| - 1].id != nodes[i].id;
      LastNodeCounts(init, edges, known, i);
    }
  }
}
