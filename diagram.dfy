/**
 * The graph the diagram lays out (src/SankeyDiagram.tsx): building it from validated data, the
 * saved-position override, recorded positions, and the overlay ("fake") links that draw
 * highlighted flow.
 */
module Diagram {
  import opened Common
  import opened Seqs
  import Types
  import Data

  /**
   * A node of the laid-out graph. The layout gives it a vertical extent `y0`..`y1`; before the
   * layout both are undefined.
   */
  datatype SankeyNode = SankeyNode(id: string, caption: string, y0: Option<real>, y1: Option<real>)

  /**
   * A link of the laid-out graph: the validated link, the positions of its endpoint nodes in the
   * node list (`source`, `target`), and the band the layout gives it (`width`, `y0`, `y1`).
   */
  datatype SankeyLink = SankeyLink(sourceId: string, targetId: string, value: real, color: string,
                                   source: nat, target: nat,
                                   width: Option<real>, y0: Option<real>, y1: Option<real>)

  datatype GraphData = GraphData(nodes: seq<SankeyNode>, links: seq<SankeyLink>)

  /** Why building the graph throws: validation failed, or a link names an id with no node. */
  datatype GraphError = InvalidData(error: Types.DataError) | UnknownNode(id: string)

  // ---------------------------------------------------------------------------
  // createGraph.

  /** The nodes of the graph, before layout. */
  function SankeyNodes(nodes: seq<Types.Node>): (r: seq<SankeyNode>)
    ensures |r| == |nodes|
    ensures forall i :: 0 <= i < |nodes| ==> r[i] == SankeyNode(nodes[i].id, nodes[i].caption, None, None)
  {
    seq(|nodes|, i requires 0 <= i < |nodes| => SankeyNode(nodes[i].id, nodes[i].caption, None, None))
  }

  /** The id-to-node map: every node is set under its id, a later node replacing an earlier one. */
  function IdMap(nodes: seq<Types.Node>): map<string, nat> {
    if nodes == [] then map[]
    else IdMap(nodes[..|nodes| - 1])[nodes[|nodes| - 1].id := |nodes| - 1]
  }

  /** The map is the inverse of the node list: each key maps to a node with that id, and every node's id is a key. */
  lemma {:induction false} IdMapFacts(nodes: seq<Types.Node>)
    ensures forall id :: id in IdMap(nodes) ==> IdMap(nodes)[id] < |nodes| && nodes[IdMap(nodes)[id]].id == id
    ensures forall i :: 0 <= i < |nodes| ==> nodes[i].id in IdMap(nodes)
  {
    if nodes != [] {
      var init := nodes[..|nodes| - 1];
      IdMapFacts(init);
      assert forall i :: 0 <= i < |init| ==> init[i] == nodes[i];
    }
  }

  /** `lookupNode`: the node of an id, or the error it throws. */
  function LookupNode(m: map<string, nat>, id: string): Result<nat, GraphError> {
    if id in m then Success(m[id]) else Failure(UnknownNode(id))
  }

  /** The link of the graph for a validated link whose endpoints are found at `source` and `target`. */
  function ResolvedLink(l: Types.Link, source: nat, target: nat): SankeyLink {
    SankeyLink(l.sourceId, l.targetId, l.value, l.color, source, target, None, None, None)
  }

  /** The links of the graph, or the error of the first lookup that misses (a link's source before its target). */
  function ResolveLinks(links: seq<Types.Link>, m: map<string, nat>): Result<seq<SankeyLink>, GraphError> {
    if links == [] then Success([])
    else
      match ResolveLinks(links[..|links| - 1], m)
      case Failure(e) => Failure(e)
      case Success(init) =>
        var l := links[|links| - 1];
        match LookupNode(m, l.sourceId)
        case Failure(e) => Failure(e)
        case Success(s) =>
          match LookupNode(m, l.targetId)
          case Failure(e) => Failure(e)
          case Success(t) => Success(init + [ResolvedLink(l, s, t)])
  }

  /**
   * When link k is the first whose source or target has no node, resolving throws for that id:
   * its source when the source is missing, its target otherwise.
   */
  lemma ResolveLinksMiss(links: seq<Types.Link>, m: map<string, nat>, k: nat)
    requires k < |links|
    requires forall j :: 0 <= j < k ==> links[j].sourceId in m && links[j].targetId in m
    requires links[k].sourceId !in m || links[k].targetId !in m
    ensures ResolveLinks(links, m) == Failure(UnknownNode(if links[k].sourceId !in m then links[k].sourceId else links[k].targetId))
  {
    ResolveLinksFacts(links[..k], m);
    assert links[..k + 1][..k] == links[..k];
    ResolveLinksFailure(links, m, k + 1);
  }

  /** What `createGraph` returns or throws. */
  function GraphOf(sd: Types.SerializedData): Result<GraphData, GraphError> {
    match Types.FullData(sd)
    case Failure(e) => Failure(InvalidData(e))
    case Success(d) =>
      match ResolveLinks(d.links, IdMap(d.nodes))
      case Failure(e) => Failure(e)
      case Success(links) => Success(GraphData(SankeyNodes(d.nodes), links))
  }

  /** Every link whose endpoints are in the map resolves, each to the node stored under its id. */
  lemma {:induction false} ResolveLinksFacts(links: seq<Types.Link>, m: map<string, nat>)
    requires forall k :: 0 <= k < |links| ==> links[k].sourceId in m && links[k].targetId in m
    ensures ResolveLinks(links, m).Success?
    ensures |ResolveLinks(links, m).value| == |links|
    ensures forall k :: 0 <= k < |links| ==> ResolveLinks(links, m).value[k] == ResolvedLink(links[k], m[links[k].sourceId], m[links[k].targetId])
  {
    if links != [] {
      ResolveLinksFacts(links[..|links| - 1], m);
    }
  }

  /**
   * `g` is the graph of the validated data `d`: the nodes keep their order and fields, with distinct
   * ids, and each link keeps its fields and points at the nodes whose ids it names.
   */
  ghost predicate BuiltFrom(d: Types.Data, g: GraphData) {
    && |g.nodes| == |d.nodes|
    && (forall i :: 0 <= i < |d.nodes| ==> g.nodes[i] == SankeyNode(d.nodes[i].id, d.nodes[i].caption, None, None))
    && Distinct(NodeIdsOf(g.nodes))
    && |g.links| == |d.links|
    && forall k :: 0 <= k < |d.links| ==>
      && g.links[k].sourceId == d.links[k].sourceId && g.links[k].targetId == d.links[k].targetId
      && g.links[k].value == d.links[k].value && g.links[k].color == d.links[k].color
      && g.links[k].source < |g.nodes| && g.nodes[g.links[k].source].id == d.links[k].sourceId
      && g.links[k].target < |g.nodes| && g.nodes[g.links[k].target].id == d.links[k].targetId
  }

  /**
   * `createGraph` throws exactly when validation does, with its error: once the data is valid no
   * lookup misses, and the graph is built from the validated data.
   */
  lemma GraphOfFacts(sd: Types.SerializedData)
    ensures GraphOf(sd).Failure? <==> Types.FullData(sd).Failure?
    ensures GraphOf(sd).Failure? ==> GraphOf(sd).error == InvalidData(Types.FullData(sd).error)
    ensures GraphOf(sd).Success? ==> BuiltFrom(Types.FullData(sd).value, GraphOf(sd).value)
  {
    if Types.FullData(sd).Success? {
      GraphOfValid(sd);
    }
  }

  /** On validated data every lookup finds its node, so the graph is built from that data. */
  lemma GraphOfValid(sd: Types.SerializedData)
    requires Types.FullData(sd).Success?
    ensures GraphOf(sd).Success? && BuiltFrom(Types.FullData(sd).value, GraphOf(sd).value)
  {
    var d := Types.FullData(sd).value;
    EndpointsInIdMap(sd);
    ResolveLinksFacts(d.links, IdMap(d.nodes));
    ValidNodesDistinct(sd);
    var links := ResolveLinks(d.links, IdMap(d.nodes)).value;
    assert GraphOf(sd) == Success(GraphData(SankeyNodes(d.nodes), links));
    ResolvedIsBuilt(d, links);
  }

  /** Links resolved through the id-to-node map of nodes with distinct ids make the graph built from the data. */
  lemma ResolvedIsBuilt(d: Types.Data, links: seq<SankeyLink>)
    requires Distinct(NodeIdsOf(SankeyNodes(d.nodes)))
    requires forall k :: 0 <= k < |d.links| ==> d.links[k].sourceId in IdMap(d.nodes) && d.links[k].targetId in IdMap(d.nodes)
    requires |links| == |d.links|
    requires forall k :: 0 <= k < |d.links| ==>
      links[k] == ResolvedLink(d.links[k], IdMap(d.nodes)[d.links[k].sourceId], IdMap(d.nodes)[d.links[k].targetId])
    ensures BuiltFrom(d, GraphData(SankeyNodes(d.nodes), links))
  {
    IdMapFacts(d.nodes);
  }

  /** Validation leaves the node ids distinct, and the graph's nodes carry those ids. */
  lemma ValidNodesDistinct(sd: Types.SerializedData)
    requires Types.FullData(sd).Success?
    ensures Distinct(NodeIdsOf(SankeyNodes(Types.FullData(sd).value.nodes)))
  {
    Types.FullDataSuccess(sd);
    assert NodeIdsOf(SankeyNodes(Types.FullData(sd).value.nodes)) == Types.NodeIds(sd.nodes);
  }

  /** Validation guarantees that both ids of every link are in the id-to-node map. */
  lemma EndpointsInIdMap(sd: Types.SerializedData)
    requires Types.FullData(sd).Success?
    ensures forall k :: 0 <= k < |Types.FullData(sd).value.links| ==>
      Types.FullData(sd).value.links[k].sourceId in IdMap(Types.FullData(sd).value.nodes) &&
      Types.FullData(sd).value.links[k].targetId in IdMap(Types.FullData(sd).value.nodes)
  {
    var d := Types.FullData(sd).value;
    var m := IdMap(d.nodes);
    IdMapFacts(d.nodes);
    Types.FullDataSuccess(sd);
    forall k | 0 <= k < |d.links| ensures d.links[k].sourceId in m && d.links[k].targetId in m {
      assert Types.LinkEndpoints(sd.links)[2 * k] in Types.LinkEndpoints(sd.links);
      assert Types.LinkEndpoints(sd.links)[2 * k + 1] in Types.LinkEndpoints(sd.links);
      var i :| 0 <= i < |sd.nodes| && Types.NodeIds(sd.nodes)[i] == d.links[k].sourceId;
      var j :| 0 <= j < |sd.nodes| && Types.NodeIds(sd.nodes)[j] == d.links[k].targetId;
      assert d.nodes[i].id == d.links[k].sourceId && d.nodes[j].id == d.links[k].targetId;
    }
  }

  /** Setting one more node in the map: the map of the first i + 1 nodes adds node i under its id. */
  lemma IdMapSnoc(nodes: seq<Types.Node>, i: nat)
    requires i < |nodes|
    ensures IdMap(nodes[..i + 1]) == IdMap(nodes[..i])[nodes[i].id := i]
  {
    var pre1 := nodes[..i + 1];
    assert pre1[..|pre1| - 1] == nodes[..i] && pre1[|pre1| - 1] == nodes[i];
  }

  /** The loop of `data.nodes.map`: copies each node and sets it in the id-to-node map. */
  method IndexNodes(nodes: seq<Types.Node>) returns (sankeyNodes: seq<SankeyNode>, idToNode: map<string, nat>)
    ensures sankeyNodes == SankeyNodes(nodes) && idToNode == IdMap(nodes)
  {
    sankeyNodes, idToNode := [], map[];
    var i := 0;
    while i < |nodes|
      invariant 0 <= i <= |nodes|
      invariant |sankeyNodes| == i
      invariant forall j :: 0 <= j < i ==> sankeyNodes[j] == SankeyNode(nodes[j].id, nodes[j].caption, None, None)
      invariant idToNode == IdMap(nodes[..i])
    {
      IdMapSnoc(nodes, i);
      sankeyNodes := sankeyNodes + [SankeyNode(nodes[i].id, nodes[i].caption, None, None)];
      idToNode := idToNode[nodes[i].id := i];
      i := i + 1;
    }
    assert nodes[..i] == nodes;
    SankeyNodesAre(nodes, sankeyNodes);
  }

  /** A list holding, at every position, the graph node of the node there is the list SankeyNodes builds. */
  lemma SankeyNodesAre(nodes: seq<Types.Node>, s: seq<SankeyNode>)
    requires |s| == |nodes|
    requires forall j :: 0 <= j < |nodes| ==> s[j] == SankeyNode(nodes[j].id, nodes[j].caption, None, None)
    ensures s == SankeyNodes(nodes)
  {
  }

  /** The loop of `data.links.map`: looks up each link's source, then its target, throwing on a miss. */
  method ResolveLinkList(links: seq<Types.Link>, idToNode: map<string, nat>) returns (r: Result<seq<SankeyLink>, GraphError>)
    ensures r == ResolveLinks(links, idToNode)
  {
    var out: seq<SankeyLink> := [];
    var k := 0;
    while k < |links|
      invariant 0 <= k <= |links|
      invariant ResolveLinks(links[..k], idToNode) == Success(out)
    {
      var l := links[k];
      assert links[..k + 1][..k] == links[..k];
      if l.sourceId !in idToNode {
        ResolveLinksFailure(links, idToNode, k + 1);
        return Failure(UnknownNode(l.sourceId));
      }
      if l.targetId !in idToNode {
        ResolveLinksFailure(links, idToNode, k + 1);
        return Failure(UnknownNode(l.targetId));
      }
      out := out + [ResolvedLink(l, idToNode[l.sourceId], idToNode[l.targetId])];
      k := k + 1;
    }
    assert links[..k] == links;
    r := Success(out);
  }

  /** A failure on a prefix of the links is the failure of all of them. */
  lemma {:induction false} ResolveLinksFailure(links: seq<Types.Link>, m: map<string, nat>, n: nat)
    requires n <= |links| && ResolveLinks(links[..n], m).Failure?
    ensures ResolveLinks(links, m) == ResolveLinks(links[..n], m)
    decreases |links| - n
  {
    if n < |links| {
      assert links[..n + 1][..n] == links[..n];
      ResolveLinksFailure(links, m, n + 1);
    } else {
      assert links[..n] == links;
    }
  }

  /** `createGraph`: validates the data, then builds the nodes and resolves every link's endpoints. */
  method CreateGraph(sd: Types.SerializedData) returns (r: Result<GraphData, GraphError>)
    ensures r == GraphOf(sd)
  {
    var data := Types.MakeFullData(sd);
    if data.Failure? {
      return Failure(InvalidData(data.error));
    }
    var nodes, idToNode := IndexNodes(data.value.nodes);
    var links := ResolveLinkList(data.value.links, idToNode);
    if links.Failure? {
      return Failure(links.error);
    }
    r := Success(GraphData(nodes, links.value));
  }

  // ---------------------------------------------------------------------------
  // The saved-position override in `regenerate`.

  /** The top of a node placed at fraction `f` of a height. */
  function Place(f: real, height: real): real {
    f * height
  }

  /**
   * A node after the override: with a saved fraction f its top moves to f * height and, when it has
   * both ends, its bottom moves with it; a node without a saved fraction is left alone.
   */
  function Overridden(n: SankeyNode, saved: map<string, real>, height: real): (r: SankeyNode)
    ensures r.id == n.id && r.caption == n.caption
    ensures n.id !in saved ==> r == n
    ensures n.id in saved ==> r.y0 == Some(Place(saved[n.id], height))
    ensures n.id in saved && n.y0.Some? && n.y1.Some? ==> r.y1.Some? && r.y1.value - r.y0.value == n.y1.value - n.y0.value
    ensures n.id in saved && (n.y0.None? || n.y1.None?) ==> r.y1 == n.y1
  {
    if n.id in saved then
      var newY := Place(saved[n.id], height);
      var y1 := if n.y0.Some? && n.y1.Some? then Some(newY + (n.y1.value - n.y0.value)) else n.y1;
      n.(y0 := Some(newY), y1 := y1)
    else n
  }

  function OverriddenAll(nodes: seq<SankeyNode>, saved: map<string, real>, height: real): (r: seq<SankeyNode>)
    ensures |r| == |nodes| && forall i :: 0 <= i < |nodes| ==> r[i] == Overridden(nodes[i], saved, height)
  {
    seq(|nodes|, i requires 0 <= i < |nodes| => Overridden(nodes[i], saved, height))
  }

  /** The override keeps every node's id. */
  lemma OverriddenKeepsIds(nodes: seq<SankeyNode>, saved: map<string, real>, height: real)
    ensures NodeIdsOf(OverriddenAll(nodes, saved, height)) == NodeIdsOf(nodes)
  {
    var after := OverriddenAll(nodes, saved, height);
    assert forall i :: 0 <= i < |nodes| ==> NodeIdsOf(after)[i] == NodeIdsOf(nodes)[i];
  }

  /** The override loop: every node of the graph, in place. */
  method ApplySavedPositions(nodes: array<SankeyNode>, saved: map<string, real>, height: real)
    modifies nodes
    ensures nodes[..] == OverriddenAll(old(nodes[..]), saved, height)
  {
    var i := 0;
    while i < nodes.Length
      invariant 0 <= i <= nodes.Length
      invariant forall j :: 0 <= j < i ==> nodes[j] == Overridden(old(nodes[j]), saved, height)
      invariant forall j :: i <= j < nodes.Length ==> nodes[j] == old(nodes[j])
    {
      var n := nodes[i];
      var y := if n.id in saved then Some(saved[n.id]) else None;
      if y.Some? {
        var newY := Place(y.value, height);
        if n.y0.Some? && n.y1.Some? {
          var h := n.y1.value - n.y0.value;
          n := n.(y1 := Some(newY + h));
        }
        n := n.(y0 := Some(newY));
      }
      assert n == Overridden(old(nodes[i]), saved, height);
      nodes[i] := n;
      i := i + 1;
    }
  }

  // ---------------------------------------------------------------------------
  // recordPositions.

  function NodeIdsOf(nodes: seq<SankeyNode>): (ids: seq<string>)
    ensures |ids| == |nodes| && forall i :: 0 <= i < |nodes| ==> ids[i] == nodes[i].id
  {
    seq(|nodes|, i requires 0 <= i < |nodes| => nodes[i].id)
  }

  /** Each node with a defined top, by id, mapped to its top as a fraction of the height. */
  function Positions(nodes: seq<SankeyNode>, height: real): map<string, real>
    requires height != 0.0
  {
    if nodes == [] then map[]
    else
      var m := Positions(nodes[..|nodes| - 1], height);
      var n := nodes[|nodes| - 1];
      if n.y0.Some? then m[n.id := n.y0.value / height] else m
  }

  /**
   * The recorded positions hold exactly the ids of nodes with a defined top; with distinct ids each
   * is that node's top divided by the height.
   */
  lemma {:induction false} PositionsAt(nodes: seq<SankeyNode>, height: real)
    requires height != 0.0
    requires Distinct(NodeIdsOf(nodes))
    ensures forall x :: x in Positions(nodes, height) <==> exists i :: 0 <= i < |nodes| && nodes[i].id == x && nodes[i].y0.Some?
    ensures forall i :: 0 <= i < |nodes| && nodes[i].y0.Some? ==> Positions(nodes, height)[nodes[i].id] == nodes[i].y0.value / height
  {
    if nodes != [] {
      var init := nodes[..|nodes| - 1];
      assert forall i :: 0 <= i < |init| ==> NodeIdsOf(init)[i] == NodeIdsOf(nodes)[i];
      PositionsAt(init, height);
    }
  }

  lemma ScaleBack(f: real, height: real)
    requires height != 0.0
    ensures Place(f, height) / height == f
  {
  }

  /** Recording right after the override reproduces every saved fraction, for the same height. */
  lemma RecordAfterOverride(nodes: seq<SankeyNode>, saved: map<string, real>, height: real)
    requires height != 0.0
    requires Distinct(NodeIdsOf(nodes))
    ensures forall i :: 0 <= i < |nodes| && nodes[i].id in saved ==>
      nodes[i].id in Positions(OverriddenAll(nodes, saved, height), height) &&
      Positions(OverriddenAll(nodes, saved, height), height)[nodes[i].id] == saved[nodes[i].id]
  {
    var after := OverriddenAll(nodes, saved, height);
    OverriddenKeepsIds(nodes, saved, height);
    PositionsAt(after, height);
    forall i | 0 <= i < |nodes| && nodes[i].id in saved
      ensures Positions(after, height)[nodes[i].id] == saved[nodes[i].id]
    {
      ScaleBack(saved[nodes[i].id], height);
    }
  }

  // ---------------------------------------------------------------------------
  // generateFakeLinks and updateFakeLinks.

  /** Every link's endpoints are positions in a node list of `n` nodes. */
  ghost predicate EndpointsIn(links: seq<SankeyLink>, n: nat) {
    forall k :: 0 <= k < |links| ==> links[k].source < n && links[k].target < n
  }

  /** The highlighted value of a link, looked up by the ids of the nodes it joins. */
  function LinkHighlight(ids: seq<string>, l: SankeyLink, h: Data.Highlighter): real
    requires l.source < |ids| && l.target < |ids|
  {
    Data.HighlightedValue(h, ids[l.source], ids[l.target])
  }

  /** Every link with a positive highlighted value has a non-zero value, so its overlay width is defined. */
  ghost predicate ScaleDefined(ids: seq<string>, links: seq<SankeyLink>, h: Data.Highlighter)
    requires EndpointsIn(links, |ids|)
  {
    forall k :: 0 <= k < |links| && LinkHighlight(ids, links[k], h) > 0.0 ==> links[k].value != 0.0
  }

  /** The overlay copy of a link: its width scaled by the highlighted share of its value (an undefined width counts as 0). */
  function Scaled(l: SankeyLink, hv: real): (c: SankeyLink)
    requires l.value != 0.0
    ensures c == l.(width := c.width)
    ensures c.width == Some(ScaledWidth(l.width.GetOr(0.0), hv, l.value))
  {
    l.(width := Some(ScaledWidth(l.width.GetOr(0.0), hv, l.value)))
  }

  /** A width scaled by the share `hv / value`. */
  function ScaledWidth(w: real, hv: real, value: real): real
    requires value != 0.0
  {
    w * (hv / value)
  }

  /** What `generateFakeLinks` emits for one link: the link, then three copies when it is highlighted. */
  function Emitted(ids: seq<string>, l: SankeyLink, h: Data.Highlighter): seq<SankeyLink>
    requires l.source < |ids| && l.target < |ids|
    requires LinkHighlight(ids, l, h) > 0.0 ==> l.value != 0.0
  {
    var hv := LinkHighlight(ids, l, h);
    if hv > 0.0 then
      var c := Scaled(l, hv);
      [l, c, c, c]
    else [l]
  }

  /** The output of `generateFakeLinks`. */
  function FakeLinks(ids: seq<string>, links: seq<SankeyLink>, h: Data.Highlighter): seq<SankeyLink>
    requires EndpointsIn(links, |ids|) && ScaleDefined(ids, links, h)
  {
    if links == [] then []
    else
      var init := links[..|links| - 1];
      assert forall k :: 0 <= k < |init| ==> init[k] == links[k];
      FakeLinks(ids, init, h) + Emitted(ids, links[|links| - 1], h)
  }

  /** Emitted written out: the link alone, or the link and three copies of its scaled form. */
  lemma EmittedIs(ids: seq<string>, l: SankeyLink, h: Data.Highlighter)
    requires l.source < |ids| && l.target < |ids|
    requires LinkHighlight(ids, l, h) > 0.0 ==> l.value != 0.0
    ensures var hv := Data.HighlightedValue(h, ids[l.source], ids[l.target]);
      Emitted(ids, l, h) ==
        if hv > 0.0 then
          var c := l.(width := Some(ScaledWidth(l.width.GetOr(0.0), hv, l.value)));
          [l, c, c, c]
        else [l]
  {
  }

  /** Pushing a link and then three copies appends those four entries. */
  lemma PushedThrice(p: seq<SankeyLink>, l: SankeyLink, c: SankeyLink)
    ensures p + [l] + [c] + [c] + [c] == p + [l, c, c, c]
  {
    assert forall i :: 0 <= i < |p| + 4 ==> (p + [l] + [c] + [c] + [c])[i] == (p + [l, c, c, c])[i];
  }

  /** The callback of `generateFakeLinks` for one link: pushes it and, when it is highlighted, three scaled copies. */
  method PushEmitted(output: seq<SankeyLink>, ids: seq<string>, l: SankeyLink, h: Data.Highlighter) returns (output': seq<SankeyLink>)
    requires l.source < |ids| && l.target < |ids|
    requires LinkHighlight(ids, l, h) > 0.0 ==> l.value != 0.0
    ensures output' == output + Emitted(ids, l, h)
  {
    output' := output + [l];
    var hv := Data.HighlightedValue(h, ids[l.source], ids[l.target]);
    EmittedIs(ids, l, h);
    if hv > 0.0 {
      var w := l.width.GetOr(0.0);
      var newLink := l.(width := Some(ScaledWidth(w, hv, l.value)));
      output' := output' + [newLink];
      output' := output' + [newLink];
      output' := output' + [newLink];
      PushedThrice(output, l, newLink);
    }
  }

  /** `generateFakeLinks`: walks the links in order, emitting each one. */
  method GenerateFakeLinks(ids: seq<string>, links: seq<SankeyLink>, h: Data.Highlighter) returns (output: seq<SankeyLink>)
    requires EndpointsIn(links, |ids|) && ScaleDefined(ids, links, h)
    ensures output == FakeLinks(ids, links, h)
  {
    output := [];
    var k := 0;
    while k < |links|
      invariant 0 <= k <= |links|
      invariant EndpointsIn(links[..k], |ids|) && ScaleDefined(ids, links[..k], h)
      invariant output == FakeLinks(ids, links[..k], h)
    {
      FakeLinksPrefix(ids, links, h, k + 1);
      FakeLinksSnoc(ids, links, h, k);
      output := PushEmitted(output, ids, links[k], h);
      k := k + 1;
    }
    assert links[..k] == links;
  }

  /** How many of the links are highlighted. */
  function HighlightedCount(ids: seq<string>, links: seq<SankeyLink>, h: Data.Highlighter): nat
    requires EndpointsIn(links, |ids|)
  {
    if links == [] then 0
    else
      var init := links[..|links| - 1];
      assert forall k :: 0 <= k < |init| ==> init[k] == links[k];
      HighlightedCount(ids, init, h) + (if LinkHighlight(ids, links[|links| - 1], h) > 0.0 then 1 else 0)
  }

  /** Where link k's entry starts in the output: after every earlier link and the copies of the highlighted ones. */
  function Offset(ids: seq<string>, links: seq<SankeyLink>, h: Data.Highlighter, k: nat): nat
    requires EndpointsIn(links, |ids|) && k <= |links|
  {
    assert forall j :: 0 <= j < k ==> links[..k][j] == links[j];
    k + 3 * HighlightedCount(ids, links[..k], h)
  }

  /** The output has one entry per link plus three per highlighted link. */
  lemma {:induction false} FakeLinksLength(ids: seq<string>, links: seq<SankeyLink>, h: Data.Highlighter)
    requires EndpointsIn(links, |ids|) && ScaleDefined(ids, links, h)
    ensures |FakeLinks(ids, links, h)| == |links| + 3 * HighlightedCount(ids, links, h)
  {
    if links != [] {
      var init := links[..|links| - 1];
      assert forall k :: 0 <= k < |init| ==> init[k] == links[k];
      FakeLinksLength(ids, init, h);
    }
  }

  /** The output for a prefix of the links is a prefix of the output for all of them. */
  lemma {:induction false} FakeLinksPrefix(ids: seq<string>, links: seq<SankeyLink>, h: Data.Highlighter, m: nat)
    requires EndpointsIn(links, |ids|) && ScaleDefined(ids, links, h) && m <= |links|
    ensures EndpointsIn(links[..m], |ids|) && ScaleDefined(ids, links[..m], h)
    ensures FakeLinks(ids, links[..m], h) <= FakeLinks(ids, links, h)
  {
    assert forall k :: 0 <= k < m ==> links[..m][k] == links[k];
    if m < |links| {
      var init := links[..|links| - 1];
      assert forall k :: 0 <= k < |init| ==> init[k] == links[k];
      assert init[..m] == links[..m];
      FakeLinksPrefix(ids, init, h, m);
    } else {
      assert links[..m] == links;
    }
  }

  /** The entry of link k starts after the output for the links before it. */
  lemma OffsetIsLength(ids: seq<string>, links: seq<SankeyLink>, h: Data.Highlighter, k: nat)
    requires EndpointsIn(links, |ids|) && ScaleDefined(ids, links, h) && k <= |links|
    ensures EndpointsIn(links[..k], |ids|) && ScaleDefined(ids, links[..k], h)
    ensures FakeLinks(ids, links[..k], h) <= FakeLinks(ids, links, h)
    ensures Offset(ids, links, h, k) == |FakeLinks(ids, links[..k], h)|
  {
    FakeLinksPrefix(ids, links, h, k);
    FakeLinksLength(ids, links[..k], h);
  }

  /** The output for the first k + 1 links is that for the first k followed by link k's entry. */
  lemma FakeLinksSnoc(ids: seq<string>, links: seq<SankeyLink>, h: Data.Highlighter, k: nat)
    requires EndpointsIn(links, |ids|) && ScaleDefined(ids, links, h) && k < |links|
    requires EndpointsIn(links[..k], |ids|) && ScaleDefined(ids, links[..k], h)
    requires EndpointsIn(links[..k + 1], |ids|) && ScaleDefined(ids, links[..k + 1], h)
    ensures FakeLinks(ids, links[..k + 1], h) == FakeLinks(ids, links[..k], h) + Emitted(ids, links[k], h)
  {
    var pre1 := links[..k + 1];
    assert pre1[..|pre1| - 1] == links[..k] && pre1[|pre1| - 1] == links[k];
  }

  /** The output for the links before k, followed by link k's entry, is a prefix of the output, and the offsets measure it. */
  lemma EntryFollows(ids: seq<string>, links: seq<SankeyLink>, h: Data.Highlighter, k: nat)
    requires EndpointsIn(links, |ids|) && ScaleDefined(ids, links, h) && k < |links|
    ensures EndpointsIn(links[..k], |ids|) && ScaleDefined(ids, links[..k], h)
    ensures links[k].source < |ids| && links[k].target < |ids|
    ensures LinkHighlight(ids, links[k], h) > 0.0 ==> links[k].value != 0.0
    ensures Offset(ids, links, h, k) == |FakeLinks(ids, links[..k], h)|
    ensures Offset(ids, links, h, k + 1) == |FakeLinks(ids, links[..k], h)| + |Emitted(ids, links[k], h)|
    ensures FakeLinks(ids, links[..k], h) + Emitted(ids, links[k], h) <= FakeLinks(ids, links, h)
  {
    OffsetIsLength(ids, links, h, k);
    OffsetIsLength(ids, links, h, k + 1);
    FakeLinksSnoc(ids, links, h, k);
  }

  /**
   * Link k's entry starts at its offset: the link itself, then three copies with width
   * `width * (hv / value)` when its highlighted value hv is positive; the next link's entry follows.
   */
  lemma FakeLinksAt(ids: seq<string>, links: seq<SankeyLink>, h: Data.Highlighter, k: nat)
    requires EndpointsIn(links, |ids|) && ScaleDefined(ids, links, h) && k < |links|
    ensures Offset(ids, links, h, k + 1) == Offset(ids, links, h, k) + |Emitted(ids, links[k], h)|
    ensures Offset(ids, links, h, k + 1) <= |FakeLinks(ids, links, h)|
    ensures FakeLinks(ids, links, h)[Offset(ids, links, h, k)..Offset(ids, links, h, k + 1)] == Emitted(ids, links[k], h)
  {
    EntryFollows(ids, links, h, k);
    SliceOfPrefix(FakeLinks(ids, links, h), FakeLinks(ids, links[..k], h), Emitted(ids, links[k], h),
      Offset(ids, links, h, k), Offset(ids, links, h, k + 1));
  }

  /** A link with its emitted copies, each as counted by Emitted: the copies are exactly the highlighted ones. */
  lemma EmittedShape(ids: seq<string>, l: SankeyLink, h: Data.Highlighter)
    requires l.source < |ids| && l.target < |ids|
    requires LinkHighlight(ids, l, h) > 0.0 ==> l.value != 0.0
    ensures Emitted(ids, l, h)[0] == l
    ensures |Emitted(ids, l, h)| == if LinkHighlight(ids, l, h) > 0.0 then 4 else 1
    ensures LinkHighlight(ids, l, h) > 0.0 ==> forall j :: 1 <= j < 4 ==>
      Emitted(ids, l, h)[j] == l.(width := Some(ScaledWidth(l.width.GetOr(0.0), LinkHighlight(ids, l, h), l.value)))
  {
    var hv := LinkHighlight(ids, l, h);
    if hv > 0.0 {
      var c := Scaled(l, hv);
      var e := Emitted(ids, l, h);
      assert e == [l, c, c, c];
      assert e[1] == c && e[2] == c && e[3] == c;
    }
  }

  /** Two link lists that differ at most in the links' vertical bands, as after `sankey.update`. */
  ghost predicate SameExceptBands(links: seq<SankeyLink>, links': seq<SankeyLink>) {
    |links| == |links'| && forall k :: 0 <= k < |links| ==> links'[k] == links[k].(y0 := links'[k].y0, y1 := links'[k].y1)
  }

  /** The overlay after `updateFakeLinks`: each entry takes the band of the same entry of a fresh generation and keeps everything else. */
  function UpdatedBands(fake: seq<SankeyLink>, regenerated: seq<SankeyLink>): (r: seq<SankeyLink>)
    requires |fake| <= |regenerated|
    ensures |r| == |fake|
    ensures forall i :: 0 <= i < |fake| ==> r[i] == fake[i].(y0 := regenerated[i].y0, y1 := regenerated[i].y1)
  {
    seq(|fake|, i requires 0 <= i < |fake| => fake[i].(y0 := regenerated[i].y0, y1 := regenerated[i].y1))
  }

  /**
   * `updateFakeLinks`: generates the overlay afresh from the current links, then overwrites each
   * entry's band in place with that of the same entry of the fresh generation.
   */
  method UpdateFakeLinks(fake: array<SankeyLink>, ids: seq<string>, links: seq<SankeyLink>, h: Data.Highlighter)
    requires EndpointsIn(links, |ids|) && ScaleDefined(ids, links, h)
    requires fake.Length <= |FakeLinks(ids, links, h)|
    modifies fake
    ensures fake[..] == UpdatedBands(old(fake[..]), FakeLinks(ids, links, h))
  {
    var newFLs := GenerateFakeLinks(ids, links, h);
    var i := 0;
    while i < fake.Length
      invariant 0 <= i <= fake.Length
      invariant forall j :: 0 <= j < i ==> fake[j] == old(fake[j]).(y0 := newFLs[j].y0, y1 := newFLs[j].y1)
      invariant forall j :: i <= j < fake.Length ==> fake[j] == old(fake[j])
    {
      var newFL := newFLs[i];
      fake[i] := fake[i].(y0 := newFL.y0, y1 := newFL.y1);
      i := i + 1;
    }
  }

  /** Changing only the links' bands changes neither their endpoints nor their highlighted values. */
  lemma SameExceptBandsHighlight(ids: seq<string>, links: seq<SankeyLink>, links': seq<SankeyLink>, h: Data.Highlighter)
    requires EndpointsIn(links, |ids|) && ScaleDefined(ids, links, h)
    requires SameExceptBands(links, links')
    ensures EndpointsIn(links', |ids|)
    ensures forall k :: 0 <= k < |links| ==> LinkHighlight(ids, links'[k], h) == LinkHighlight(ids, links[k], h)
    ensures ScaleDefined(ids, links', h)
  {
    assert EndpointsIn(links', |ids|);
  }

  lemma UpdatedBandsAppend(a: seq<SankeyLink>, e: seq<SankeyLink>, a': seq<SankeyLink>, e': seq<SankeyLink>)
    requires |a| == |a'| && |e| == |e'|
    ensures UpdatedBands(a + e, a' + e') == UpdatedBands(a, a') + UpdatedBands(e, e')
  {
    var l, r := UpdatedBands(a + e, a' + e'), UpdatedBands(a, a') + UpdatedBands(e, e');
    forall i | 0 <= i < |l| ensures l[i] == r[i] {
      if i >= |a| {
        assert (a + e)[i] == e[i - |a|] && (a' + e')[i] == e'[i - |a|];
      }
    }
  }

  /** The entry of a link updated from that of the same link with a new band is the new entry. */
  lemma EmittedUpdate(ids: seq<string>, l: SankeyLink, l': SankeyLink, h: Data.Highlighter)
    requires l.source < |ids| && l.target < |ids|
    requires LinkHighlight(ids, l, h) > 0.0 ==> l.value != 0.0
    requires l' == l.(y0 := l'.y0, y1 := l'.y1)
    ensures |Emitted(ids, l, h)| == |Emitted(ids, l', h)|
    ensures UpdatedBands(Emitted(ids, l, h), Emitted(ids, l', h)) == Emitted(ids, l', h)
  {
    var e, e' := Emitted(ids, l, h), Emitted(ids, l', h);
    var u := UpdatedBands(e, e');
    assert |u| == |e'|;
    forall i | 0 <= i < |u| ensures u[i] == e'[i] {
    }
  }

  /**
   * When the layout only moved the links' bands, updating the overlay from a fresh generation gives
   * exactly the fresh generation: the copies follow their link's new band and keep their width.
   */
  lemma {:induction false} UpdateMatchesFreshGeneration(ids: seq<string>, links: seq<SankeyLink>, links': seq<SankeyLink>, h: Data.Highlighter)
    requires EndpointsIn(links, |ids|) && ScaleDefined(ids, links, h)
    requires SameExceptBands(links, links')
    ensures EndpointsIn(links', |ids|) && ScaleDefined(ids, links', h)
    ensures |FakeLinks(ids, links, h)| == |FakeLinks(ids, links', h)|
    ensures UpdatedBands(FakeLinks(ids, links, h), FakeLinks(ids, links', h)) == FakeLinks(ids, links', h)
  {
    SameExceptBandsHighlight(ids, links, links', h);
    if links != [] {
      var n := |links|;
      var init, init' := links[..n - 1], links'[..n - 1];
      assert forall k :: 0 <= k < |init| ==> init[k] == links[k] && init'[k] == links'[k];
      assert SameExceptBands(init, init');
      UpdateMatchesFreshGeneration(ids, init, init', h);
      var a, a' := FakeLinks(ids, init, h), FakeLinks(ids, init', h);
      var e, e' := Emitted(ids, links[n - 1], h), Emitted(ids, links'[n - 1], h);
      EmittedUpdate(ids, links[n - 1], links'[n - 1], h);
      assert FakeLinks(ids, links, h) == a + e;
      assert FakeLinks(ids, links', h) == a' + e';
      UpdatedBandsAppend(a, e, a', e');
    }
  }
}
