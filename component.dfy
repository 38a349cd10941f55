/**
 * The diagram component (src/SankeyDiagram.tsx): its selection, the graph it keeps between
 * regenerations, the overlay links, and the drag gesture that tells a click from a move.
 */
module DiagramComponent {
  import opened Common
  import opened Seqs
  import Types
  import Data
  import opened Diagram

  /** The selection after toggling `id`: removed when it was selected, added otherwise. */
  function Toggled(selected: set<string>, id: string): (r: set<string>)
    ensures id in r <==> id !in selected
    ensures forall x :: x != id ==> (x in r <==> x in selected)
  {
    if id in selected then selected - {id} else selected + {id}
  }

  /** Toggling the same id twice restores the selection. */
  lemma ToggleTwice(selected: set<string>, id: string)
    ensures Toggled(Toggled(selected, id), id) == selected
  {
  }

  /** The drag flag after one move: any movement ends the chance that the gesture is a click. */
  function AfterMove(mightBeClick: bool, dx: real, dy: real): bool {
    if dx != 0.0 || dy != 0.0 then false else mightBeClick
  }

  /** The drag flag after a whole gesture: set when it starts, then updated by every move. */
  function AfterGesture(moves: seq<(real, real)>): bool {
    if moves == [] then true
    else AfterMove(AfterGesture(moves[..|moves| - 1]), moves[|moves| - 1].0, moves[|moves| - 1].1)
  }

  /** A gesture ends as a click exactly when none of its moves moved. */
  lemma {:induction false} GestureIsClick(moves: seq<(real, real)>)
    ensures AfterGesture(moves) <==> forall i :: 0 <= i < |moves| ==> moves[i].0 == 0.0 && moves[i].1 == 0.0
  {
    if moves != [] {
      var init := moves[..|moves| - 1];
      assert forall i :: 0 <= i < |init| ==> init[i] == moves[i];
      GestureIsClick(init);
    }
  }

  /** The graph `createGraph` builds from the aggregated data; it never throws for it. */
  function CreatedGraph(data: Data.SSData): (g: GraphData)
    ensures EndpointsIn(g.links, |g.nodes|) && Distinct(NodeIdsOf(g.nodes))
  {
    var sd := Data.Generated(data).data;
    Data.GeneratedDataIsValid(data);
    GraphOfFacts(sd);
    GraphOf(sd).value
  }

  /** `createGraph` succeeds on the aggregated data, with the graph above. */
  lemma CreatedGraphIs(data: Data.SSData)
    ensures GraphOf(Data.Generated(data).data) == Success(CreatedGraph(data))
  {
    Data.GeneratedDataIsValid(data);
    GraphOfFacts(Data.Generated(data).data);
  }

  /**
   * With non-negative instances, every link of the created graph that a selection highlights
   * positively has a non-zero value, so its overlay width is defined.
   */
  lemma CreatedGraphScaleDefined(data: Data.SSData, selected: set<string>)
    requires forall p :: p in data.paths ==> p.instances >= 0.0
    ensures ScaleDefined(NodeIdsOf(CreatedGraph(data).nodes), CreatedGraph(data).links, Data.Highlight(data, selected))
  {
    var sd := Data.Generated(data).data;
    var g := CreatedGraph(data);
    var ids := NodeIdsOf(g.nodes);
    var h := Data.Highlight(data, selected);
    var agg := Data.Aggregate(data, Data.AlwaysTrue());
    CreatedGraphIs(data);
    GraphOfFacts(sd);
    Types.FullDataSuccess(sd);
    var d := Types.FullData(sd).value;
    forall k | 0 <= k < |g.links| && LinkHighlight(ids, g.links[k], h) > 0.0
      ensures g.links[k].value != 0.0
    {
      assert ids[g.links[k].source] == d.links[k].sourceId == agg[k].sourceId;
      assert ids[g.links[k].target] == d.links[k].targetId == agg[k].targetId;
      assert g.links[k].value == agg[k].value;
      Data.HighlightWithinLink(data, selected, k);
    }
  }

  /**
   * `g'` is the graph `g` after layout: the same nodes and links in the same order, with the
   * positions and bands the layout assigns.
   */
  ghost predicate SameShape(g: GraphData, g': GraphData) {
    && |g'.nodes| == |g.nodes|
    && (forall i :: 0 <= i < |g.nodes| ==> g'.nodes[i].id == g.nodes[i].id && g'.nodes[i].caption == g.nodes[i].caption)
    && |g'.links| == |g.links|
    && forall k :: 0 <= k < |g.links| ==> g'.links[k] == g.links[k].(width := g'.links[k].width, y0 := g'.links[k].y0, y1 := g'.links[k].y1)
  }

  /** A layout of the created graph keeps its endpoints and its distinct ids. */
  lemma SameShapeFacts(g: GraphData, g': GraphData)
    requires EndpointsIn(g.links, |g.nodes|) && Distinct(NodeIdsOf(g.nodes))
    requires SameShape(g, g')
    ensures EndpointsIn(g'.links, |g'.nodes|) && NodeIdsOf(g'.nodes) == NodeIdsOf(g.nodes)
  {
    assert EndpointsIn(g'.links, |g'.nodes|);
  }

  /**
   * With non-negative instances, the layout of the created graph and its update keep the links
   * resolved and the overlay widths defined: what `Regenerate` needs of them.
   */
  lemma LaidOutScaleDefined(data: Data.SSData, selected: set<string>, laidOut: GraphData, relaid: seq<SankeyLink>)
    requires forall p :: p in data.paths ==> p.instances >= 0.0
    requires SameShape(CreatedGraph(data), laidOut) && SameExceptBands(laidOut.links, relaid)
    ensures EndpointsIn(relaid, |laidOut.nodes|)
    ensures ScaleDefined(NodeIdsOf(laidOut.nodes), relaid, Data.Highlight(data, selected))
  {
    var g := CreatedGraph(data);
    var h := Data.Highlight(data, selected);
    CreatedGraphScaleDefined(data, selected);
    SameShapeFacts(g, laidOut);
    var ids := NodeIdsOf(laidOut.nodes);
    assert ScaleDefined(ids, laidOut.links, h) by {
      forall k | 0 <= k < |laidOut.links|
        ensures LinkHighlight(ids, laidOut.links[k], h) == LinkHighlight(ids, g.links[k], h)
        ensures laidOut.links[k].value == g.links[k].value
      {
      }
    }
    SameExceptBandsHighlight(ids, laidOut.links, relaid, h);
  }

  /** The laid-out nodes in a new array, moved to their saved positions. */
  method PlacedNodes(laidOut: seq<SankeyNode>, saved: map<string, real>, height: real) returns (nodes: array<SankeyNode>)
    ensures fresh(nodes) && nodes[..] == OverriddenAll(laidOut, saved, height)
  {
    nodes := ToArray(laidOut);
    ApplySavedPositions(nodes, saved, height);
  }

  /** The overlay links in a new array. */
  method Overlay(ids: seq<string>, links: seq<SankeyLink>, h: Data.Highlighter) returns (fakeLinks: array<SankeyLink>)
    requires EndpointsIn(links, |ids|) && ScaleDefined(ids, links, h)
    ensures fresh(fakeLinks) && fakeLinks[..] == FakeLinks(ids, links, h)
  {
    var output := GenerateFakeLinks(ids, links, h);
    fakeLinks := ToArray(output);
  }

  /** The overlay `fake` is the one generated from a graph with distinct node ids and resolved links. */
  ghost predicate Drawn(nodes: seq<SankeyNode>, links: seq<SankeyLink>, h: Data.Highlighter, fake: seq<SankeyLink>) {
    && EndpointsIn(links, |nodes|)
    && Distinct(NodeIdsOf(nodes))
    && ScaleDefined(NodeIdsOf(nodes), links, h)
    && fake == FakeLinks(NodeIdsOf(nodes), links, h)
  }

  /** Placing the laid-out nodes and generating the overlay from the updated links gives a drawn graph. */
  lemma RedrawIsDrawn(created: GraphData, laidOut: GraphData, relaid: seq<SankeyLink>, saved: map<string, real>, height: real, h: Data.Highlighter)
    requires EndpointsIn(created.links, |created.nodes|) && Distinct(NodeIdsOf(created.nodes))
    requires SameShape(created, laidOut) && SameExceptBands(laidOut.links, relaid)
    requires EndpointsIn(relaid, |laidOut.nodes|) && ScaleDefined(NodeIdsOf(laidOut.nodes), relaid, h)
    requires height != 0.0
    ensures Ready(saved, height, laidOut, relaid, h)
  {
    SameShapeFacts(created, laidOut);
    OverriddenKeepsIds(laidOut.nodes, saved, height);
  }

  /** Moving one node's top and updating the overlay from links that only changed their bands keeps the graph drawn. */
  lemma DragIsDrawn(nodes: seq<SankeyNode>, k: nat, y0: real, links: seq<SankeyLink>, relaid: seq<SankeyLink>, h: Data.Highlighter, fake: seq<SankeyLink>)
    requires Drawn(nodes, links, h, fake) && k < |nodes| && SameExceptBands(links, relaid)
    ensures NodeIdsOf(nodes[k := nodes[k].(y0 := Some(y0))]) == NodeIdsOf(nodes)
    ensures EndpointsIn(relaid, |nodes|) && ScaleDefined(NodeIdsOf(nodes), relaid, h)
    ensures |fake| <= |FakeLinks(NodeIdsOf(nodes), relaid, h)|
    ensures Drawn(nodes[k := nodes[k].(y0 := Some(y0))], relaid, h, UpdatedBands(fake, FakeLinks(NodeIdsOf(nodes), relaid, h)))
  {
    var ids := NodeIdsOf(nodes);
    assert NodeIdsOf(nodes[k := nodes[k].(y0 := Some(y0))]) == ids;
    UpdateMatchesFreshGeneration(ids, links, relaid, h);
  }

  /**
   * What the part of `regenerate` after the layout needs: a non-zero height, links that resolve to
   * the laid-out nodes, defined overlay widths, and a drawn graph once the saved positions are applied.
   */
  ghost predicate Ready(saved: map<string, real>, height: real, laidOut: GraphData, relaid: seq<SankeyLink>, h: Data.Highlighter) {
    && height != 0.0
    && EndpointsIn(relaid, |laidOut.nodes|) && ScaleDefined(NodeIdsOf(laidOut.nodes), relaid, h)
    && NodeIdsOf(OverriddenAll(laidOut.nodes, saved, height)) == NodeIdsOf(laidOut.nodes)
    && Drawn(OverriddenAll(laidOut.nodes, saved, height), relaid, h, FakeLinks(NodeIdsOf(laidOut.nodes), relaid, h))
  }

  /** Sets the top of node `k` to `y0` and leaves every other node as it was. */
  method MoveTop(nodes: array<SankeyNode>, k: nat, y0: real)
    requires k < nodes.Length
    modifies nodes
    ensures nodes[..] == old(nodes[..])[k := old(nodes[k]).(y0 := Some(y0))]
  {
    nodes[k] := nodes[k].(y0 := Some(y0));
  }

  class Component {
    /** The data the component was given. */
    const data: Data.SSData
    /** Whether a graph has been laid out yet. */
    var hasGraph: bool
    /** The laid-out graph's nodes, moved in place by the override and by dragging. */
    var nodes: array<SankeyNode>
    /** The laid-out graph's links. */
    var links: seq<SankeyLink>
    /** The height of the drawing made by the last regeneration. */
    var svgHeight: real
    var selectedNodes: set<string>
    /** The highlighted values for the selection of the last regeneration. */
    var highlighter: Data.Highlighter
    /** The drawn links: each graph link followed by its highlight copies. */
    var fakeLinks: array<SankeyLink>
    /** Whether the current drag gesture can still be a click. */
    var mightBeClick: bool

    /** Positions can be recorded: once a graph exists, its drawing has a non-zero height. */
    ghost predicate Recordable()
      reads this
    {
      hasGraph ==> svgHeight != 0.0
    }

    /** Once a graph exists, the overlay is the one generated from it for the current selection. */
    ghost predicate Valid()
      reads this, nodes, fakeLinks
    {
      && Recordable()
      && (hasGraph ==>
        && highlighter == Data.Highlight(data, selectedNodes)
        && Drawn(nodes[..], links, highlighter, fakeLinks[..]))
    }

    constructor(data: Data.SSData)
      ensures Valid() && this.data == data
      ensures !hasGraph && selectedNodes == {} && !mightBeClick
    {
      this.data := data;
      hasGraph := false;
      nodes := new SankeyNode[0];
      links := [];
      svgHeight := 0.0;
      selectedNodes := {};
      highlighter := Data.NoHighlight;
      fakeLinks := new SankeyLink[0];
      mightBeClick := false;
    }

    /** `recordPositions`: every node's top as a fraction of the drawing's height; empty before the first layout. */
    method RecordPositions() returns (output: map<string, real>)
      requires Recordable()
      ensures hasGraph ==> output == Positions(nodes[..], svgHeight)
      ensures !hasGraph ==> output == map[]
    {
      output := map[];
      if hasGraph {
        var height := svgHeight;
        var i := 0;
        while i < nodes.Length
          invariant 0 <= i <= nodes.Length
          invariant output == Positions(nodes[..i], height)
        {
          var node := nodes[i];
          assert nodes[..i + 1][..i] == nodes[..i] && nodes[..i + 1][i] == node;
          if node.y0.Some? {
            output := output[node.id := node.y0.value / height];
          }
          i := i + 1;
        }
        assert nodes[..i] == nodes[..];
      }
    }

    /** The positions a regeneration applies: the recorded ones when a graph exists, else those the data carries. */
    ghost function SavedPositions(): map<string, real>
      reads this, nodes
      requires Recordable()
    {
      if hasGraph then Positions(nodes[..], svgHeight) else data.nodePositions.GetOr(map[])
    }

    /**
     * The state after regenerating for drawing height `height` with positions `saved`, when the
     * layout produced `laidOut` and its update moved the links' bands to `relaid`.
     */
    ghost predicate Regenerated(saved: map<string, real>, height: real, laidOut: GraphData, relaid: seq<SankeyLink>)
      reads this, nodes, fakeLinks
    {
      && Valid() && hasGraph && !mightBeClick
      && svgHeight == height
      && nodes[..] == OverriddenAll(laidOut.nodes, saved, height)
      && links == relaid
    }

    /** After a regeneration, recording the positions gives back every saved position of a node that is still there. */
    lemma RegeneratedRecordsSaved(saved: map<string, real>, height: real, laidOut: GraphData, relaid: seq<SankeyLink>)
      requires Regenerated(saved, height, laidOut, relaid)
      ensures forall i :: 0 <= i < nodes.Length && nodes[i].id in saved ==>
        nodes[i].id in SavedPositions() && SavedPositions()[nodes[i].id] == saved[nodes[i].id]
    {
      RecordAfterOverride(laidOut.nodes, saved, height);
    }

    /**
     * `regenerate`: records the current positions (or takes the data's), lays out a new graph,
     * moves every node with a saved position there, and rebuilds the highlight and the overlay.
     * The layout itself is not modelled: `laidOut` is its result and `relaid` that of its update.
     */
    method Regenerate(height: real, laidOut: GraphData, relaid: seq<SankeyLink>)
      requires Recordable() && height != 0.0
      requires SameShape(CreatedGraph(data), laidOut) && SameExceptBands(laidOut.links, relaid)
      requires EndpointsIn(relaid, |laidOut.nodes|)
      requires ScaleDefined(NodeIdsOf(laidOut.nodes), relaid, Data.Highlight(data, selectedNodes))
      modifies this
      ensures fresh(nodes) && fresh(fakeLinks)
      ensures Regenerated(old(SavedPositions()), height, laidOut, relaid)
      ensures selectedNodes == old(selectedNodes)
    {
      var selected := selectedNodes;
      var input := Data.GenerateData(data);
      var savedPositions: map<string, real>;
      if hasGraph {
        savedPositions := RecordPositions();
      } else {
        savedPositions := input.nodePositions.GetOr(map[]);
      }
      svgHeight := height;
      var created := CreateGraph(input.data);
      CreatedGraphIs(data);
      assert created == Success(CreatedGraph(data));
      var value := Data.LinkToHighlightedValue(data, selected);
      RedrawIsDrawn(CreatedGraph(data), laidOut, relaid, savedPositions, height, value);
      Redraw(savedPositions, laidOut, relaid, value);
      Installed(savedPositions, height, laidOut, relaid, value);
    }

    /**
     * The part of `regenerate` after the layout: moves the nodes with a saved position, installs
     * the highlight computed for the selection, and rebuilds the overlay.
     */
    method Redraw(saved: map<string, real>, laidOut: GraphData, relaid: seq<SankeyLink>, value: Data.Highlighter)
      requires Ready(saved, svgHeight, laidOut, relaid, value)
      modifies this
      ensures fresh(nodes) && fresh(fakeLinks)
      ensures nodes[..] == OverriddenAll(laidOut.nodes, saved, old(svgHeight))
      ensures links == relaid && highlighter == value
      ensures fakeLinks[..] == FakeLinks(NodeIdsOf(laidOut.nodes), relaid, value)
      ensures hasGraph && !mightBeClick && svgHeight == old(svgHeight) && selectedNodes == old(selectedNodes)
    {
      var placed := PlacedNodes(laidOut.nodes, saved, svgHeight);
      var overlay := Overlay(NodeIdsOf(laidOut.nodes), relaid, value);
      nodes, links, highlighter, fakeLinks := placed, relaid, value, overlay;
      mightBeClick, hasGraph := false, true;
    }

    /** A state holding the moved nodes, the new links, the highlight and the overlay built from them is a regeneration. */
    lemma Installed(saved: map<string, real>, height: real, laidOut: GraphData, relaid: seq<SankeyLink>, hl: Data.Highlighter)
      requires svgHeight == height && hasGraph && !mightBeClick
      requires highlighter == hl && hl == Data.Highlight(data, selectedNodes) && links == relaid
      requires Ready(saved, height, laidOut, relaid, hl)
      requires nodes[..] == OverriddenAll(laidOut.nodes, saved, height)
      requires fakeLinks[..] == FakeLinks(NodeIdsOf(laidOut.nodes), relaid, hl)
      ensures Regenerated(saved, height, laidOut, relaid)
    {
    }

    /** `toggleSelection`: flips one node in or out of the selection, then regenerates. */
    method ToggleSelection(nodeId: string, height: real, laidOut: GraphData, relaid: seq<SankeyLink>)
      requires Valid() && height != 0.0
      requires SameShape(CreatedGraph(data), laidOut) && SameExceptBands(laidOut.links, relaid)
      requires EndpointsIn(relaid, |laidOut.nodes|)
      requires ScaleDefined(NodeIdsOf(laidOut.nodes), relaid, Data.Highlight(data, Toggled(selectedNodes, nodeId)))
      modifies this
      ensures fresh(nodes) && fresh(fakeLinks)
      ensures selectedNodes == Toggled(old(selectedNodes), nodeId)
      ensures Regenerated(old(SavedPositions()), height, laidOut, relaid)
    {
      if nodeId in selectedNodes {
        selectedNodes := selectedNodes - {nodeId};
      } else {
        selectedNodes := selectedNodes + {nodeId};
      }
      Regenerate(height, laidOut, relaid);
    }

    /** The start of a drag: until something moves, the gesture may be a click. */
    method DragStart()
      modifies this
      ensures mightBeClick
      ensures hasGraph == old(hasGraph) && nodes == old(nodes) && links == old(links) && svgHeight == old(svgHeight)
      ensures selectedNodes == old(selectedNodes) && highlighter == old(highlighter) && fakeLinks == old(fakeLinks)
    {
      mightBeClick := true;
    }

    /**
     * A drag move of node `k` by (`dx`, `dy`): any movement rules out a click; the node's top moves
     * by `dy`, the layout update moves the links' bands to `relaid`, and the overlay follows.
     */
    method DragMove(k: nat, dx: real, dy: real, relaid: seq<SankeyLink>)
      requires Valid() && hasGraph && k < nodes.Length && nodes[k].y0.Some?
      requires SameExceptBands(links, relaid)
      modifies this, nodes, fakeLinks
      ensures Valid()
      ensures mightBeClick == AfterMove(old(mightBeClick), dx, dy)
      ensures nodes == old(nodes) && nodes[..] == old(nodes[..])[k := old(nodes[k]).(y0 := Some(old(nodes[k].y0.value) + dy))]
      ensures links == relaid && fakeLinks == old(fakeLinks)
      ensures hasGraph && svgHeight == old(svgHeight) && selectedNodes == old(selectedNodes) && highlighter == old(highlighter)
      ensures fakeLinks[..] == FakeLinks(NodeIdsOf(nodes[..]), relaid, highlighter)
    {
      var d := nodes[k];
      var y0 := d.y0.value + dy;
      DragIsDrawn(nodes[..], k, y0, links, relaid, highlighter, fakeLinks[..]);
      var ids := NodeIdsOf(nodes[..]);
      if dx != 0.0 || dy != 0.0 {
        mightBeClick := false;
      }
      links := relaid;
      MoveTop(nodes, k, y0);
      UpdateFakeLinks(fakeLinks, ids, relaid, highlighter);
    }

    /** The end of a drag of node `k`: a gesture that never moved is a click, which toggles the node. */
    method DragEnd(k: nat, height: real, laidOut: GraphData, relaid: seq<SankeyLink>)
      requires Valid() && k < nodes.Length
      requires mightBeClick ==>
        && height != 0.0
        && SameShape(CreatedGraph(data), laidOut) && SameExceptBands(laidOut.links, relaid)
        && EndpointsIn(relaid, |laidOut.nodes|)
        && ScaleDefined(NodeIdsOf(laidOut.nodes), relaid, Data.Highlight(data, Toggled(selectedNodes, nodes[k].id)))
      modifies this
      ensures old(mightBeClick) ==> selectedNodes == Toggled(old(selectedNodes), old(nodes[k].id))
      ensures old(mightBeClick) ==> Regenerated(old(SavedPositions()), height, laidOut, relaid)
      ensures !old(mightBeClick) ==> unchanged(this)
    {
      if mightBeClick {
        ToggleSelection(nodes[k].id, height, laidOut, relaid);
      }
    }
  }
}
