/** The serialized graph and its validation (src/types.ts). */
module Types {
  import opened Common
  import opened Seqs

  /** The colour a link gets when it has none of its own. */
  const Gray: string := "gray"

  /** A node as delivered: the id is optional and defaults to the label (the field is called `caption`: `label` is a Dafny keyword). */
  datatype SerializedNode = SerializedNode(id: Option<string>, caption: string)

  /** A link as delivered: the colour is optional. */
  datatype SerializedLink = SerializedLink(sourceId: string, targetId: string, value: real, color: Option<string>)

  datatype SerializedData = SerializedData(nodes: seq<SerializedNode>, links: seq<SerializedLink>)

  /** A node with every field present. */
  datatype Node = Node(id: string, caption: string)

  /** A link with every field present. */
  datatype Link = Link(sourceId: string, targetId: string, value: real, color: string)

  datatype Data = Data(nodes: seq<Node>, links: seq<Link>)

  /** The two errors validation throws. */
  datatype DataError = DuplicateId(id: string) | MissingNodeId(id: string)

  /** The id a node is known by: its explicit id, or its caption when there is none. */
  function NormalizedId(sn: SerializedNode): string {
    if sn.id.None? then sn.caption else sn.id.value
  }

  function NodeIds(nodes: seq<SerializedNode>): (ids: seq<string>)
    ensures |ids| == |nodes|
    ensures forall i :: 0 <= i < |nodes| ==> ids[i] == NormalizedId(nodes[i])
  {
    seq(|nodes|, i requires 0 <= i < |nodes| => NormalizedId(nodes[i]))
  }

  /** The ids the links refer to, in the order they are checked: source, then target, link by link. */
  function LinkEndpoints(links: seq<SerializedLink>): (ends: seq<string>)
    ensures |ends| == 2 * |links|
    ensures forall k :: 0 <= k < |links| ==> ends[2 * k] == links[k].sourceId && ends[2 * k + 1] == links[k].targetId
  {
    if links == [] then []
    else LinkEndpoints(links[..|links| - 1]) + [links[|links| - 1].sourceId, links[|links| - 1].targetId]
  }

  /** A link's own colour unless it is missing or empty (`color || "gray"`). */
  function LinkColor(color: Option<string>): (c: string)
    ensures c != ""
    ensures color.Some? && color.value != "" ==> c == color.value
    ensures color.None? || color.value == "" ==> c == Gray
  {
    if color.Some? && color.value != "" then color.value else Gray
  }

  function CompleteNode(sn: SerializedNode): Node {
    Node(NormalizedId(sn), sn.caption)
  }

  function CompleteLink(sl: SerializedLink): Link {
    Link(sl.sourceId, sl.targetId, sl.value, LinkColor(sl.color))
  }

  function CompleteNodes(nodes: seq<SerializedNode>): (r: seq<Node>)
    ensures |r| == |nodes| && forall i :: 0 <= i < |nodes| ==> r[i] == CompleteNode(nodes[i])
  {
    seq(|nodes|, i requires 0 <= i < |nodes| => CompleteNode(nodes[i]))
  }

  function CompleteLinks(links: seq<SerializedLink>): (r: seq<Link>)
    ensures |r| == |links| && forall k :: 0 <= k < |links| ==> r[k] == CompleteLink(links[k])
  {
    seq(|links|, k requires 0 <= k < |links| => CompleteLink(links[k]))
  }

  /** The node half of validation: the first repeated id is an error, otherwise the completed nodes. */
  function CheckedNodes(nodes: seq<SerializedNode>): Result<seq<Node>, DataError> {
    var ids := NodeIds(nodes);
    match FirstRepeat(ids)
    case Some(j) => Failure(DuplicateId(ids[j]))
    case None => Success(CompleteNodes(nodes))
  }

  /** The link half of validation: the first endpoint outside `nodeIds` is an error, otherwise the completed links. */
  function CheckedLinks(links: seq<SerializedLink>, nodeIds: set<string>): Result<seq<Link>, DataError> {
    var ends := LinkEndpoints(links);
    match FirstOutside(ends, nodeIds)
    case Some(p) => Failure(MissingNodeId(ends[p]))
    case None => Success(CompleteLinks(links))
  }

  /** What validation produces: nodes are checked first, then links against the node ids. */
  function FullData(sd: SerializedData): Result<Data, DataError> {
    match CheckedNodes(sd.nodes)
    case Failure(e) => Failure(e)
    case Success(nodes) =>
      match CheckedLinks(sd.links, set x | x in NodeIds(sd.nodes))
      case Failure(e) => Failure(e)
      case Success(links) => Success(Data(nodes, links))
  }

  /** Validation rejects with a duplicate-id error exactly when two nodes normalise to the same id, and names that id. */
  lemma FullDataDuplicate(sd: SerializedData)
    ensures (FullData(sd).Failure? && FullData(sd).error.DuplicateId?) <==> !Distinct(NodeIds(sd.nodes))
    ensures FullData(sd).Failure? && FullData(sd).error.DuplicateId? ==>
      exists i, j :: 0 <= i < j < |sd.nodes| && NormalizedId(sd.nodes[i]) == FullData(sd).error.id == NormalizedId(sd.nodes[j])
  {
    var ids := NodeIds(sd.nodes);
    var r := FirstRepeat(ids);
    if r.Some? {
      var j := r.value;
      var i :| 0 <= i < j && ids[..j][i] == ids[j];
      assert ids[i] == ids[j];
    }
  }

  /** With distinct ids, validation rejects with a missing-id error exactly when a link names an unknown id, and names it. */
  lemma FullDataMissing(sd: SerializedData)
    ensures (FullData(sd).Failure? && FullData(sd).error.MissingNodeId?) <==>
      Distinct(NodeIds(sd.nodes)) && exists x :: x in LinkEndpoints(sd.links) && x !in NodeIds(sd.nodes)
    ensures FullData(sd).Failure? && FullData(sd).error.MissingNodeId? ==>
      FullData(sd).error.id in LinkEndpoints(sd.links) && FullData(sd).error.id !in NodeIds(sd.nodes)
  {
    var ids := NodeIds(sd.nodes);
    var ends := LinkEndpoints(sd.links);
    if Distinct(ids) {
      var r := FirstOutside(ends, set x | x in ids);
      if r.Some? {
        assert ends[r.value] in ends;
      }
    }
  }

  /**
   * On success the ids are distinct, every link endpoint is a node id, and the nodes and links
   * keep their number and order, ids defaulted to labels and colours defaulted to gray.
   */
  lemma FullDataSuccess(sd: SerializedData)
    requires FullData(sd).Success?
    ensures Distinct(NodeIds(sd.nodes))
    ensures forall x :: x in LinkEndpoints(sd.links) ==> x in NodeIds(sd.nodes)
    ensures |FullData(sd).value.nodes| == |sd.nodes|
    ensures forall i :: 0 <= i < |sd.nodes| ==>
      FullData(sd).value.nodes[i] == Node(NormalizedId(sd.nodes[i]), sd.nodes[i].caption)
    ensures |FullData(sd).value.links| == |sd.links|
    ensures forall k :: 0 <= k < |sd.links| ==>
      FullData(sd).value.links[k] == Link(sd.links[k].sourceId, sd.links[k].targetId, sd.links[k].value, LinkColor(sd.links[k].color))
  {
    var ids := NodeIds(sd.nodes);
    assert Distinct(ids);
    var ends := LinkEndpoints(sd.links);
    assert FirstOutside(ends, set x | x in ids).None?;
  }

  /** The loop of `sd.nodes.map`: defaults each id, throwing on the first id already seen. */
  method CompleteNodeList(nodes: seq<SerializedNode>) returns (r: Result<seq<Node>, DataError>, nodeIds: set<string>)
    ensures r == CheckedNodes(nodes)
    ensures r.Success? ==> nodeIds == set x | x in NodeIds(nodes)
  {
    ghost var ids := NodeIds(nodes);
    nodeIds := {};
    var out: seq<Node> := [];
    var i := 0;
    while i < |nodes|
      invariant 0 <= i <= |nodes|
      invariant forall x :: x in nodeIds <==> x in ids[..i]
      invariant Distinct(ids[..i])
      invariant out == CompleteNodes(nodes[..i])
    {
      var sn := nodes[i];
      var id := if sn.id.None? then sn.caption else sn.id.value;
      if id in nodeIds {
        FirstRepeatIs(ids, i);
        return Failure(DuplicateId(id)), nodeIds;
      }
      assert ids[..i + 1] == ids[..i] + [id];
      assert CompleteNodes(nodes[..i + 1]) == CompleteNodes(nodes[..i]) + [CompleteNode(sn)];
      nodeIds := nodeIds + {id};
      out := out + [CompleteNode(sn)];
      i := i + 1;
    }
    assert ids[..i] == ids && nodes[..i] == nodes;
    r := Success(out);
  }

  /** The loop of `sd.links.map`: checks source then target of each link, throwing on the first unknown id. */
  method CompleteLinkList(links: seq<SerializedLink>, nodeIds: set<string>) returns (r: Result<seq<Link>, DataError>)
    ensures r == CheckedLinks(links, nodeIds)
  {
    ghost var ends := LinkEndpoints(links);
    var out: seq<Link> := [];
    var k := 0;
    while k < |links|
      invariant 0 <= k <= |links|
      invariant forall x :: x in ends[..2 * k] ==> x in nodeIds
      invariant out == CompleteLinks(links[..k])
    {
      var sl := links[k];
      if sl.sourceId !in nodeIds {
        FirstOutsideIs(ends, nodeIds, 2 * k);
        return Failure(MissingNodeId(sl.sourceId));
      }
      assert ends[..2 * k + 1] == ends[..2 * k] + [sl.sourceId];
      if sl.targetId !in nodeIds {
        FirstOutsideIs(ends, nodeIds, 2 * k + 1);
        return Failure(MissingNodeId(sl.targetId));
      }
      assert ends[..2 * k + 2] == ends[..2 * k + 1] + [sl.targetId];
      assert CompleteLinks(links[..k + 1]) == CompleteLinks(links[..k]) + [CompleteLink(sl)];
      out := out + [CompleteLink(sl)];
      k := k + 1;
    }
    assert ends[..2 * k] == ends && links[..k] == links;
    r := Success(out);
  }

  /** `makeFullData`: completes ids and colours, throwing on a duplicate id or an unknown endpoint. */
  method MakeFullData(sd: SerializedData) returns (r: Result<Data, DataError>)
    ensures r == FullData(sd)
  {
    var nodes, nodeIds := CompleteNodeList(sd.nodes);
    if nodes.Failure? {
      return Failure(nodes.error);
    }
    var links := CompleteLinkList(sd.links, nodeIds);
    if links.Failure? {
      return Failure(links.error);
    }
    r := Success(Data(nodes.value, links.value));
  }
}
