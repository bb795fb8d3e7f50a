/**
 * `parse_data` (utils.py:67-120): checks the schema of an edge table and an
 * optional node table and turns them into the node and edge lists the
 * network widget draws, together with the column bounds used for sizing.
 */
module Payload {
  import opened Wrappers
  import opened Frames
  import opened Scaling

  datatype Shape = Dot | CircularImage

  /**
   * A node of the payload: the node-table row (its id and numeric columns)
   * with a label (`caption`, the `label` key), a shape, a size and, for
   * image nodes, the image address.
   */
  datatype GraphNode = GraphNode(id: string, caption: string, shape: Shape, size: real,
                                 image: Option<string>, attrs: map<string, real>)

  /** An edge of the payload: the edge-table row with an id and a colour. */
  datatype GraphEdge = GraphEdge(id: string, from: string, to: string, color: string, attrs: map<string, real>)

  /** `{"nodes": [...], "edges": [...]}`. */
  datatype Graph = Graph(nodes: seq<GraphNode>, edges: seq<GraphEdge>)

  /** `{"node": ..., "edge": ...}`: the node bounds are absent when no node table is given. */
  datatype ScalingVars = ScalingVars(node: Option<map<string, Range>>, edge: map<string, Range>)

  /** The two exceptions `parse_data` raises. */
  datatype SchemaError = EdgeColumnsMissing | NodeIdMissing

  const EdgeColor := "#97C2FC"

  /** The size of every image node. */
  const ImageNodeSize: real := 20.0

  /** The id of the edge from `from` to `to`. */
  function EdgeId(from: string, to: string): string {
    from + "__" + to
  }

  predicate Distinct<T(==)>(xs: seq<T>) {
    forall i, j :: 0 <= i < j < |xs| ==> xs[i] != xs[j]
  }

  /** The node drawn for an edge endpoint when there is no node table. */
  function EndpointNode(id: string, defaultSize: real): GraphNode {
    GraphNode(id, id, Dot, defaultSize, None, map[])
  }

  /**
   * `list(set(edge_df["from"].unique().tolist() + edge_df["to"].unique().tolist()))`:
   * every endpoint once. The order of a Python set is not specified; this
   * one lists endpoints in order of first appearance.
   */
  function EndpointList(rows: seq<EdgeRecord>): (ids: seq<string>)
    ensures forall x :: x in ids <==> x in Endpoints(rows)
    ensures Distinct(ids)
  {
    if rows == [] then []
    else
      var init, e := rows[..|rows| - 1], rows[|rows| - 1];
      EndpointsSnoc(init, e);
      assert rows == init + [e];
      var ids := EndpointList(init);
      var a := if e.from in ids then ids else ids + [e.from];
      if e.to in a then a else a + [e.to]
  }

  lemma EndpointsSnoc(init: seq<EdgeRecord>, e: EdgeRecord)
    ensures Endpoints(init + [e]) == Endpoints(init) + {e.from, e.to}
  {
    var es := init + [e];
    assert forall x :: x in es <==> x in init || x == e;
  }

  /** The schema checks of utils.py:79-84 both pass. */
  predicate WellFormed(edgeTable: EdgeTable, nodeTable: Option<NodeTable>) {
    && "from" in edgeTable.columns && "to" in edgeTable.columns
    && (nodeTable.Some? ==> "id" in nodeTable.value.columns)
  }

  lemma EdgeColumns(t: EdgeTable)
    requires t.Valid()
    ensures HasColumns(t.numeric, EdgeAttrs(t.rows))
  {
    forall c, i | c in t.numeric && 0 <= i < |t.rows|
      ensures c in EdgeAttrs(t.rows)[i]
    {
      assert t.rows[i] in t.rows;
    }
  }

  lemma NodeColumns(t: NodeTable)
    requires t.Valid()
    ensures HasColumns(t.numeric, NodeAttrs(t.rows))
  {
    forall c, i | c in t.numeric && 0 <= i < |t.rows|
      ensures c in NodeAttrs(t.rows)[i]
    {
      assert t.rows[i] in t.rows;
    }
  }

  /** The bounds `parse_data` returns for the two tables. */
  function ScalingVarsOf(edgeTable: EdgeTable, nodeTable: Option<NodeTable>): ScalingVars
    requires edgeTable.Valid() && (nodeTable.Some? ==> nodeTable.value.Valid())
  {
    EdgeColumns(edgeTable);
    if nodeTable.Some? then
      NodeColumns(nodeTable.value);
      ScalingVars(Some(ScalingOf(nodeTable.value.numeric, NodeAttrs(nodeTable.value.rows))),
                  ScalingOf(edgeTable.numeric, EdgeAttrs(edgeTable.rows)))
    else
      ScalingVars(None, ScalingOf(edgeTable.numeric, EdgeAttrs(edgeTable.rows)))
  }

  /** The node built from one node-table row (utils.py:106-112). */
  predicate IsNodeEntry(n: GraphNode, row: NodeRecord, withImage: bool, defaultSize: real) {
    && n.id == row.id && n.caption == row.id && n.attrs == row.attrs
    && if withImage then n.shape == CircularImage && n.size == ImageNodeSize && n.image == row.imageUrl
       else n.shape == Dot && n.size == defaultSize && n.image.None?
  }

  /** The edge built from one edge-table row (utils.py:116-117). */
  predicate IsEdgeEntry(g: GraphEdge, row: EdgeRecord) {
    && g.id == EdgeId(row.from, row.to) && g.from == row.from && g.to == row.to
    && g.color == EdgeColor && g.attrs == row.attrs
  }

  method ParseData(edgeTable: EdgeTable, nodeTable: Option<NodeTable>, defaultSize: real)
    returns (r: Result<(Graph, ScalingVars), SchemaError>)
    requires edgeTable.Valid() && (nodeTable.Some? ==> nodeTable.value.Valid())
    ensures r.Err? <==> !WellFormed(edgeTable, nodeTable)
    ensures r.Err? ==> r.error == if "from" in edgeTable.columns && "to" in edgeTable.columns
                                  then NodeIdMissing else EdgeColumnsMissing
    ensures r.Ok? ==> r.value.1 == ScalingVarsOf(edgeTable, nodeTable)
    ensures r.Ok? ==> var es := r.value.0.edges;
      && |es| == |edgeTable.rows|
      && forall k :: 0 <= k < |es| ==> IsEdgeEntry(es[k], edgeTable.rows[k])
    ensures r.Ok? && nodeTable.Some? ==> var ns, rows := r.value.0.nodes, nodeTable.value.rows;
      && |ns| == |rows|
      && forall k :: 0 <= k < |ns| ==>
           IsNodeEntry(ns[k], rows[k], ImageColumn in nodeTable.value.columns, defaultSize)
    ensures r.Ok? && nodeTable.None? ==> var ns := r.value.0.nodes;
      && (forall x :: x in Endpoints(edgeTable.rows) <==> exists n :: n in ns && n.id == x)
      && (forall i, j :: 0 <= i < j < |ns| ==> ns[i].id != ns[j].id)
      && forall n :: n in ns ==> n == EndpointNode(n.id, defaultSize)
  {
    if "from" !in edgeTable.columns || "to" !in edgeTable.columns {
      return Err(EdgeColumnsMissing);
    }
    if nodeTable.Some? && "id" !in nodeTable.value.columns {
      return Err(NodeIdMissing);
    }

    var nodeVars: Option<map<string, Range>> := None;
    if nodeTable.Some? {
      NodeColumns(nodeTable.value);
      var v := ComputeScalingVars(nodeTable.value.numeric, NodeAttrs(nodeTable.value.rows));
      nodeVars := Some(v);
    }
    EdgeColumns(edgeTable);
    var edgeVars := ComputeScalingVars(edgeTable.numeric, EdgeAttrs(edgeTable.rows));

    var nodes: seq<GraphNode>;
    if nodeTable.None? {
      var ids := EndpointList(edgeTable.rows);
      nodes := seq(|ids|, i requires 0 <= i < |ids| => EndpointNode(ids[i], defaultSize));
      EndpointNodesCover(edgeTable.rows, ids, nodes, defaultSize);
    } else {
      nodes := NodeEntries(nodeTable.value.rows, ImageColumn in nodeTable.value.columns, defaultSize);
    }
    var edges := EdgeEntries(edgeTable.rows);

    return Ok((Graph(nodes, edges), ScalingVars(nodeVars, edgeVars)));
  }

  lemma EndpointNodesCover(rows: seq<EdgeRecord>, ids: seq<string>, nodes: seq<GraphNode>, defaultSize: real)
    requires (forall x :: x in ids <==> x in Endpoints(rows)) && Distinct(ids)
    requires |nodes| == |ids| && forall i :: 0 <= i < |ids| ==> nodes[i] == EndpointNode(ids[i], defaultSize)
    ensures forall x :: x in Endpoints(rows) <==> exists n :: n in nodes && n.id == x
    ensures forall i, j :: 0 <= i < j < |nodes| ==> nodes[i].id != nodes[j].id
    ensures forall n :: n in nodes ==> n == EndpointNode(n.id, defaultSize)
  {
    forall x | x in Endpoints(rows)
      ensures exists n :: n in nodes && n.id == x
    {
      var i :| 0 <= i < |ids| && ids[i] == x;
      assert nodes[i] in nodes;
    }
  }

  /** The loop of utils.py:106-112: one node per node-table row, in order. */
  method NodeEntries(rows: seq<NodeRecord>, withImage: bool, defaultSize: real) returns (nodes: seq<GraphNode>)
    ensures |nodes| == |rows|
    ensures forall k :: 0 <= k < |rows| ==> IsNodeEntry(nodes[k], rows[k], withImage, defaultSize)
  {
    nodes := [];
    var i := 0;
    while i < |rows|
      invariant 0 <= i <= |rows|
      invariant |nodes| == i
      invariant forall k :: 0 <= k < i ==> IsNodeEntry(nodes[k], rows[k], withImage, defaultSize)
    {
      var row := rows[i];
      if !withImage {
        nodes := nodes + [GraphNode(row.id, row.id, Dot, defaultSize, None, row.attrs)];
      } else {
        nodes := nodes + [GraphNode(row.id, row.id, CircularImage, ImageNodeSize, row.imageUrl, row.attrs)];
      }
      i := i + 1;
    }
  }

  /** The loop of utils.py:116-117: one edge per edge-table row, in order. */
  method EdgeEntries(rows: seq<EdgeRecord>) returns (edges: seq<GraphEdge>)
    ensures |edges| == |rows|
    ensures forall k :: 0 <= k < |rows| ==> IsEdgeEntry(edges[k], rows[k])
  {
    edges := [];
    var j := 0;
    while j < |rows|
      invariant 0 <= j <= |rows|
      invariant |edges| == j
      invariant forall k :: 0 <= k < j ==> IsEdgeEntry(edges[k], rows[k])
    {
      var row := rows[j];
      edges := edges + [GraphEdge(EdgeId(row.from, row.to), row.from, row.to, EdgeColor, row.attrs)];
      j := j + 1;
    }
  }

  /** An image node always carries the address from its row. */
  lemma ImageNodesHaveImages(n: GraphNode, row: NodeRecord, t: NodeTable, defaultSize: real)
    requires t.Valid() && row in t.rows && ImageColumn in t.columns
    requires IsNodeEntry(n, row, true, defaultSize)
    ensures n.shape == CircularImage && n.image.Some?
  {
  }

  /** The part of `s` before its first `_`. */
  function BeforeUnderscore(s: string): string {
    if s == [] || s[0] == '_' then [] else [s[0]] + BeforeUnderscore(s[1..])
  }

  lemma {:induction false} BeforeUnderscoreOfId(a: string, b: string)
    requires '_' !in a
    ensures BeforeUnderscore(EdgeId(a, b)) == a
  {
    if a != [] {
      assert EdgeId(a, b)[1..] == EdgeId(a[1..], b);
      BeforeUnderscoreOfId(a[1..], b);
      assert a == [a[0]] + a[1..];
    }
  }

  /**
   * Edge ids tell edges apart as long as no source topic contains `_`:
   * the id then determines both endpoints.
   */
  lemma EdgeIdInjective(a: string, b: string, c: string, d: string)
    requires '_' !in a && '_' !in c
    requires EdgeId(a, b) == EdgeId(c, d)
    ensures a == c && b == d
  {
    BeforeUnderscoreOfId(a, b);
    BeforeUnderscoreOfId(c, d);
    assert b == EdgeId(a, b)[|a| + 2..];
    assert d == EdgeId(c, d)[|c| + 2..];
  }

  /** Without that condition two different edges can share an id. */
  lemma EdgeIdCollision()
    ensures EdgeId("a_", "b") == EdgeId("a", "_b")
  {
  }

  /**
   * Edge rows with pairwise different endpoints and no `_` in any source
   * topic give pairwise different edge ids.
   */
  lemma EdgeIdsDistinct(rows: seq<EdgeRecord>, es: seq<GraphEdge>)
    requires |es| == |rows| && forall k :: 0 <= k < |es| ==> IsEdgeEntry(es[k], rows[k])
    requires forall k :: 0 <= k < |rows| ==> '_' !in rows[k].from
    requires forall i, j :: 0 <= i < j < |rows| ==> (rows[i].from, rows[i].to) != (rows[j].from, rows[j].to)
    ensures forall i, j :: 0 <= i < j < |es| ==> es[i].id != es[j].id
  {
    forall i, j | 0 <= i < j < |es|
      ensures es[i].id != es[j].id
    {
      if es[i].id == es[j].id {
        EdgeIdInjective(rows[i].from, rows[i].to, rows[j].from, rows[j].to);
      }
    }
  }
}
