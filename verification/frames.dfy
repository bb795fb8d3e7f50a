/**
 * The tables the pipeline passes around: the topic dataset, and the edge and
 * node tables that `generate_data` produces and `parse_data` consumes.
 * Numeric columns are explicit (`numeric`); every other column is text.
 */
module Frames {
  import opened Wrappers

  /** One row of the topic dataset (`topic`, `stories`, `writers`, `related_topics`). */
  datatype TopicRow = TopicRow(topic: string, stories: real, writers: real, related: seq<string>)

  type Dataset = seq<TopicRow>

  /** A row of an edge table: its endpoints and its numeric columns. */
  datatype EdgeRecord = EdgeRecord(from: string, to: string, attrs: map<string, real>)

  /** A row of a node table: its id, its numeric columns and its `node_image_url` cell, if that column exists. */
  datatype NodeRecord = NodeRecord(id: string, attrs: map<string, real>, imageUrl: Option<string>)

  datatype EdgeTable = EdgeTable(columns: set<string>, numeric: seq<string>, rows: seq<EdgeRecord>) {
    /** The numeric columns are columns, and every row has a value in each. */
    predicate Valid() {
      && (forall c :: c in numeric ==> c in columns)
      && (forall r, c :: r in rows && c in numeric ==> c in r.attrs)
    }
  }

  datatype NodeTable = NodeTable(columns: set<string>, numeric: seq<string>, rows: seq<NodeRecord>) {
    predicate Valid() {
      && (forall c :: c in numeric ==> c in columns)
      && (forall r, c :: r in rows && c in numeric ==> c in r.attrs)
      && (forall r :: r in rows ==> (r.imageUrl.Some? <==> ImageColumn in columns))
    }
  }

  const ImageColumn := "node_image_url"

  /** Every topic that is an endpoint of some edge. */
  function Endpoints(es: seq<EdgeRecord>): set<string> {
    (set e | e in es :: e.from) + (set e | e in es :: e.to)
  }

  lemma EndpointsOfEdge(es: seq<EdgeRecord>, x: EdgeRecord)
    requires x in es
    ensures x.from in Endpoints(es) && x.to in Endpoints(es)
  {
    assert x.from in (set e | e in es :: e.from);
    assert x.to in (set e | e in es :: e.to);
  }

  /** The numeric part of each row of an edge table. */
  function EdgeAttrs(rows: seq<EdgeRecord>): seq<map<string, real>> {
    seq(|rows|, i requires 0 <= i < |rows| => rows[i].attrs)
  }

  /** The numeric part of each row of a node table. */
  function NodeAttrs(rows: seq<NodeRecord>): seq<map<string, real>> {
    seq(|rows|, i requires 0 <= i < |rows| => rows[i].attrs)
  }
}
