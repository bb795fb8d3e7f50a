/**
 * The topic ego-graph of `generate_data` (utils.py:21-51): the rows around
 * the topic a query names, exploded into unordered topic pairs, and the
 * dataset rows those pairs mention.
 */
module EgoGraph {
  import opened Wrappers
  import opened Text
  import opened Frames

  /** `clean_topics`: the normal form of every topic name, row by row. */
  function CleanTopics(df: Dataset): seq<string> {
    seq(|df|, i requires 0 <= i < |df| => Normalise(df[i].topic))
  }

  /** A query that is present, not empty, and normalises to the normal form of some topic. */
  predicate Selected(df: Dataset, q: Option<string>) {
    q.Some? && q.value != "" && Normalise(q.value) in CleanTopics(df)
  }

  function IndexOf(ks: seq<string>, k: string): (i: nat)
    requires k in ks
    ensures i < |ks| && ks[i] == k && k !in ks[..i]
  {
    if ks[0] == k then 0
    else
      var j := IndexOf(ks[1..], k);
      assert ks[..j + 1] == [ks[0]] + ks[1..][..j];
      j + 1
  }

  /** At most one row normalises to `k`; `.item()` raises otherwise. */
  predicate SoleMatch(ks: seq<string>, k: string) {
    forall i, j :: 0 <= i < j < |ks| && ks[i] == k ==> ks[j] != k
  }

  /** The row whose normalised topic equals the normalised query. */
  function MatchedRow(df: Dataset, q: Option<string>): TopicRow
    requires Selected(df, q)
  {
    df[IndexOf(CleanTopics(df), Normalise(q.value))]
  }

  /**
   * The matched row's topic normalises like the query, and when only one
   * topic does (the case in which `.item()` returns) it is the only such row.
   */
  lemma MatchedRowIsSole(df: Dataset, q: Option<string>)
    requires Selected(df, q) && SoleMatch(CleanTopics(df), Normalise(q.value))
    ensures MatchedRow(df, q) in df && Normalise(MatchedRow(df, q).topic) == Normalise(q.value)
    ensures forall i :: 0 <= i < |df| && Normalise(df[i].topic) == Normalise(q.value) ==> df[i] == MatchedRow(df, q)
  {
    var ks, key := CleanTopics(df), Normalise(q.value);
    forall i | 0 <= i < |df| && Normalise(df[i].topic) == key
      ensures df[i] == MatchedRow(df, q)
    {
      assert ks[i] == key;
      SoleIndex(ks, key, i);
    }
  }

  /** Under `SoleMatch`, the only index holding the key is its first. */
  lemma SoleIndex(ks: seq<string>, k: string, i: nat)
    requires SoleMatch(ks, k) && i < |ks| && ks[i] == k
    ensures IndexOf(ks, k) == i
  {
  }

  /** `df.loc[df["topic"].isin(keys)]`: the rows whose topic is one of `keys`, in dataset order. */
  function Keep(df: Dataset, keys: seq<string>): (kept: Dataset)
    ensures |kept| <= |df|
    ensures forall i :: 0 <= i < |kept| ==> kept[i] in df && kept[i].topic in keys
  {
    if df == [] then []
    else
      var rest := Keep(df[1..], keys);
      assert forall i :: 0 <= i < |rest| ==> rest[i] in df;
      (if df[0].topic in keys then [df[0]] else []) + rest
  }

  /** No row whose topic is one of `keys` is left out. */
  lemma {:induction false} KeepHas(df: Dataset, keys: seq<string>, t: TopicRow)
    requires t in df && t.topic in keys
    ensures t in Keep(df, keys)
  {
    if df[0] != t {
      KeepHas(df[1..], keys, t);
    }
  }

  /**
   * The rows the graph is built from: those whose topic is one of the matched
   * row's related topics or equals the query exactly as typed.
   */
  function KeptRows(df: Dataset, q: Option<string>): Dataset
    requires Selected(df, q)
  {
    Keep(df, MatchedRow(df, q).related + [q.value])
  }

  /**
   * A row whose explosion gives two-element topic sets only. An empty related
   * list explodes to NaN, and a reference to the row's own topic gives a
   * one-element set whose missing end becomes NaN: both give an edge with a
   * NaN endpoint, which the model does not represent.
   */
  predicate Explodable(t: TopicRow) {
    t.related != [] && t.topic !in t.related
  }

  /**
   * What the model needs of a selecting query: one matching row (`.item()`
   * raises otherwise), at least one kept row (`set.union()` of nothing
   * raises), and kept rows that explode into pairs of two topics (otherwise
   * some edge ends at NaN).
   */
  predicate Resolvable(df: Dataset, q: Option<string>) {
    Selected(df, q) ==>
      && SoleMatch(CleanTopics(df), Normalise(q.value))
      && KeptRows(df, q) != []
      && forall t :: t in KeptRows(df, q) ==> Explodable(t)
  }

  /** `.explode(column="related_topics")`: one (topic, related topic) pair per related topic, row by row. */
  function Explode(rows: Dataset): seq<(string, string)> {
    if rows == [] then [] else PairsOf(rows[0].topic, rows[0].related) + Explode(rows[1..])
  }

  /** Every related topic of every row gives a pair. */
  lemma {:induction false} ExplodeHas(rows: Dataset, t: TopicRow, x: string)
    requires t in rows && x in t.related
    ensures (t.topic, x) in Explode(rows)
  {
    if rows[0] != t {
      ExplodeHas(rows[1..], t, x);
    }
  }

  /** Every pair comes from a row and one of its related topics. */
  lemma {:induction false} ExplodeFrom(rows: Dataset, p: (string, string))
    requires p in Explode(rows)
    ensures exists t :: t in rows && t.topic == p.0 && p.1 in t.related
  {
    if p !in PairsOf(rows[0].topic, rows[0].related) {
      ExplodeFrom(rows[1..], p);
      var t :| t in rows[1..] && t.topic == p.0 && p.1 in t.related;
      assert t in rows;
    } else {
      assert rows[0] in rows;
    }
  }

  /** The exploded pairs of one row. */
  function PairsOf(topic: string, related: seq<string>): (ps: seq<(string, string)>)
    ensures forall x :: (topic, x) in ps <==> x in related
    ensures forall p :: p in ps ==> p.0 == topic
  {
    if related == [] then [] else [(topic, related[0])] + PairsOf(topic, related[1..])
  }

  /** The two pairs are equal as sets: `{p.0, p.1} == {q.0, q.1}`. */
  predicate SamePair(p: (string, string), q: (string, string)) {
    (p.0 == q.0 && p.1 == q.1) || (p.0 == q.1 && p.1 == q.0)
  }

  /** Some pair of `qs` has the same endpoint set as `p`. */
  predicate Covers(qs: seq<(string, string)>, p: (string, string)) {
    exists q :: q in qs && SamePair(q, p)
  }

  predicate DistinctUnordered(qs: seq<(string, string)>) {
    forall i, j :: 0 <= i < j < |qs| ==> !SamePair(qs[i], qs[j])
  }

  /**
   * `.apply(set, axis=1).drop_duplicates()`: keeps the first pair of each
   * unordered endpoint set, in order.
   */
  function DropDuplicatePairs(ps: seq<(string, string)>): (qs: seq<(string, string)>)
    ensures forall q :: q in qs ==> q in ps
    ensures DistinctUnordered(qs)
  {
    if ps == [] then []
    else
      var init := ps[..|ps| - 1];
      var qs := DropDuplicatePairs(init);
      var p := ps[|ps| - 1];
      assert ps == init + [p];
      if Covers(qs, p) then qs
      else
        var r := qs + [p];
        assert forall i :: 0 <= i < |qs| ==> r[i] == qs[i] && !SamePair(qs[i], p);
        assert p in r;
        r
  }

  /** Dropping duplicates loses no unordered pair. */
  lemma {:induction false} DropDuplicatesCovers(ps: seq<(string, string)>, p: (string, string))
    requires p in ps
    ensures Covers(DropDuplicatePairs(ps), p)
  {
    var init, last := ps[..|ps| - 1], ps[|ps| - 1];
    assert ps == init + [last];
    var qs := DropDuplicatePairs(init);
    if p in init {
      DropDuplicatesCovers(init, p);
      var q :| q in qs && SamePair(q, p);
      assert q in DropDuplicatePairs(ps);
    } else if !Covers(qs, p) {
      assert p in DropDuplicatePairs(ps) && SamePair(p, p);
    }
  }

  /** The columns of the edge table `generate_data` builds. */
  function EdgeTableColumns(): set<string> { {"from", "to"} }

  /** The columns of the node table `generate_data` builds. */
  function NodeTableColumns(): set<string> { {"id", "stories", "writers"} }

  /** The numeric columns of that node table, in column order. */
  function NodeNumericColumns(): seq<string> { ["stories", "writers"] }

  /** A dataset row as a node-table row: `related_topics` dropped, `topic` renamed `id`. */
  function NodeOf(t: TopicRow): NodeRecord {
    NodeRecord(t.topic, map["stories" := t.stories, "writers" := t.writers], None)
  }

  /** `df.loc[df["topic"].isin(ids)]` turned into node-table rows, in dataset order. */
  function SelectNodes(df: Dataset, ids: set<string>): (ns: seq<NodeRecord>)
    ensures |ns| <= |df|
    ensures forall n :: n in ns ==> n.id in ids && exists t :: t in df && n == NodeOf(t)
  {
    if df == [] then []
    else (if df[0].topic in ids then [NodeOf(df[0])] else []) + SelectNodes(df[1..], ids)
  }

  /** The positions from `i` on whose topic is in `ids`, in increasing order. */
  function IndicesFrom(df: Dataset, ids: set<string>, i: nat): (idx: seq<nat>)
    requires i <= |df|
    ensures forall k :: 0 <= k < |idx| ==> i <= idx[k] < |df| && df[idx[k]].topic in ids
    decreases |df| - i
  {
    if i == |df| then [] else (if df[i].topic in ids then [i] else []) + IndicesFrom(df, ids, i + 1)
  }

  predicate Increasing(xs: seq<nat>) {
    forall k, l :: 0 <= k < l < |xs| ==> xs[k] < xs[l]
  }

  /** The positions are listed in strictly increasing order. */
  lemma {:induction false} IndicesFromIncreasing(df: Dataset, ids: set<string>, i: nat)
    requires i <= |df|
    ensures Increasing(IndicesFrom(df, ids, i))
    decreases |df| - i
  {
    if i < |df| {
      var rest := IndicesFrom(df, ids, i + 1);
      IndicesFromIncreasing(df, ids, i + 1);
      if df[i].topic in ids {
        var idx := [i] + rest;
        assert IndicesFrom(df, ids, i) == idx;
        forall k, l | 0 <= k < l < |idx|
          ensures idx[k] < idx[l]
        {
          assert idx[l] == rest[l - 1] && i + 1 <= rest[l - 1];
          if k > 0 {
            assert idx[k] == rest[k - 1];
          }
        }
      } else {
        assert IndicesFrom(df, ids, i) == rest;
      }
    }
  }

  /** No position from `i` on whose topic is in `ids` is missing. */
  lemma {:induction false} IndicesFromHas(df: Dataset, ids: set<string>, i: nat, j: nat)
    requires i <= j < |df| && df[j].topic in ids
    ensures j in IndicesFrom(df, ids, i)
    decreases |df| - i
  {
    if i < j {
      IndicesFromHas(df, ids, i + 1, j);
    }
  }

  /** The node rows of the dataset rows at the positions `idx`, in that order. */
  function NodesAt(df: Dataset, idx: seq<nat>): seq<NodeRecord>
    requires forall k :: 0 <= k < |idx| ==> idx[k] < |df|
  {
    seq(|idx|, k requires 0 <= k < |idx| => NodeOf(df[idx[k]]))
  }

  lemma NodesAtCons(df: Dataset, i: nat, idx: seq<nat>)
    requires i < |df| && forall k :: 0 <= k < |idx| ==> idx[k] < |df|
    ensures NodesAt(df, [i] + idx) == [NodeOf(df[i])] + NodesAt(df, idx)
  {
    var l, r := NodesAt(df, [i] + idx), [NodeOf(df[i])] + NodesAt(df, idx);
    forall k | 1 <= k < |l|
      ensures l[k] == r[k]
    {
      assert ([i] + idx)[k] == idx[k - 1];
    }
  }

  lemma {:induction false} SelectNodesFrom(df: Dataset, ids: set<string>, i: nat)
    requires i <= |df|
    ensures SelectNodes(df[i..], ids) == NodesAt(df, IndicesFrom(df, ids, i))
    decreases |df| - i
  {
    if i == |df| {
      assert df[i..] == [];
    } else {
      var ns, idx := SelectNodes(df[i + 1..], ids), IndicesFrom(df, ids, i + 1);
      assert df[i..][0] == df[i] && df[i..][1..] == df[i + 1..];
      SelectNodesFrom(df, ids, i + 1);
      if df[i].topic in ids {
        assert SelectNodes(df[i..], ids) == [NodeOf(df[i])] + ns;
        assert IndicesFrom(df, ids, i) == [i] + idx;
        NodesAtCons(df, i, idx);
      } else {
        assert SelectNodes(df[i..], ids) == ns;
        assert IndicesFrom(df, ids, i) == idx;
      }
    }
  }

  /**
   * The node rows are the dataset rows whose topic is in `ids`, one node per
   * such row and in dataset order: the `k`-th node comes from the `k`-th
   * position of `IndicesFrom(df, ids, 0)`.
   */
  lemma SelectNodesInOrder(df: Dataset, ids: set<string>)
    ensures var ns, idx := SelectNodes(df, ids), IndicesFrom(df, ids, 0);
      && |ns| == |idx|
      && (forall k :: 0 <= k < |ns| ==> ns[k] == NodeOf(df[idx[k]]))
      && Increasing(idx)
      && (forall j :: 0 <= j < |df| && df[j].topic in ids ==> j in idx)
  {
    assert df[0..] == df;
    SelectNodesFrom(df, ids, 0);
    IndicesFromIncreasing(df, ids, 0);
    forall j | 0 <= j < |df| && df[j].topic in ids
      ensures j in IndicesFrom(df, ids, 0)
    {
      IndicesFromHas(df, ids, 0, j);
    }
  }


  /** No dataset row whose topic is selected is left out. */
  lemma {:induction false} SelectNodesHas(df: Dataset, ids: set<string>, t: TopicRow)
    requires t in df && t.topic in ids
    ensures NodeOf(t) in SelectNodes(df, ids)
  {
    if df[0] != t {
      SelectNodesHas(df[1..], ids, t);
    }
  }

  /** `edges["from"], edges["to"] = ...`: one edge-table row per pair. */
  function PairEdges(ps: seq<(string, string)>): (es: seq<EdgeRecord>)
    ensures |es| == |ps|
    ensures forall i :: 0 <= i < |ps| ==> es[i] == EdgeRecord(ps[i].0, ps[i].1, map[])
  {
    seq(|ps|, i requires 0 <= i < |ps| => EdgeRecord(ps[i].0, ps[i].1, map[]))
  }

  /**
   * The edges have exactly the topics of the pairs as endpoints, and they are
   * distinct as edges exactly when the pairs are distinct as sets.
   */
  lemma PairEdgesKeepPairs(ps: seq<(string, string)>)
    ensures Endpoints(PairEdges(ps)) == (set p | p in ps :: p.0) + (set p | p in ps :: p.1)
    ensures DistinctEdges(PairEdges(ps)) <==> DistinctUnordered(ps)
  {
    var es := PairEdges(ps);
    forall a | a in Endpoints(es)
      ensures a in (set p | p in ps :: p.0) + (set p | p in ps :: p.1)
    {
      var k :| 0 <= k < |es| && (a == es[k].from || a == es[k].to);
      assert ps[k] in ps;
    }
    forall a | a in (set p | p in ps :: p.0) + (set p | p in ps :: p.1)
      ensures a in Endpoints(es)
    {
      var k :| 0 <= k < |ps| && (a == ps[k].0 || a == ps[k].1);
      assert es[k] in es;
    }
    forall i, j | 0 <= i < j < |ps|
      ensures Joins(es[j], es[i].from, es[i].to) <==> SamePair(ps[i], ps[j])
    {
    }
  }

  /** The edge joins `a` and `b`, in one direction or the other. */
  predicate Joins(x: EdgeRecord, a: string, b: string) {
    (x.from == a && x.to == b) || (x.from == b && x.to == a)
  }

  /** No two edges join the same two topics. */
  predicate DistinctEdges(es: seq<EdgeRecord>) {
    forall i, j :: 0 <= i < j < |es| ==> !Joins(es[j], es[i].from, es[i].to)
  }

  /** The edge with its endpoints swapped. */
  function Reversed(x: EdgeRecord): (y: EdgeRecord)
    ensures Joins(y, x.from, x.to) && y.attrs == x.attrs
  {
    EdgeRecord(x.to, x.from, x.attrs)
  }

  /**
   * `rows'` lists the edges of `rows`, in the same order, each drawn in
   * either direction. Which element of a topic pair `generate_data` writes
   * first is the iteration order of a Python set, which the model does not
   * fix; a property that holds for every such `rows'` holds for the table
   * the code builds.
   */
  predicate Reoriented(rows': seq<EdgeRecord>, rows: seq<EdgeRecord>) {
    && |rows'| == |rows|
    && forall k :: 0 <= k < |rows| ==> rows'[k] == rows[k] || rows'[k] == Reversed(rows[k])
  }

  /** Neither the distinctness of the edges nor their endpoints depend on the direction of each edge. */
  lemma ReorientedKeeps(rows': seq<EdgeRecord>, rows: seq<EdgeRecord>)
    requires Reoriented(rows', rows)
    ensures DistinctEdges(rows') <==> DistinctEdges(rows)
    ensures Endpoints(rows') == Endpoints(rows)
  {
    forall i, j | 0 <= i < j < |rows|
      ensures Joins(rows'[j], rows'[i].from, rows'[i].to) <==> Joins(rows[j], rows[i].from, rows[i].to)
    {
    }
    forall a | a in Endpoints(rows')
      ensures a in Endpoints(rows)
    {
      var k :| 0 <= k < |rows'| && (a == rows'[k].from || a == rows'[k].to);
      assert rows[k] in rows;
    }
    forall a | a in Endpoints(rows)
      ensures a in Endpoints(rows')
    {
      var k :| 0 <= k < |rows| && (a == rows[k].from || a == rows[k].to);
      assert rows'[k] in rows';
    }
  }

  /** The edge table of a selecting query. */
  function EgoEdges(df: Dataset, q: Option<string>): seq<EdgeRecord>
    requires Selected(df, q)
  {
    PairEdges(DropDuplicatePairs(Explode(KeptRows(df, q))))
  }

  /**
   * `generate_data(df, selected_topic)`: `None` stands for the pair
   * `(None, None)`, otherwise the edge table and the node table.
   */
  function GenerateData(df: Dataset, q: Option<string>): (r: Option<(EdgeTable, NodeTable)>)
    requires Resolvable(df, q)
    ensures r.None? <==> !Selected(df, q)
    ensures r.Some? ==>
      var e := r.value.0;
      && e.columns == EdgeTableColumns() && e.numeric == [] && e.Valid()
      && DistinctEdges(e.rows)
    ensures r.Some? ==>
      var n := r.value.1;
      && n.columns == NodeTableColumns() && n.numeric == NodeNumericColumns() && n.Valid()
  {
    if q.None? || q.value == "" then None
    else if Normalise(q.value) !in CleanTopics(df) then None
    else
      var edges := EgoEdges(df, q);
      EdgeFacts(KeptRows(df, q));
      var nodes := SelectNodes(df, Endpoints(edges));
      NodeTableValid(df, nodes);
      Some((EdgeTable(EdgeTableColumns(), [], edges),
            NodeTable(NodeTableColumns(), NodeNumericColumns(), nodes)))
  }

  lemma EdgeFacts(kept: Dataset)
    ensures var es := PairEdges(DropDuplicatePairs(Explode(kept)));
      && DistinctEdges(es)
      && forall x :: x in es ==> exists t :: t in kept && x.from == t.topic && x.to in t.related
  {
    var pairs := DropDuplicatePairs(Explode(kept));
    var es := PairEdges(pairs);
    forall i, j | 0 <= i < j < |es|
      ensures !Joins(es[j], es[i].from, es[i].to)
    {
      assert !SamePair(pairs[i], pairs[j]);
    }
    forall x | x in es
      ensures exists t :: t in kept && x.from == t.topic && x.to in t.related
    {
      var i :| 0 <= i < |es| && es[i] == x;
      ExplodeFrom(kept, pairs[i]);
    }
  }

  lemma NodeTableValid(df: Dataset, ns: seq<NodeRecord>)
    requires forall n :: n in ns ==> exists t :: t in df && n == NodeOf(t)
    ensures NodeTable(NodeTableColumns(), NodeNumericColumns(), ns).Valid()
  {
    assert ImageColumn !in {"id", "stories", "writers"};
    forall n | n in ns
      ensures "stories" in n.attrs && "writers" in n.attrs && n.imageUrl.None?
    {
      var t :| t in df && n == NodeOf(t);
    }
  }

  /** `SamePair` is equality of the two-element sets `.apply(set, axis=1)` builds. */
  lemma SamePairIsSetEquality(p: (string, string), q: (string, string))
    ensures SamePair(p, q) <==> {p.0, p.1} == {q.0, q.1}
  {
    if {p.0, p.1} == {q.0, q.1} {
      assert p.0 in {q.0, q.1} && p.1 in {q.0, q.1} && q.0 in {p.0, p.1} && q.1 in {p.0, p.1};
    }
  }

  /** Every related topic of every kept row is joined to that row's topic by an edge. */
  lemma EdgesCoverKeptRows(df: Dataset, q: Option<string>, t: TopicRow, y: string)
    requires Resolvable(df, q) && Selected(df, q)
    requires t in KeptRows(df, q) && y in t.related
    ensures exists x :: x in GenerateData(df, q).value.0.rows && Joins(x, t.topic, y)
  {
    GeneratedTables(df, q);
    PairEdgesCover(KeptRows(df, q), t, y);
  }

  lemma PairEdgesCover(kept: Dataset, t: TopicRow, y: string)
    requires t in kept && y in t.related
    ensures exists x :: x in PairEdges(DropDuplicatePairs(Explode(kept))) && Joins(x, t.topic, y)
  {
    var pairs := DropDuplicatePairs(Explode(kept));
    var es := PairEdges(pairs);
    ExplodeHas(kept, t, y);
    DropDuplicatesCovers(Explode(kept), (t.topic, y));
    var p :| p in pairs && SamePair(p, (t.topic, y));
    var i :| 0 <= i < |pairs| && pairs[i] == p;
    assert es[i] in es && Joins(es[i], t.topic, y);
  }

  /** Every dataset row whose topic is an endpoint of some edge is a node. */
  lemma EndpointRowsAreNodes(df: Dataset, q: Option<string>, t: TopicRow)
    requires Resolvable(df, q) && Selected(df, q)
    requires t in df && t.topic in Endpoints(GenerateData(df, q).value.0.rows)
    ensures NodeOf(t) in GenerateData(df, q).value.1.rows
  {
    var g := GenerateData(df, q).value;
    GeneratedTables(df, q);
    SelectNodesHas(df, Endpoints(g.0.rows), t);
  }

  /** Every kept row becomes a node: its first related topic gives it an edge. */
  lemma KeptRowIsNode(df: Dataset, q: Option<string>, t: TopicRow)
    requires Resolvable(df, q) && Selected(df, q)
    requires t in KeptRows(df, q)
    ensures NodeOf(t) in GenerateData(df, q).value.1.rows
  {
    var kept := KeptRows(df, q);
    assert t in df && Explodable(t);
    GeneratedTables(df, q);
    KeptTopicIsEndpoint(kept, t);
    SelectNodesHas(df, Endpoints(EgoEdges(df, q)), t);
  }

  lemma KeptTopicIsEndpoint(kept: Dataset, t: TopicRow)
    requires t in kept && t.related != []
    ensures t.topic in Endpoints(PairEdges(DropDuplicatePairs(Explode(kept))))
  {
    var es := PairEdges(DropDuplicatePairs(Explode(kept)));
    PairEdgesCover(kept, t, t.related[0]);
    var x :| x in es && Joins(x, t.topic, t.related[0]);
    EndpointsOfEdge(es, x);
  }

  /** Every dataset row named among the matched topic's related topics is a node of the graph. */
  lemma RelatedTopicsAreNodes(df: Dataset, q: Option<string>, t: TopicRow)
    requires Resolvable(df, q) && Selected(df, q)
    requires t in df && t.topic in MatchedRow(df, q).related
    ensures NodeOf(t) in GenerateData(df, q).value.1.rows
  {
    var keys := MatchedRow(df, q).related + [q.value];
    assert t.topic in keys;
    KeepHas(df, keys, t);
    KeptRowIsNode(df, q, t);
  }

  /** A row whose topic is spelled exactly as the query is a node of the graph. */
  lemma ExactQueryRowIsNode(df: Dataset, q: Option<string>, t: TopicRow)
    requires Resolvable(df, q) && Selected(df, q)
    requires t in df && t.topic == q.value
    ensures NodeOf(t) in GenerateData(df, q).value.1.rows
  {
    var keys := MatchedRow(df, q).related + [q.value];
    assert keys[|keys| - 1] == t.topic;
    KeepHas(df, keys, t);
    KeptRowIsNode(df, q, t);
  }

  /** A graph always has at least one node. */
  lemma NodesNotEmpty(df: Dataset, q: Option<string>)
    requires Resolvable(df, q) && Selected(df, q)
    ensures |GenerateData(df, q).value.1.rows| > 0
  {
    var kept := KeptRows(df, q);
    KeptRowIsNode(df, q, kept[0]);
  }

  /**
   * Two topics that list each other, searched by a lower-case query: both
   * become nodes and one edge joins them, oriented from the kept row.
   */
  lemma LifeWritingExample(life: TopicRow, writing: TopicRow, q: string)
    requires life.topic == "Life" && life.related == ["Writing"]
    requires writing.topic == "Writing" && writing.related == ["Life"]
    requires q == "life"
    ensures Resolvable([life, writing], Some(q))
    ensures GenerateData([life, writing], Some(q)).Some?
    ensures GenerateData([life, writing], Some(q)).value.0.rows == [EdgeRecord("Writing", "Life", map[])]
    ensures GenerateData([life, writing], Some(q)).value.1.rows == [NodeOf(life), NodeOf(writing)]
  {
    assert "Writing"[0] != "Life"[0];
    ExampleKept(life, writing, q);
    ExampleEdges(writing, "Life");
    ExampleNodes(life, writing);
    GeneratedTables([life, writing], Some(q));
  }

  /**
   * The edges are not restricted to the selected nodes: a related topic that
   * has no row of its own still ends an edge, and the searched topic is no
   * node when no kept row names it.
   */
  lemma DanglingEdgeExample(life: TopicRow, writing: TopicRow, q: string)
    requires life.topic == "Life" && life.related == ["Writing"]
    requires writing.topic == "Writing" && writing.related == ["Poetry"]
    requires q == "life"
    ensures Resolvable([life, writing], Some(q))
    ensures GenerateData([life, writing], Some(q)).Some?
    ensures GenerateData([life, writing], Some(q)).value.0.rows == [EdgeRecord("Writing", "Poetry", map[])]
    ensures GenerateData([life, writing], Some(q)).value.1.rows == [NodeOf(writing)]
  {
    assert "Writing"[0] != "Poetry"[0];
    ExampleKept(life, writing, q);
    ExampleEdges(writing, "Poetry");
    ExampleDanglingNodes(life, writing);
    GeneratedTables([life, writing], Some(q));
  }

  lemma ExampleKept(life: TopicRow, writing: TopicRow, q: string)
    requires life.topic == "Life" && life.related == ["Writing"]
    requires writing.topic == "Writing" && Explodable(writing) && q == "life"
    ensures Selected([life, writing], Some(q)) && Resolvable([life, writing], Some(q))
    ensures KeptRows([life, writing], Some(q)) == [writing]
  {
    ExampleSelects(life, writing, q);
    ExampleKeep(life, writing, q);
    ExampleResolves(life, writing, q);
  }

  lemma ExampleDanglingNodes(life: TopicRow, writing: TopicRow)
    requires life.topic == "Life" && writing.topic == "Writing"
    ensures SelectNodes([life, writing], Endpoints([EdgeRecord("Writing", "Poetry", map[])])) == [NodeOf(writing)]
  {
    var es := [EdgeRecord("Writing", "Poetry", map[])];
    EndpointsOfEdge(es, es[0]);
    assert Endpoints(es) == {"Writing", "Poetry"};
    assert "Life"[0] != "Writing"[0] && "Life"[0] != "Poetry"[0];
    assert SelectNodes([writing], Endpoints(es)) == [NodeOf(writing)];
  }

  /**
   * Every edge runs from a kept row to one of its related topics, and every
   * node is the row of a dataset topic that ends some edge.
   */
  lemma GeneratedProvenance(df: Dataset, q: Option<string>)
    requires Resolvable(df, q) && Selected(df, q)
    ensures var g := GenerateData(df, q).value;
      && (forall x :: x in g.0.rows ==> exists t :: t in KeptRows(df, q) && x.from == t.topic && x.to in t.related)
      && (forall m :: m in g.1.rows ==> m.id in Endpoints(g.0.rows) && exists t :: t in df && m == NodeOf(t))
  {
    GeneratedTables(df, q);
    EdgeFacts(KeptRows(df, q));
  }

  /** The two tables `generate_data` returns for a selecting query. */
  lemma GeneratedTables(df: Dataset, q: Option<string>)
    requires Resolvable(df, q) && Selected(df, q)
    ensures GenerateData(df, q).Some?
    ensures GenerateData(df, q).value.0.rows == EgoEdges(df, q)
    ensures GenerateData(df, q).value.1.rows == SelectNodes(df, Endpoints(EgoEdges(df, q)))
  {
  }

  lemma ExampleResolves(life: TopicRow, writing: TopicRow, q: string)
    requires Selected([life, writing], Some(q))
    requires SoleMatch(CleanTopics([life, writing]), Normalise(q))
    requires MatchedRow([life, writing], Some(q)) == life
    requires Keep([life, writing], life.related + [q]) == [writing]
    requires Explodable(writing)
    ensures KeptRows([life, writing], Some(q)) == [writing]
    ensures Resolvable([life, writing], Some(q))
  {
  }

  lemma ExampleSelects(life: TopicRow, writing: TopicRow, q: string)
    requires life.topic == "Life" && writing.topic == "Writing" && q == "life"
    ensures Selected([life, writing], Some(q))
    ensures SoleMatch(CleanTopics([life, writing]), Normalise(q))
    ensures MatchedRow([life, writing], Some(q)) == life
  {
    LifeNormal(life.topic);
    LifeNormal(q);
    WritingNormal(writing.topic);
    ExampleMatch(life, writing, q);
  }

  lemma ExampleNodes(life: TopicRow, writing: TopicRow)
    requires life.topic == "Life" && writing.topic == "Writing"
    ensures SelectNodes([life, writing], Endpoints([EdgeRecord("Writing", "Life", map[])])) == [NodeOf(life), NodeOf(writing)]
  {
    var es := [EdgeRecord("Writing", "Life", map[])];
    EndpointsOfEdge(es, es[0]);
    assert SelectNodes([writing], Endpoints(es)) == [NodeOf(writing)];
  }

  lemma ExampleMatch(life: TopicRow, writing: TopicRow, q: string)
    requires q != [] && Normalise(life.topic) == Normalise(q)
    requires |Normalise(writing.topic)| != |Normalise(q)|
    ensures Selected([life, writing], Some(q))
    ensures SoleMatch(CleanTopics([life, writing]), Normalise(q))
    ensures MatchedRow([life, writing], Some(q)) == life
  {
    var ks := CleanTopics([life, writing]);
    assert |ks| == 2 && ks[0] == Normalise(life.topic) && ks[1] == Normalise(writing.topic);
    FirstOfTwo(ks, Normalise(q));
  }

  lemma FirstOfTwo(ks: seq<string>, k: string)
    requires |ks| == 2 && ks[0] == k && ks[1] != k
    ensures k in ks && SoleMatch(ks, k) && IndexOf(ks, k) == 0
  {
  }

  lemma LifeNormal(s: string)
    requires s == "Life" || s == "life"
    ensures Normalise(s) == "life"
  {
    assert forall i :: 0 <= i < |s| ==> IsAlnum(s[i]) && Lower(s[i]) == "life"[i];
    WordNormalisesTo(s, "life");
  }

  lemma WritingNormal(s: string)
    requires s == "Writing"
    ensures |Normalise(s)| == 7
  {
    assert forall i :: 0 <= i < |s| ==> IsAlnum(s[i]);
    NormaliseWord(s);
  }

  lemma ExampleKeep(life: TopicRow, writing: TopicRow, q: string)
    requires life.topic == "Life" && life.related == ["Writing"]
    requires writing.topic == "Writing" && q == "life"
    ensures Keep([life, writing], life.related + [q]) == [writing]
  {
    assert life.related + [q] == ["Writing", "life"];
    assert "Life"[0] != "life"[0];
    assert [life, writing][1..] == [writing];
  }

  lemma ExampleEdges(writing: TopicRow, y: string)
    requires writing.related == [y]
    ensures PairEdges(DropDuplicatePairs(Explode([writing]))) == [EdgeRecord(writing.topic, y, map[])]
  {
    assert PairsOf(writing.topic, [y]) == [(writing.topic, y)];
    assert Explode([writing]) == PairsOf(writing.topic, [y]) + Explode([]);
    assert DropDuplicatePairs([(writing.topic, y)]) == [(writing.topic, y)];
  }
}
