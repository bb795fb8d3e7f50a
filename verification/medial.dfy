/**
 * The `Medial` application object of app.py: the graph currently shown and
 * its column bounds, the search and sizing callbacks that replace or resize
 * it, and the status line above the search box.
 */
module App {
  import opened Wrappers
  import opened Frames
  import opened Scaling
  import opened EgoGraph
  import opened Payload
  import opened Sizing
  import opened Format
  import opened Text

  /** The topic of the graph shown at start-up (the default argument of `generate_data`). */
  function InitialTopic(): string { "Life" }

  /** The entries of the node-size dropdown (app.py:26). */
  function SizeTopicsBy(): seq<string> { ["Number of stories", "Number of writers"] }

  /** The numeric part of each node. */
  function GraphAttrs(ns: seq<GraphNode>): seq<map<string, real>> {
    seq(|ns|, i requires 0 <= i < |ns| => ns[i].attrs)
  }

  /**
   * The nodes, edges and bounds `parse_data` makes of a generated edge and
   * node table.
   */
  predicate Parsed(ns: seq<GraphNode>, es: seq<GraphEdge>, sv: ScalingVars, t: (EdgeTable, NodeTable), defaultSize: real) {
    && t.0.Valid() && t.1.Valid()
    && |ns| == |t.1.rows|
    && (forall k :: 0 <= k < |ns| ==> IsNodeEntry(ns[k], t.1.rows[k], ImageColumn in t.1.columns, defaultSize))
    && |es| == |t.0.rows|
    && (forall k :: 0 <= k < |es| ==> IsEdgeEntry(es[k], t.0.rows[k]))
    && sv == ScalingVarsOf(t.0, Some(t.1))
  }

  /** Both dropdown labels size nodes by a numeric node column. */
  lemma DropdownLabelsName(choice: string)
    requires choice in SizeTopicsBy()
    ensures HasWord(choice) && LastWord(choice) in NodeNumericColumns()
  {
    var w := if choice == SizeTopicsBy()[0] then "stories" else "writers";
    assert choice == "Number of " + w;
    assert forall i :: 0 <= i < |w| ==> w[i] in "stoweiyr";
    NumberOfLabel(w);
  }

  // ---------------------------------------------------------------------
  // Sizing (callback_size_nodes)
  // ---------------------------------------------------------------------

  /** `scaling_vars["node"][m]` exists and its `max` and `min` differ. */
  predicate HasSpread(sv: ScalingVars, m: string) {
    && sv.node.Some? && m in sv.node.value
    && sv.node.value[m].Range? && sv.node.value[m].min != sv.node.value[m].max
  }

  /**
   * What sizing by the dropdown entry `choice` needs in order not to raise
   * and not to divide by zero: a word in the choice, and, as soon as there is
   * a node, bounds with a spread for that word and a value of it in every node.
   */
  predicate SizeableBy(ns: seq<GraphNode>, sv: ScalingVars, choice: string) {
    && HasWord(choice)
    && (ns != [] ==> HasSpread(sv, LastWord(choice)))
    && forall k :: 0 <= k < |ns| ==> LastWord(choice) in ns[k].attrs
  }

  /** One node after sizing: its size replaced, everything else kept. */
  function ResizedNode(n: GraphNode, sv: ScalingVars, sizeBy: Option<string>,
                       minSize: real, maxSize: real, defaultSize: real): GraphNode
    requires sizeBy.Some? ==> HasWord(sizeBy.value) && HasSpread(sv, LastWord(sizeBy.value))
    requires sizeBy.Some? ==> LastWord(sizeBy.value) in n.attrs
  {
    if sizeBy.None? then n.(size := defaultSize)
    else
      var m := LastWord(sizeBy.value);
      var r := sv.node.value[m];
      n.(size := Rescale(n.attrs[m], r.min, r.max, minSize, maxSize))
  }

  /**
   * The node list after `callback_size_nodes`: the same nodes in the same
   * order, each with only its size changed; without a choice every node
   * gets the default size.
   */
  function Resized(ns: seq<GraphNode>, sv: ScalingVars, sizeBy: Option<string>,
                   minSize: real, maxSize: real, defaultSize: real): (rs: seq<GraphNode>)
    requires sizeBy.Some? ==> SizeableBy(ns, sv, sizeBy.value)
    ensures |rs| == |ns|
    ensures forall k :: 0 <= k < |ns| ==> rs[k] == ns[k].(size := rs[k].size)
    ensures sizeBy.None? ==> forall k :: 0 <= k < |ns| ==> rs[k].size == defaultSize
  {
    seq(|ns|, k requires 0 <= k < |ns| => ResizedNode(ns[k], sv, sizeBy, minSize, maxSize, defaultSize))
  }

  /** Sizing keeps the numeric columns, so it can be done again with the same choice. */
  lemma ResizedKeepsAttrs(ns: seq<GraphNode>, sv: ScalingVars, sizeBy: Option<string>,
                          minSize: real, maxSize: real, defaultSize: real)
    requires sizeBy.Some? ==> SizeableBy(ns, sv, sizeBy.value)
    ensures GraphAttrs(Resized(ns, sv, sizeBy, minSize, maxSize, defaultSize)) == GraphAttrs(ns)
  {
    var rs := Resized(ns, sv, sizeBy, minSize, maxSize, defaultSize);
    assert forall k :: 0 <= k < |ns| ==> rs[k].attrs == ns[k].attrs;
  }

  /** Sizing keeps the bounds a node list carries right for it. */
  lemma ResizedKeepsBounds(cols: seq<string>, ns: seq<GraphNode>, sv: ScalingVars, sizeBy: Option<string>,
                           minSize: real, maxSize: real, defaultSize: real)
    requires sizeBy.Some? ==> SizeableBy(ns, sv, sizeBy.value)
    requires OwnBounds(cols, ns, sv)
    ensures OwnBounds(cols, Resized(ns, sv, sizeBy, minSize, maxSize, defaultSize), sv)
  {
    ResizedKeepsAttrs(ns, sv, sizeBy, minSize, maxSize, defaultSize);
  }

  /** Sizing twice with the same choice is sizing once. */
  lemma ResizedIdempotent(ns: seq<GraphNode>, sv: ScalingVars, sizeBy: Option<string>,
                          minSize: real, maxSize: real, defaultSize: real)
    requires sizeBy.Some? ==> SizeableBy(ns, sv, sizeBy.value)
    ensures var rs := Resized(ns, sv, sizeBy, minSize, maxSize, defaultSize);
      && (sizeBy.Some? ==> SizeableBy(rs, sv, sizeBy.value))
      && Resized(rs, sv, sizeBy, minSize, maxSize, defaultSize) == rs
  {
    var rs := Resized(ns, sv, sizeBy, minSize, maxSize, defaultSize);
    assert forall k :: 0 <= k < |ns| ==> rs[k].attrs == ns[k].attrs;
    var rs' := Resized(rs, sv, sizeBy, minSize, maxSize, defaultSize);
    assert forall k :: 0 <= k < |ns| ==> rs'[k] == rs[k];
  }

  /** The bounds stored with a node list are those of its own numeric columns. */
  predicate OwnBounds(cols: seq<string>, ns: seq<GraphNode>, sv: ScalingVars) {
    HasColumns(cols, GraphAttrs(ns)) && sv.node == Some(ScalingOf(cols, GraphAttrs(ns)))
  }

  /**
   * With bounds taken from the nodes themselves, every size lies between the
   * smallest and the largest size, and both are given to some node.
   */
  lemma ResizedWithinBounds(cols: seq<string>, ns: seq<GraphNode>, sv: ScalingVars, choice: string,
                            minSize: real, maxSize: real, defaultSize: real)
    requires OwnBounds(cols, ns, sv) && SizeableBy(ns, sv, choice) && minSize <= maxSize
    ensures var rs := Resized(ns, sv, Some(choice), minSize, maxSize, defaultSize);
      && (forall k :: 0 <= k < |rs| ==> minSize <= rs[k].size <= maxSize)
      && (ns != [] ==> exists k :: 0 <= k < |rs| && rs[k].size == minSize)
      && (ns != [] ==> exists k :: 0 <= k < |rs| && rs[k].size == maxSize)
  {
    if ns != [] {
      NodeBounds(cols, ns, sv, LastWord(choice));
      SizesWithin(ns, sv, choice, minSize, maxSize, defaultSize);
    }
  }

  /** Node bounds are attained by some node and enclose every node's value. */
  predicate TightFor(ns: seq<GraphNode>, m: string, r: Range) {
    && r.Range? && r.min <= r.max
    && (forall k :: 0 <= k < |ns| ==> m in ns[k].attrs && r.min <= ns[k].attrs[m] <= r.max)
    && (exists i :: 0 <= i < |ns| && m in ns[i].attrs && ns[i].attrs[m] == r.min)
    && (exists j :: 0 <= j < |ns| && m in ns[j].attrs && ns[j].attrs[m] == r.max)
  }

  lemma NodeBounds(cols: seq<string>, ns: seq<GraphNode>, sv: ScalingVars, m: string)
    requires OwnBounds(cols, ns, sv) && m in sv.node.value && ns != []
    ensures TightFor(ns, m, sv.node.value[m])
  {
    var rows := GraphAttrs(ns);
    ScalingBoundsTight(cols, rows, m);
    var r := sv.node.value[m];
    var i :| 0 <= i < |rows| && rows[i][m] == r.min;
    var j :| 0 <= j < |rows| && rows[j][m] == r.max;
    assert m in ns[i].attrs && ns[i].attrs[m] == r.min by {
      assert rows[i] == ns[i].attrs;
    }
    assert m in ns[j].attrs && ns[j].attrs[m] == r.max by {
      assert rows[j] == ns[j].attrs;
    }
    forall k | 0 <= k < |ns|
      ensures m in ns[k].attrs && r.min <= ns[k].attrs[m] <= r.max
    {
      assert rows[k] == ns[k].attrs;
    }
  }

  lemma SizesWithin(ns: seq<GraphNode>, sv: ScalingVars, choice: string,
                    minSize: real, maxSize: real, defaultSize: real)
    requires SizeableBy(ns, sv, choice) && minSize <= maxSize && ns != []
    requires TightFor(ns, LastWord(choice), sv.node.value[LastWord(choice)])
    ensures var rs := Resized(ns, sv, Some(choice), minSize, maxSize, defaultSize);
      && (forall k :: 0 <= k < |rs| ==> minSize <= rs[k].size <= maxSize)
      && (exists k :: 0 <= k < |rs| && rs[k].size == minSize)
      && (exists k :: 0 <= k < |rs| && rs[k].size == maxSize)
  {
    var rs := Resized(ns, sv, Some(choice), minSize, maxSize, defaultSize);
    var m := LastWord(choice);
    var r := sv.node.value[m];
    var i :| 0 <= i < |ns| && m in ns[i].attrs && ns[i].attrs[m] == r.min;
    var j :| 0 <= j < |ns| && m in ns[j].attrs && ns[j].attrs[m] == r.max;
    RescaleEnds(r.min, r.max, minSize, maxSize);
    assert rs[i].size == minSize;
    assert rs[j].size == maxSize;
    forall k | 0 <= k < |rs|
      ensures minSize <= rs[k].size <= maxSize
    {
      RescaleWithin(ns[k].attrs[m], r.min, r.max, minSize, maxSize);
    }
  }

  /** A node with a larger value in the chosen column is never drawn smaller. */
  lemma ResizedMonotone(cols: seq<string>, ns: seq<GraphNode>, sv: ScalingVars, choice: string,
                        minSize: real, maxSize: real, defaultSize: real, i: nat, j: nat)
    requires OwnBounds(cols, ns, sv) && SizeableBy(ns, sv, choice) && minSize <= maxSize
    requires i < |ns| && j < |ns| && ns[i].attrs[LastWord(choice)] <= ns[j].attrs[LastWord(choice)]
    ensures var rs := Resized(ns, sv, Some(choice), minSize, maxSize, defaultSize);
      rs[i].size <= rs[j].size
  {
    NodeBounds(cols, ns, sv, LastWord(choice));
    SpreadMonotone(ns, sv, choice, minSize, maxSize, defaultSize, i, j);
  }

  /** Sizing is monotone in the chosen column once its bounds are in order. */
  lemma SpreadMonotone(ns: seq<GraphNode>, sv: ScalingVars, choice: string,
                       minSize: real, maxSize: real, defaultSize: real, i: nat, j: nat)
    requires SizeableBy(ns, sv, choice) && minSize <= maxSize
    requires i < |ns| && j < |ns| && ns[i].attrs[LastWord(choice)] <= ns[j].attrs[LastWord(choice)]
    requires sv.node.value[LastWord(choice)].min <= sv.node.value[LastWord(choice)].max
    ensures var rs := Resized(ns, sv, Some(choice), minSize, maxSize, defaultSize);
      rs[i].size <= rs[j].size
  {
    var m := LastWord(choice);
    var r := sv.node.value[m];
    RescaleMonotone(ns[i].attrs[m], ns[j].attrs[m], r.min, r.max, minSize, maxSize);
    var rs := Resized(ns, sv, Some(choice), minSize, maxSize, defaultSize);
    assert rs[i].size == Rescale(ns[i].attrs[m], r.min, r.max, minSize, maxSize);
    assert rs[j].size == Rescale(ns[j].attrs[m], r.min, r.max, minSize, maxSize);
  }

  /** Nodes with the numeric columns have a value for every column bounds exist for. */
  lemma BoundedColumnsPresent(cols: seq<string>, ns: seq<GraphNode>, sv: ScalingVars, choice: string)
    requires OwnBounds(cols, ns, sv) && HasWord(choice) && (ns != [] ==> HasSpread(sv, LastWord(choice)))
    ensures SizeableBy(ns, sv, choice)
  {
    var m := LastWord(choice);
    forall k | 0 <= k < |ns|
      ensures m in ns[k].attrs
    {
      assert GraphAttrs(ns)[k] in GraphAttrs(ns);
    }
  }

  // ---------------------------------------------------------------------
  // Status line (update_total_related_topics)
  // ---------------------------------------------------------------------

  /** The three messages of the status line. */
  datatype Status = RelatedTopics(query: string, count: int) | AskForTopic | TopicNotFound

  /** `update_total_related_topics(search_text)`, before formatting. */
  function StatusOf(df: Dataset, q: Option<string>): Status
    requires Resolvable(df, q)
  {
    var r := GenerateData(df, q);
    if r.Some? then RelatedTopics(q.value, |r.value.1.rows| - 1)
    else if q.None? || q.value == "" then AskForTopic
    else TopicNotFound
  }

  /** The text shown for a status. */
  function Message(s: Status): string {
    match s
    case RelatedTopics(query, count) =>
      "Total number of \"" + query + "\" related topics: " + Thousands(count)
    case AskForTopic => "Type a topic you want to find."
    case TopicNotFound => "Topic not found."
  }

  /**
   * The status line reports the related topics exactly when the query
   * selects a graph, and then counts the graph's nodes other than one; it
   * asks for a topic exactly when the box is empty, and reports a miss
   * exactly when a non-empty query matches no topic.
   */
  lemma StatusCases(df: Dataset, q: Option<string>)
    requires Resolvable(df, q)
    ensures StatusOf(df, q).RelatedTopics? <==> Selected(df, q)
    ensures StatusOf(df, q).RelatedTopics? ==>
      && StatusOf(df, q).query == q.value
      && StatusOf(df, q).count == |GenerateData(df, q).value.1.rows| - 1
      && StatusOf(df, q).count >= 0
    ensures StatusOf(df, q).AskForTopic? <==> q.None? || q.value == ""
    ensures StatusOf(df, q).TopicNotFound? <==>
      q.Some? && q.value != "" && Normalise(q.value) !in CleanTopics(df)
  {
    if Selected(df, q) {
      NodesNotEmpty(df, q);
    }
  }

  /** The count reported is one less than the number of nodes the search draws. */
  lemma StatusCountsDrawnNodes(df: Dataset, q: Option<string>, ns: seq<GraphNode>, es: seq<GraphEdge>,
                               sv: ScalingVars, defaultSize: real)
    requires Resolvable(df, q) && Selected(df, q)
    requires Parsed(ns, es, sv, GenerateData(df, q).value, defaultSize)
    ensures StatusOf(df, q) == RelatedTopics(q.value, |ns| - 1)
  {
  }

  /** The count can be read back from the message: its digits after the prefix, without commas. */
  lemma MessageCount(query: string, count: int)
    ensures var prefix := "Total number of \"" + query + "\" related topics: ";
      var m := Message(RelatedTopics(query, count));
      && |prefix| <= |m| && m[..|prefix|] == prefix
      && var u := Uncomma(m[|prefix|..]);
         && u != [] && (IsDigit(u[0]) || u[0] == '-') && IsDigits(u[1..])
         && ValueOfSigned(u) == count
  {
    var prefix := "Total number of \"" + query + "\" related topics: ";
    var m := Message(RelatedTopics(query, count));
    assert m == prefix + Thousands(count);
    assert m[|prefix|..] == Thousands(count);
    ThousandsRoundTrip(count);
  }

  /** The three kinds of status are told apart by their text. */
  lemma MessagesDiffer(s: Status, s': Status)
    requires s.RelatedTopics? != s'.RelatedTopics? || s.AskForTopic? != s'.AskForTopic?
    ensures Message(s) != Message(s')
  {
    MessageMark(s);
    MessageMark(s');
  }

  /** The second and third characters of each message. */
  lemma MessageMark(s: Status)
    ensures |Message(s)| > 2
    ensures s.RelatedTopics? ==> Message(s)[1] == 'o' && Message(s)[2] == 't'
    ensures s.AskForTopic? ==> Message(s)[1] == 'y'
    ensures s.TopicNotFound? ==> Message(s)[1] == 'o' && Message(s)[2] == 'p'
  {
  }

  // ---------------------------------------------------------------------
  // The application object
  // ---------------------------------------------------------------------

  /**
   * The `data` dictionary handed to the network widget. Its node list is an
   * array because sizing rewrites the nodes' `size` entries in place.
   */
  class GraphData {
    const nodes: array<GraphNode>
    const edges: seq<GraphEdge>

    constructor(g: Graph)
      ensures fresh(nodes) && nodes[..] == g.nodes && edges == g.edges
    {
      nodes := new GraphNode[|g.nodes|](k requires 0 <= k < |g.nodes| => g.nodes[k]);
      edges := g.edges;
    }
  }

  /**
   * `generate_data(df, q)` followed by `parse_data(edge_df, node_df)`, for a
   * query that selects a graph.
   */
  method Load(df: Dataset, q: Option<string>, defaultSize: real) returns (d: GraphData, sv: ScalingVars)
    requires Resolvable(df, q) && Selected(df, q)
    ensures fresh(d) && fresh(d.nodes)
    ensures Parsed(d.nodes[..], d.edges, sv, GenerateData(df, q).value, defaultSize)
    ensures OwnBounds(NodeNumericColumns(), d.nodes[..], sv) && sv.edge == map[]
  {
    var t := GenerateData(df, q).value;
    var parsed := ParseData(t.0, Some(t.1), defaultSize);
    d := new GraphData(parsed.value.0);
    sv := parsed.value.1;
    ParsedBounds(d.nodes[..], d.edges, sv, t, defaultSize);
  }

  class Medial {
    const df: Dataset
    const minNodeSize: real
    const maxNodeSize: real
    const defaultNodeSize: real
    const sizeTopicsBy: seq<string>
    var data: GraphData
    var scalingVars: ScalingVars

    /**
     * The stored bounds are those of the stored graph: node bounds for its
     * numeric node columns, and none for its edges, which have no numeric
     * columns.
     */
    ghost predicate Valid()
      reads this, data, data.nodes
    {
      && OwnBounds(NodeNumericColumns(), data.nodes[..], scalingVars)
      && scalingVars.edge == map[]
    }

    /** The bounds the next search leaves in `scaling_vars`. */
    ghost function NextScalingVars(df: Dataset, searchText: Option<string>): ScalingVars
      requires Resolvable(df, searchText)
      reads this
    {
      if Selected(df, searchText) then
        var t := GenerateData(df, searchText).value;
        ScalingVarsOf(t.0, Some(t.1))
      else scalingVars
    }

    /**
     * `Medial()`: the graph of the initial topic, parsed. `topic` is the
     * default argument of `generate_data`, "Life" unless given.
     */
    constructor(df: Dataset, minNodeSize: real, maxNodeSize: real, defaultNodeSize: real,
                topic: string := InitialTopic())
      requires Resolvable(df, Some(topic)) && Selected(df, Some(topic))
      ensures this.df == df && this.minNodeSize == minNodeSize && this.maxNodeSize == maxNodeSize
      ensures this.defaultNodeSize == defaultNodeSize && sizeTopicsBy == SizeTopicsBy()
      ensures fresh(data) && fresh(data.nodes)
      ensures Parsed(data.nodes[..], data.edges, scalingVars, GenerateData(df, Some(topic)).value, defaultNodeSize)
      ensures Valid()
    {
      var d, sv := Load(df, Some(topic), defaultNodeSize);
      ghost var ns := d.nodes[..];
      this.df := df;
      this.minNodeSize := minNodeSize;
      this.maxNodeSize := maxNodeSize;
      this.defaultNodeSize := defaultNodeSize;
      sizeTopicsBy := SizeTopicsBy();
      data := d;
      scalingVars := sv;
      new;
      assert data.nodes[..] == ns;
    }

    /**
     * `callback_search_graph`: a query that selects a graph gives that graph
     * freshly parsed, any other query the stored graph and bounds themselves.
     */
    method CallbackSearchGraph(df: Dataset, searchText: Option<string>) returns (d: GraphData, sv: ScalingVars)
      requires Valid() && Resolvable(df, searchText)
      ensures OwnBounds(NodeNumericColumns(), d.nodes[..], sv) && sv.edge == map[]
      ensures sv == NextScalingVars(df, searchText)
      ensures !Selected(df, searchText) ==> d == data
      ensures Selected(df, searchText) ==>
        && fresh(d) && fresh(d.nodes)
        && Parsed(d.nodes[..], d.edges, sv, GenerateData(df, searchText).value, defaultNodeSize)
    {
      var tables := GenerateData(df, searchText);
      if tables.Some? {
        d, sv := Load(df, searchText, defaultNodeSize);
        return;
      }
      d, sv := data, scalingVars;
    }

    /**
     * `callback_size_nodes`: rewrites the size of every node of `d` in place
     * and hands back the same graph.
     */
    method CallbackSizeNodes(d: GraphData, sv: ScalingVars, sizeBy: Option<string>) returns (r: GraphData)
      requires sizeBy.Some? ==> SizeableBy(d.nodes[..], sv, sizeBy.value)
      modifies d.nodes
      ensures r == d
      ensures d.nodes[..] == Resized(old(d.nodes[..]), sv, sizeBy, minNodeSize, maxNodeSize, defaultNodeSize)
    {
      ghost var ns := d.nodes[..];
      if sizeBy.Some? {
        var i := 0;
        while i < d.nodes.Length
          invariant 0 <= i <= d.nodes.Length
          invariant forall k :: 0 <= k < i ==>
            d.nodes[k] == ResizedNode(ns[k], sv, sizeBy, minNodeSize, maxNodeSize, defaultNodeSize)
          invariant forall k :: i <= k < d.nodes.Length ==> d.nodes[k] == ns[k]
        {
          // the node's value in the column named by the last word, rescaled
          d.nodes[i] := ResizedNode(d.nodes[i], sv, sizeBy, minNodeSize, maxNodeSize, defaultNodeSize);
          i := i + 1;
        }
      } else {
        var i := 0;
        while i < d.nodes.Length
          invariant 0 <= i <= d.nodes.Length
          invariant forall k :: 0 <= k < i ==> d.nodes[k] == ns[k].(size := defaultNodeSize)
          invariant forall k :: i <= k < d.nodes.Length ==> d.nodes[k] == ns[k]
        {
          d.nodes[i] := d.nodes[i].(size := defaultNodeSize);
          i := i + 1;
        }
      }
      r := d;
    }

    /**
     * `setting_pane_callback`: searches, sizes the result and stores both the
     * graph and its bounds, so that what is stored is what is returned.
     */
    method SettingPaneCallback(searchText: Option<string>, sizeBy: Option<string>) returns (d: GraphData)
      requires Valid() && Resolvable(df, searchText)
      requires sizeBy.Some? ==> HasWord(sizeBy.value) && HasSpread(NextScalingVars(df, searchText), LastWord(sizeBy.value))
      modifies this, data.nodes
      ensures Valid()
      ensures d == data && scalingVars == old(NextScalingVars(df, searchText))
      ensures !Selected(df, searchText) ==>
        && data == old(data)
        && (sizeBy.Some? ==> SizeableBy(old(data.nodes[..]), scalingVars, sizeBy.value))
        && data.nodes[..] == Resized(old(data.nodes[..]), scalingVars, sizeBy, minNodeSize, maxNodeSize, defaultNodeSize)
      ensures Selected(df, searchText) ==>
        && fresh(data) && fresh(data.nodes)
        && SizedParse(data.nodes[..], data.edges, scalingVars, GenerateData(df, searchText).value, sizeBy,
                      minNodeSize, maxNodeSize, defaultNodeSize)
    {
      var found, sv := CallbackSearchGraph(df, searchText);
      ghost var ns := found.nodes[..];
      if sizeBy.Some? {
        BoundedColumnsPresent(NodeNumericColumns(), ns, sv, sizeBy.value);
      }
      d := CallbackSizeNodes(found, sv, sizeBy);
      ResizedKeepsBounds(NodeNumericColumns(), ns, sv, sizeBy, minNodeSize, maxNodeSize, defaultNodeSize);
      scalingVars := sv;
      data := d;
      assert data.nodes[..] == Resized(ns, sv, sizeBy, minNodeSize, maxNodeSize, defaultNodeSize);
      if Selected(df, searchText) {
        SizedParseOf(data.nodes[..], ns, data.edges, sv, GenerateData(df, searchText).value, sizeBy,
                     minNodeSize, maxNodeSize, defaultNodeSize);
      }
    }
  }

  /** A graph `parse_data` made of the tables `t`, then sized. */
  ghost predicate SizedParse(nodes: seq<GraphNode>, es: seq<GraphEdge>, sv: ScalingVars, t: (EdgeTable, NodeTable),
                       sizeBy: Option<string>, minSize: real, maxSize: real, defaultSize: real) {
    exists ns ::
      && Parsed(ns, es, sv, t, defaultSize)
      && (sizeBy.Some? ==> SizeableBy(ns, sv, sizeBy.value))
      && nodes == Resized(ns, sv, sizeBy, minSize, maxSize, defaultSize)
  }

  /** `ns` is the parsed node list that `nodes` was sized from. */
  lemma SizedParseOf(nodes: seq<GraphNode>, ns: seq<GraphNode>, es: seq<GraphEdge>, sv: ScalingVars,
                     t: (EdgeTable, NodeTable), sizeBy: Option<string>, minSize: real, maxSize: real, defaultSize: real)
    requires Parsed(ns, es, sv, t, defaultSize)
    requires sizeBy.Some? ==> SizeableBy(ns, sv, sizeBy.value)
    requires nodes == Resized(ns, sv, sizeBy, minSize, maxSize, defaultSize)
    ensures SizedParse(nodes, es, sv, t, sizeBy, minSize, maxSize, defaultSize)
  {
  }

  /** The graph `parse_data` makes of a generated table pair carries its own node bounds and no edge bounds. */
  lemma ParsedBounds(ns: seq<GraphNode>, es: seq<GraphEdge>, sv: ScalingVars, t: (EdgeTable, NodeTable), defaultSize: real)
    requires Parsed(ns, es, sv, t, defaultSize)
    requires t.1.numeric == NodeNumericColumns() && t.0.numeric == []
    ensures OwnBounds(NodeNumericColumns(), ns, sv) && sv.edge == map[]
  {
    assert GraphAttrs(ns) == NodeAttrs(t.1.rows);
    NodeColumns(t.1);
    EdgeColumns(t.0);
    assert ScalingOf(t.0.numeric, EdgeAttrs(t.0.rows)).Keys == {};
  }

  /**
   * Edge ids are pairwise different in every graph a search draws, in
   * whichever direction each edge is written (`rows'`), as long as no topic
   * and no related topic of the dataset contains `_`. A related topic may
   * end up as the source of an edge, so both conditions are needed.
   */
  lemma DrawnEdgeIdsDistinct(df: Dataset, q: Option<string>, rows': seq<EdgeRecord>,
                             ns: seq<GraphNode>, es: seq<GraphEdge>, sv: ScalingVars, defaultSize: real)
    requires Resolvable(df, q) && Selected(df, q)
    requires forall t :: t in df ==> '_' !in t.topic
    requires forall t, y :: t in df && y in t.related ==> '_' !in y
    requires var g := GenerateData(df, q).value; Reoriented(rows', g.0.rows)
    requires var g := GenerateData(df, q).value; Parsed(ns, es, sv, (g.0.(rows := rows'), g.1), defaultSize)
    ensures forall i, j :: 0 <= i < j < |es| ==> es[i].id != es[j].id
  {
    var rows := GenerateData(df, q).value.0.rows;
    GeneratedProvenance(df, q);
    ReorientedKeeps(rows', rows);
    forall k | 0 <= k < |rows'|
      ensures '_' !in rows'[k].from && '_' !in rows'[k].to
    {
      assert rows[k] in rows;
    }
    forall i, j | 0 <= i < j < |rows'|
      ensures (rows'[i].from, rows'[i].to) != (rows'[j].from, rows'[j].to)
    {
      assert !Joins(rows'[j], rows'[i].from, rows'[i].to);
    }
    EdgeIdsDistinct(rows', es);
  }
}
