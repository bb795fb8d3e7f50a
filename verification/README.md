# Medial topic graph — a Dafny model

Medial is a small Dash application. It draws the neighbourhood of one Medium
topic as a network. A search box selects the topic and a dropdown sizes the
nodes by number of stories or number of writers. A status line reports how many
related topics were found. This project models the core of that application and
proves properties of it:

- `generate_data` (utils.py) picks the row whose normalised name matches the
  query. It keeps the rows named by that row's related topics or spelled
  exactly like the query, and explodes them into unordered topic pairs, without
  duplicates. Module `EgoGraph`; the normalisation is in `Text`.
- `compute_scaling_vars_for_numerical_cols` (utils.py) finds the smallest and
  largest value of every numeric column. Module `Scaling`, a loop proved against
  `ScalingOf`.
- `parse_data` (utils.py) checks the schema, then builds the node and edge lists
  for the network widget and the column bounds. Module `Payload`, loops proved
  against `IsNodeEntry` and `IsEdgeEntry`.
- The `Medial` class (app.py) holds the shown graph (`data`) and its bounds
  (`scaling_vars`). It also holds the search callback, the in-place node sizing,
  the combined callback that stores its result, and the status message.
  Module `App`, using `Sizing` (last word of the dropdown label, linear rescale)
  and `Format` (the `{:,d}` thousands format).

The node list the widget draws is an `array`, because `callback_size_nodes`
rewrites each node's size in place. That in-place update is shared: when a
search selects nothing, the callback resizes the stored graph itself.
`SettingPaneCallback`'s contract states this sharing.

## Model

| member | source | states |
|---|---|---|
| Text.ReplaceSeparators | utils.py:25-27 | the result holds only letters, digits and spaces, has no two spaces in a row, is empty exactly when the input is, and starts with the input's first character or a space; that each separator run becomes exactly one space is proved by ReplaceSeparatorsBetween and ReplaceAroundWords |
| Text.Normalise | utils.py:25-27 | the normal form is lower-case letters, digits and single inner spaces, with no leading or trailing space |
| Text.NormaliseKeepsAlnums | utils.py:26-27 | normalising keeps every letter and digit of the name, in order and lower-cased |
| Text.NormaliseFixesNormal | utils.py:26-27 | a name already in normal form is left unchanged |
| Text.NormaliseIdempotent | utils.py:26-27 | normalising twice is normalising once |
| Text.NormaliseWord | utils.py:26-27 | a single word of letters and digits normalises to its lower-case spelling |
| Text.ReplaceSeparatorsBetween | utils.py:25-26 | a word followed by a run of separators keeps the word as it is and turns the whole run into exactly one space before the rest |
| Text.ReplaceAroundWords | utils.py:25-26 | after the substitution a name is its words (maximal runs of letters and digits) joined by single spaces, with at most one space before and one after |
| Text.NormaliseIsJoinedWords | utils.py:25-27 | the normal form is the name's words, lower-cased, joined by single spaces; what separates the words does not matter |
| Text.JoinInjective | utils.py:25-27 | different word lists give different joined texts |
| Text.SameNormalIffSameWords | utils.py:25-28 | a query matches a topic exactly when their words agree up to letter case |
| Text.TwoWordNames | utils.py:25-28 | two two-word names whose words agree up to letter case match, whatever runs of separators stand between the words |
| Text.MachineLearningExample | utils.py:25-28 | "Machine-Learning" and "machine learning" match |
| EgoGraph.IndexOf | utils.py:31 | the index of the first occurrence of the key |
| EgoGraph.MatchedRow | utils.py:28-31 | definition, no ensures: the row at the first normalised topic equal to the normalised query; see MatchedRowIsSole |
| EgoGraph.MatchedRowIsSole | utils.py:28-31 | the matched row belongs to the dataset and normalises like the query, and when only one topic does (so `.item()` returns) it is the only such row |
| EgoGraph.Keep | utils.py:32-35 | `isin` keeps only dataset rows whose topic is one of the keys, and no more rows than the dataset has |
| EgoGraph.KeepHas | utils.py:32-35 | every dataset row whose topic is one of the keys is kept |
| EgoGraph.KeptRows | utils.py:32-35 | definition, no ensures: `Keep` of the matched row's related topics plus the query as typed; see Keep, KeepHas, KeptRowIsNode |
| EgoGraph.PairsOf | utils.py:36 | one row explodes into exactly the pairs (topic, related topic) |
| EgoGraph.Explode | utils.py:36 | definition, no ensures: the rows' pairs, row by row; see PairsOf, ExplodeHas, ExplodeFrom |
| EgoGraph.ExplodeHas | utils.py:36 | every related topic of every kept row gives a pair |
| EgoGraph.ExplodeFrom | utils.py:36 | every pair comes from a row and one of its related topics |
| EgoGraph.SamePairIsSetEquality | utils.py:37 | two pairs are the same exactly when their two-element sets are equal |
| EgoGraph.DropDuplicatePairs | utils.py:37-38 | `drop_duplicates` keeps only input pairs, and no two kept pairs are the same unordered pair |
| EgoGraph.DropDuplicatesCovers | utils.py:37-38 | no unordered pair is lost by dropping duplicates |
| EgoGraph.PairEdges | utils.py:41-42 | one edge row per pair, `from` the pair's first topic and `to` its second, in the model's own direction (see Left out); see PairEdgesKeepPairs |
| EgoGraph.PairEdgesKeepPairs | utils.py:41-42 | the edges' endpoints are exactly the topics of the pairs, and the edges are distinct exactly when the pairs are distinct as sets |
| EgoGraph.ReorientedKeeps | utils.py:37-42 | whether edges are distinct, and which topics they end at, does not depend on the direction each edge is written in |
| EgoGraph.SelectNodes | utils.py:44-50 | node rows are dataset rows, renamed and without related topics, whose topic is an edge endpoint |
| EgoGraph.IndicesFrom | utils.py:45-47 | every listed dataset position is in range, at or after the start, and holds a selected topic |
| EgoGraph.IndicesFromIncreasing | utils.py:45-47 | the listed positions are strictly increasing, so dataset order is kept and no row is listed twice |
| EgoGraph.IndicesFromHas | utils.py:45-47 | every position at or after the start whose topic is selected is listed |
| EgoGraph.SelectNodesInOrder | utils.py:44-50 | the node rows are one row per selected dataset row, in dataset order, duplicates included |
| EgoGraph.SelectNodesHas | utils.py:44-50 | every dataset row whose topic is an endpoint is selected |
| EgoGraph.GenerateData | utils.py:21-51 | `(None, None)` exactly when the query is absent or empty, or matches no normalised topic. Otherwise it returns the edge table (`from`, `to`, no numeric columns) and the node table (`id`, `stories`, `writers`). Both are well formed, and no two edges join the same two topics |
| EgoGraph.GeneratedProvenance | utils.py:31-50 | every edge runs from a kept row to one of its related topics; every node is the row of a dataset topic that ends some edge |
| EgoGraph.EdgesCoverKeptRows | utils.py:31-42 | every related topic of every kept row is joined to it by an edge |
| EgoGraph.EndpointRowsAreNodes | utils.py:44-50 | every dataset row whose topic ends an edge is a node |
| EgoGraph.KeptRowIsNode | utils.py:31-50 | every kept row is a node |
| EgoGraph.RelatedTopicsAreNodes | utils.py:31-50 | every dataset row named among the matched row's related topics is a node |
| EgoGraph.ExactQueryRowIsNode | utils.py:32-50 | a row spelled exactly as the query is a node |
| EgoGraph.NodesNotEmpty | utils.py:44-50 | a selected graph has at least one node |
| EgoGraph.LifeWritingExample | utils.py:21-51 | two topics that name each other, searched in lower case, give one edge (from the kept row) and both nodes |
| EgoGraph.DanglingEdgeExample | utils.py:32-50 | an edge can end at a topic that has no row, and the searched topic itself need not be a node |
| Scaling.MinOf | utils.py:62 | the minimum is a value of the column and no value is smaller |
| Scaling.MaxOf | utils.py:62 | the maximum is a value of the column and no value is larger |
| Scaling.RangeOf | utils.py:62-63 | NaN bounds exactly for an empty column; otherwise `min <= max`, both attained, enclosing every value |
| Scaling.ScalingOf | utils.py:59-65 | one entry per numeric column and no other |
| Scaling.ComputeScalingVars | utils.py:53-65 | the loop builds exactly `ScalingOf` of the columns |
| Scaling.ScalingBoundsTight | utils.py:61-63 | for a table with rows, each column's bounds satisfy `min <= max`, are attained by some row, and enclose every row |
| Scaling.ScalingOfNoRows | utils.py:62 | a table without rows has NaN bounds in every numeric column |
| Scaling.ScalingDependsOnValues | utils.py:61-63 | the bounds depend only on the column values |
| Payload.EndpointList | utils.py:97-98 | every edge endpoint exactly once |
| Payload.EndpointNodesCover | utils.py:97-99 | without a node table, nodes are exactly the endpoints, each once, each a `dot` node of the default size labelled by its id |
| Payload.NodeEntries | utils.py:104-112 | one node per node-table row, in order. Each has label = id; it is `dot` with the default size, or `circularImage` of size 20 carrying the row's image when the image column exists |
| Payload.EdgeEntries | utils.py:114-117 | one edge per edge-table row, in order, with id `from + "__" + to` and the fixed colour |
| Payload.ParseData | utils.py:67-120 | raises the missing `from`/`to` error before the missing `id` error, exactly when those columns are absent. Otherwise it returns the node and edge lists above and the bounds of both tables |
| Payload.ImageNodesHaveImages | utils.py:104-112 | with an image column every node is a `circularImage` carrying an image address |
| Payload.EdgeIdInjective | utils.py:117 | when the source topic has no `_`, an edge id determines both endpoints |
| Payload.EdgeIdCollision | utils.py:117 | without that condition two different edges can share an id |
| Payload.EdgeIdsDistinct | utils.py:117 | distinct endpoint pairs with `_`-free sources give distinct edge ids |
| Sizing.LastWord | app.py:139 | `split()[-1]` is a non-empty run without whitespace |
| Sizing.LastWordEnds | app.py:139 | the word found ends the label up to trailing whitespace and follows whitespace or starts the label |
| Sizing.LastWordOf | app.py:139 | any label made of a prefix ending in whitespace, a word and trailing whitespace has that word last |
| Sizing.NumberOfLabel | app.py:26 | a dropdown label "Number of " followed by a word sizes by that word |
| Sizing.Rescale | app.py:141-144 | definition, no ensures: the source's linear formula with an unguarded division by `max - min`; see RescaleEnds, RescaleWithin, RescaleMonotone, RescaleAffine |
| Sizing.RescaleEnds | app.py:140-144 | the column minimum gets the smallest size and the maximum the largest |
| Sizing.RescaleMonotone | app.py:140-144 | larger values never get smaller nodes |
| Sizing.RescaleWithin | app.py:140-144 | values within the column bounds get sizes within the size bounds |
| Sizing.RescaleAffine | app.py:140-144 | equal steps in value give equal steps in size |
| Format.DigitValue | app.py:198 | reading a digit character back gives the digit it was written from |
| Format.Digits | app.py:198 | decimal digits, non-empty, without a leading zero |
| Format.DigitsRoundTrip | app.py:198 | reading the digits back gives the number |
| Format.UncommaGroup | app.py:198 | removing the commas of a grouped number gives its digits back |
| Format.GroupCommas | app.py:198 | every comma is followed by exactly three digits and then a comma or the end |
| Format.GroupFirst | app.py:198 | the first group has one to three digits |
| Format.Thousands | app.py:198 | definition, no ensures: an optional minus, then the digits grouped in threes from the right; see GroupCommas, GroupFirst, UncommaGroup, ThousandsRoundTrip |
| Format.ThousandsRoundTrip | app.py:198 | the `{:,d}` text without commas is an optional minus and digits that read back as the number |
| App.DropdownLabelsName | app.py:26 | both dropdown entries name a numeric node column by their last word |
| App.ResizedNode | app.py:138-147 | definition, no ensures: the node with `size` set to `Rescale` of its value in the chosen column, or to the default without a choice; see Resized, CallbackSizeNodes |
| App.Resized | app.py:137-148 | sizing keeps every node and its order and changes only `size`; without a choice every size is the default |
| App.ResizedKeepsAttrs | app.py:137-148 | sizing leaves every node's numeric columns unchanged |
| App.ResizedKeepsBounds | app.py:137-148 | bounds that were the node list's own stay its own after sizing |
| App.ResizedIdempotent | app.py:137-148 | sizing twice with the same choice is sizing once |
| App.ResizedWithinBounds | app.py:137-148 | with the graph's own bounds every size lies in `[MIN, MAX]`, and for a non-empty graph both ends are used |
| App.ResizedMonotone | app.py:137-148 | a node with a larger value in the chosen column is never drawn smaller |
| App.BoundedColumnsPresent | app.py:137-143 | every node has a value for each column its own bounds cover, so sizing does not raise a missing-key error |
| App.StatusOf | app.py:195-201 | definition, no ensures: the related-topics status with `len(node_df) - 1` when a graph is generated, else asking for a topic when the query is absent or empty, else not found; see StatusCases, StatusCountsDrawnNodes |
| App.Message | app.py:198-201 | definition, no ensures: the three fixed texts, the count written with `{:,d}`; see MessageCount, MessagesDiffer |
| App.StatusCases | app.py:195-201 | the related-topics message appears exactly when the query selects a graph; "Type a topic" exactly when the box is empty; "Topic not found" exactly when a non-empty query matches nothing. The count is the node count minus one, never negative |
| App.StatusCountsDrawnNodes | app.py:196-198 | the count is one less than the number of nodes the search draws |
| App.MessageCount | app.py:198 | the count can be read back from the message text |
| App.MessagesDiffer | app.py:198-201 | the three kinds of message are different texts |
| App.GraphData.constructor | utils.py:120 | the payload's node array holds exactly the parsed nodes, freshly allocated |
| App.Load | app.py:22-23 | `generate_data` then `parse_data`: fresh nodes parsed from the generated tables, carrying their own node bounds and no edge bounds |
| App.ParsedBounds | utils.py:89-93 | the bounds `parse_data` returns for generated tables are the nodes' own and empty for edges |
| App.DrawnEdgeIdsDistinct | utils.py:117 | when no topic and no related topic of the dataset contains `_`, every drawn graph has pairwise distinct edge ids, whichever direction each edge is written in |
| App.Medial.constructor | app.py:16-26 | the object holds the parsed graph of the initial topic, its bounds and the two dropdown entries, and the bounds are the graph's own |
| App.Medial.CallbackSearchGraph | app.py:130-135 | a selecting query gives a freshly parsed graph; any other query gives the stored graph and bounds themselves. In both cases the bounds are the graph's own |
| App.Medial.CallbackSizeNodes | app.py:137-148 | rewrites the node array in place to exactly `Resized` of the old nodes and returns the same graph |
| App.Medial.SettingPaneCallback | app.py:208-213 | stores exactly what it returns, and keeps the stored bounds the stored graph's own. A non-selecting query resizes the stored graph in place; a selecting one stores the sized parse of the new tables |

## Left out

- The Dash layout, the HTML index template, the `visdcc` widget, the callback
  wiring and `run_server`: user-interface plumbing with no logic of its own.
- `pd.read_json`: the dataset is a constructor parameter.
- `preprocess_data` and `self.table`: they only feed the ranking table on
  screen.
- `select_dtypes`: a table's numeric columns are listed explicitly in the table.
- `astype(str)`: ids and endpoints are strings already.
- config.py is not part of this model. `MIN_NODE_SIZE`, `MAX_NODE_SIZE` and
  `DEFAULT_NODE_SIZE` are constructor parameters.
- Floating point: values are reals. A column without values has NaN bounds in
  pandas; here that is `NaNRange`. No other NaN or infinity arises.
- Set order: Python gives no order to the sets that `generate_data` turns into
  edges, or to the endpoint set of `parse_data`. The model orients each edge
  from the kept row to its related topic, and lists endpoints in order of first
  appearance. `EgoGraph.Reoriented` describes every other choice of direction.
  `EgoGraph.ReorientedKeeps` shows that distinct edges and their endpoints do
  not depend on it, and `App.DrawnEdgeIdsDistinct` holds for every direction.
  These members state the model's own direction; in the source they hold only
  up to swapping `from` and `to` of each edge:
  - EgoGraph.PairEdges: `from` is the first element of the pair.
  - EgoGraph.EdgeFacts: `from` is a kept row and `to` one of its related topics.
  - EgoGraph.GeneratedProvenance: the same, for the generated edge table.
  - EgoGraph.LifeWritingExample: the one edge is written from "Writing" to "Life".
  - EgoGraph.DanglingEdgeExample: the one edge is written from "Writing" to "Poetry".
  - App.Load, App.Medial.constructor, App.Medial.CallbackSearchGraph and
    App.Medial.SettingPaneCallback: their `Parsed` ensures give each edge the
    generated table's `from` and `to`, and so the id `from__to`; in the source
    the id may be either `A__B` or `B__A`.
- Sizing.Rescale, App.ResizedNode, App.Resized, App.Medial.CallbackSizeNodes and
  App.Medial.SettingPaneCallback require the chosen column's `max` and `min` to
  differ. With equal bounds the source divides by zero and numpy produces
  infinite or NaN sizes. That IEEE behaviour is not modelled.
- EgoGraph.GenerateData requires `Resolvable`. It excludes two paths that
  raise and two that give an edge with a NaN endpoint:
  - more than one row matching the query (`.item()` raises);
  - no kept rows (`set.union()` of nothing raises);
  - a kept row whose related topics are empty. Exploding the empty list gives
    NaN, so the set is {topic, NaN} and the edge ends at NaN; `parse_data`
    then writes its id as `topic__nan`.
  - a kept row that names itself among its related topics. That gives a
    one-element set, and splitting it into `from` and `to` fills the missing
    end with NaN. This raises only when every set has one element.
  The raising paths are preconditions rather than modelled errors. NaN
  endpoints are not modelled.
- App.Medial.constructor takes the start-up topic as a parameter, with default
  "Life". Its contract holds for any topic that selects a graph.
- Text.Lower maps only ASCII letters. By the time it runs, the substitution has
  left only ASCII letters, digits and spaces.

## Notes on the code

These are places where the code does less than one might expect of it. The
model follows the code.

- One might expect every edge endpoint to be a node, but an edge can end at a
  topic that has no node. A related topic without a row of its own still ends
  an edge. `EgoGraph.DanglingEdgeExample` shows this.
- The searched topic itself is not always a node. A row is kept when its topic
  is among the matched row's related topics, or is spelled exactly as the query
  was typed. A lower-case query for a capitalised topic therefore drops that
  topic unless another kept row names it. `EgoGraph.DanglingEdgeExample` shows
  this as well.
