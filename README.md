# Planarity checker backend: edge-list parser and report assembly

This project models the backend of a small planarity-checking web service.
A user uploads a plain-text edge list, one edge per line (`0 1`, `1 2`, ...).
The handler `check_planarity` in `Backend/app.py` parses the text into an
undirected networkx graph with `parse_graph_from_text`. It rejects a missing
upload and an empty graph with HTTP 400. Otherwise it asks networkx whether
the graph is planar and answers with a JSON report.

- The report carries a `status` (`planar` or `non_planar`), node records, edge
  records and a message.
- In the non-planar branch every edge record is tagged `is_conflict`,
  according to whether its unordered pair is an edge of the certificate.

The model has five modules:

- `Collections` (`collections.dfy`): `Option`, duplicate-freedom, and first-occurrence de-duplication.
- `PyStr` (`pystr.dfy`): Python's `str.split(sep)`, `str.strip()` and
  `str.split()`, with whitespace being the characters `str.isspace` accepts.
- `Graphs` (`graphs.dfy`): the part of networkx's `Graph` the backend uses.
  - `GraphView` is the value of a graph: its nodes in insertion order, and an
    insertion-ordered neighbour list per node.
  - `AddEdgeTo` is `add_edge`. `EdgeList` is the iteration order of
    `G.edges()`. `EdgeSet` is the graph's set of unordered pairs. A pair is
    Python's `frozenset([u, v])`, and a self-loop is a one-element pair.
  - The class `Graph` is the mutable graph object. Its method `AddEdge`
    updates the fields in place and keeps the invariant `WellFormed`: nodes
    are distinct and are the adjacency keys, neighbour lists are
    duplicate-free, and adjacency is symmetric.
- `EdgeListParser` (`parser.dfy`): `parse_graph_from_text`.
  - The method `ParseGraphFromText` mirrors the source's loop over the lines
    and its `add_edge` calls.
  - It is proved equal to the function `ParseText`, a fold of the per-line
    optional edges (`LineEdges`, `Build`).
  - The lemmas compare `ParseText` with reference descriptions: the node
    list is the first-occurrence list of the qualifying lines' first two
    tokens, and the edge set is the set of their pairs.
- `PlanarityService` (`service.dfy`): the handler.
  - `Respond` is the whole handler as a function of the request, the
    planarity oracle and the layout. `Outcome` is the report for a parsed,
    non-empty graph.
  - The method `CheckPlanarity` follows the source's statements. Its loops
    are `CollectConflictEdges` (filling `conflict_edges`) and `TagEdges`
    (appending the tagged edge records). It is proved equal to `Respond`.

The planarity test `nx.check_planarity` is a parameter `oracle: GraphView -> Verdict`.
Its certificate is any graph, or `None` (Python's `None`, as `Option.None`).
The layout (`nx.planar_layout`, or `nx.spring_layout` as the fallback) is a
parameter too. It gives the node ids of the position dict in iteration order.
So everything the handler outputs is a function of the graph, the verdict
and the layout's id order, and the lemmas state it that way.

networkx's code is not in this repository, so the behaviour the handler relies
on is modelled here: insertion-ordered nodes and neighbours, the `edges()`
iteration order, and the truthiness of a graph (it has nodes).

The oracle's certificate matters for the conflict tags: see "## Findings".

## Model

| member | source | states |
|---|---|---|
| PyStr.SplitOn | Backend/app.py:22 | `content.split('\n')`: the pieces between newlines, in order, empty ones included; there is always at least one piece |
| PyStr.SplitOnPieces | Backend/app.py:22 | no piece of `content.split('\n')` contains a newline |
| PyStr.JoinSplitOn | Backend/app.py:22 | joining the pieces of `split('\n')` with newlines gives back the text, so no character is lost |
| PyStr.SplitOnJoin | Backend/app.py:22 | splitting a join of newline-free pieces gives back exactly those pieces, empty ones included |
| PyStr.SplitOnAllSpace | Backend/app.py:22 | every line of a whitespace-only text is whitespace-only |
| PyStr.Strip | Backend/app.py:24 | `line.strip()`: the line without its leading and trailing whitespace; never longer than the line |
| PyStr.Split | Backend/app.py:24 | `s.split()`: the maximal runs of non-whitespace characters, in order (its properties are `SplitTokens`, `SplitToken`, `SplitAllSpace`) |
| PyStr.StripEnds | Backend/app.py:24 | `line.strip()` neither starts nor ends with whitespace |
| PyStr.LStripFacts | Backend/app.py:24 | the left strip drops exactly a whitespace prefix and stops at a non-space character |
| PyStr.RStripFacts | Backend/app.py:24 | the right strip drops exactly a whitespace suffix and stops at a non-space character |
| PyStr.SplitTokens | Backend/app.py:24 | every part of `split()` is a non-empty run of non-whitespace characters |
| PyStr.SplitAllSpace | Backend/app.py:24-25 | a whitespace-only (or empty) line splits into no parts |
| PyStr.SplitToken | Backend/app.py:24 | a token followed by whitespace or the end is the first part of `split()` |
| PyStr.SplitStrip | Backend/app.py:24 | `line.strip().split()` has the same parts as `line.split()` |
| PyStr.SplitJoinWords | Backend/app.py:24 | `split()` of tokens joined by single spaces gives back the tokens |
| Collections.Dedup | Backend/app.py:21-28 | the first-occurrence list is duplicate-free and has exactly the elements of its input |
| Collections.DedupOrder | Backend/app.py:21-28 | the first-occurrence list is ordered by first occurrence: an element listed before another occurs earlier in the input |
| Collections.DedupSnoc | Backend/app.py:28 | one more element extends the first-occurrence list by it exactly when it is new |
| Graphs.PairSymmetric | Backend/app.py:84 | `frozenset([u, v])` does not depend on the orientation |
| Graphs.PairCancel | Backend/app.py:89 | two pairs sharing an endpoint are equal exactly when their other endpoints are |
| Graphs.WellFormedEndpoints | Backend/app.py:21-28 | in a well-formed graph both endpoints of every edge are nodes |
| Graphs.AddNodeWellFormed | Backend/app.py:28 | adding a node keeps the graph invariant |
| Graphs.AddEdgeWellFormed | Backend/app.py:28 | `add_edge` keeps the graph invariant (distinct nodes, nodes = adjacency keys, duplicate-free symmetric adjacency) |
| Graphs.AddEdgeNodes | Backend/app.py:28 | `add_edge(u, v)` appends u when new, then v when new and different, and the node set grows by exactly {u, v} |
| Graphs.AddEdgeEdgeSet | Backend/app.py:28 | `add_edge(u, v)` adds exactly the pair {u, v} to the edge set |
| Graphs.AddEdgeAgain | Backend/app.py:28 | repeating the last `add_edge` call, in either orientation, changes nothing |
| Graphs.AddExistingEdge | Backend/app.py:28 | adding an edge a well-formed graph already has, in either orientation and however long ago it was added, changes nothing |
| Graphs.EdgeListSound | Backend/app.py:69 | every entry (u, v) of `G.edges()` is an adjacency of the graph, so its pair is an edge |
| Graphs.EdgeListComplete | Backend/app.py:88 | every edge appears in `G.edges()` in one of its orientations |
| Graphs.EdgeListDistinct | Backend/app.py:88 | `G.edges()` lists no unordered pair twice |
| Graphs.EdgeListPairs | Backend/app.py:83-84 | the pairs of `G.edges()` are exactly the edge set |
| Graphs.PairSetSize | Backend/app.py:88 | a list with no repeated pair has as many pairs as entries |
| Graphs.EdgeListLength | Backend/app.py:88 | `G.edges()` has `number_of_edges()` entries |
| Graphs.OneEdgeGraph | Backend/app.py:21 | `nx.Graph()` then `add_edge("a", "b")` gives nodes [a, b] with a and b adjacent |
| Graphs.OneEdgeList | Backend/app.py:88 | that graph's `edges()` is [(a, b)] |
| Graphs.OneEdgeSet | Backend/app.py:88 | that graph's edge set is {{a, b}} |
| Graphs.Graph.constructor | Backend/app.py:21 | `nx.Graph()` is well formed and has no nodes or edges |
| Graphs.Graph.AddEdge | Backend/app.py:28 | in-place `add_edge`: the new state is `AddEdgeTo` of the old one, the invariant holds, the edge set grows by {u, v} and every endpoint is a node |
| EdgeListParser.LineEdge | Backend/app.py:24-27 | the first two parts of `line.strip().split()` when there are at least two, else none; equal to the same on `line.split()`, and both endpoints are non-empty whitespace-free tokens |
| EdgeListParser.LineEdges | Backend/app.py:23-27 | one optional edge per line, in line order: the first two whitespace-separated tokens of the line when it has at least two, none otherwise (stated on `line.split()`, so the strip is shown to make no difference) |
| EdgeListParser.ParseGraphFromText | Backend/app.py:13-29 | the parser loop builds exactly `ParseText(content)`; every iteration keeps the graph invariant and "every edge endpoint is a node" |
| EdgeListParser.LineEdgeBySplit | Backend/app.py:24-27 | stripping a line before splitting it makes no difference to the edge it gives |
| EdgeListParser.QualifyingLine | Backend/app.py:25-28 | a line with at least two tokens performs `add_edge(tokens[0], tokens[1])` and adds exactly that pair |
| EdgeListParser.ShortLine | Backend/app.py:24-25 | a line with fewer than two tokens changes neither nodes nor edges |
| EdgeListParser.BlankLine | Backend/app.py:24-25 | a blank or whitespace-only line changes nothing |
| EdgeListParser.ExtraTokensIgnored | Backend/app.py:27 | tokens after the second one are ignored |
| EdgeListParser.BuildWellFormed | Backend/app.py:21-28 | the graph built from any lines is well formed and every edge endpoint is a node |
| EdgeListParser.BuildNodes | Backend/app.py:21-28 | the node list is the qualifying lines' first and second tokens in first-occurrence order, without duplicates |
| EdgeListParser.LinePairsSnoc | Backend/app.py:28 | one more line adds its pair, if it has one, to the reference edge set |
| EdgeListParser.BuildEdges | Backend/app.py:21-28 | the edge set is exactly the set of unordered pairs of the qualifying lines |
| EdgeListParser.EndpointsEmpty | Backend/app.py:25 | no endpoint is collected exactly when no line qualifies |
| EdgeListParser.BuildEmpty | Backend/app.py:25 | the built graph has no nodes exactly when no line contributed an edge |
| EdgeListParser.EmptyGraphLines | Backend/app.py:24-25 | the graph has no nodes exactly when no line has two tokens |
| EdgeListParser.EmptyGraph | Backend/app.py:22-25 | the parsed text has no nodes exactly when no line of `content.split('\n')` has two tokens |
| EdgeListParser.ParseTextFacts | Backend/app.py:13-29 | the parsed graph is well formed, its endpoints are nodes, and its nodes and edges are the reference ones read off the lines |
| EdgeListParser.TwoTokenLine | Backend/app.py:24-27 | a line "a b" gives the edge (a, b) |
| EdgeListParser.RepeatedPairText | Backend/app.py:22 | "a b\nb a\na b" splits into its three lines |
| EdgeListParser.RepeatedPairLines | Backend/app.py:23-27 | those three lines give the edges (a, b), (b, a), (a, b) |
| EdgeListParser.RepeatedPairBuild | Backend/app.py:28 | the second and third `add_edge` calls change nothing |
| EdgeListParser.RepeatedPairExample | Backend/app.py:13-29 | "a b\nb a\na b" parses to nodes [a, b] and the single edge {a, b}, listed once |
| EdgeListParser.SelfLoopExample | Backend/app.py:13-29 | "a a" parses to node a with a self-loop |
| PlanarityService.Truthy | Backend/app.py:82 | `if certificate:`: false for `None` and for a graph without nodes, true otherwise |
| PlanarityService.NodeRecords | Backend/app.py:86 | `[{"id": str(n)} for n in ...]`: one record per id, in order (also the ids of the planar records at Backend/app.py:68) |
| PlanarityService.PlanarEdges | Backend/app.py:69 | one `{"source", "target"}` record per entry of `G.edges()`, in order, with no `is_conflict` |
| PlanarityService.TaggedEdges | Backend/app.py:88-94 | one `{"source", "target", "is_conflict"}` record per entry of `G.edges()`, in order, tagged with whether its pair is in `conflict_edges` |
| PlanarityService.CollectConflictEdges | Backend/app.py:81-84 | the loop builds `ConflictSet(certificate)`: the certificate's edge pairs when it is truthy, else nothing |
| PlanarityService.TagEdges | Backend/app.py:87-94 | the loop appends, in `G.edges()` order, one record per edge with source, target and whether its pair is in `conflict_edges` |
| PlanarityService.CheckPlanarity | Backend/app.py:34-101 | the handler's statements compute `Respond(request, oracle, layout)` |
| PlanarityService.Accepted | Backend/app.py:47-54 | with a file that has an edge line, the parsed graph is well formed and non-empty, and the response is the report for the oracle's verdict on it |
| PlanarityService.RejectedIff | Backend/app.py:36-51 | the answer is 400 exactly when there is no `file` part or no line has two tokens; the missing part gives "没有上传文件" and the empty graph "解析失败，图是空的" |
| PlanarityService.BlankFileRejected | Backend/app.py:50-51 | an empty or whitespace-only file is rejected as an empty graph |
| PlanarityService.RejectedWithoutOracle | Backend/app.py:36-54 | a rejected request does not depend on the oracle or the layout |
| PlanarityService.StatusFollowsVerdict | Backend/app.py:56-101 | a report has HTTP 200 and status "planar" exactly when the verdict is planar, "non_planar" exactly when it is not, with the matching message |
| PlanarityService.NonPlanarNodes | Backend/app.py:86 | the non-planar report has one node record per graph node, in node order, none repeated |
| PlanarityService.ReportEdges | Backend/app.py:69-94 | in either branch each edge record is an edge of the graph with `source`/`target` its endpoints, every edge has a record, no edge has two, and there are `number_of_edges()` records |
| PlanarityService.ConflictSetEdges | Backend/app.py:81-84 | `conflict_edges` is the certificate's edge set when the certificate is truthy and empty otherwise |
| PlanarityService.ConflictTag | Backend/app.py:89-93 | a non-planar edge record is tagged `is_conflict = true` exactly when the certificate is truthy and has the record's pair as an edge, in either orientation |
| PlanarityService.FalsyCertificate | Backend/app.py:81-94 | with a `None` or node-less certificate no edge is marked |
| PlanarityService.MarkedEdges | Backend/app.py:81-94 | the marked pairs are exactly the graph's edges that the certificate also has; all certificate edges are marked when the certificate is a subgraph |
| PlanarityService.NoCounterexampleMarksNothing | Backend/app.py:54-94 | with an oracle that gives no certificate for a non-planar graph (networkx's default), every edge of a non-planar report is tagged `is_conflict = false` |
| PlanarityService.CounterexampleMarksCertificate | Backend/app.py:79-94 | with an oracle that gives a Kuratowski subgraph of the graph, the edges tagged `is_conflict = true` are exactly the certificate's edges |
| PlanarityService.PlanarReport | Backend/app.py:68-69 | the planar report's node ids are the layout's, in its order, and no edge record carries `is_conflict` |

## Left out

- Flask routing, CORS, `jsonify` as a serialiser, and `app.run` are HTTP plumbing. The response is a datatype.
- The outer `except` that turns any exception into HTTP 500 (`Backend/app.py:103-105`). No modelled step raises.
- `file.read().decode('utf-8')` (`Backend/app.py:44`) is byte I/O and Unicode decoding. The uploaded file is an already-decoded string in `Request.files`.
- `nx.check_planarity` (`Backend/app.py:54`) is an abstract oracle parameter, not a verified planarity test.
- `nx.planar_layout`, the `nx.spring_layout` fallback and the `* 500` scaling (`Backend/app.py:59-68`) are floating point. The layout is a parameter giving the position dict's node ids in order. Node records carry ids only, without `x`/`y`.
- `str(n)`, `str(u)`, `str(v)` are the identity. Every node the parser creates is already a string.
- The Frontend code (`Frontend/app.js`, `Frontend/js/main.js`) is browser UI and is not part of this model.
- An empty graph gets HTTP 400 with an `error` body (`Backend/app.py:50-51`), not a 200 report.
- Planar edge records carry no `is_conflict` field (`Backend/app.py:69`).
- The handler reads only edge-list text. It has no format detection, algorithm choice, timing or K5/K3,3 label.
- Whitespace for `str.split()`/`str.strip()` is the set of characters `str.isspace` accepts, listed character by character. Dafny's `char` cannot hold a lone surrogate, and a strict `decode('utf-8')` never produces one, so nothing is lost there. Noncharacters are ordinary non-whitespace characters both in Python and in the model.

## Findings

| source | as written | input that shows it | evidently intended | confidence | as-written member | corrected member |
|---|---|---|---|---|---|---|
| Backend/app.py:54 | `nx.check_planarity(G)` is called with networkx's default `counterexample=False`, whose certificate for a non-planar graph is `None`, so `if certificate:` (Backend/app.py:82) never holds and no edge is ever marked | any non-planar upload, e.g. the ten lines of K5 (`0 1`, `0 2`, ..., `3 4`): every edge gets `is_conflict = false` | the certificate is a Kuratowski subgraph, as the comment at Backend/app.py:79 says (`counterexample=True`), and its edges are the ones marked | not executed; networkx's default read from its documented signature | PlanarityService.NoCounterexampleMarksNothing | PlanarityService.CounterexampleMarksCertificate |
