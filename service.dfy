/**
 * The decision and serialisation logic of the `/check-planarity` handler:
 * the two 400 guards, the call to the planarity oracle, the status string,
 * the conflict-edge set taken from the certificate, the `is_conflict` tags
 * and the node and edge record lists of the JSON report.
 *
 * The planarity test (`nx.check_planarity`) and the layout (`nx.planar_layout`
 * or `nx.spring_layout`) are parameters: the oracle maps the parsed graph to
 * a verdict and a certificate, the layout maps the graph and the certificate
 * to the node ids of the position dict in its iteration order.
 */
module PlanarityService {
  import opened Collections
  import opened PyStr
  import opened Graphs
  import opened EdgeListParser

  /** The file parts of the multipart request, by field name, already decoded as text. */
  datatype Request = Request(files: map<string, string>)

  /**
   * What `nx.check_planarity(G)` returns: the verdict and the certificate,
   * which is a graph or Python's `None`.
   */
  datatype Verdict = Verdict(isPlanar: bool, certificate: Option<GraphView>)

  /** `{"id": str(n)}`; the planar branch's coordinates are not modelled. */
  datatype NodeRecord = NodeRecord(id: string)

  /** `{"source": ..., "target": ...}`, with `"is_conflict"` only in the non-planar branch. */
  datatype EdgeRecord = EdgeRecord(source: string, target: string, isConflict: Option<bool>)

  /** A `jsonify` body: an error with its HTTP status, or a report (HTTP 200). */
  datatype Response =
    | ErrorResponse(code: nat, error: string)
    | Report(status: string, nodes: seq<NodeRecord>, edges: seq<EdgeRecord>, message: string)

  const NoFileError: string := "没有上传文件"
  const EmptyGraphError: string := "解析失败，图是空的"
  const PlanarStatus: string := "planar"
  const NonPlanarStatus: string := "non_planar"
  const PlanarMessage: string := "Graph is planar!"
  const NonPlanarMessage: string := "Graph is not planar."

  /** The HTTP status the handler answers with. */
  function HttpStatus(r: Response): nat {
    match r
    case ErrorResponse(code, _) => code
    case Report(_, _, _, _) => 200
  }

  /** Python truthiness of the certificate: `None` and a graph without nodes are false. */
  predicate Truthy(cert: Option<GraphView>) {
    cert.Some? && |cert.value.nodes| > 0
  }

  /** `conflict_edges` after its loop: the pairs of the certificate's `edges()` when it is truthy. */
  function ConflictSet(cert: Option<GraphView>): set<set<string>> {
    if Truthy(cert) then PairSet(EdgeList(cert.value)) else {}
  }

  /** `[{"id": str(n)} for n in ids]`; node ids are already strings. */
  function NodeRecords(ids: seq<string>): seq<NodeRecord> {
    seq(|ids|, i requires 0 <= i < |ids| => NodeRecord(ids[i]))
  }

  /** `[{"source": str(u), "target": str(v)} for u, v in edges]`. */
  function PlanarEdges(l: seq<(string, string)>): seq<EdgeRecord> {
    seq(|l|, k requires 0 <= k < |l| => EdgeRecord(l[k].0, l[k].1, None))
  }

  /** The non-planar edge records: each edge tagged with whether its pair is a conflict pair. */
  function TaggedEdges(l: seq<(string, string)>, conflicts: set<set<string>>): seq<EdgeRecord> {
    seq(|l|, k requires 0 <= k < |l| => EdgeRecord(l[k].0, l[k].1, Some(PairOf(l[k]) in conflicts)))
  }

  /** The unordered pairs of the edge records tagged `is_conflict = true`. */
  function MarkedPairs(edges: seq<EdgeRecord>): set<set<string>> {
    set k | 0 <= k < |edges| && edges[k].isConflict == Some(true) :: Pair(edges[k].source, edges[k].target)
  }

  /** The report for a parsed, non-empty graph g given the oracle's verdict on it. */
  function Outcome(g: GraphView, verdict: Verdict, layout: (GraphView, Option<GraphView>) -> seq<string>): Response {
    if verdict.isPlanar then
      Report(PlanarStatus, NodeRecords(layout(g, verdict.certificate)), PlanarEdges(EdgeList(g)), PlanarMessage)
    else
      Report(NonPlanarStatus, NodeRecords(g.nodes), TaggedEdges(EdgeList(g), ConflictSet(verdict.certificate)),
             NonPlanarMessage)
  }

  /** The whole handler, apart from decoding and the catch-all 500. */
  function Respond(req: Request, oracle: GraphView -> Verdict, layout: (GraphView, Option<GraphView>) -> seq<string>): Response {
    if "file" !in req.files then ErrorResponse(400, NoFileError)
    else
      var g := ParseText(req.files["file"]);
      if |g.nodes| == 0 then ErrorResponse(400, EmptyGraphError)
      else Outcome(g, oracle(g), layout)
  }

  // ---------------------------------------------------------------------------
  // The handler's loops

  /** Fills `conflict_edges` from `certificate.edges()` when the certificate is truthy. */
  method CollectConflictEdges(cert: Option<GraphView>) returns (conflicts: set<set<string>>)
    ensures conflicts == ConflictSet(cert)
  {
    conflicts := {};
    if cert.Some? && |cert.value.nodes| > 0 {
      var l := EdgeList(cert.value);
      for k := 0 to |l|
        invariant conflicts == set j | 0 <= j < k :: PairOf(l[j])
      {
        conflicts := conflicts + {PairOf(l[k])};
      }
    }
  }

  /** Appends one tagged record per entry of `G.edges()`. */
  method TagEdges(l: seq<(string, string)>, conflicts: set<set<string>>) returns (records: seq<EdgeRecord>)
    ensures records == TaggedEdges(l, conflicts)
  {
    records := [];
    for k := 0 to |l|
      invariant |records| == k
      invariant forall j | 0 <= j < k :: records[j] == EdgeRecord(l[j].0, l[j].1, Some(PairOf(l[j]) in conflicts))
    {
      var isConflict := PairOf(l[k]) in conflicts;
      records := records + [EdgeRecord(l[k].0, l[k].1, Some(isConflict))];
    }
  }

  /** `check_planarity()`: the guards, the parse, the oracle call and the report. */
  method CheckPlanarity(req: Request, oracle: GraphView -> Verdict, layout: (GraphView, Option<GraphView>) -> seq<string>)
    returns (resp: Response)
    ensures resp == Respond(req, oracle, layout)
  {
    if "file" !in req.files {
      return ErrorResponse(400, NoFileError);
    }
    var content := req.files["file"];
    var g := ParseGraphFromText(content);
    if |g.nodes| == 0 {
      return ErrorResponse(400, EmptyGraphError);
    }
    var verdict := oracle(g.View());
    var edgeList := EdgeList(g.View());
    if verdict.isPlanar {
      var ids := layout(g.View(), verdict.certificate);
      resp := Report(PlanarStatus, NodeRecords(ids), PlanarEdges(edgeList), PlanarMessage);
    } else {
      var conflicts := CollectConflictEdges(verdict.certificate);
      var nodes := NodeRecords(g.nodes);
      var edges := TagEdges(edgeList, conflicts);
      resp := Report(NonPlanarStatus, nodes, edges, NonPlanarMessage);
    }
  }

  // ---------------------------------------------------------------------------
  // Properties of the handler

  /** The parsed graph of an accepted request, and the fact that the report is built from it. */
  lemma Accepted(req: Request, oracle: GraphView -> Verdict, layout: (GraphView, Option<GraphView>) -> seq<string>)
    requires "file" in req.files && !NoEdgeLine(SplitOn(req.files["file"], '\n'))
    ensures WellFormed(ParseText(req.files["file"]))
    ensures |ParseText(req.files["file"]).nodes| > 0
    ensures Respond(req, oracle, layout)
         == Outcome(ParseText(req.files["file"]), oracle(ParseText(req.files["file"])), layout)
  {
    EmptyGraph(req.files["file"]);
    BuildWellFormed(LineEdges(SplitOn(req.files["file"], '\n')));
  }

  /**
   * The handler answers 400 exactly when there is no `file` part or no line of
   * the file has two tokens, and then with the matching message.
   */
  lemma RejectedIff(req: Request, oracle: GraphView -> Verdict, layout: (GraphView, Option<GraphView>) -> seq<string>)
    ensures HttpStatus(Respond(req, oracle, layout)) == 400
        <==> "file" !in req.files || NoEdgeLine(SplitOn(req.files["file"], '\n'))
    ensures "file" !in req.files ==> Respond(req, oracle, layout) == ErrorResponse(400, NoFileError)
    ensures "file" in req.files && NoEdgeLine(SplitOn(req.files["file"], '\n'))
        ==> Respond(req, oracle, layout) == ErrorResponse(400, EmptyGraphError)
  {
    if "file" in req.files {
      EmptyGraph(req.files["file"]);
    }
  }

  /** An empty or whitespace-only file is rejected as an empty graph. */
  lemma BlankFileRejected(req: Request, oracle: GraphView -> Verdict, layout: (GraphView, Option<GraphView>) -> seq<string>)
    requires "file" in req.files && AllSpace(req.files["file"])
    ensures Respond(req, oracle, layout) == ErrorResponse(400, EmptyGraphError)
  {
    var lines := SplitOn(req.files["file"], '\n');
    SplitOnAllSpace(req.files["file"], '\n');
    forall i | 0 <= i < |lines| ensures |Split(lines[i])| < 2 {
      SplitAllSpace(lines[i]);
    }
    RejectedIff(req, oracle, layout);
  }

  /** A rejected request never consults the oracle or the layout. */
  lemma RejectedWithoutOracle(req: Request, oracle1: GraphView -> Verdict, oracle2: GraphView -> Verdict,
                              layout1: (GraphView, Option<GraphView>) -> seq<string>,
                              layout2: (GraphView, Option<GraphView>) -> seq<string>)
    requires "file" !in req.files || NoEdgeLine(SplitOn(req.files["file"], '\n'))
    ensures Respond(req, oracle1, layout1) == Respond(req, oracle2, layout2)
  {
    if "file" in req.files {
      EmptyGraph(req.files["file"]);
    }
  }

  /** The status and message follow the oracle's verdict. */
  lemma StatusFollowsVerdict(g: GraphView, verdict: Verdict, layout: (GraphView, Option<GraphView>) -> seq<string>)
    ensures Outcome(g, verdict, layout).Report?
    ensures HttpStatus(Outcome(g, verdict, layout)) == 200
    ensures Outcome(g, verdict, layout).status == PlanarStatus <==> verdict.isPlanar
    ensures Outcome(g, verdict, layout).status == NonPlanarStatus <==> !verdict.isPlanar
    ensures Outcome(g, verdict, layout).message == if verdict.isPlanar then PlanarMessage else NonPlanarMessage
  {
    assert PlanarStatus != NonPlanarStatus by {
      assert |PlanarStatus| != |NonPlanarStatus|;
    }
  }

  /** The non-planar report lists every node once, in the graph's node order. */
  lemma NonPlanarNodes(g: GraphView, verdict: Verdict, layout: (GraphView, Option<GraphView>) -> seq<string>)
    requires WellFormed(g) && !verdict.isPlanar
    ensures |Outcome(g, verdict, layout).nodes| == |g.nodes|
    ensures forall i | 0 <= i < |g.nodes| :: Outcome(g, verdict, layout).nodes[i].id == g.nodes[i]
    ensures NoDup(Outcome(g, verdict, layout).nodes)
  {
    var r := Outcome(g, verdict, layout).nodes;
    forall i, j | 0 <= i < j < |r| ensures r[i] != r[j] {
      assert r[i].id == g.nodes[i] && r[j].id == g.nodes[j];
    }
  }

  /**
   * The edge records of either branch follow `G.edges()` one to one: each record
   * is an edge of the graph, every edge has a record, and no edge has two,
   * so there are `G.number_of_edges()` of them.
   */
  lemma ReportEdges(g: GraphView, verdict: Verdict, layout: (GraphView, Option<GraphView>) -> seq<string>)
    requires WellFormed(g)
    ensures |Outcome(g, verdict, layout).edges| == EdgeCount(g)
    ensures forall k | 0 <= k < |Outcome(g, verdict, layout).edges| ::
      var r := Outcome(g, verdict, layout).edges[k];
      r.source in g.adj && r.target in g.adj[r.source]
    ensures forall e | e in EdgeSet(g) :: exists k | 0 <= k < |Outcome(g, verdict, layout).edges| ::
      Pair(Outcome(g, verdict, layout).edges[k].source, Outcome(g, verdict, layout).edges[k].target) == e
    ensures forall j, k | 0 <= j < k < |Outcome(g, verdict, layout).edges| ::
      Pair(Outcome(g, verdict, layout).edges[j].source, Outcome(g, verdict, layout).edges[j].target)
      != Pair(Outcome(g, verdict, layout).edges[k].source, Outcome(g, verdict, layout).edges[k].target)
  {
    var l := EdgeList(g);
    var edges := Outcome(g, verdict, layout).edges;
    assert |edges| == |l|;
    assert forall k | 0 <= k < |edges| :: edges[k].source == l[k].0 && edges[k].target == l[k].1;
    EdgeListLength(g);
    EdgeListDistinct(g);
    EdgeListPairs(g);
    forall k | 0 <= k < |edges| ensures edges[k].source in g.adj && edges[k].target in g.adj[edges[k].source] {
      EdgeListSound(g, k);
    }
    forall e | e in EdgeSet(g) ensures exists k | 0 <= k < |edges| :: Pair(edges[k].source, edges[k].target) == e {
      assert e in PairSet(l);
      var k :| 0 <= k < |l| && PairOf(l[k]) == e;
      assert Pair(edges[k].source, edges[k].target) == e;
    }
  }

  /** The conflict set is the certificate's edge set when it is truthy and empty otherwise. */
  lemma ConflictSetEdges(cert: Option<GraphView>)
    requires cert.Some? ==> WellFormed(cert.value)
    ensures ConflictSet(cert) == if Truthy(cert) then EdgeSet(cert.value) else {}
  {
    if Truthy(cert) {
      EdgeListPairs(cert.value);
    }
  }

  /**
   * A non-planar edge record is tagged as a conflict exactly when the certificate
   * is truthy and has the record's unordered pair as an edge, in either orientation.
   */
  lemma ConflictTag(g: GraphView, verdict: Verdict, layout: (GraphView, Option<GraphView>) -> seq<string>, k: nat)
    requires !verdict.isPlanar
    requires verdict.certificate.Some? ==> WellFormed(verdict.certificate.value)
    requires k < |Outcome(g, verdict, layout).edges|
    ensures Outcome(g, verdict, layout).edges[k].isConflict.Some?
    ensures Outcome(g, verdict, layout).edges[k].isConflict.value
        <==> Truthy(verdict.certificate)
             && Pair(Outcome(g, verdict, layout).edges[k].source, Outcome(g, verdict, layout).edges[k].target)
                in EdgeSet(verdict.certificate.value)
    ensures Outcome(g, verdict, layout).edges[k].isConflict.value
        <==> Truthy(verdict.certificate)
             && Pair(Outcome(g, verdict, layout).edges[k].target, Outcome(g, verdict, layout).edges[k].source)
                in EdgeSet(verdict.certificate.value)
  {
    var r := Outcome(g, verdict, layout).edges[k];
    ConflictSetEdges(verdict.certificate);
    PairSymmetric(r.source, r.target);
  }

  /** With a `None` or node-less certificate no edge is marked. */
  lemma FalsyCertificate(g: GraphView, verdict: Verdict, layout: (GraphView, Option<GraphView>) -> seq<string>)
    requires !verdict.isPlanar && !Truthy(verdict.certificate)
    ensures forall k | 0 <= k < |Outcome(g, verdict, layout).edges| ::
      Outcome(g, verdict, layout).edges[k].isConflict == Some(false)
  {
  }

  /**
   * The marked edges are exactly the graph's edges that the certificate also has;
   * for a certificate that is a subgraph (a Kuratowski subgraph), every one of its
   * edges is marked.
   */
  lemma MarkedEdges(g: GraphView, verdict: Verdict, layout: (GraphView, Option<GraphView>) -> seq<string>)
    requires WellFormed(g) && !verdict.isPlanar && Truthy(verdict.certificate)
    requires WellFormed(verdict.certificate.value)
    ensures MarkedPairs(Outcome(g, verdict, layout).edges) == EdgeSet(g) * EdgeSet(verdict.certificate.value)
    ensures EdgeSet(verdict.certificate.value) <= EdgeSet(g)
        ==> MarkedPairs(Outcome(g, verdict, layout).edges) == EdgeSet(verdict.certificate.value)
  {
    var cert := verdict.certificate.value;
    var edges := Outcome(g, verdict, layout).edges;
    var l := EdgeList(g);
    var marked := MarkedPairs(edges);
    ConflictSetEdges(verdict.certificate);
    EdgeListPairs(g);
    assert forall k | 0 <= k < |edges| :: Pair(edges[k].source, edges[k].target) == PairOf(l[k]);
    forall e | e in marked ensures e in EdgeSet(g) * EdgeSet(cert) {
      var k :| 0 <= k < |edges| && edges[k].isConflict == Some(true) && e == Pair(edges[k].source, edges[k].target);
      assert e in PairSet(l);
    }
    forall e | e in EdgeSet(g) * EdgeSet(cert) ensures e in marked {
      assert e in PairSet(l);
      var k :| 0 <= k < |l| && PairOf(l[k]) == e;
      assert edges[k].isConflict == Some(true);
    }
  }

  /**
   * The planar report lists the layout's nodes in its order and one record per
   * entry of `G.edges()`, none of them carrying `is_conflict`.
   */
  lemma PlanarReport(g: GraphView, verdict: Verdict, layout: (GraphView, Option<GraphView>) -> seq<string>)
    requires verdict.isPlanar
    ensures |Outcome(g, verdict, layout).nodes| == |layout(g, verdict.certificate)|
    ensures forall i | 0 <= i < |layout(g, verdict.certificate)| ::
      Outcome(g, verdict, layout).nodes[i].id == layout(g, verdict.certificate)[i]
    ensures forall k | 0 <= k < |Outcome(g, verdict, layout).edges| :: Outcome(g, verdict, layout).edges[k].isConflict.None?
  {
  }

  /**
   * The handler as written, with networkx's default `counterexample=False`: the
   * oracle gives no certificate for a non-planar graph, and then no edge of any
   * non-planar report is marked.
   */
  lemma NoCounterexampleMarksNothing(req: Request, oracle: GraphView -> Verdict,
                                     layout: (GraphView, Option<GraphView>) -> seq<string>)
    requires forall g :: !oracle(g).isPlanar ==> oracle(g).certificate.None?
    requires Respond(req, oracle, layout).Report? && Respond(req, oracle, layout).status == NonPlanarStatus
    ensures forall k | 0 <= k < |Respond(req, oracle, layout).edges| ::
      Respond(req, oracle, layout).edges[k].isConflict == Some(false)
    ensures MarkedPairs(Respond(req, oracle, layout).edges) == {}
  {
    RejectedIff(req, oracle, layout);
    Accepted(req, oracle, layout);
    var g := ParseText(req.files["file"]);
    StatusFollowsVerdict(g, oracle(g), layout);
    FalsyCertificate(g, oracle(g), layout);
  }

  /**
   * The handler with an oracle that returns a Kuratowski subgraph as the
   * certificate of a non-planar graph (`counterexample=True`): the marked edges
   * of the report are exactly the certificate's edges.
   */
  lemma CounterexampleMarksCertificate(req: Request, oracle: GraphView -> Verdict,
                                       layout: (GraphView, Option<GraphView>) -> seq<string>)
    requires forall g :: !oracle(g).isPlanar ==>
      && oracle(g).certificate.Some?
      && WellFormed(oracle(g).certificate.value)
      && |oracle(g).certificate.value.nodes| > 0
      && EdgeSet(oracle(g).certificate.value) <= EdgeSet(g)
    requires Respond(req, oracle, layout).Report? && Respond(req, oracle, layout).status == NonPlanarStatus
    ensures "file" in req.files
    ensures var g := ParseText(req.files["file"]);
      MarkedPairs(Respond(req, oracle, layout).edges) == EdgeSet(oracle(g).certificate.value)
  {
    RejectedIff(req, oracle, layout);
    Accepted(req, oracle, layout);
    var g := ParseText(req.files["file"]);
    StatusFollowsVerdict(g, oracle(g), layout);
    MarkedEdges(g, oracle(g), layout);
  }
}
