/**
 * `parse_graph_from_text`: every line of the text whose whitespace split has at
 * least two tokens adds an undirected edge between its first two tokens; all
 * other lines are skipped. Tokens stay strings.
 */
module EdgeListParser {
  import opened Collections
  import opened PyStr
  import opened Graphs

  /** The edge a line contributes: the first two parts of `line.strip().split()`, if there are two. */
  function LineEdge(line: string): (r: Option<(string, string)>)
    ensures r == if |Split(line)| >= 2 then Some((Split(line)[0], Split(line)[1])) else None
    ensures r.Some? ==> IsToken(r.value.0) && IsToken(r.value.1)
  {
    SplitStrip(line);
    SplitTokens(line);
    var parts := Split(Strip(line));
    if |parts| >= 2 then Some((parts[0], parts[1])) else None
  }

  /**
   * The optional edge of each line, in line order: the first two whitespace-separated
   * tokens of the line when it has at least two (the strip makes no difference).
   */
  function LineEdges(lines: seq<string>): (r: seq<Option<(string, string)>>)
    ensures |r| == |lines|
    ensures forall i | 0 <= i < |lines| ::
      r[i] == if |Split(lines[i])| >= 2 then Some((Split(lines[i])[0], Split(lines[i])[1])) else None
  {
    var r := seq(|lines|, i requires 0 <= i < |lines| => LineEdge(lines[i]));
    assert forall i | 0 <= i < |lines| ::
      r[i] == if |Split(lines[i])| >= 2 then Some((Split(lines[i])[0], Split(lines[i])[1])) else None
    by {
      forall i | 0 <= i < |lines|
        ensures r[i] == if |Split(lines[i])| >= 2 then Some((Split(lines[i])[0], Split(lines[i])[1])) else None
      {
        LineEdgeBySplit(lines[i]);
      }
    }
    r
  }

  /** One iteration of the parser's loop, given the line's optional edge. */
  function Step(g: GraphView, e: Option<(string, string)>): GraphView {
    match e
    case Some(p) => AddEdgeTo(g, p.0, p.1)
    case None => g
  }

  /** The graph after the loop has processed lines with these optional edges, starting from `nx.Graph()`. */
  function Build(es: seq<Option<(string, string)>>): GraphView
    decreases |es|
  {
    if es == [] then Empty
    else Step(Build(es[..|es| - 1]), es[|es| - 1])
  }

  /** The graph `parse_graph_from_text(content)` returns. */
  function ParseText(content: string): GraphView {
    Build(LineEdges(SplitOn(content, '\n')))
  }

  /** `parse_graph_from_text`: builds the graph by calling `add_edge` once per qualifying line. */
  method ParseGraphFromText(content: string) returns (g: Graph)
    ensures fresh(g) && g.Valid()
    ensures g.View() == ParseText(content)
    ensures EndpointsAreNodes(g.View())
  {
    g := new Graph();
    var lines := SplitOn(content, '\n');
    ghost var es := LineEdges(lines);
    WellFormedEndpoints(g.View());
    for i := 0 to |lines|
      invariant g.Valid()
      invariant EndpointsAreNodes(g.View())
      invariant g.View() == Build(es[..i])
    {
      var parts := Split(Strip(lines[i]));
      assert es[i] == if |parts| >= 2 then Some((parts[0], parts[1])) else None;
      if |parts| >= 2 {
        var u, v := parts[0], parts[1];
        g.AddEdge(u, v);
      }
      assert es[..i + 1][..i] == es[..i];
    }
    assert es[..|lines|] == es;
  }

  // ---------------------------------------------------------------------------
  // Reference descriptions of the parsed graph

  /** The first and second tokens of every line that has them, in line order. */
  function Endpoints(es: seq<Option<(string, string)>>): seq<string>
    decreases |es|
  {
    if es == [] then []
    else
      Endpoints(es[..|es| - 1]) +
      match es[|es| - 1]
      case Some(p) => [p.0, p.1]
      case None => []
  }

  /** The unordered pairs {first token, second token} of the lines that have them. */
  ghost function LinePairs(es: seq<Option<(string, string)>>): set<set<string>> {
    set i | 0 <= i < |es| && es[i].Some? :: PairOf(es[i].value)
  }

  // ---------------------------------------------------------------------------
  // Properties of one line

  /** The strip changes nothing: a line's edge is decided by `line.split()` alone. */
  lemma LineEdgeBySplit(line: string)
    ensures LineEdge(line) == if |Split(line)| >= 2 then Some((Split(line)[0], Split(line)[1])) else None
  {
    SplitStrip(line);
  }

  /** A line with at least two tokens adds exactly the edge between its first two. */
  lemma QualifyingLine(g: GraphView, line: string)
    requires |Split(line)| >= 2
    ensures Step(g, LineEdge(line)) == AddEdgeTo(g, Split(line)[0], Split(line)[1])
    ensures EdgeSet(Step(g, LineEdge(line))) == EdgeSet(g) + {Pair(Split(line)[0], Split(line)[1])}
  {
    LineEdgeBySplit(line);
    AddEdgeEdgeSet(g, Split(line)[0], Split(line)[1]);
  }

  /** A line with fewer than two tokens changes neither nodes nor edges. */
  lemma ShortLine(g: GraphView, line: string)
    requires |Split(line)| < 2
    ensures Step(g, LineEdge(line)) == g
  {
    LineEdgeBySplit(line);
  }

  /** A blank or whitespace-only line is skipped. */
  lemma BlankLine(g: GraphView, line: string)
    requires AllSpace(line)
    ensures Step(g, LineEdge(line)) == g
  {
    SplitAllSpace(line);
    ShortLine(g, line);
  }

  /** Tokens after the second one are ignored. */
  lemma ExtraTokensIgnored(a: string, b: string, rest: string)
    requires IsToken(a) && IsToken(b)
    requires rest == [] || IsSpace(rest[0])
    ensures LineEdge(a + " " + b + rest) == Some((a, b))
  {
    var line := a + " " + b + rest;
    assert line == a + (" " + b + rest);
    SplitToken(a, " " + b + rest);
    assert (" " + b + rest)[1..] == b + rest;
    SplitToken(b, rest);
    LineEdgeBySplit(line);
  }

  // ---------------------------------------------------------------------------
  // Properties of the whole parse

  /** The loop keeps the graph invariant; in particular both endpoints of every edge are nodes. */
  lemma {:induction false} BuildWellFormed(es: seq<Option<(string, string)>>)
    ensures WellFormed(Build(es))
    ensures EndpointsAreNodes(Build(es))
    decreases |es|
  {
    if es != [] {
      var g := Build(es[..|es| - 1]);
      BuildWellFormed(es[..|es| - 1]);
      match es[|es| - 1]
      case Some(p) => AddEdgeWellFormed(g, p.0, p.1);
      case None =>
    }
    WellFormedEndpoints(Build(es));
  }

  /** The node list is the endpoints of the qualifying lines, in first-occurrence order, each once. */
  lemma {:induction false} BuildNodes(es: seq<Option<(string, string)>>)
    ensures Build(es).nodes == Dedup(Endpoints(es))
    decreases |es|
  {
    if es != [] {
      var init := es[..|es| - 1];
      var g := Build(init);
      var ends := Endpoints(init);
      BuildNodes(init);
      BuildWellFormed(init);
      match es[|es| - 1]
      case Some(p) =>
        var u, v := p.0, p.1;
        AddEdgeNodes(g, u, v);
        assert u in g.nodes <==> u in ends;
        assert v in g.nodes <==> v in ends;
        DedupSnoc(ends, u);
        DedupSnoc(ends + [u], v);
        assert Endpoints(es) == (ends + [u]) + [v];
      case None =>
        assert Endpoints(es) == ends;
    }
  }

  lemma LinePairsSnoc(es: seq<Option<(string, string)>>)
    requires es != []
    ensures LinePairs(es) == LinePairs(es[..|es| - 1])
      + match es[|es| - 1] case Some(p) => {PairOf(p)} case None => {}
  {
    var n := |es| - 1;
    var init := es[..n];
    forall q | q in LinePairs(es) ensures q in LinePairs(init) || (es[n].Some? && q == PairOf(es[n].value)) {
      var i :| 0 <= i < |es| && es[i].Some? && q == PairOf(es[i].value);
      if i < n {
        assert init[i] == es[i];
      }
    }
    forall q | q in LinePairs(init) ensures q in LinePairs(es) {
      var i :| 0 <= i < |init| && init[i].Some? && q == PairOf(init[i].value);
      assert init[i] == es[i];
    }
  }

  /** The edge set is exactly the set of pairs {first token, second token} of the qualifying lines. */
  lemma {:induction false} BuildEdges(es: seq<Option<(string, string)>>)
    ensures EdgeSet(Build(es)) == LinePairs(es)
    decreases |es|
  {
    if es != [] {
      var n := |es| - 1;
      BuildEdges(es[..n]);
      LinePairsSnoc(es);
      match es[n]
      case Some(p) => AddEdgeEdgeSet(Build(es[..n]), p.0, p.1);
      case None =>
    }
  }

  lemma {:induction false} EndpointsEmpty(es: seq<Option<(string, string)>>)
    ensures Endpoints(es) == [] <==> forall i | 0 <= i < |es| :: es[i].None?
    decreases |es|
  {
    if es != [] {
      var init := es[..|es| - 1];
      EndpointsEmpty(init);
      assert forall i | 0 <= i < |init| :: init[i] == es[i];
    }
  }

  /** The built graph has no nodes exactly when no line contributed an edge. */
  lemma BuildEmpty(es: seq<Option<(string, string)>>)
    ensures |Build(es).nodes| == 0 <==> forall i | 0 <= i < |es| :: es[i].None?
  {
    BuildNodes(es);
    EndpointsEmpty(es);
    var ends := Endpoints(es);
    if ends != [] {
      assert ends[0] in Dedup(ends);
    }
  }

  /** No line has the two tokens that make it an edge line. */
  predicate NoEdgeLine(lines: seq<string>) {
    forall i | 0 <= i < |lines| :: |Split(lines[i])| < 2
  }

  /** The graph built from some lines has no nodes exactly when none of them has two tokens. */
  lemma EmptyGraphLines(lines: seq<string>)
    ensures |Build(LineEdges(lines)).nodes| == 0 <==> NoEdgeLine(lines)
  {
    var es := LineEdges(lines);
    BuildEmpty(es);
    if forall i | 0 <= i < |es| :: es[i].None? {
      forall i | 0 <= i < |lines| ensures |Split(lines[i])| < 2 {
        LineEdgeBySplit(lines[i]);
      }
    } else {
      var i :| 0 <= i < |es| && es[i].Some?;
      LineEdgeBySplit(lines[i]);
    }
  }

  /** The parsed graph has no nodes exactly when no line of the text has two tokens. */
  lemma EmptyGraph(content: string)
    ensures |ParseText(content).nodes| == 0 <==> NoEdgeLine(SplitOn(content, '\n'))
  {
    var lines := SplitOn(content, '\n');
    EmptyGraphLines(lines);
    assert ParseText(content) == Build(LineEdges(lines));
  }

  /** The parsed graph in terms of the text: its nodes, its edges and its invariant. */
  lemma ParseTextFacts(content: string)
    ensures WellFormed(ParseText(content)) && EndpointsAreNodes(ParseText(content))
    ensures ParseText(content).nodes == Dedup(Endpoints(LineEdges(SplitOn(content, '\n'))))
    ensures EdgeSet(ParseText(content)) == LinePairs(LineEdges(SplitOn(content, '\n')))
  {
    var es := LineEdges(SplitOn(content, '\n'));
    BuildWellFormed(es);
    BuildNodes(es);
    BuildEdges(es);
  }

  // ---------------------------------------------------------------------------
  // Examples

  /** The optional edge of a line made of the tokens a and b. */
  lemma TwoTokenLine(a: string, b: string)
    requires IsToken(a) && IsToken(b)
    ensures LineEdge(JoinWords([a, b])) == Some((a, b))
  {
    SplitJoinWords([a, b]);
    LineEdgeBySplit(JoinWords([a, b]));
  }

  lemma RepeatedPairText()
    ensures SplitOn("a b\nb a\na b", '\n') == ["a b", "b a", "a b"]
  {
    var lines := ["a b", "b a", "a b"];
    assert JoinOn(lines, '\n') == "a b\nb a\na b" by {
      assert JoinOn(lines[2..], '\n') == "a b";
      assert JoinOn(lines[1..], '\n') == "b a" + "\n" + "a b";
    }
    SplitOnJoin(lines, '\n');
  }

  lemma RepeatedPairLines()
    ensures LineEdges(["a b", "b a", "a b"]) == [Some(("a", "b")), Some(("b", "a")), Some(("a", "b"))]
  {
    assert JoinWords(["a", "b"]) == "a b" && JoinWords(["b", "a"]) == "b a";
    TwoTokenLine("a", "b");
    TwoTokenLine("b", "a");
  }

  /** Lines `a b`, `b a`, `a b`: the second and third `add_edge` calls change nothing. */
  lemma RepeatedPairBuild()
    ensures Build([Some(("a", "b")), Some(("b", "a")), Some(("a", "b"))])
         == GraphView(["a", "b"], map["a" := ["b"], "b" := ["a"]])
  {
    var es := [Some(("a", "b")), Some(("b", "a")), Some(("a", "b"))];
    var g1 := AddEdgeTo(Empty, "a", "b");
    AddEdgeAgain(Empty, "a", "b");
    assert es[..0] == [];
    assert Build(es[..1]) == Step(Build([]), Some(("a", "b")));
    assert Build(es[..1]) == g1;
    assert es[..2][..1] == es[..1];
    assert Build(es[..2]) == Step(Build(es[..1]), Some(("b", "a")));
    assert Build(es[..2]) == g1;
    assert es[..3][..2] == es[..2];
    assert Build(es) == Step(Build(es[..2]), Some(("a", "b")));
    OneEdgeGraph();
  }

  /** `"a b\nb a\na b"`: repeated pairs in either orientation collapse to one edge. */
  lemma RepeatedPairExample()
    ensures ParseText("a b\nb a\na b").nodes == ["a", "b"]
    ensures EdgeSet(ParseText("a b\nb a\na b")) == {{"a", "b"}}
    ensures EdgeList(ParseText("a b\nb a\na b")) == [("a", "b")]
  {
    RepeatedPairText();
    RepeatedPairLines();
    RepeatedPairBuild();
    OneEdgeSet();
    OneEdgeList();
  }

  /** `"a a"`: one node carrying a self-loop. */
  lemma SelfLoopExample()
    ensures ParseText("a a").nodes == ["a"]
    ensures EdgeSet(ParseText("a a")) == {{"a"}}
    ensures EdgeList(ParseText("a a")) == [("a", "a")]
  {
    assert JoinOn(["a a"], '\n') == "a a";
    SplitOnJoin(["a a"], '\n');
    assert JoinWords(["a", "a"]) == "a a";
    TwoTokenLine("a", "a");
    var es := LineEdges(["a a"]);
    assert es == [Some(("a", "a"))];
    assert es[..0] == [];
    AddEdgeEdgeSet(Empty, "a", "a");
    assert EdgeSet(Empty) == {};
    assert Pair("a", "a") == {"a"};
  }
}
