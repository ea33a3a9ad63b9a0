/**
 * The part of networkx's undirected `Graph` that the backend uses: `add_edge`,
 * the node order `G.nodes()`, the edge iteration `G.edges()` and the edge count.
 *
 * A graph keeps its nodes in insertion order and, per node, its neighbours in
 * insertion order (networkx keeps both in insertion-ordered dicts). An edge is
 * the unordered pair of its endpoints, as Python's `frozenset([u, v])`; a
 * self-loop is the one-element pair.
 */
module Graphs {
  import opened Collections

  /** The unordered pair `frozenset([u, v])`. */
  function Pair(u: string, v: string): set<string> {
    {u, v}
  }

  function PairOf(e: (string, string)): set<string> {
    Pair(e.0, e.1)
  }

  /** The orientation of a pair does not matter. */
  lemma PairSymmetric(u: string, v: string)
    ensures Pair(u, v) == Pair(v, u)
  {
  }

  /** Two pairs sharing an endpoint are equal exactly when their other endpoints are. */
  lemma PairCancel(u: string, v: string, w: string)
    ensures Pair(u, v) == Pair(u, w) <==> v == w
  {
    if Pair(u, v) == Pair(u, w) {
      assert v in Pair(u, w);
      assert w in Pair(u, v);
    }
  }

  /** The value of a graph: its node list and its adjacency lists. */
  datatype GraphView = GraphView(nodes: seq<string>, adj: map<string, seq<string>>)

  /** `nx.Graph()`: no nodes, no edges. */
  const Empty: GraphView := GraphView([], map[])

  /**
   * The invariant every graph built by `add_edge` keeps: nodes are distinct and
   * are exactly the keys of the adjacency map, neighbour lists are duplicate-free,
   * and adjacency is symmetric (so every neighbour is itself a node).
   */
  ghost predicate WellFormed(g: GraphView) {
    && NoDup(g.nodes)
    && KeysAreNodes(g)
    && NeighboursDistinct(g)
    && Symmetric(g)
  }

  ghost predicate KeysAreNodes(g: GraphView) {
    && (forall n | n in g.nodes :: n in g.adj)
    && (forall n | n in g.adj :: n in g.nodes)
  }

  ghost predicate NeighboursDistinct(g: GraphView) {
    forall u | u in g.adj :: NoDup(g.adj[u])
  }

  ghost predicate Symmetric(g: GraphView) {
    forall u, v | u in g.adj && v in g.adj[u] :: v in g.adj && u in g.adj[v]
  }

  function Neighbours(g: GraphView, u: string): seq<string> {
    if u in g.adj then g.adj[u] else []
  }

  /** The edges of g as a set of unordered pairs. */
  ghost function EdgeSet(g: GraphView): set<set<string>> {
    set u, v | u in g.adj && v in g.adj[u] :: Pair(u, v)
  }

  /** `G.number_of_edges()`. */
  ghost function EdgeCount(g: GraphView): nat {
    |EdgeSet(g)|
  }

  /** Both endpoints of every edge are nodes. */
  ghost predicate EndpointsAreNodes(g: GraphView) {
    forall e, x | e in EdgeSet(g) && x in e :: x in g.nodes
  }

  lemma WellFormedEndpoints(g: GraphView)
    requires WellFormed(g)
    ensures EndpointsAreNodes(g)
  {
    forall e, x | e in EdgeSet(g) && x in e
      ensures x in g.nodes
    {
      var u, v :| u in g.adj && v in g.adj[u] && e == Pair(u, v);
      assert x == u || x == v;
    }
  }

  // ---------------------------------------------------------------------------
  // add_edge

  /** The node half of `add_edge`: a node not yet present is appended with no neighbours. */
  function AddNodeTo(g: GraphView, n: string): GraphView {
    if n in g.adj then g else GraphView(g.nodes + [n], g.adj[n := []])
  }

  /** Assigning a key of an insertion-ordered dict: appended only when new. */
  function AppendNew(s: seq<string>, x: string): seq<string> {
    if x in s then s else s + [x]
  }

  /**
   * `G.add_edge(u, v)`: add u, then v, as nodes when they are new;
   * then record v as a neighbour of u and u as a neighbour of v.
   */
  function AddEdgeTo(g: GraphView, u: string, v: string): GraphView {
    Link(AddNodeTo(AddNodeTo(g, u), v), u, v)
  }

  /** The edge half of `add_edge`: `G._adj[u][v] = d; G._adj[v][u] = d`. */
  function Link(g: GraphView, u: string, v: string): GraphView
    requires u in g.adj && v in g.adj
  {
    var a1 := g.adj[u := AppendNew(g.adj[u], v)];
    GraphView(g.nodes, a1[v := AppendNew(a1[v], u)])
  }

  lemma AddNodeWellFormed(g: GraphView, n: string)
    requires WellFormed(g)
    ensures WellFormed(AddNodeTo(g, n))
  {
    if n !in g.adj {
      var h := AddNodeTo(g, n);
      assert n !in g.nodes;
      assert NoDup(h.nodes) by {
        forall i, j | 0 <= i < j < |h.nodes| ensures h.nodes[i] != h.nodes[j] {
          if j == |g.nodes| {
            assert h.nodes[i] == g.nodes[i];
          }
        }
      }
    }
  }

  lemma AppendNewFacts(s: seq<string>, x: string)
    ensures forall y :: y in AppendNew(s, x) <==> y in s || y == x
    ensures NoDup(s) ==> NoDup(AppendNew(s, x))
  {
    if x !in s && NoDup(s) {
      var t := s + [x];
      forall i, j | 0 <= i < j < |t| ensures t[i] != t[j] {
        if j == |s| {
          assert t[i] == s[i];
        }
      }
    }
  }

  lemma LinkAdjacency(g: GraphView, u: string, v: string)
    requires u in g.adj && v in g.adj
    ensures Link(g, u, v).adj.Keys == g.adj.Keys
    ensures forall z, y | z in g.adj :: y in Link(g, u, v).adj[z] <==>
      y in g.adj[z] || (z == u && y == v) || (z == v && y == u)
    ensures NeighboursDistinct(g) ==> NeighboursDistinct(Link(g, u, v))
  {
    var a1 := g.adj[u := AppendNew(g.adj[u], v)];
    AppendNewFacts(g.adj[u], v);
    AppendNewFacts(a1[v], u);
  }

  lemma LinkWellFormed(g: GraphView, u: string, v: string)
    requires WellFormed(g) && u in g.adj && v in g.adj
    ensures WellFormed(Link(g, u, v))
  {
    var h := Link(g, u, v);
    LinkAdjacency(g, u, v);
    assert KeysAreNodes(h);
    assert Symmetric(h) by {
      forall x, y | x in h.adj && y in h.adj[x] ensures y in h.adj && x in h.adj[y] {
        if y in g.adj[x] {
          assert x in g.adj[y];
        }
      }
    }
  }

  /** `add_edge` keeps the graph invariant; in particular every endpoint stays a node. */
  lemma AddEdgeWellFormed(g: GraphView, u: string, v: string)
    requires WellFormed(g)
    ensures WellFormed(AddEdgeTo(g, u, v))
  {
    var g0 := AddNodeTo(g, u);
    AddNodeWellFormed(g, u);
    var g1 := AddNodeTo(g0, v);
    AddNodeWellFormed(g0, v);
    LinkWellFormed(g1, u, v);
  }

  /** The nodes `add_edge` appends, in order: u when new, then v when new and distinct from u. */
  lemma AddEdgeNodes(g: GraphView, u: string, v: string)
    requires WellFormed(g)
    ensures AddEdgeTo(g, u, v).nodes
         == g.nodes + (if u in g.nodes then [] else [u]) + (if v in g.nodes || v == u then [] else [v])
    ensures forall n :: n in AddEdgeTo(g, u, v).adj <==> n in g.adj || n == u || n == v
  {
  }

  /** `add_edge` adds the one unordered pair {u, v} to the edge set and nothing else. */
  lemma AddEdgeEdgeSet(g: GraphView, u: string, v: string)
    ensures EdgeSet(AddEdgeTo(g, u, v)) == EdgeSet(g) + {Pair(u, v)}
  {
    var g1 := AddNodeTo(AddNodeTo(g, u), v);
    var h := AddEdgeTo(g, u, v);
    assert EdgeSet(g1) == EdgeSet(g) by {
      forall e | e in EdgeSet(g1) ensures e in EdgeSet(g) {
        var x, y :| x in g1.adj && y in g1.adj[x] && e == Pair(x, y);
        assert x in g.adj && g.adj[x] == g1.adj[x];
      }
      forall e | e in EdgeSet(g) ensures e in EdgeSet(g1) {
        var x, y :| x in g.adj && y in g.adj[x] && e == Pair(x, y);
        assert x in g1.adj && g.adj[x] == g1.adj[x];
      }
    }
    assert v in h.adj[u];
    assert Pair(u, v) in EdgeSet(h);
    forall e | e in EdgeSet(h) ensures e in EdgeSet(g1) || e == Pair(u, v) {
      var x, y :| x in h.adj && y in h.adj[x] && e == Pair(x, y);
      if y !in g1.adj[x] {
        assert (x == u && y == v) || (x == v && y == u);
      }
    }
    forall e | e in EdgeSet(g1) ensures e in EdgeSet(h) {
      var x, y :| x in g1.adj && y in g1.adj[x] && e == Pair(x, y);
      assert y in h.adj[x];
    }
  }

  /** Repeating the last `add_edge` call, in either orientation, changes nothing. */
  lemma AddEdgeAgain(g: GraphView, u: string, v: string)
    ensures AddEdgeTo(AddEdgeTo(g, u, v), u, v) == AddEdgeTo(g, u, v)
    ensures AddEdgeTo(AddEdgeTo(g, u, v), v, u) == AddEdgeTo(g, u, v)
  {
  }

  /** Adding an edge the graph already has, in either orientation, changes nothing. */
  lemma AddExistingEdge(g: GraphView, u: string, v: string)
    requires WellFormed(g) && u in g.adj && v in g.adj[u]
    ensures AddEdgeTo(g, u, v) == g
    ensures AddEdgeTo(g, v, u) == g
  {
  }

  // ---------------------------------------------------------------------------
  // G.edges()

  /** The neighbours of u that are not in `seen`, each as the tuple (u, neighbour). */
  function Chunk(u: string, nbrs: seq<string>, seen: set<string>): seq<(string, string)>
  {
    if nbrs == [] then []
    else (if nbrs[0] in seen then [] else [(u, nbrs[0])]) + Chunk(u, nbrs[1..], seen)
  }

  /** The edge iteration over the nodes ns, given the nodes already visited. */
  function EdgesFrom(g: GraphView, ns: seq<string>, seen: set<string>): seq<(string, string)>
  {
    if ns == [] then []
    else Chunk(ns[0], Neighbours(g, ns[0]), seen) + EdgesFrom(g, ns[1..], seen + {ns[0]})
  }

  /**
   * `G.edges()`: for each node n in node order, the tuples (n, nbr) for the
   * neighbours nbr of n in neighbour order that were not visited before n.
   */
  function EdgeList(g: GraphView): seq<(string, string)> {
    EdgesFrom(g, g.nodes, {})
  }

  /** No two entries of l are the same unordered pair. */
  predicate PairsDistinct(l: seq<(string, string)>) {
    forall i, j | 0 <= i < j < |l| :: PairOf(l[i]) != PairOf(l[j])
  }

  /** The unordered pairs of the entries of l. */
  function PairSet(l: seq<(string, string)>): set<set<string>> {
    set k | 0 <= k < |l| :: PairOf(l[k])
  }

  lemma {:induction false} ChunkSound(u: string, nbrs: seq<string>, seen: set<string>, e: (string, string))
    requires e in Chunk(u, nbrs, seen)
    ensures e.0 == u && e.1 in nbrs && e.1 !in seen
    decreases |nbrs|
  {
    if nbrs != [] {
      if e !in (if nbrs[0] in seen then [] else [(u, nbrs[0])]) {
        ChunkSound(u, nbrs[1..], seen, e);
      }
    }
  }

  lemma {:induction false} EdgesFromSound(g: GraphView, ns: seq<string>, seen: set<string>, e: (string, string))
    requires e in EdgesFrom(g, ns, seen)
    ensures e.0 in ns && e.1 in Neighbours(g, e.0) && e.1 !in seen
    decreases |ns|
  {
    if ns != [] {
      var c := Chunk(ns[0], Neighbours(g, ns[0]), seen);
      if e in c {
        ChunkSound(ns[0], Neighbours(g, ns[0]), seen, e);
      } else {
        EdgesFromSound(g, ns[1..], seen + {ns[0]}, e);
      }
    }
  }

  /** Every entry of `G.edges()` is an edge of the graph, oriented as (earlier node, neighbour). */
  lemma EdgeListSound(g: GraphView, k: nat)
    requires k < |EdgeList(g)|
    ensures EdgeList(g)[k].0 in g.adj && EdgeList(g)[k].1 in g.adj[EdgeList(g)[k].0]
    ensures PairOf(EdgeList(g)[k]) in EdgeSet(g)
  {
    var e := EdgeList(g)[k];
    EdgesFromSound(g, g.nodes, {}, e);
  }

  lemma {:induction false} ChunkComplete(u: string, nbrs: seq<string>, seen: set<string>, v: string)
    requires v in nbrs && v !in seen
    ensures (u, v) in Chunk(u, nbrs, seen)
    decreases |nbrs|
  {
    if nbrs[0] != v {
      ChunkComplete(u, nbrs[1..], seen, v);
    }
  }

  lemma {:induction false} EdgesFromComplete(g: GraphView, ns: seq<string>, seen: set<string>, u: string, v: string)
    requires Symmetric(g)
    requires u in ns && u in g.adj && v in g.adj[u]
    requires u !in seen && v !in seen
    ensures (u, v) in EdgesFrom(g, ns, seen) || (v, u) in EdgesFrom(g, ns, seen)
    decreases |ns|
  {
    var x := ns[0];
    var c := Chunk(x, Neighbours(g, x), seen);
    assert EdgesFrom(g, ns, seen) == c + EdgesFrom(g, ns[1..], seen + {x});
    if u == x {
      ChunkComplete(x, Neighbours(g, x), seen, v);
    } else if v == x {
      assert u in g.adj[v];
      ChunkComplete(x, Neighbours(g, x), seen, u);
    } else {
      EdgesFromComplete(g, ns[1..], seen + {x}, u, v);
    }
  }

  /** Every edge of the graph is listed by `G.edges()`, in one of its two orientations. */
  lemma EdgeListComplete(g: GraphView, u: string, v: string)
    requires WellFormed(g)
    requires u in g.adj && v in g.adj[u]
    ensures (u, v) in EdgeList(g) || (v, u) in EdgeList(g)
  {
    EdgesFromComplete(g, g.nodes, {}, u, v);
  }

  lemma PairsDistinctConcat(a: seq<(string, string)>, b: seq<(string, string)>)
    requires PairsDistinct(a) && PairsDistinct(b)
    requires forall x, y | x in a && y in b :: PairOf(x) != PairOf(y)
    ensures PairsDistinct(a + b)
  {
    var l := a + b;
    forall i, j | 0 <= i < j < |l| ensures PairOf(l[i]) != PairOf(l[j]) {
      if j < |a| {
        assert l[i] == a[i] && l[j] == a[j];
      } else if i >= |a| {
        assert l[i] == b[i - |a|] && l[j] == b[j - |a|];
      } else {
        assert l[i] in a && l[j] in b;
      }
    }
  }

  lemma {:induction false} ChunkDistinct(u: string, nbrs: seq<string>, seen: set<string>)
    requires NoDup(nbrs)
    ensures PairsDistinct(Chunk(u, nbrs, seen))
    decreases |nbrs|
  {
    if nbrs != [] {
      var head := if nbrs[0] in seen then [] else [(u, nbrs[0])];
      var rest := Chunk(u, nbrs[1..], seen);
      assert NoDup(nbrs[1..]) by {
        forall i, j | 0 <= i < j < |nbrs[1..]| ensures nbrs[1..][i] != nbrs[1..][j] {
          assert nbrs[1..][i] == nbrs[i + 1] && nbrs[1..][j] == nbrs[j + 1];
        }
      }
      ChunkDistinct(u, nbrs[1..], seen);
      forall x, y | x in head && y in rest ensures PairOf(x) != PairOf(y) {
        ChunkSound(u, nbrs[1..], seen, y);
        assert nbrs[0] !in nbrs[1..];
        PairCancel(u, nbrs[0], y.1);
      }
      PairsDistinctConcat(head, rest);
    }
  }

  lemma {:induction false} EdgesFromDistinct(g: GraphView, ns: seq<string>, seen: set<string>)
    requires NoDup(ns)
    requires forall u | u in g.adj :: NoDup(g.adj[u])
    ensures PairsDistinct(EdgesFrom(g, ns, seen))
    decreases |ns|
  {
    if ns != [] {
      var x := ns[0];
      var c := Chunk(x, Neighbours(g, x), seen);
      var rest := EdgesFrom(g, ns[1..], seen + {x});
      ChunkDistinct(x, Neighbours(g, x), seen);
      assert NoDup(ns[1..]) by {
        forall i, j | 0 <= i < j < |ns[1..]| ensures ns[1..][i] != ns[1..][j] {
          assert ns[1..][i] == ns[i + 1] && ns[1..][j] == ns[j + 1];
        }
      }
      EdgesFromDistinct(g, ns[1..], seen + {x});
      forall a, b | a in c && b in rest ensures PairOf(a) != PairOf(b) {
        ChunkSound(x, Neighbours(g, x), seen, a);
        EdgesFromSound(g, ns[1..], seen + {x}, b);
        assert x !in ns[1..];
        assert x != b.0 && x != b.1;
        assert x in PairOf(a);
      }
      PairsDistinctConcat(c, rest);
    }
  }

  /** `G.edges()` lists no unordered pair twice. */
  lemma EdgeListDistinct(g: GraphView)
    requires WellFormed(g)
    ensures PairsDistinct(EdgeList(g))
  {
    EdgesFromDistinct(g, g.nodes, {});
  }

  /** The pairs listed by `G.edges()` are exactly the edge set. */
  lemma EdgeListPairs(g: GraphView)
    requires WellFormed(g)
    ensures PairSet(EdgeList(g)) == EdgeSet(g)
  {
    var l := EdgeList(g);
    forall e | e in PairSet(l) ensures e in EdgeSet(g) {
      var k :| 0 <= k < |l| && e == PairOf(l[k]);
      EdgeListSound(g, k);
    }
    forall e | e in EdgeSet(g) ensures e in PairSet(l) {
      var u, v :| u in g.adj && v in g.adj[u] && e == Pair(u, v);
      EdgeListComplete(g, u, v);
      if (u, v) in l {
        var k :| 0 <= k < |l| && l[k] == (u, v);
        assert PairOf(l[k]) == e;
      } else {
        var k :| 0 <= k < |l| && l[k] == (v, u);
        PairSymmetric(u, v);
        assert PairOf(l[k]) == e;
      }
    }
  }

  /** A list without a repeated pair has as many entries as pairs. */
  lemma {:induction false} PairSetSize(l: seq<(string, string)>)
    requires PairsDistinct(l)
    ensures |PairSet(l)| == |l|
    decreases |l|
  {
    if l != [] {
      var init := l[..|l| - 1];
      assert PairsDistinct(init) by {
        forall i, j | 0 <= i < j < |init| ensures PairOf(init[i]) != PairOf(init[j]) {
          assert init[i] == l[i] && init[j] == l[j];
        }
      }
      PairSetSize(init);
      var last := PairOf(l[|l| - 1]);
      assert PairSet(l) == PairSet(init) + {last} by {
        forall e | e in PairSet(l) ensures e in PairSet(init) + {last} {
          var k :| 0 <= k < |l| && e == PairOf(l[k]);
          if k < |l| - 1 {
            assert init[k] == l[k];
          }
        }
        forall e | e in PairSet(init) ensures e in PairSet(l) {
          var k :| 0 <= k < |init| && e == PairOf(init[k]);
          assert init[k] == l[k];
        }
      }
      assert last !in PairSet(init) by {
        forall k | 0 <= k < |init| ensures PairOf(init[k]) != last {
          assert init[k] == l[k];
        }
      }
    }
  }

  /** `G.edges()` lists each edge exactly once: its length is `G.number_of_edges()`. */
  lemma EdgeListLength(g: GraphView)
    requires WellFormed(g)
    ensures |EdgeList(g)| == EdgeCount(g)
  {
    EdgeListDistinct(g);
    EdgeListPairs(g);
    PairSetSize(EdgeList(g));
  }

  // ---------------------------------------------------------------------------
  // Example: the graph with the single edge a-b

  /** `nx.Graph()` followed by `add_edge("a", "b")`. */
  lemma OneEdgeGraph()
    ensures AddEdgeTo(Empty, "a", "b") == GraphView(["a", "b"], map["a" := ["b"], "b" := ["a"]])
  {
    assert "a" != "b" by { assert "a"[0] != "b"[0]; }
    var g0 := AddNodeTo(Empty, "a");
    assert g0 == GraphView(["a"], map["a" := []]);
    assert "b" !in g0.adj;
    assert AddNodeTo(g0, "b") == GraphView(["a", "b"], map["a" := [], "b" := []]);
    assert AppendNew([], "b") == ["b"];
    assert AppendNew([], "a") == ["a"];
    var a1 := map["a" := [], "b" := []]["a" := ["b"]];
    assert a1["b"] == [];
    assert a1["b" := ["a"]] == map["a" := ["b"], "b" := ["a"]];
  }

  /** Its `G.edges()` lists the edge once, oriented from the first node. */
  lemma OneEdgeList()
    ensures EdgeList(GraphView(["a", "b"], map["a" := ["b"], "b" := ["a"]])) == [("a", "b")]
  {
    assert "a" != "b" by { assert "a"[0] != "b"[0]; }
    var g := GraphView(["a", "b"], map["a" := ["b"], "b" := ["a"]]);
    assert Chunk("a", [], {}) == [];
    assert Chunk("a", ["b"], {}) == [("a", "b")];
    assert Chunk("b", [], {"a"}) == [];
    assert Chunk("b", ["a"], {"a"}) == [];
    assert g.nodes[1..] == ["b"];
    assert Neighbours(g, "a") == ["b"];
    assert Neighbours(g, "b") == ["a"];
    assert EdgesFrom(g, [], {"a", "b"}) == [];
    assert EdgesFrom(g, ["b"], {"a"}) == [] by {
      assert ["b"][1..] == [];
      assert {"a"} + {"b"} == {"a", "b"};
    }
    assert {} + {"a"} == {"a"};
    assert EdgeList(g) == Chunk("a", ["b"], {}) + EdgesFrom(g, ["b"], {"a"});
  }

  /** Its edge set is the one pair. */
  lemma OneEdgeSet()
    ensures EdgeSet(GraphView(["a", "b"], map["a" := ["b"], "b" := ["a"]])) == {{"a", "b"}}
  {
    var g := GraphView(["a", "b"], map["a" := ["b"], "b" := ["a"]]);
    assert Pair("a", "b") in EdgeSet(g);
    forall e | e in EdgeSet(g) ensures e == {"a", "b"} {
      var u, v :| u in g.adj && v in g.adj[u] && e == Pair(u, v);
      assert u == "a" || u == "b";
    }
  }

  // ---------------------------------------------------------------------------
  // The mutable graph object

  /** An `nx.Graph` object, grown in place by `add_edge`. */
  class Graph {
    var nodes: seq<string>
    var adj: map<string, seq<string>>

    function View(): GraphView
      reads this
    {
      GraphView(nodes, adj)
    }

    ghost predicate Valid()
      reads this
    {
      WellFormed(View())
    }

    /** `nx.Graph()`. */
    constructor ()
      ensures Valid() && View() == Empty
    {
      nodes := [];
      adj := map[];
    }

    /** `G.add_edge(u, v)`. */
    method AddEdge(u: string, v: string)
      requires Valid()
      modifies this
      ensures Valid()
      ensures View() == AddEdgeTo(old(View()), u, v)
      ensures EdgeSet(View()) == EdgeSet(old(View())) + {Pair(u, v)}
      ensures EndpointsAreNodes(View())
    {
      ghost var before := View();
      if u !in adj {
        nodes, adj := nodes + [u], adj[u := []];
      }
      assert View() == AddNodeTo(before, u);
      if v !in adj {
        nodes, adj := nodes + [v], adj[v := []];
      }
      ghost var g1 := AddNodeTo(AddNodeTo(before, u), v);
      assert View() == g1;
      if v !in adj[u] {
        adj := adj[u := adj[u] + [v]];
      }
      assert adj == g1.adj[u := AppendNew(g1.adj[u], v)];
      if u !in adj[v] {
        adj := adj[v := adj[v] + [u]];
      }
      assert View() == AddEdgeTo(before, u, v);
      AddEdgeWellFormed(before, u, v);
      AddEdgeEdgeSet(before, u, v);
      WellFormedEndpoints(View());
    }
  }
}
