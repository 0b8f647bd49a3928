/**
 * `get_centralities`: the five centrality mappings of a graph. Degree
 * centrality is defined here exactly; the other four are computed by the
 * graph library and enter the model as given mappings.
 */
module Centrality {
  import opened Basics
  import opened Table
  import opened Network

  /** A centrality mapping: node to score, in the mapping's iteration order. */
  type Scores = seq<(string, real)>

  /** The nodes of a mapping (or of a ranked list), in order. */
  function Names(s: Scores): (names: seq<string>)
    ensures |names| == |s|
    ensures forall i :: 0 <= i < |s| ==> names[i] == s[i].0
  {
    seq(|s|, i requires 0 <= i < |s| => s[i].0)
  }

  /** The neighbours of `n`; `n` itself is one when the self-loop {n} is an edge. */
  function Adjacent(g: Graph, n: string): set<string> {
    set m | m in g.nodes && {n, m} in g.edges
  }

  /** The degree as the graph library counts it: a self-loop adds two. */
  function Degree(g: Graph, n: string): nat {
    |Adjacent(g, n)| + if n in Adjacent(g, n) then 1 else 0
  }

  /** degree / (N - 1); the library gives every node 1 when N <= 1. */
  function DegreeScore(g: Graph, n: string): real {
    if |g.nodes| <= 1 then 1.0 else Degree(g, n) as real / (|g.nodes| - 1) as real
  }

  /** `degree_centrality`: one entry per node, in node order. */
  function DegreeCentrality(g: Graph): (c: Scores)
    ensures Names(c) == g.nodes
    ensures forall i :: 0 <= i < |c| ==> c[i].1 == DegreeScore(g, c[i].0)
  {
    seq(|g.nodes|, i requires 0 <= i < |g.nodes| => (g.nodes[i], DegreeScore(g, g.nodes[i])))
  }

  lemma {:induction false} SubsetCard(a: set<string>, b: set<string>)
    requires a <= b
    ensures |a| <= |b|
  {
    if a != {} {
      var x :| x in a;
      SubsetCard(a - {x}, b - {x});
    }
  }

  /** In a valid loop-free graph a node's neighbours are the other nodes at most. */
  lemma AdjacentBound(g: Graph, n: string)
    requires Valid(g) && LoopFree(g) && n in g.nodes
    ensures n !in Adjacent(g, n)
    ensures Degree(g, n) <= |g.nodes| - 1
  {
    assert {n, n} == {n};
    assert Adjacent(g, n) <= NodeSet(g) - {n};
    SubsetCard(Adjacent(g, n), NodeSet(g) - {n});
    DistinctCard(g.nodes);
    assert |NodeSet(g) - {n}| == |NodeSet(g)| - 1;
  }

  lemma RatioBound(d: nat, k: nat)
    requires 0 < k && d <= k
    ensures 0.0 <= d as real / k as real <= 1.0
  {
  }

  /** Degree centrality of a valid loop-free graph with two or more nodes lies in [0, 1]. */
  lemma DegreeCentralityRange(g: Graph)
    requires Valid(g) && LoopFree(g) && |g.nodes| >= 2
    ensures forall i :: 0 <= i < |DegreeCentrality(g)| ==> 0.0 <= DegreeCentrality(g)[i].1 <= 1.0
  {
    var c := DegreeCentrality(g);
    forall i | 0 <= i < |c|
      ensures 0.0 <= c[i].1 <= 1.0
    {
      var n := g.nodes[i];
      AdjacentBound(g, n);
      RatioBound(Degree(g, n), |g.nodes| - 1);
    }
  }

  /** A table with no row (x, x) gives a loop-free graph. */
  lemma EdgeListLoopFree(rows: seq<Row>, colA: string, colB: string)
    requires HasColumn(rows, colA) && HasColumn(rows, colB)
    requires forall i :: 0 <= i < |rows| ==> rows[i][colA] != rows[i][colB]
    ensures LoopFree(EdgeList(rows, colA, colB))
  {
    EdgeListEdges(rows, colA, colB);
    forall i | 0 <= i < |rows|
      ensures |{rows[i][colA], rows[i][colB]}| == 2
    {
      var a, b := rows[i][colA], rows[i][colB];
      assert {a, b} == {a} + {b};
    }
  }

  /** `get_centralities`: the five measures, in this insertion order. */
  function GetCentralities(g: Graph, betweenness: Scores, closeness: Scores, eigenvector: Scores, pagerank: Scores)
    : (measures: seq<(string, Scores)>)
    ensures |measures| == 5
    ensures measures[0] == ("Degree Centrality", DegreeCentrality(g))
    ensures measures[4] == ("PageRank Centrality", pagerank)
  {
    [ ("Degree Centrality", DegreeCentrality(g)),
      ("Betweenness Centrality", betweenness),
      ("Closeness Centrality", closeness),
      ("Eigenvector Centrality", eigenvector),
      ("PageRank Centrality", pagerank) ]
  }

  function BiogridRow(a: string, b: string): Row {
    map[BIOGRID_A := a, BIOGRID_B := b]
  }

  const BIOGRID_COLUMNS: set<string> := {BIOGRID_A, BIOGRID_B}

  /** Two-element sets of distinct symbols differ when one symbol differs. */
  lemma PairsDiffer(x: string, y: string, z: string)
    requires x != y && x != z && y != z
    ensures {x, y} != {x, z} && {x, y} != {z, y} && {x, x} != {x, y} && {y, y} != {x, y}
    ensures {y, x} == {x, y} && |{x, y}| == 2
  {
    assert y in {x, y} && y !in {x, z} && y !in {z, x};
    assert x in {x, y} && x !in {z, y} && x !in {y, y};
    assert y !in {x, x};
    assert {x, y} == {x} + {y};
  }

  /** One interaction (A, B): nodes A and B and one edge. */
  lemma SingleEdgeGraph()
    ensures WellFormed(BIOGRID_COLUMNS, [BiogridRow("A", "B")])
    ensures GenerateNetwork(BIOGRID_COLUMNS, [BiogridRow("A", "B")]) ==
      Built(Graph(["A", "B"], {{"A", "B"}}), false)
  {
  }

  /** Rows (A, B) and (B, A) give one undirected edge. */
  lemma ReversedPairGraph()
    ensures WellFormed(BIOGRID_COLUMNS, [BiogridRow("A", "B"), BiogridRow("B", "A")])
    ensures GenerateNetwork(BIOGRID_COLUMNS, [BiogridRow("A", "B"), BiogridRow("B", "A")]) ==
      Built(Graph(["A", "B"], {{"A", "B"}}), false)
  {
    var ab, ba := BiogridRow("A", "B"), BiogridRow("B", "A");
    assert HasBiogridColumns(BIOGRID_COLUMNS);
    EdgeListSnoc([], ab, BIOGRID_A, BIOGRID_B);
    assert AddNode(AddNode([], "A"), "B") == ["A", "B"];
    assert EdgeList([ab], BIOGRID_A, BIOGRID_B) == Graph(["A", "B"], {{"A", "B"}});
    EdgeListSnoc([ab], ba, BIOGRID_A, BIOGRID_B);
    assert [ab] + [ba] == [ab, ba];
    assert AddNode(AddNode(["A", "B"], "B"), "A") == ["A", "B"];
    assert {"B", "A"} == {"A", "B"};
  }

  /** The single edge (A, B) gives degree centrality {A: 1, B: 1}. */
  lemma SingleEdgeDegrees()
    ensures DegreeCentrality(Graph(["A", "B"], {{"A", "B"}})) == [("A", 1.0), ("B", 1.0)]
  {
    var g := Graph(["A", "B"], {{"A", "B"}});
    PairsDiffer("A", "B", "C");
    assert Adjacent(g, "A") == {"B"};
    assert Adjacent(g, "B") == {"A"};
  }

  const TRIANGLE_ROWS: seq<Row> := [BiogridRow("A", "B"), BiogridRow("B", "C"), BiogridRow("C", "A")]

  lemma TriangleEdgeList()
    ensures HasColumn(TRIANGLE_ROWS, BIOGRID_A) && HasColumn(TRIANGLE_ROWS, BIOGRID_B)
    ensures EdgeList(TRIANGLE_ROWS, BIOGRID_A, BIOGRID_B) ==
      Graph(["A", "B", "C"], {{"A", "B"}, {"B", "C"}, {"C", "A"}})
  {
    var ab, bc, ca := BiogridRow("A", "B"), BiogridRow("B", "C"), BiogridRow("C", "A");
    EdgeListSnoc([], ab, BIOGRID_A, BIOGRID_B);
    assert AddNode(AddNode([], "A"), "B") == ["A", "B"];
    assert EdgeList([ab], BIOGRID_A, BIOGRID_B) == Graph(["A", "B"], {{"A", "B"}});
    EdgeListSnoc([ab], bc, BIOGRID_A, BIOGRID_B);
    assert [ab] + [bc] == [ab, bc];
    assert "C" !in ["A", "B"];
    assert AddNode(AddNode(["A", "B"], "B"), "C") == ["A", "B", "C"];
    assert EdgeList([ab, bc], BIOGRID_A, BIOGRID_B) == Graph(["A", "B", "C"], {{"A", "B"}, {"B", "C"}});
    EdgeListSnoc([ab, bc], ca, BIOGRID_A, BIOGRID_B);
    assert [ab, bc] + [ca] == [ab, bc, ca];
    assert AddNode(AddNode(["A", "B", "C"], "C"), "A") == ["A", "B", "C"];
  }

  /** The rows (A, B), (B, C), (C, A) give the triangle on A, B and C. */
  lemma TriangleGraph()
    ensures WellFormed(BIOGRID_COLUMNS, TRIANGLE_ROWS)
    ensures GenerateNetwork(BIOGRID_COLUMNS, TRIANGLE_ROWS) ==
      Built(Graph(["A", "B", "C"], {{"A", "B"}, {"B", "C"}, {"C", "A"}}), false)
  {
    assert HasBiogridColumns(BIOGRID_COLUMNS);
    TriangleEdgeList();
  }

  /** The graph built from the triangle rows has three edges. */
  lemma TriangleEdgeCount()
    ensures WellFormed(BIOGRID_COLUMNS, TRIANGLE_ROWS)
    ensures |GenerateNetwork(BIOGRID_COLUMNS, TRIANGLE_ROWS).graph.edges| == 3
  {
    TriangleGraph();
    TriangleEdgeSet();
  }

  lemma TriangleEdgeSet()
    ensures |{{"A", "B"}, {"B", "C"}, {"C", "A"}}| == 3
  {
    PairsDiffer("A", "B", "C");
    PairsDiffer("B", "C", "A");
    PairsDiffer("C", "A", "B");
  }

  /** By symmetry every node of the triangle has the same degree centrality, 1. */
  lemma TriangleDegrees()
    ensures DegreeCentrality(Graph(["A", "B", "C"], {{"A", "B"}, {"B", "C"}, {"C", "A"}}))
      == [("A", 1.0), ("B", 1.0), ("C", 1.0)]
  {
    var g := Graph(["A", "B", "C"], {{"A", "B"}, {"B", "C"}, {"C", "A"}});
    PairsDiffer("A", "B", "C");
    PairsDiffer("B", "C", "A");
    PairsDiffer("C", "A", "B");
    PairsDiffer("A", "C", "B");
    PairsDiffer("B", "A", "C");
    PairsDiffer("C", "B", "A");
    assert Adjacent(g, "A") == {"B", "C"};
    assert Adjacent(g, "B") == {"A", "C"};
    assert Adjacent(g, "C") == {"A", "B"};
  }

  /** An empty table gives the empty graph, without a warning, and an empty mapping. */
  lemma EmptyTableScenario(columns: set<string>)
    requires HasBiogridColumns(columns) || HasStringColumns(columns)
    ensures GenerateNetwork(columns, []) == Built(EMPTY, false)
    ensures DegreeCentrality(EMPTY) == []
  {
  }

  /** Self-loops are kept: rows (A, A) and (A, B) give the edges {A} and {A, B}. */
  lemma SelfLoopGraph()
    ensures WellFormed(BIOGRID_COLUMNS, [BiogridRow("A", "A"), BiogridRow("A", "B")])
    ensures GenerateNetwork(BIOGRID_COLUMNS, [BiogridRow("A", "A"), BiogridRow("A", "B")]) ==
      Built(Graph(["A", "B"], {{"A"}, {"A", "B"}}), false)
  {
    var aa, ab := BiogridRow("A", "A"), BiogridRow("A", "B");
    assert HasBiogridColumns(BIOGRID_COLUMNS);
    EdgeListSnoc([], aa, BIOGRID_A, BIOGRID_B);
    assert {"A", "A"} == {"A"};
    assert AddNode(AddNode([], "A"), "A") == ["A"];
    assert EdgeList([aa], BIOGRID_A, BIOGRID_B) == Graph(["A"], {{"A"}});
    EdgeListSnoc([aa], ab, BIOGRID_A, BIOGRID_B);
    assert [aa] + [ab] == [aa, ab];
    assert AddNode(AddNode(["A"], "A"), "B") == ["A", "B"];
  }

  /** A self-loop breaks the [0, 1] range: A has degree 3 over N - 1 = 1. */
  lemma SelfLoopDegree()
    ensures DegreeCentrality(Graph(["A", "B"], {{"A"}, {"A", "B"}}))[0] == ("A", 3.0)
  {
    var g := Graph(["A", "B"], {{"A"}, {"A", "B"}});
    PairsDiffer("A", "B", "C");
    assert {"A", "A"} == {"A"};
    assert Adjacent(g, "A") == {"A", "B"};
    assert Degree(g, "A") == 3;
  }
}
