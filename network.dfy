/**
 * `generate_network`: an undirected simple graph built from the two
 * endpoint-symbol columns of the table, chosen by which column pair the
 * table has (the BioGRID pair first, the STRING pair second).
 */
module Network {
  import opened Basics
  import opened Table

  /** An undirected edge: {a, b}, or {a} for a self-loop. */
  type Edge = set<string>

  /**
   * Nodes are kept in insertion order, as the graph library keeps them: that
   * order is the iteration order of every centrality mapping.
   */
  datatype Graph = Graph(nodes: seq<string>, edges: set<Edge>)

  const EMPTY: Graph := Graph([], {})

  function NodeSet(g: Graph): set<string> {
    Elements(g.nodes)
  }

  /** No node twice; every edge has one or two endpoints, all of them nodes. */
  predicate Valid(g: Graph) {
    && Distinct(g.nodes)
    && forall e :: e in g.edges ==> 1 <= |e| <= 2 && forall x :: x in e ==> x in g.nodes
  }

  predicate LoopFree(g: Graph) {
    forall e :: e in g.edges ==> |e| == 2
  }

  function AddNode(nodes: seq<string>, x: string): seq<string> {
    if x in nodes then nodes else nodes + [x]
  }

  /** Adding edge (a, b): a new endpoint is appended, a, then b. */
  function AddEdge(g: Graph, a: string, b: string): Graph {
    Graph(AddNode(AddNode(g.nodes, a), b), g.edges + {{a, b}})
  }

  /** `from_pandas_edgelist(rows, colA, colB)`: add the rows' edges, top to bottom. */
  function EdgeList(rows: seq<Row>, colA: string, colB: string): Graph
    requires HasColumn(rows, colA) && HasColumn(rows, colB)
  {
    if rows == [] then EMPTY
    else
      var last := rows[|rows| - 1];
      AddEdge(EdgeList(rows[..|rows| - 1], colA, colB), last[colA], last[colB])
  }

  /** Adding one more row adds its edge to the graph of the rows before it. */
  lemma EdgeListSnoc(rows: seq<Row>, row: Row, colA: string, colB: string)
    requires HasColumn(rows, colA) && HasColumn(rows, colB) && colA in row && colB in row
    ensures HasColumn(rows + [row], colA) && HasColumn(rows + [row], colB)
    ensures EdgeList(rows + [row], colA, colB) == AddEdge(EdgeList(rows, colA, colB), row[colA], row[colB])
  {
    assert (rows + [row])[..|rows|] == rows;
  }

  /** Every value that appears in either column. */
  function Endpoints(rows: seq<Row>, colA: string, colB: string): set<string>
    requires HasColumn(rows, colA) && HasColumn(rows, colB)
  {
    (set i | 0 <= i < |rows| :: rows[i][colA]) + (set i | 0 <= i < |rows| :: rows[i][colB])
  }

  /** The unordered pair of each row. */
  function RowEdges(rows: seq<Row>, colA: string, colB: string): set<Edge>
    requires HasColumn(rows, colA) && HasColumn(rows, colB)
  {
    set i | 0 <= i < |rows| :: {rows[i][colA], rows[i][colB]}
  }

  /** The last row's contribution to the endpoints and to the pairs. */
  lemma SplitLast(rows: seq<Row>, colA: string, colB: string)
    requires rows != [] && HasColumn(rows, colA) && HasColumn(rows, colB)
    ensures HasColumn(rows[..|rows| - 1], colA) && HasColumn(rows[..|rows| - 1], colB)
    ensures Endpoints(rows, colA, colB) ==
      Endpoints(rows[..|rows| - 1], colA, colB) + {rows[|rows| - 1][colA], rows[|rows| - 1][colB]}
    ensures RowEdges(rows, colA, colB) ==
      RowEdges(rows[..|rows| - 1], colA, colB) + {{rows[|rows| - 1][colA], rows[|rows| - 1][colB]}}
  {
    var n := |rows| - 1;
    var init := rows[..n];
    assert (set i | 0 <= i < |rows| :: rows[i][colA]) == (set i | 0 <= i < n :: init[i][colA]) + {rows[n][colA]};
    assert (set i | 0 <= i < |rows| :: rows[i][colB]) == (set i | 0 <= i < n :: init[i][colB]) + {rows[n][colB]};
  }

  lemma AddNodeSpec(nodes: seq<string>, x: string)
    requires Distinct(nodes)
    ensures Distinct(AddNode(nodes, x))
    ensures Elements(AddNode(nodes, x)) == Elements(nodes) + {x}
  {
    if x !in nodes {
      assert Elements(nodes + [x]) == Elements(nodes) + {x};
    }
  }

  lemma PairSize(a: string, b: string)
    ensures 1 <= |{a, b}| <= 2
  {
    if a == b {
      assert {a, b} == {a};
    }
  }

  /** Adding one edge keeps a graph valid and adds exactly its endpoints. */
  lemma AddEdgeSpec(g: Graph, a: string, b: string)
    requires Valid(g)
    ensures Valid(AddEdge(g, a, b))
    ensures NodeSet(AddEdge(g, a, b)) == NodeSet(g) + {a, b}
  {
    AddNodeSpec(g.nodes, a);
    AddNodeSpec(AddNode(g.nodes, a), b);
    PairSize(a, b);
    var g' := AddEdge(g, a, b);
    assert NodeSet(g') == NodeSet(g) + {a, b};
    forall e | e in g'.edges
      ensures 1 <= |e| <= 2 && forall x :: x in e ==> x in g'.nodes
    {
      if e in g.edges {
        assert forall x :: x in e ==> x in NodeSet(g);
      }
    }
  }

  /** Building from an edge list gives a valid graph whose nodes are exactly
      the values of the two columns. */
  lemma {:induction false} EdgeListNodes(rows: seq<Row>, colA: string, colB: string)
    requires HasColumn(rows, colA) && HasColumn(rows, colB)
    ensures Valid(EdgeList(rows, colA, colB))
    ensures NodeSet(EdgeList(rows, colA, colB)) == Endpoints(rows, colA, colB)
  {
    if rows != [] {
      var n := |rows| - 1;
      SplitLast(rows, colA, colB);
      EdgeListNodes(rows[..n], colA, colB);
      AddEdgeSpec(EdgeList(rows[..n], colA, colB), rows[n][colA], rows[n][colB]);
    }
  }

  /** The edges are exactly the rows' unordered pairs, so there are no more
      edges than rows. */
  lemma {:induction false} EdgeListEdges(rows: seq<Row>, colA: string, colB: string)
    requires HasColumn(rows, colA) && HasColumn(rows, colB)
    ensures EdgeList(rows, colA, colB).edges == RowEdges(rows, colA, colB)
    ensures |EdgeList(rows, colA, colB).edges| <= |rows|
  {
    if rows != [] {
      var n := |rows| - 1;
      SplitLast(rows, colA, colB);
      EdgeListEdges(rows[..n], colA, colB);
    }
  }

  /** The endpoints in reading order: row 0's A, row 0's B, row 1's A, ... */
  function EndpointSeq(rows: seq<Row>, colA: string, colB: string): seq<string>
    requires HasColumn(rows, colA) && HasColumn(rows, colB)
  {
    seq(2 * |rows|, k requires 0 <= k < 2 * |rows| =>
      if k % 2 == 0 then rows[k / 2][colA] else rows[k / 2][colB])
  }

  /** The position of the first occurrence of `x` in `s`. */
  function FirstIndex(s: seq<string>, x: string): (k: nat)
    requires x in s
    ensures k < |s| && s[k] == x && x !in s[..k]
  {
    if s[0] == x then 0 else 1 + FirstIndex(s[1..], x)
  }

  /** `nodes` holds values of `e`, ordered by where they first occur in `e`. */
  predicate InFirstOrder(nodes: seq<string>, e: seq<string>) {
    forall i, j :: 0 <= i < j < |nodes| ==>
      nodes[i] in e && nodes[j] in e && FirstIndex(e, nodes[i]) < FirstIndex(e, nodes[j])
  }

  lemma EndpointSeqSnoc(rows: seq<Row>, colA: string, colB: string)
    requires rows != [] && HasColumn(rows, colA) && HasColumn(rows, colB)
    ensures HasColumn(rows[..|rows| - 1], colA) && HasColumn(rows[..|rows| - 1], colB)
    ensures EndpointSeq(rows, colA, colB) ==
      EndpointSeq(rows[..|rows| - 1], colA, colB) + [rows[|rows| - 1][colA], rows[|rows| - 1][colB]]
  {
  }

  lemma {:induction false} FirstIndexUnique(s: seq<string>, x: string, k: nat)
    requires k < |s| && s[k] == x && x !in s[..k]
    ensures FirstIndex(s, x) == k
  {
    if k > 0 {
      assert s[0] != x by {
        assert s[0] == s[..k][0];
      }
      assert s[1..][..k - 1] == s[..k][1..];
      FirstIndexUnique(s[1..], x, k - 1);
    }
  }

  /** Appending `x` moves no first occurrence, and puts a new value's at the end. */
  lemma FirstIndexSnoc(e: seq<string>, x: string)
    ensures forall y :: y in e ==> FirstIndex(e + [x], y) == FirstIndex(e, y)
    ensures x !in e ==> FirstIndex(e + [x], x) == |e|
  {
    forall y | y in e
      ensures FirstIndex(e + [x], y) == FirstIndex(e, y)
    {
      var k := FirstIndex(e, y);
      assert (e + [x])[..k] == e[..k];
      FirstIndexUnique(e + [x], y, k);
    }
    if x !in e {
      assert (e + [x])[..|e|] == e;
      FirstIndexUnique(e + [x], x, |e|);
    }
  }

  /** Appending `x` to the endpoints and adding it as a node keep the first-occurrence order. */
  lemma AddNodeOrder(nodes: seq<string>, e: seq<string>, x: string)
    requires Elements(nodes) == Elements(e) && InFirstOrder(nodes, e)
    ensures Elements(AddNode(nodes, x)) == Elements(e + [x])
    ensures InFirstOrder(AddNode(nodes, x), e + [x])
  {
    var e' := e + [x];
    assert Elements(e') == Elements(e) + {x};
    FirstIndexSnoc(e, x);
    if x !in nodes {
      assert x !in Elements(e);
      AppendNodeOrder(nodes, e, x);
    } else {
      assert x in Elements(nodes);
    }
  }

  lemma AppendNodeOrder(nodes: seq<string>, e: seq<string>, x: string)
    requires Elements(nodes) == Elements(e) && InFirstOrder(nodes, e) && x !in e
    requires forall y :: y in e ==> FirstIndex(e + [x], y) == FirstIndex(e, y)
    requires FirstIndex(e + [x], x) == |e|
    ensures Elements(nodes + [x]) == Elements(e) + {x}
    ensures InFirstOrder(nodes + [x], e + [x])
  {
    var n', e' := nodes + [x], e + [x];
    assert Elements(n') == Elements(nodes) + {x};
    forall i, j | 0 <= i < j < |n'|
      ensures n'[i] in e' && n'[j] in e' && FirstIndex(e', n'[i]) < FirstIndex(e', n'[j])
    {
      assert n'[i] == nodes[i];
      assert nodes[i] in Elements(nodes);
      if j < |nodes| {
        assert n'[j] == nodes[j];
        assert nodes[j] in Elements(nodes);
      }
    }
  }

  /**
   * The nodes of an edge-list graph are the endpoints in the order they first
   * occur when the rows are read top to bottom, column A before column B.
   */
  lemma {:induction false} EdgeListOrder(rows: seq<Row>, colA: string, colB: string)
    requires HasColumn(rows, colA) && HasColumn(rows, colB)
    ensures Elements(EdgeList(rows, colA, colB).nodes) == Elements(EndpointSeq(rows, colA, colB))
    ensures InFirstOrder(EdgeList(rows, colA, colB).nodes, EndpointSeq(rows, colA, colB))
  {
    if rows != [] {
      var n := |rows| - 1;
      var a, b := rows[n][colA], rows[n][colB];
      EndpointSeqSnoc(rows, colA, colB);
      EdgeListOrder(rows[..n], colA, colB);
      var nodes0 := EdgeList(rows[..n], colA, colB).nodes;
      var e0 := EndpointSeq(rows[..n], colA, colB);
      AddNodeOrder(nodes0, e0, a);
      AddNodeOrder(AddNode(nodes0, a), e0 + [a], b);
      assert e0 + [a] + [b] == e0 + [a, b];
    }
  }

  /** Swapping the two columns gives the same edges: they are undirected. */
  lemma EdgesUndirected(rows: seq<Row>, colA: string, colB: string)
    requires HasColumn(rows, colA) && HasColumn(rows, colB)
    ensures EdgeList(rows, colA, colB).edges == EdgeList(rows, colB, colA).edges
  {
    EdgeListEdges(rows, colA, colB);
    EdgeListEdges(rows, colB, colA);
    forall i | 0 <= i < |rows|
      ensures {rows[i][colA], rows[i][colB]} == {rows[i][colB], rows[i][colA]}
    {
    }
  }

  predicate HasBiogridColumns(columns: set<string>) {
    BIOGRID_A in columns && BIOGRID_B in columns
  }

  predicate HasStringColumns(columns: set<string>) {
    STRING_A in columns && STRING_B in columns
  }

  /** The graph, and whether the "invalid PPI data" warning was raised. */
  datatype Built = Built(graph: Graph, warned: bool)

  /**
   * `generate_network`. The BioGRID pair wins when both pairs are present;
   * the STRING pair is used only when the BioGRID pair is absent; with
   * neither, the warning is raised and the empty graph is returned.
   */
  function GenerateNetwork(columns: set<string>, rows: seq<Row>): (r: Built)
    requires WellFormed(columns, rows)
    ensures Valid(r.graph)
    ensures |r.graph.edges| <= |rows|
    ensures r.warned <==> !HasBiogridColumns(columns) && !HasStringColumns(columns)
    ensures r.warned ==> r.graph == EMPTY
    ensures HasBiogridColumns(columns) ==>
      && NodeSet(r.graph) == Endpoints(rows, BIOGRID_A, BIOGRID_B)
      && r.graph.edges == RowEdges(rows, BIOGRID_A, BIOGRID_B)
    ensures !HasBiogridColumns(columns) && HasStringColumns(columns) ==>
      && NodeSet(r.graph) == Endpoints(rows, STRING_A, STRING_B)
      && r.graph.edges == RowEdges(rows, STRING_A, STRING_B)
  {
    if HasBiogridColumns(columns) then
      WellFormedHasColumn(columns, rows, BIOGRID_A);
      WellFormedHasColumn(columns, rows, BIOGRID_B);
      EdgeListNodes(rows, BIOGRID_A, BIOGRID_B);
      EdgeListEdges(rows, BIOGRID_A, BIOGRID_B);
      Built(EdgeList(rows, BIOGRID_A, BIOGRID_B), false)
    else if HasStringColumns(columns) then
      WellFormedHasColumn(columns, rows, STRING_A);
      WellFormedHasColumn(columns, rows, STRING_B);
      EdgeListNodes(rows, STRING_A, STRING_B);
      EdgeListEdges(rows, STRING_A, STRING_B);
      Built(EdgeList(rows, STRING_A, STRING_B), false)
    else
      Built(EMPTY, true)
  }

  /** With the BioGRID pair present, the STRING columns play no part. */
  lemma BiogridPreferred(columns: set<string>, rows: seq<Row>, rows': seq<Row>)
    requires WellFormed(columns, rows) && WellFormed(columns, rows')
    requires HasBiogridColumns(columns)
    requires |rows| == |rows'|
    requires forall i :: 0 <= i < |rows| ==>
      rows[i][BIOGRID_A] == rows'[i][BIOGRID_A] && rows[i][BIOGRID_B] == rows'[i][BIOGRID_B]
    ensures GenerateNetwork(columns, rows) == GenerateNetwork(columns, rows')
  {
    WellFormedHasColumn(columns, rows, BIOGRID_A);
    WellFormedHasColumn(columns, rows, BIOGRID_B);
    WellFormedHasColumn(columns, rows', BIOGRID_A);
    WellFormedHasColumn(columns, rows', BIOGRID_B);
    SameEndpointsSameGraph(rows, rows', BIOGRID_A, BIOGRID_B);
  }

  /** The graph depends on the two selected columns only (order included). */
  lemma {:induction false} SameEndpointsSameGraph(rows: seq<Row>, rows': seq<Row>, colA: string, colB: string)
    requires HasColumn(rows, colA) && HasColumn(rows, colB)
    requires HasColumn(rows', colA) && HasColumn(rows', colB)
    requires |rows| == |rows'|
    requires forall i :: 0 <= i < |rows| ==> rows[i][colA] == rows'[i][colA] && rows[i][colB] == rows'[i][colB]
    ensures EdgeList(rows, colA, colB) == EdgeList(rows', colA, colB)
  {
    if rows != [] {
      var n := |rows| - 1;
      SameEndpointsSameGraph(rows[..n], rows'[..n], colA, colB);
    }
  }
}
