# PPI network dashboard: the edge-list pipeline

This project models the computational core of a Streamlit dashboard. The
dashboard fetches protein-protein interactions from BioGRID or STRING, builds
an undirected graph, computes centrality measures, and reports the top five
proteins per measure. The model covers that core, and Dafny proves its
properties:

- **Retrieval normalisation** (`Table`). The parsed response is a table of
  rows, each a map from column name to value. A `Frame` class stands for the
  pandas DataFrame. Its methods overwrite the two endpoint-symbol columns in
  place with their upper-cased values. A missing column raises in the source;
  here it is reported as the name of the missing column.
- **Graph building** (`Network`). `generate_network` checks for the BioGRID
  column pair first, then the STRING pair. It builds the graph from whichever
  pair it finds. With neither, it warns and returns the empty graph. Nodes
  keep the graph library's insertion order, because that order is the
  iteration order of every centrality mapping and so decides ranking ties.
  Edges are one- or two-element sets. A row (A, A) gives the self-loop {A},
  since the source keeps self-loops.
- **Degree centrality** (`Centrality`). Each node's degree divided by N - 1,
  as an exact `real`. The other four measures come from the graph library and
  enter as given mappings.
- **Ranking and highlighting** (`Ranking`). A stable sort by descending
  score, then the first five entries, numbered from 1, then the node names. A
  loop over the five measures rebinds the highlighted names on every pass, so
  the PageRank ranking is the one that survives.

Where a reader might expect other behaviour, the model follows the source:

- An unrecognised schema does not raise an error. The source shows a warning
  and returns the empty graph, and so does `Network.GenerateNetwork`.
- An empty response is not handled as a valid empty table. The source's column
  lookups raise on a table without the symbol columns. The model reports the
  missing column.
- Rows with a missing endpoint are not dropped. No such filter exists in the
  source. In the model every row carries every column.
- Self-loops are kept. They push degree centrality above 1
  (`Centrality.SelfLoopDegree`), so the range [0, 1] is guaranteed only for
  loop-free graphs.

Degree follows the graph library's convention: a self-loop adds 2 to its
node's degree. For a graph with N <= 1 the library assigns every node the
score 1. That library code is not part of this model. Its convention is
written out in `Centrality.Degree` and `Centrality.DegreeScore`.

## Model

| member | source | states |
|---|---|---|
| `Ascii.Upper` | Lab2-BEH_SHU_YIE.py:36-37 | the upper-cased symbol has the same length and no lower-case letter left; a symbol equals its upper-cased form exactly when it is already upper case (so upper-casing is idempotent) |
| `Table.UpperAll` | Lab2-BEH_SHU_YIE.py:36 | the comprehension yields one value per input value, in order, each the upper-cased input |
| `Table.WithUpperColumn` | Lab2-BEH_SHU_YIE.py:36 | computes the table after `df[col] = df[col].str.upper()`: every row with its value in `col` replaced by the upper-cased value, all else as it was |
| `Table.WithUpperColumnSpec` | Lab2-BEH_SHU_YIE.py:36 | overwriting one column keeps row count, row order, every row's columns and every other value; the new values are upper case |
| `Table.Frame.UpperColumn` | Lab2-BEH_SHU_YIE.py:49 | the column is overwritten in place by its upper-cased values when it exists; a missing column is reported and nothing changes |
| `Table.NormaliseSymbols` | Lab2-BEH_SHU_YIE.py:36-37 | both endpoint columns are upper-cased one after the other; the first missing column is reported and stops the normalisation, as the raised exception does |
| `Table.RetrieveBiogrid` | Lab2-BEH_SHU_YIE.py:36-37 | after retrieval the `OFFICIAL_SYMBOL_A`/`B` columns are normalised; it fails exactly when one of them is missing |
| `Table.RetrieveString` | Lab2-BEH_SHU_YIE.py:49-50 | after retrieval the `preferredName_A`/`B` columns are normalised; it fails exactly when one of them is missing |
| `Table.Normalised` | Lab2-BEH_SHU_YIE.py:36-37 | computes the table a retrieval function returns: column A upper-cased, then column B upper-cased in the result |
| `Table.NormalisedSpec` | Lab2-BEH_SHU_YIE.py:36-37 | after normalisation, row count and order are unchanged, every value in both endpoint columns is upper case (the second overwrite does not undo the first), and all other values are untouched |
| `Table.NormalisedIdempotent` | Lab2-BEH_SHU_YIE.py:49-50 | normalising an already normalised table changes nothing |
| `Network.EdgeList` | Lab2-BEH_SHU_YIE.py:56 | computes `from_pandas_edgelist`: the rows are read top to bottom; each adds its A value, then its B value, as a node on first appearance, and adds the unordered pair {A, B} as an edge |
| `Network.EdgeListOrder` | Lab2-BEH_SHU_YIE.py:56 | the nodes are exactly the endpoint values, listed in the order they first occur when reading row 0's A, row 0's B, row 1's A, and so on; with the distinctness from `EdgeListNodes` this fixes the node order, which is the order every centrality mapping iterates in |
| `Network.EdgeListNodes` | Lab2-BEH_SHU_YIE.py:56 | the edge-list graph is valid (distinct nodes, edges of one or two endpoints that are nodes) and its node set is exactly the set of values in the two selected columns |
| `Network.EdgeListEdges` | Lab2-BEH_SHU_YIE.py:58 | the edges are exactly the rows' unordered pairs, deduplicated, so there are no more edges than rows |
| `Network.EdgesUndirected` | Lab2-BEH_SHU_YIE.py:56 | swapping the two endpoint columns gives the same edge set |
| `Network.GenerateNetwork` | Lab2-BEH_SHU_YIE.py:53-61 | the warning is raised exactly when neither column pair is present, and then the graph is empty; with the BioGRID pair, nodes and edges come from it; the STRING pair is used only when the BioGRID pair is absent; always a valid graph with at most one edge per row |
| `Network.BiogridPreferred` | Lab2-BEH_SHU_YIE.py:55-56 | when the BioGRID pair is present, the graph does not depend on any other column, the STRING pair included |
| `Network.SameEndpointsSameGraph` | Lab2-BEH_SHU_YIE.py:56 | the graph, node order included, depends only on the two selected columns of the rows, in row order |
| `Centrality.Degree` | Lab2-BEH_SHU_YIE.py:64 | computes a node's degree as the graph library counts it: the number of its neighbours, with a self-loop counting 2 |
| `Centrality.DegreeScore` | Lab2-BEH_SHU_YIE.py:64 | computes a node's degree centrality: 1 when the graph has at most one node, degree / (N - 1) otherwise |
| `Centrality.DegreeCentrality` | Lab2-BEH_SHU_YIE.py:64 | the mapping has one entry per node, in node order, and nothing else |
| `Centrality.AdjacentBound` | Lab2-BEH_SHU_YIE.py:64 | in a valid loop-free graph a node is not its own neighbour and its degree is at most N - 1 |
| `Centrality.DegreeCentralityRange` | Lab2-BEH_SHU_YIE.py:64 | for a valid loop-free graph with at least two nodes every degree centrality lies in [0, 1] |
| `Centrality.EdgeListLoopFree` | Lab2-BEH_SHU_YIE.py:56 | a table without a row (x, x) gives a loop-free graph |
| `Centrality.GetCentralities` | Lab2-BEH_SHU_YIE.py:63-76 | five measures, degree centrality of the graph first and PageRank last |
| `Centrality.SingleEdgeGraph` | Lab2-BEH_SHU_YIE.py:53-58 | the one row (A, B) gives the nodes A, B and the single edge {A, B}, without a warning |
| `Centrality.SingleEdgeDegrees` | Lab2-BEH_SHU_YIE.py:64 | the single edge (A, B) gives degree centrality {A: 1, B: 1} |
| `Centrality.ReversedPairGraph` | Lab2-BEH_SHU_YIE.py:56 | rows (A, B) and (B, A) give one edge |
| `Centrality.TriangleGraph` | Lab2-BEH_SHU_YIE.py:56 | rows (A, B), (B, C), (C, A) give the triangle on A, B, C |
| `Centrality.TriangleEdgeCount` | Lab2-BEH_SHU_YIE.py:98 | the graph built from the triangle rows has three edges, the count line 98 prints |
| `Centrality.TriangleDegrees` | Lab2-BEH_SHU_YIE.py:64 | every node of the triangle has degree centrality 1 |
| `Centrality.EmptyTableScenario` | Lab2-BEH_SHU_YIE.py:54-58 | an empty table with a recognised schema gives the empty graph without a warning, and an empty degree mapping |
| `Centrality.SelfLoopGraph` | Lab2-BEH_SHU_YIE.py:56 | a row (A, A) is kept as the self-loop {A} |
| `Centrality.SelfLoopDegree` | Lab2-BEH_SHU_YIE.py:64 | with a self-loop the degree centrality can exceed 1: rows (A, A), (A, B) give A the score 3 |
| `Centrality.Names` | Lab2-BEH_SHU_YIE.py:114 | the node names of a ranked list: one per entry, in the same order, each the entry's node |
| `Ranking.SortDescending` | Lab2-BEH_SHU_YIE.py:110 | computes `sorted(values.items(), key=lambda x: -x[1])` as a stable insertion sort: each item goes in front of the first item whose score is not larger |
| `Ranking.SortDescendingPermutes` | Lab2-BEH_SHU_YIE.py:110 | sorting returns a permutation of the mapping's items |
| `Ranking.SortDescendingSorted` | Lab2-BEH_SHU_YIE.py:110 | the sorted items have non-increasing scores |
| `Ranking.SortDescendingStable` | Lab2-BEH_SHU_YIE.py:110 | for every score, the items with that score appear in the mapping's iteration order (the sort is stable) |
| `Ranking.SortDescendingNames` | Lab2-BEH_SHU_YIE.py:110 | sorting keeps the set of nodes, and distinct nodes stay distinct |
| `Ranking.StableSortUnique` | Lab2-BEH_SHU_YIE.py:110 | two lists sorted by non-increasing score that agree on the items of every score are equal |
| `Ranking.StableSortIsSortDescending` | Lab2-BEH_SHU_YIE.py:110 | any stable sort by descending score, Python's `sorted` with key `-score` among them, gives exactly the modelled sort |
| `Ranking.TopFive` | Lab2-BEH_SHU_YIE.py:110 | computes `[:5]` of the sorted items: the first min(5, n) entries of `SortDescending` |
| `Ranking.TopFiveEntries` | Lab2-BEH_SHU_YIE.py:110 | the ranked list has min(5, size of mapping) entries, scores non-increasing, each an item of the mapping |
| `Ranking.TopFiveBest` | Lab2-BEH_SHU_YIE.py:110 | no item left out of the ranked list scores higher than an item kept |
| `Ranking.TopFiveDistinct` | Lab2-BEH_SHU_YIE.py:110 | no node appears twice in the ranked list |
| `Ranking.TopFiveStable` | Lab2-BEH_SHU_YIE.py:110 | for each score, the kept items are the first items of that score in the mapping's order |
| `Ranking.RankingIdempotent` | Lab2-BEH_SHU_YIE.py:110 | re-ranking an already ranked list returns it unchanged |
| `Ranking.Numbered` | Lab2-BEH_SHU_YIE.py:111-112 | computes `enumerate(top_5_nodes, start=1)`: entry i of the ranked list becomes rank i + 1 with its node and score |
| `Ranking.ReportSpec` | Lab2-BEH_SHU_YIE.py:110-112 | the report has min(5, size) entries ranked 1..k consecutively, scores non-increasing, each (node, score) a pair of the mapping, no node repeated |
| `Ranking.ReportCentralities` | Lab2-BEH_SHU_YIE.py:108-114 | one report per measure, in order; after the loop the highlighted names are the ranked node names of the last measure, in rank order |
| `Ranking.HighlightedNodes` | Lab2-BEH_SHU_YIE.py:106-133 | the five reports follow `get_centralities` order, and the nodes highlighted in the drawing are PageRank's ranked names |

## Left out

- HTTP requests, query parameters and the access key (Lab2-BEH_SHU_YIE.py:23-33, 40-46): network I/O. The model starts from the parsed table.
- JSON decoding and DataFrame construction (`from_dict`, `json_normalize`): foreign library calls. The table is given as columns and rows.
- Missing cells (NaN) and non-string values in the symbol columns: every row is modelled as carrying a string for every column.
- `Ascii.Upper`: upper-cases ASCII letters only. Python's `str.upper` also maps other Unicode letters, some to several characters.
- Betweenness, closeness, eigenvector (with its iteration cap of 300) and PageRank (Lab2-BEH_SHU_YIE.py:65-68): floating-point iterative numerics inside the graph library. They enter only as given mappings that are ranked.
- Failures inside the graph library are not modelled. The model assumes all four library calls (Lab2-BEH_SHU_YIE.py:65-68) return a mapping. In the source, `eigenvector_centrality` raises when 300 iterations do not converge, and the exception aborts the ranking output (lines 108-114) and the highlight (line 133); `Ranking.HighlightedNodes` always returns five reports.
- Degree centrality is computed over exact reals. The source's floating-point rounding of degree / (N - 1) is not modelled.
- Ranking over NaN scores: `real` has no NaN.
- The page flow around the core (Lab2-BEH_SHU_YIE.py:80-93): the button, the empty-identifier warning, the choice of database and the `data.empty` test. This is UI control flow.
- Streamlit widgets, `st.write`/`st.warning` text and the fixed interpretive sentences (Lab2-BEH_SHU_YIE.py:8-20, 116-129, 136): UI output. The warning of `generate_network` is modelled as a flag.
- The spring layout, matplotlib drawing and node sizes (Lab2-BEH_SHU_YIE.py:92-93, 100-102, 131-134): plotting and randomised layout. The model keeps only which nodes are highlighted.
- The `.4f` formatting of scores (Lab2-BEH_SHU_YIE.py:112): float display.
