/**
 * Ranking and reporting: for each centrality mapping, the five best-scored
 * nodes (`sorted(values.items(), key=lambda x: -x[1])[:5]`), numbered from 1,
 * and the node names of the last mapping, which are the ones highlighted in
 * the drawing.
 */
module Ranking {
  import opened Basics
  import opened Network
  import opened Centrality

  /** How many entries a ranked list keeps. */
  const TOP := 5

  function Min(a: int, b: int): int {
    if a <= b then a else b
  }

  /** Scores never increase from one entry to a later one. */
  predicate NonIncreasing(s: Scores) {
    forall i, j :: 0 <= i < j < |s| ==> s[i].1 >= s[j].1
  }

  /** The entries of `s` whose score is `v`, in their order in `s`. */
  function WithScore(s: Scores, v: real): Scores {
    if s == [] then [] else (if s[0].1 == v then [s[0]] else []) + WithScore(s[1..], v)
  }

  /** Inserts `x` in front of the first entry whose score is not larger. */
  function Insert(x: (string, real), s: Scores): Scores {
    if s == [] then [x]
    else if x.1 >= s[0].1 then [x] + s
    else [s[0]] + Insert(x, s[1..])
  }

  /** Sorting by descending score, keeping the input order among equal scores. */
  function SortDescending(s: Scores): Scores {
    if s == [] then [] else Insert(s[0], SortDescending(s[1..]))
  }

  lemma WithScoreCons(x: (string, real), s: Scores, v: real)
    ensures WithScore([x] + s, v) == (if x.1 == v then [x] else []) + WithScore(s, v)
  {
    assert ([x] + s)[1..] == s;
  }

  /** A list's first entry is the first entry of its score. */
  lemma WithScoreHead(s: Scores)
    requires s != []
    ensures WithScore(s, s[0].1) != [] && WithScore(s, s[0].1)[0] == s[0]
  {
  }

  lemma {:induction false} WithScoreMember(s: Scores, v: real, k: nat)
    requires k < |WithScore(s, v)|
    ensures WithScore(s, v)[k] in s && WithScore(s, v)[k].1 == v
  {
    if s[0].1 == v {
      if k > 0 {
        WithScoreMember(s[1..], v, k - 1);
      }
    } else {
      WithScoreMember(s[1..], v, k);
    }
  }

  lemma {:induction false} WithScoreAppend(s: Scores, t: Scores, v: real)
    ensures WithScore(s + t, v) == WithScore(s, v) + WithScore(t, v)
  {
    if s == [] {
      assert s + t == t;
    } else {
      assert s + t == [s[0]] + (s[1..] + t);
      WithScoreCons(s[0], s[1..] + t, v);
      WithScoreAppend(s[1..], t, v);
      WithScoreCons(s[0], s[1..], v);
      assert s == [s[0]] + s[1..];
    }
  }

  /** Inserting `x` adds exactly `x`. */
  lemma {:induction false} InsertPermutes(x: (string, real), s: Scores)
    ensures |Insert(x, s)| == |s| + 1
    ensures multiset(Insert(x, s)) == multiset(s) + multiset{x}
  {
    if s != [] && x.1 < s[0].1 {
      InsertPermutes(x, s[1..]);
      assert s == [s[0]] + s[1..];
    }
  }

  lemma NamesCons(x: (string, real), s: Scores)
    ensures Names([x] + s) == [x.0] + Names(s)
    ensures Elements(Names([x] + s)) == {x.0} + Elements(Names(s))
  {
    assert Names([x] + s) == [x.0] + Names(s);
    assert Elements([x.0] + Names(s)) == {x.0} + Elements(Names(s));
  }

  /** Inserting `x` adds the node `x.0`. */
  lemma {:induction false} InsertElements(x: (string, real), s: Scores)
    ensures Elements(Names(Insert(x, s))) == Elements(Names(s)) + {x.0}
  {
    if s == [] {
      NamesCons(x, s);
      assert [x] + s == [x];
    } else if x.1 >= s[0].1 {
      NamesCons(x, s);
    } else {
      InsertElements(x, s[1..]);
      NamesCons(s[0], Insert(x, s[1..]));
      NamesCons(s[0], s[1..]);
      assert s == [s[0]] + s[1..];
    }
  }

  /** Inserting an entry for a new node keeps the nodes distinct. */
  lemma {:induction false} InsertDistinct(x: (string, real), s: Scores)
    requires Distinct(Names(s)) && x.0 !in Names(s)
    ensures Distinct(Names(Insert(x, s)))
  {
    if s == [] {
    } else if x.1 >= s[0].1 {
      NamesCons(x, s);
    } else {
      var t := Insert(x, s[1..]);
      NamesCons(s[0], s[1..]);
      assert s == [s[0]] + s[1..];
      assert Distinct(Names(s[1..]));
      InsertDistinct(x, s[1..]);
      InsertElements(x, s[1..]);
      NamesCons(s[0], t);
      assert s[0].0 !in Elements(Names(t));
    }
  }

  /** Inserting into a sorted list gives a sorted list. */
  lemma {:induction false} InsertSorted(x: (string, real), s: Scores)
    requires NonIncreasing(s)
    ensures NonIncreasing(Insert(x, s))
  {
    if s != [] && x.1 < s[0].1 {
      var t := Insert(x, s[1..]);
      InsertSorted(x, s[1..]);
      InsertPermutes(x, s[1..]);
      forall j | 0 <= j < |t|
        ensures s[0].1 >= t[j].1
      {
        assert t[j] in multiset(t);
        assert t[j] == x || t[j] in multiset(s[1..]);
      }
    }
  }

  /** Among entries of `x`'s score, `x` comes first; every other score keeps its entries. */
  lemma {:induction false} InsertStable(x: (string, real), s: Scores, v: real)
    ensures WithScore(Insert(x, s), v) == (if x.1 == v then [x] else []) + WithScore(s, v)
  {
    if s == [] {
      WithScoreCons(x, [], v);
    } else if x.1 >= s[0].1 {
      WithScoreCons(x, s, v);
    } else {
      InsertStable(x, s[1..], v);
      WithScoreCons(s[0], Insert(x, s[1..]), v);
      WithScoreCons(s[0], s[1..], v);
      assert s == [s[0]] + s[1..];
    }
  }

  /** Sorting gives a permutation of the input. */
  lemma {:induction false} SortDescendingPermutes(s: Scores)
    ensures |SortDescending(s)| == |s|
    ensures multiset(SortDescending(s)) == multiset(s)
  {
    if s != [] {
      SortDescendingPermutes(s[1..]);
      InsertPermutes(s[0], SortDescending(s[1..]));
      assert s == [s[0]] + s[1..];
    }
  }

  /** Sorting keeps the set of nodes, and a mapping's nodes stay distinct. */
  lemma {:induction false} SortDescendingNames(s: Scores)
    ensures Elements(Names(SortDescending(s))) == Elements(Names(s))
    ensures Distinct(Names(s)) ==> Distinct(Names(SortDescending(s)))
  {
    if s != [] {
      SortDescendingNames(s[1..]);
      InsertElements(s[0], SortDescending(s[1..]));
      NamesCons(s[0], s[1..]);
      assert s == [s[0]] + s[1..];
      if Distinct(Names(s)) {
        assert Distinct(Names(s[1..]));
        assert s[0].0 !in Elements(Names(s[1..]));
        InsertDistinct(s[0], SortDescending(s[1..]));
      }
    }
  }

  /** The result is sorted by non-increasing score. */
  lemma {:induction false} SortDescendingSorted(s: Scores)
    ensures NonIncreasing(SortDescending(s))
  {
    if s != [] {
      SortDescendingSorted(s[1..]);
      InsertSorted(s[0], SortDescending(s[1..]));
    }
  }

  /** Sorting is stable: the entries of each score appear exactly as in the input. */
  lemma {:induction false} SortDescendingStable(s: Scores, v: real)
    ensures WithScore(SortDescending(s), v) == WithScore(s, v)
  {
    if s != [] {
      SortDescendingStable(s[1..], v);
      InsertStable(s[0], SortDescending(s[1..]), v);
      WithScoreCons(s[0], s[1..], v);
      assert s == [s[0]] + s[1..];
    }
  }

  /**
   * Two lists sorted by non-increasing score that agree on the entries of
   * every score are equal: a stable descending sort has only one result.
   */
  lemma {:induction false} StableSortUnique(r1: Scores, r2: Scores)
    requires NonIncreasing(r1) && NonIncreasing(r2)
    requires forall v :: WithScore(r1, v) == WithScore(r2, v)
    ensures r1 == r2
  {
    if r1 == [] && r2 == [] {
    } else if r1 == [] {
      WithScoreHead(r2);
      assert false;
    } else if r2 == [] {
      WithScoreHead(r1);
      assert false;
    } else {
      var v1, v2 := r1[0].1, r2[0].1;
      assert WithScore(r2, v1)[0] == WithScore(r1, v1)[0];
      WithScoreMember(r2, v1, 0);
      assert v2 >= v1;
      assert WithScore(r1, v2)[0] == WithScore(r2, v2)[0];
      WithScoreMember(r1, v2, 0);
      assert v1 >= v2;
      assert r1[0] == WithScore(r1, v1)[0] == r2[0];
      assert r1 == [r1[0]] + r1[1..];
      assert r2 == [r2[0]] + r2[1..];
      forall v ensures WithScore(r1[1..], v) == WithScore(r2[1..], v) {
        WithScoreCons(r1[0], r1[1..], v);
        WithScoreCons(r2[0], r2[1..], v);
        var head := if r1[0].1 == v then [r1[0]] else [];
        assert WithScore(r1, v) == head + WithScore(r1[1..], v);
        assert WithScore(r2, v) == head + WithScore(r2[1..], v);
        assert WithScore(r1[1..], v) == WithScore(r1, v)[|head|..];
        assert WithScore(r2[1..], v) == WithScore(r2, v)[|head|..];
      }
      StableSortUnique(r1[1..], r2[1..]);
      assert r1 == [r1[0]] + r1[1..];
      assert r2 == [r2[0]] + r2[1..];
    }
  }

  /** Any stable sort by descending score (Python's `sorted` is one) gives `SortDescending`. */
  lemma StableSortIsSortDescending(s: Scores, r: Scores)
    requires NonIncreasing(r)
    requires forall v :: WithScore(r, v) == WithScore(s, v)
    ensures r == SortDescending(s)
  {
    SortDescendingSorted(s);
    forall v ensures WithScore(r, v) == WithScore(SortDescending(s), v) {
      SortDescendingStable(s, v);
    }
    StableSortUnique(r, SortDescending(s));
  }

  /** The ranked list of a mapping: its five best entries, best first. */
  function TopFive(m: Scores): Scores {
    var sorted := SortDescending(m);
    sorted[..Min(TOP, |sorted|)]
  }

  lemma {:induction false} WithScorePrefix(s: Scores, k: nat, v: real)
    requires k <= |s|
    ensures WithScore(s[..k], v) <= WithScore(s, v)
  {
    assert s == s[..k] + s[k..];
    WithScoreAppend(s[..k], s[k..], v);
  }

  /** The ranked list has min(5, |m|) entries, by non-increasing score, each taken from `m`. */
  lemma TopFiveEntries(m: Scores)
    ensures |TopFive(m)| == Min(TOP, |m|)
    ensures NonIncreasing(TopFive(m))
    ensures forall i :: 0 <= i < |TopFive(m)| ==> TopFive(m)[i] in m
  {
    var sorted := SortDescending(m);
    SortDescendingPermutes(m);
    SortDescendingSorted(m);
    var r := TopFive(m);
    forall i | 0 <= i < |r|
      ensures r[i] in m
    {
      assert r[i] == sorted[i];
      assert sorted[i] in multiset(sorted);
    }
  }

  /** No entry left out of the ranked list scores higher than one kept. */
  lemma TopFiveBest(m: Scores, x: (string, real), i: nat)
    requires x in m && x !in TopFive(m) && i < |TopFive(m)|
    ensures x.1 <= TopFive(m)[i].1
  {
    var sorted := SortDescending(m);
    SortDescendingPermutes(m);
    SortDescendingSorted(m);
    assert x in multiset(sorted);
    var j :| 0 <= j < |sorted| && sorted[j] == x;
    assert j >= |TopFive(m)|;
    assert TopFive(m)[i] == sorted[i];
  }

  /** A mapping with each node once gives a ranked list with each node once. */
  lemma TopFiveDistinct(m: Scores)
    requires Distinct(Names(m))
    ensures Distinct(Names(TopFive(m)))
  {
    var sorted := SortDescending(m);
    SortDescendingNames(m);
    assert Names(TopFive(m)) == Names(sorted)[..|TopFive(m)|];
  }

  /** Among equal scores the ranked list keeps the mapping's first entries, in the mapping's order. */
  lemma TopFiveStable(m: Scores, v: real)
    ensures WithScore(TopFive(m), v) <= WithScore(m, v)
  {
    var sorted := SortDescending(m);
    SortDescendingPermutes(m);
    WithScorePrefix(sorted, Min(TOP, |sorted|), v);
    SortDescendingStable(m, v);
  }

  /** A list already sorted by non-increasing score is left as it is. */
  lemma {:induction false} SortDescendingOfSorted(s: Scores)
    requires NonIncreasing(s)
    ensures SortDescending(s) == s
  {
    if s != [] {
      SortDescendingOfSorted(s[1..]);
      assert s == [s[0]] + s[1..];
    }
  }

  /** Ranking an already ranked list returns it unchanged. */
  lemma RankingIdempotent(m: Scores)
    ensures TopFive(TopFive(m)) == TopFive(m)
  {
    TopFiveEntries(m);
    SortDescendingOfSorted(TopFive(m));
  }

  /** One printed line of a ranked list: "rank. node: score". */
  datatype RankedEntry = RankedEntry(rank: nat, node: string, score: real)

  /** `enumerate(top_5_nodes, start=1)`. */
  function Numbered(r: Scores): seq<RankedEntry> {
    seq(|r|, i requires 0 <= i < |r| => RankedEntry(i + 1, r[i].0, r[i].1))
  }

  /**
   * The report for one measure: min(5, |m|) entries ranked 1, 2, ... in
   * order, by non-increasing score, each a (node, score) pair of `m`, with
   * no node repeated when `m` has each node once.
   */
  lemma ReportSpec(m: Scores)
    ensures |Numbered(TopFive(m))| == Min(TOP, |m|)
    ensures forall i :: 0 <= i < |Numbered(TopFive(m))| ==> Numbered(TopFive(m))[i].rank == i + 1
    ensures forall i, j :: 0 <= i < j < |Numbered(TopFive(m))| ==>
      Numbered(TopFive(m))[i].score >= Numbered(TopFive(m))[j].score
    ensures forall i :: 0 <= i < |Numbered(TopFive(m))| ==>
      (Numbered(TopFive(m))[i].node, Numbered(TopFive(m))[i].score) in m
    ensures Distinct(Names(m)) ==> forall i, j :: 0 <= i < j < |Numbered(TopFive(m))| ==>
      Numbered(TopFive(m))[i].node != Numbered(TopFive(m))[j].node
  {
    TopFiveEntries(m);
    if Distinct(Names(m)) {
      TopFiveDistinct(m);
    }
  }

  /**
   * The loop over the measures: each measure's ranked list is reported, and
   * `highlighted` is rebound on every pass, so after the loop it holds the
   * ranked node names of the last measure.
   */
  method ReportCentralities(measures: seq<(string, Scores)>) returns (reports: seq<seq<RankedEntry>>, highlighted: seq<string>)
    requires |measures| > 0
    ensures |reports| == |measures|
    ensures forall i :: 0 <= i < |measures| ==> reports[i] == Numbered(TopFive(measures[i].1))
    ensures highlighted == Names(TopFive(measures[|measures| - 1].1))
  {
    reports := [];
    highlighted := [];
    var i := 0;
    while i < |measures|
      invariant 0 <= i <= |measures|
      invariant |reports| == i
      invariant forall j :: 0 <= j < i ==> reports[j] == Numbered(TopFive(measures[j].1))
      invariant i > 0 ==> highlighted == Names(TopFive(measures[i - 1].1))
    {
      var top := TopFive(measures[i].1);
      reports := reports + [Numbered(top)];
      highlighted := Names(top);
      i := i + 1;
    }
  }

  /**
   * Lines 106 to 133 as a whole: the five reports in `get_centralities`
   * order, and the highlighted nodes, which are PageRank's ranked names.
   */
  method HighlightedNodes(g: Graph, betweenness: Scores, closeness: Scores, eigenvector: Scores, pagerank: Scores)
    returns (reports: seq<seq<RankedEntry>>, highlighted: seq<string>)
    ensures |reports| == 5
    ensures reports[0] == Numbered(TopFive(DegreeCentrality(g)))
    ensures reports[1] == Numbered(TopFive(betweenness))
    ensures reports[2] == Numbered(TopFive(closeness))
    ensures reports[3] == Numbered(TopFive(eigenvector))
    ensures reports[4] == Numbered(TopFive(pagerank))
    ensures highlighted == Names(TopFive(pagerank))
  {
    var measures := GetCentralities(g, betweenness, closeness, eigenvector, pagerank);
    reports, highlighted := ReportCentralities(measures);
  }
}
