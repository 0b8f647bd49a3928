/**
 * The interaction table handed over by a PPI web service, after it has been
 * parsed into rows, and the normalisation the two retrieval functions apply
 * to it: both endpoint-symbol columns are overwritten, in place, by their
 * upper-cased values.
 */
module Table {
  import opened Basics
  import opened Ascii

  /** One interaction record: column name to value. */
  type Row = map<string, string>

  /** Endpoint-symbol columns of a BioGRID response. */
  const BIOGRID_A := "OFFICIAL_SYMBOL_A"
  const BIOGRID_B := "OFFICIAL_SYMBOL_B"
  /** Endpoint-symbol columns of a STRING response. */
  const STRING_A := "preferredName_A"
  const STRING_B := "preferredName_B"

  /** Every row carries a value for `col`. */
  predicate HasColumn(rows: seq<Row>, col: string) {
    forall i :: 0 <= i < |rows| ==> col in rows[i]
  }

  /** A rectangular table: every row has exactly the table's columns. */
  predicate WellFormed(columns: set<string>, rows: seq<Row>) {
    forall i :: 0 <= i < |rows| ==> rows[i].Keys == columns
  }

  lemma WellFormedHasColumn(columns: set<string>, rows: seq<Row>, col: string)
    requires WellFormed(columns, rows) && col in columns
    ensures HasColumn(rows, col)
  {
  }

  /** The values of one column, top to bottom. */
  function ColumnValues(rows: seq<Row>, col: string): (values: seq<string>)
    requires HasColumn(rows, col)
    ensures |values| == |rows|
    ensures forall i :: 0 <= i < |rows| ==> values[i] == rows[i][col]
  {
    seq(|rows|, i requires 0 <= i < |rows| => rows[i][col])
  }

  /** The rows after column `col` has been replaced by its upper-cased values. */
  function WithUpperColumn(rows: seq<Row>, col: string): seq<Row>
    requires HasColumn(rows, col)
  {
    seq(|rows|, i requires 0 <= i < |rows| => rows[i][col := Upper(rows[i][col])])
  }

  /**
   * Upper-casing column `col` keeps the number and order of the rows and
   * every other value; afterwards each value in `col` is upper case and is
   * the upper-cased form of the value it replaced.
   */
  lemma WithUpperColumnSpec(rows: seq<Row>, col: string)
    requires HasColumn(rows, col)
    ensures |WithUpperColumn(rows, col)| == |rows|
    ensures forall i :: 0 <= i < |rows| ==>
      var r := WithUpperColumn(rows, col)[i];
      && r.Keys == rows[i].Keys
      && r[col] == Upper(rows[i][col])
      && IsUpper(r[col])
      && (forall k :: k in rows[i] && k != col ==> r[k] == rows[i][k])
  {
  }

  /** What `retrieve_ppi_biogrid` and `retrieve_ppi_string` leave behind:
      both endpoint columns upper-cased, one after the other. */
  function Normalised(rows: seq<Row>, colA: string, colB: string): seq<Row>
    requires HasColumn(rows, colA) && HasColumn(rows, colB)
  {
    WithUpperColumn(WithUpperColumn(rows, colA), colB)
  }

  /**
   * After normalisation the table has the same rows in the same order, the
   * values of both endpoint columns are upper case (upper-casing the second
   * column does not undo the first), and all other values are untouched.
   */
  lemma {:induction false} NormalisedSpec(rows: seq<Row>, colA: string, colB: string)
    requires HasColumn(rows, colA) && HasColumn(rows, colB)
    ensures |Normalised(rows, colA, colB)| == |rows|
    ensures forall i :: 0 <= i < |rows| ==>
      var r := Normalised(rows, colA, colB)[i];
      && r.Keys == rows[i].Keys
      && r[colA] == Upper(rows[i][colA]) && IsUpper(r[colA])
      && r[colB] == Upper(rows[i][colB]) && IsUpper(r[colB])
      && (forall k :: k in rows[i] && k != colA && k != colB ==> r[k] == rows[i][k])
  {
    var once := WithUpperColumn(rows, colA);
    WithUpperColumnSpec(rows, colA);
    assert HasColumn(once, colB);
    WithUpperColumnSpec(once, colB);
  }

  /** Normalising an already normalised table changes nothing. */
  lemma {:induction false} NormalisedIdempotent(rows: seq<Row>, colA: string, colB: string)
    requires HasColumn(rows, colA) && HasColumn(rows, colB)
    ensures HasColumn(Normalised(rows, colA, colB), colA) && HasColumn(Normalised(rows, colA, colB), colB)
    ensures Normalised(Normalised(rows, colA, colB), colA, colB) == Normalised(rows, colA, colB)
  {
    var n := Normalised(rows, colA, colB);
    NormalisedSpec(rows, colA, colB);
    assert HasColumn(n, colA) && HasColumn(n, colB);
    var n2 := Normalised(n, colA, colB);
    NormalisedSpec(n, colA, colB);
    forall i | 0 <= i < |n|
      ensures n2[i] == n[i]
    {
      assert n2[i].Keys == n[i].Keys;
      forall k | k in n[i]
        ensures n2[i][k] == n[i][k]
      {
        if k == colA || k == colB {
          assert n2[i][k] == Upper(n[i][k]);
        }
      }
    }
  }

  /** The comprehension `[gene.upper() for gene in column]`. */
  method UpperAll(values: seq<string>) returns (upper: seq<string>)
    ensures |upper| == |values|
    ensures forall i :: 0 <= i < |values| ==> upper[i] == Upper(values[i])
  {
    upper := [];
    var i := 0;
    while i < |values|
      invariant 0 <= i <= |values|
      invariant |upper| == i
      invariant forall j :: 0 <= j < i ==> upper[j] == Upper(values[j])
    {
      upper := upper + [Upper(values[i])];
      i := i + 1;
    }
  }

  /** A parsed response table (a pandas DataFrame) whose columns are overwritten in place. */
  class Frame {
    var columns: set<string>
    var rows: seq<Row>

    predicate Valid()
      reads this
    {
      WellFormed(columns, rows)
    }

    constructor (columns: set<string>, rows: seq<Row>)
      requires WellFormed(columns, rows)
      ensures Valid() && this.columns == columns && this.rows == rows
    {
      this.columns := columns;
      this.rows := rows;
    }

    /**
     * Overwrites column `col` by its upper-cased values. A missing column is
     * an error in the source (the attribute or key lookup raises); here it is
     * reported by `found` and the table is left as it was.
     */
    method UpperColumn(col: string) returns (found: bool)
      requires Valid()
      modifies this
      ensures Valid() && columns == old(columns)
      ensures found <==> col in columns
      ensures found ==> HasColumn(old(rows), col) && rows == WithUpperColumn(old(rows), col)
      ensures !found ==> rows == old(rows)
    {
      found := col in columns;
      if found {
        var current := rows;
        WellFormedHasColumn(columns, current, col);
        var upper := UpperAll(ColumnValues(current, col));
        rows := seq(|current|, i requires 0 <= i < |current| => current[i][col := upper[i]]);
        assert rows == WithUpperColumn(current, col);
      }
    }
  }

  /**
   * The normalisation step shared by both retrieval functions: upper-case
   * `colA`, then `colB`. The first missing column is returned, and the
   * source stops there (an exception), so later columns are not touched.
   */
  method NormaliseSymbols(frame: Frame, colA: string, colB: string) returns (missing: Option<string>)
    requires frame.Valid()
    modifies frame
    ensures frame.Valid() && frame.columns == old(frame.columns)
    ensures missing == None <==> colA in frame.columns && colB in frame.columns
    ensures colA !in frame.columns ==> missing == Some(colA) && frame.rows == old(frame.rows)
    ensures colA in frame.columns && colB !in frame.columns ==>
      missing == Some(colB) && HasColumn(old(frame.rows), colA) && frame.rows == WithUpperColumn(old(frame.rows), colA)
    ensures missing == None ==>
      HasColumn(old(frame.rows), colA) && HasColumn(old(frame.rows), colB) &&
      frame.rows == Normalised(old(frame.rows), colA, colB)
  {
    var foundA := frame.UpperColumn(colA);
    if !foundA {
      return Some(colA);
    }
    var foundB := frame.UpperColumn(colB);
    if !foundB {
      return Some(colB);
    }
    WellFormedHasColumn(frame.columns, old(frame.rows), colB);
    missing := None;
  }

  /** `retrieve_ppi_biogrid` after the HTTP request and JSON decoding. */
  method RetrieveBiogrid(frame: Frame) returns (missing: Option<string>)
    requires frame.Valid()
    modifies frame
    ensures frame.Valid() && frame.columns == old(frame.columns)
    ensures missing == None <==> BIOGRID_A in frame.columns && BIOGRID_B in frame.columns
    ensures missing == None ==>
      HasColumn(old(frame.rows), BIOGRID_A) && HasColumn(old(frame.rows), BIOGRID_B) &&
      frame.rows == Normalised(old(frame.rows), BIOGRID_A, BIOGRID_B)
  {
    missing := NormaliseSymbols(frame, BIOGRID_A, BIOGRID_B);
  }

  /** `retrieve_ppi_string` after the HTTP request and JSON decoding. */
  method RetrieveString(frame: Frame) returns (missing: Option<string>)
    requires frame.Valid()
    modifies frame
    ensures frame.Valid() && frame.columns == old(frame.columns)
    ensures missing == None <==> STRING_A in frame.columns && STRING_B in frame.columns
    ensures missing == None ==>
      HasColumn(old(frame.rows), STRING_A) && HasColumn(old(frame.rows), STRING_B) &&
      frame.rows == Normalised(old(frame.rows), STRING_A, STRING_B)
  {
    missing := NormaliseSymbols(frame, STRING_A, STRING_B);
  }
}
