/** The uploaded table and the row cap applied right after loading it. */
module Tables {
  import opened Wrappers
  import opened Seqs

  /** One data row; cell values are kept as the text they were parsed from. */
  type Row = seq<string>

  /** A column: its header name and whether the CSV parser inferred a numeric dtype for it. */
  datatype Column = Column(name: string, numeric: bool)

  /** The loaded data frame: columns in header order and rows in file order. */
  datatype Table = Table(columns: seq<Column>, rows: seq<Row>)

  /** `df.columns.tolist()`. */
  function Names(cols: seq<Column>): (r: seq<string>)
    ensures |r| == |cols|
    ensures forall i :: 0 <= i < |cols| ==> r[i] == cols[i].name
  {
    seq(|cols|, i requires 0 <= i < |cols| => cols[i].name)
  }

  /** The name of every column in `cols` is among the names of `cols`. */
  lemma MemberNames(cols: seq<Column>)
    ensures forall c :: c in cols ==> c.name in Names(cols)
  {
    forall c | c in cols ensures c.name in Names(cols) {
      var k :| 0 <= k < |cols| && cols[k] == c;
      assert Names(cols)[k] == c.name;
    }
  }

  /** `MAX_ROWS`. */
  const MaxRows: nat := 20000

  /** The warning shown when a file is cut: how many rows it had and how many are kept. */
  datatype RowCapWarning = RowCapWarning(fileRows: nat, keptRows: nat)

  /**
   * Keeps at most the first `MaxRows` rows of a freshly loaded table and reports
   * whether rows were dropped. The columns are untouched.
   */
  method CapRows(df: Table) returns (capped: Table, warning: Option<RowCapWarning>)
    ensures capped.columns == df.columns
    ensures |capped.rows| == Min(|df.rows|, MaxRows)
    ensures forall i :: 0 <= i < |capped.rows| ==> capped.rows[i] == df.rows[i]
    ensures |df.rows| <= MaxRows ==> capped == df
    ensures warning.Some? <==> |df.rows| > MaxRows
    ensures warning.Some? ==> warning.value == RowCapWarning(|df.rows|, MaxRows)
  {
    capped, warning := df, None;
    if |df.rows| > MaxRows {
      warning := Some(RowCapWarning(|df.rows|, MaxRows));
      capped := Table(df.columns, Head(df.rows, MaxRows));
    }
  }
}
