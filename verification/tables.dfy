/** The in-memory table a fold's CSV file is parsed into: an ordered header and ordered rows,
    the label being the last cell of every row. */
module Tables {

  datatype Result<+T, +E> = Ok(value: T) | Err(error: E)

  /** One parsed cell: a number, a missing value (pandas' NaN) or a string. Numbers are exact
      reals; the integer/float dtype distinction of the parser is not kept. */
  datatype Value = Num(x: real) | Missing | Text(s: string)

  /** A row has at least one cell, so its last cell, the label, always exists. */
  type Row = r: seq<Value> | |r| > 0 witness [Missing]

  /** The label column of a row: its last cell (`df.columns[-1]`). */
  function Label(row: Row): Value {
    row[|row| - 1]
  }

  /** Every cell of a row except the label. */
  function Features(row: Row): seq<Value> {
    row[..|row| - 1]
  }

  /** The row with its label cell replaced and every other cell kept. */
  function SetLabel(row: Row, v: Value): (r: Row)
    ensures |r| == |row|
    ensures Features(r) == Features(row) && Label(r) == v
  {
    row[|row| - 1 := v]
  }

  /** A parsed CSV file: the column names in header order and the rows in file order. */
  datatype Table = Table(columns: seq<string>, rows: seq<Row>)

  /** What the CSV reader guarantees: at least one column, and every row as wide as the header. */
  predicate WellFormed(t: Table) {
    |t.columns| > 0 && forall k :: 0 <= k < |t.rows| ==> |t.rows[k]| == |t.columns|
  }

  /** The exceptions the two scripts can raise on a file: the reader's missing-file error, and the
      TypeError of comparing a string label with 0. */
  datatype Error = FileNotFound(name: string) | TypeError
}
