/**
 * The data model of the script: a pandas data frame reduced to a set of column names and an
 * ordered sequence of rows, plus the two configuration records `DataFilter` and
 * `OutputFileDefinition`.
 */
module Frames {
  import opened Wrappers

  /** One cell of a data frame, by the dtype pandas gives its column. */
  datatype Cell =
    | Stamp(nanos: int)       // datetime64: nanoseconds since 1970-01-01 00:00 (no time zone)
    | Int(i: int)             // int64, e.g. the date column once it holds epoch seconds
    | Num(x: Option<real>)    // float64; None is NaN (and NaT, and a field missing after a concat)
    | Text(s: string)         // object column holding strings

  /** The number a numeric cell holds; None for NaN. */
  function Value(c: Cell): Option<real>
    requires c.Int? || c.Num?
  {
    if c.Int? then Some(c.i as real) else c.x
  }

  /** A row maps each column name to its cell. */
  type Row = map<string, Cell>

  datatype Table = Table(columns: set<string>, rows: seq<Row>)

  /** Every row has exactly the table's columns, as in any data frame. */
  predicate WellFormed(t: Table) {
    forall row :: row in t.rows ==> row.Keys == t.columns
  }

  /** The cells of one column, in row order. */
  function Column(rows: seq<Row>, column: string): (cells: seq<Cell>)
    requires forall row :: row in rows ==> column in row
    ensures |cells| == |rows|
    ensures forall i :: 0 <= i < |rows| ==> cells[i] == rows[i][column]
  {
    seq(|rows|, i requires 0 <= i < |rows| => rows[i][column])
  }

  /**
   * The two library services a filter relies on and that are not modelled: `render` is the
   * text `astype(str)` gives a cell, `contains(text, pattern)` is `str.contains(pattern,
   * regex = True)` (a regular-expression search, not a full match).
   */
  datatype Matcher = Matcher(render: Cell -> string, contains: (string, string) -> bool)

  /** Keep the rows whose `column` text matches `value` (equal) or does not match it (not equal). */
  datatype DataFilter = DataFilter(column: string, value: string, equal: bool)

  datatype OutputFileDefinition = OutputFileDefinition(
    outputFileName: string,
    valueColumnName: string,
    dataFilters: seq<DataFilter>,
    recalculate: bool)
}
