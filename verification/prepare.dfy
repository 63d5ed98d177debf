/** `prepareData`: keep plausible dates, sort by date, turn dates into epoch seconds. */
module Prepare {
  import opened Frames
  import opened Sequences

  const NanosPerSecond: int := 1000000000
  const SecondsPerDay: int := 86400

  /** Days from 1970-01-01 to the given date of the proleptic Gregorian calendar. */
  function DaysFromCivil(year: int, month: int, day: int): int {
    var y := if month <= 2 then year - 1 else year;
    var era := y / 400;
    var yearOfEra := y - era * 400;
    var shiftedMonth := (month + 9) % 12;
    var dayOfYear := (153 * shiftedMonth + 2) / 5 + day - 1;
    var dayOfEra := yearOfEra * 365 + yearOfEra / 4 - yearOfEra / 100 + dayOfYear;
    era * 146097 + dayOfEra - 719468
  }

  /** 1970-01-01 00:00 and 2099-12-31 00:00, in nanoseconds; both bounds are inclusive. */
  const WindowStart: int := DaysFromCivil(1970, 1, 1) * SecondsPerDay * NanosPerSecond
  const WindowEnd: int := DaysFromCivil(2099, 12, 31) * SecondsPerDay * NanosPerSecond

  lemma WindowBounds()
    ensures WindowStart == 0
    ensures WindowEnd == 4102358400 * NanosPerSecond
  {
  }

  /** NaT and any cell that is not a timestamp fail both comparisons, so they are dropped. */
  predicate InWindow(c: Cell) {
    c.Stamp? && WindowStart <= c.nanos <= WindowEnd
  }

  predicate DateInWindow(row: Row, dateColumn: string) {
    dateColumn in row && InWindow(row[dateColumn])
  }

  /** The rows that survive the date selection, in input order. */
  function Windowed(rows: seq<Row>, dateColumn: string): (r: seq<Row>)
    ensures forall row :: row in r ==> DateInWindow(row, dateColumn)
    ensures forall row :: multiset(r)[row] == (if DateInWindow(row, dateColumn) then multiset(rows)[row] else 0)
  {
    Select(rows, (row: Row) => DateInWindow(row, dateColumn))
  }

  /** The sort key: the timestamp of the date cell (every row that reaches the sort has one). */
  function Nanos(row: Row, dateColumn: string): int {
    if dateColumn in row && row[dateColumn].Stamp? then row[dateColumn].nanos else 0
  }

  /** `sort_values(ascending = True)`: ordered by date, a permutation of the input (not stable). */
  function SortByDate(rows: seq<Row>, dateColumn: string): (r: seq<Row>)
    ensures SortedBy(r, (row: Row) => Nanos(row, dateColumn))
    ensures multiset(r) == multiset(rows)
  {
    SortBy(rows, (row: Row) => Nanos(row, dateColumn))
  }

  /** `astype('int64')` of the float quotient: truncation toward zero. */
  function TruncDiv(n: int, d: int): (q: int)
    requires d > 0
    ensures n >= 0 ==> 0 <= q && q * d <= n < q * d + d
    ensures n < 0 ==> q <= 0 && q * d - d < n <= q * d
  {
    DivBounds(if n >= 0 then n else -n, d);
    if n >= 0 then n / d else -((-n) / d)
  }

  /** Euclidean division of a non-negative number, stated as bounds on the quotient. */
  lemma DivBounds(a: int, d: int)
    requires a >= 0 && d > 0
    ensures 0 <= a / d && (a / d) * d <= a < (a / d) * d + d
    ensures -(a / d) * d == -((a / d) * d)
  {
  }

  /** The date cell becomes whole epoch seconds; the other cells stay as they are. */
  function ToEpochSeconds(row: Row, dateColumn: string): (r: Row)
    ensures r.Keys == row.Keys
    ensures forall k :: k in row && k != dateColumn ==> r[k] == row[k]
    ensures dateColumn in row && row[dateColumn].Stamp? ==>
      var nanos := row[dateColumn].nanos;
      && r[dateColumn].Int?
      && (nanos >= 0 ==> r[dateColumn].i * NanosPerSecond <= nanos < (r[dateColumn].i + 1) * NanosPerSecond)
      && (nanos < 0 ==> (r[dateColumn].i - 1) * NanosPerSecond < nanos <= r[dateColumn].i * NanosPerSecond)
    ensures !(dateColumn in row && row[dateColumn].Stamp?) ==> r == row
  {
    if dateColumn in row && row[dateColumn].Stamp? then
      row[dateColumn := Int(TruncDiv(row[dateColumn].nanos, NanosPerSecond))]
    else row
  }

  predicate HasSeconds(row: Row, dateColumn: string) {
    dateColumn in row && row[dateColumn].Int? && 0 <= row[dateColumn].i <= WindowEnd / NanosPerSecond
  }

  /** Ascending by the epoch seconds now held in the date column. */
  predicate SortedBySeconds(rows: seq<Row>, dateColumn: string) {
    forall i, j :: 0 <= i < j < |rows| ==>
      HasSeconds(rows[i], dateColumn) && HasSeconds(rows[j], dateColumn) && rows[i][dateColumn].i <= rows[j][dateColumn].i
  }

  /** Every row with its date replaced by epoch seconds, in the same order. */
  function EpochRows(rows: seq<Row>, dateColumn: string): seq<Row> {
    Map(rows, (row: Row) => ToEpochSeconds(row, dateColumn))
  }

  function PrepareData(t: Table, dateColumn: string): (r: Table)
    requires WellFormed(t) && dateColumn in t.columns
    ensures WellFormed(r) && r.columns == t.columns
    ensures multiset(r.rows) == multiset(EpochRows(Windowed(t.rows, dateColumn), dateColumn))
    ensures |r.rows| == |Windowed(t.rows, dateColumn)|
    ensures SortedBySeconds(r.rows, dateColumn)
    ensures exists sorted :: && SortedBy(sorted, (row: Row) => Nanos(row, dateColumn))
                             && multiset(sorted) == multiset(Windowed(t.rows, dateColumn))
                             && r.rows == EpochRows(sorted, dateColumn)
  {
    var kept := Windowed(t.rows, dateColumn);
    var sorted := SortByDate(kept, dateColumn);
    PreparedRows(t, dateColumn, kept, sorted);
    Table(t.columns, EpochRows(sorted, dateColumn))
  }

  lemma PreparedRows(t: Table, dateColumn: string, kept: seq<Row>, sorted: seq<Row>)
    requires WellFormed(t) && dateColumn in t.columns
    requires kept == Windowed(t.rows, dateColumn)
    requires SortedBy(sorted, (row: Row) => Nanos(row, dateColumn))
    requires multiset(sorted) == multiset(kept)
    ensures var rows := EpochRows(sorted, dateColumn);
            && WellFormed(Table(t.columns, rows))
            && multiset(rows) == multiset(EpochRows(kept, dateColumn))
            && |rows| == |kept|
            && SortedBySeconds(rows, dateColumn)
  {
    SortedStaysInWindow(kept, sorted, dateColumn);
    MapPreservesPermutation(sorted, kept, (row: Row) => ToEpochSeconds(row, dateColumn));
    EpochSecondsSorted(sorted, dateColumn);
    var rows := EpochRows(sorted, dateColumn);
    assert |multiset(rows)| == |multiset(EpochRows(kept, dateColumn))|;
    EpochRowsColumns(t, dateColumn, kept, sorted);
  }

  /** Converting the dates of the sorted in-window rows keeps every row's columns. */
  lemma EpochRowsColumns(t: Table, dateColumn: string, kept: seq<Row>, sorted: seq<Row>)
    requires WellFormed(t)
    requires kept == Windowed(t.rows, dateColumn)
    requires multiset(sorted) == multiset(kept)
    ensures WellFormed(Table(t.columns, EpochRows(sorted, dateColumn)))
  {
    var rows := EpochRows(sorted, dateColumn);
    forall row | row in rows ensures row.Keys == t.columns {
      var k :| 0 <= k < |rows| && rows[k] == row;
      assert multiset(kept)[sorted[k]] > 0;
      assert sorted[k] in t.rows;
    }
  }

  lemma SortedStaysInWindow(kept: seq<Row>, sorted: seq<Row>, dateColumn: string)
    requires forall row :: row in kept ==> DateInWindow(row, dateColumn)
    requires multiset(sorted) == multiset(kept)
    ensures forall row :: row in sorted ==> DateInWindow(row, dateColumn)
  {
    forall row | row in sorted ensures DateInWindow(row, dateColumn) {
      assert row in multiset(kept);
    }
  }

  /** Converting dates inside the window to seconds keeps them in order and within bounds. */
  lemma EpochSecondsSorted(sorted: seq<Row>, dateColumn: string)
    requires forall row :: row in sorted ==> DateInWindow(row, dateColumn)
    requires SortedBy(sorted, (row: Row) => Nanos(row, dateColumn))
    ensures var rows := EpochRows(sorted, dateColumn);
            && (forall i :: 0 <= i < |rows| ==> HasSeconds(rows[i], dateColumn))
            && SortedBySeconds(rows, dateColumn)
  {
    WindowBounds();
    var rows := EpochRows(sorted, dateColumn);
    forall k | 0 <= k < |rows| ensures HasSeconds(rows[k], dateColumn) {
      assert sorted[k] in sorted;
      SecondsMonotone(Nanos(sorted[k], dateColumn), WindowEnd);
    }
    forall i, j | 0 <= i < j < |rows|
      ensures rows[i][dateColumn].i <= rows[j][dateColumn].i
    {
      assert sorted[i] in sorted && sorted[j] in sorted;
      assert HasSeconds(rows[i], dateColumn) && HasSeconds(rows[j], dateColumn);
      SecondsMonotone(Nanos(sorted[i], dateColumn), Nanos(sorted[j], dateColumn));
    }
  }

  lemma SecondsMonotone(a: int, b: int)
    requires 0 <= a <= b
    ensures a / NanosPerSecond <= b / NanosPerSecond
  {
  }
}
