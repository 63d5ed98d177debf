/**
 * `generateImportDataFiles`: extension check, concatenation of the loaded tables,
 * preparation, and one export per output definition. The file names found by `glob` and
 * the file loader are parameters.
 */
module Pipeline {
  import opened Wrappers
  import opened Frames
  import opened Prepare
  import opened Output
  import opened Extensions
  import Sequences

  /** The part of the configuration the core reads. */
  datatype Config = Config(
    inputFileNameExtension: string,
    inputFileDateColumnName: string,
    outputFiles: seq<OutputFileDefinition>)

  datatype RunOutcome =
    | NoFilesFound
    | WrongExtension
    | Done(exports: seq<Export>)

  /** Union of the column sets (`pd.concat(..., sort = True)` aligns on it). */
  function AllColumns(tables: seq<Table>): (columns: set<string>)
    ensures forall k :: 0 <= k < |tables| ==> tables[k].columns <= columns
    ensures forall c :: c in columns ==> exists k :: 0 <= k < |tables| && c in tables[k].columns
  {
    if tables == [] then {} else tables[0].columns + AllColumns(tables[1..])
  }

  /** Number of rows in the first `k` tables. */
  function RowsBefore(tables: seq<Table>, k: nat): nat
    requires k <= |tables|
  {
    if k == 0 then 0 else |tables[0].rows| + RowsBefore(tables[1..], k - 1)
  }

  /** A row given every column of the union; a field its table lacks becomes NaN. */
  function Widen(row: Row, columns: set<string>): (r: Row)
    ensures r.Keys == columns
  {
    map c | c in columns :: if c in row then row[c] else Num(None)
  }

  /** Row `i` of table `k` sits, widened, right after the rows of the tables before it. */
  predicate Placed(tables: seq<Table>, rows: seq<Row>, columns: set<string>, k: nat, i: nat)
    requires k < |tables| && i < |tables[k].rows|
  {
    RowsBefore(tables, k) + i < |rows| && rows[RowsBefore(tables, k) + i] == Widen(tables[k].rows[i], columns)
  }

  function ConcatRows(tables: seq<Table>, columns: set<string>): (rows: seq<Row>)
    ensures |rows| == RowsBefore(tables, |tables|)
    ensures forall row :: row in rows ==> row.Keys == columns
    ensures forall k: nat, i: nat :: k < |tables| && i < |tables[k].rows| ==> Placed(tables, rows, columns, k, i)
  {
    if tables == [] then []
    else
      var first := seq(|tables[0].rows|, i requires 0 <= i < |tables[0].rows| => Widen(tables[0].rows[i], columns));
      var rest := ConcatRows(tables[1..], columns);
      ConcatRowsStep(tables, columns, first, rest);
      first + rest
  }

  lemma ConcatRowsStep(tables: seq<Table>, columns: set<string>, first: seq<Row>, rest: seq<Row>)
    requires tables != []
    requires |first| == |tables[0].rows|
    requires forall i :: 0 <= i < |first| ==> first[i] == Widen(tables[0].rows[i], columns)
    requires forall k: nat, i: nat :: k < |tables[1..]| && i < |tables[1..][k].rows| ==> Placed(tables[1..], rest, columns, k, i)
    ensures forall k: nat, i: nat :: k < |tables| && i < |tables[k].rows| ==> Placed(tables, first + rest, columns, k, i)
  {
    forall k: nat, i: nat | k < |tables| && i < |tables[k].rows|
      ensures Placed(tables, first + rest, columns, k, i)
    {
      if k > 0 {
        var tail := tables[1..];
        assert tables[k] == tail[k - 1];
        assert Placed(tail, rest, columns, k - 1, i);
      }
    }
  }

  /**
   * A column pandas stores as float64 once the tables are concatenated: all its cells are
   * numbers and at least one is a float or NaN (a NaN pad included).
   */
  predicate FloatColumn(rows: seq<Row>, column: string)
    requires forall i :: 0 <= i < |rows| ==> column in rows[i]
  {
    && (forall i :: 0 <= i < |rows| ==> rows[i][column].Int? || rows[i][column].Num?)
    && exists i :: 0 <= i < |rows| && rows[i][column].Num?
  }

  /** An int64 cell of a float64 column becomes the same number as a float. */
  function Cast(c: Cell, float: bool): Cell {
    if float && c.Int? then Num(Some(c.i as real)) else c
  }

  /** The dtype upcast of the concatenation: int64 cells of float64 columns become floats. */
  function Upcast(rows: seq<Row>, columns: set<string>): (r: seq<Row>)
    requires forall i :: 0 <= i < |rows| ==> rows[i].Keys == columns
    ensures |r| == |rows|
    ensures forall j :: 0 <= j < |r| ==> r[j].Keys == columns
    ensures forall j, c :: 0 <= j < |rows| && c in columns && FloatColumn(rows, c) ==>
              r[j][c].Num? && r[j][c].x == Value(rows[j][c])
    ensures forall j, c :: 0 <= j < |rows| && c in columns && !FloatColumn(rows, c) ==> r[j][c] == rows[j][c]
  {
    seq(|rows|, j requires 0 <= j < |rows| => map c | c in columns :: Cast(rows[j][c], FloatColumn(rows, c)))
  }

  /**
   * `pd.concat(tables, ignore_index = True, sort = True)`: the rows of all tables, in order,
   * widened to the union of the columns, with int64 columns that gained a float or a NaN
   * pad upcast to float64.
   */
  function Concat(tables: seq<Table>): (r: Table)
    ensures WellFormed(r) && r.columns == AllColumns(tables)
    ensures |r.rows| == RowsBefore(tables, |tables|)
    ensures var widened := ConcatRows(tables, r.columns);
            && |widened| == |r.rows|
            && (forall k: nat, i: nat :: k < |tables| && i < |tables[k].rows| ==> Placed(tables, widened, r.columns, k, i))
            && (forall j, c :: 0 <= j < |widened| && c in r.columns && FloatColumn(widened, c) ==>
                  r.rows[j][c].Num? && r.rows[j][c].x == Value(widened[j][c]))
            && (forall j, c :: 0 <= j < |widened| && c in r.columns && !FloatColumn(widened, c) ==>
                  r.rows[j][c] == widened[j][c])
  {
    var columns := AllColumns(tables);
    var widened := ConcatRows(tables, columns);
    assert forall j :: 0 <= j < |widened| ==> widened[j] in widened;
    Table(columns, Upcast(widened, columns))
  }

  function Loaded(fileNames: seq<string>, load: string -> Table): seq<Table> {
    seq(|fileNames|, i requires 0 <= i < |fileNames| => load(fileNames[i]))
  }

  /** The loader produced data frames with a date column (otherwise `readInputFile` raises). */
  predicate LoadsDated(tables: seq<Table>, dateColumn: string) {
    forall k :: 0 <= k < |tables| ==> WellFormed(tables[k]) && dateColumn in tables[k].columns && DatesParsed(tables[k], dateColumn)
  }

  /**
   * `pd.to_datetime` either raises or leaves every date cell a timestamp, or NaT where the
   * field was empty.
   */
  predicate DatesParsed(t: Table, dateColumn: string) {
    forall row: Row :: row in t.rows && dateColumn in row ==> row[dateColumn].Stamp? || row[dateColumn] == Num(None)
  }

  predicate AllCorrect(fileNames: seq<string>, extension: string) {
    forall i :: 0 <= i < |fileNames| ==> IsExtensionOf(extension, fileNames[i])
  }

  /** The data frame every output is generated from. */
  function BaseData(tables: seq<Table>, dateColumn: string): Table
    requires |tables| > 0 && LoadsDated(tables, dateColumn)
  {
    PrepareData(Concat(tables), dateColumn)
  }

  /** The extensions `readInputFile` can read; any other raises once a file is loaded. */
  const SupportedExtensions: set<string> := {".csv", ".xlsx", ".xls", ".json"}

  /** The input meets what the script needs to get through without an exception. */
  predicate CanRun(fileNames: seq<string>, load: string -> Table, cfg: Config, m: Matcher) {
    |fileNames| > 0 && AllCorrect(fileNames, cfg.inputFileNameExtension) ==>
      var tables := Loaded(fileNames, load);
      && cfg.inputFileNameExtension in SupportedExtensions
      && LoadsDated(tables, cfg.inputFileDateColumnName)
      && forall k :: 0 <= k < |cfg.outputFiles| ==> CanGenerate(BaseData(tables, cfg.inputFileDateColumnName), cfg.outputFiles[k], m)
  }

  /** Each export is what `generateImportDataFile` produces for its definition from `base`. */
  predicate ExportsFrom(exports: seq<Export>, base: Table, dateColumn: string, outputFiles: seq<OutputFileDefinition>, m: Matcher) {
    && |exports| == |outputFiles|
    && forall i :: 0 <= i < |outputFiles| ==>
         CanGenerate(base, outputFiles[i], m) && exports[i] == GenerateImportDataFile(base, dateColumn, outputFiles[i], m)
  }

  method GenerateImportDataFiles(fileNames: seq<string>, load: string -> Table, cfg: Config, m: Matcher)
    returns (r: RunOutcome)
    requires CanRun(fileNames, load, cfg, m)
    ensures r.NoFilesFound? <==> |fileNames| == 0
    ensures r.WrongExtension? <==> |fileNames| > 0 && !AllCorrect(fileNames, cfg.inputFileNameExtension)
    ensures r.Done? <==> |fileNames| > 0 && AllCorrect(fileNames, cfg.inputFileNameExtension)
    ensures r.Done? ==>
      && |r.exports| == |cfg.outputFiles|
      && forall i :: 0 <= i < |cfg.outputFiles| ==>
           && r.exports[i].fileName == cfg.outputFiles[i].outputFileName
           && (r.exports[i].Skipped? <==> cfg.outputFiles[i].valueColumnName !in AllColumns(Loaded(fileNames, load)))
    ensures r.Done? ==>
      var base := BaseData(Loaded(fileNames, load), cfg.inputFileDateColumnName);
      forall i :: 0 <= i < |cfg.outputFiles| ==>
        r.exports[i] == GenerateImportDataFile(base, cfg.inputFileDateColumnName, cfg.outputFiles[i], m)
    ensures r.Done? ==>
      var dateColumn := cfg.inputFileDateColumnName;
      var all := Concat(Loaded(fileNames, load));
      exists sorted: seq<Row> :: && Sequences.SortedBy(sorted, (row: Row) => Nanos(row, dateColumn))
                       && multiset(sorted) == multiset(Windowed(all.rows, dateColumn))
                       && ExportsFrom(r.exports, Table(all.columns, EpochRows(sorted, dateColumn)), dateColumn, cfg.outputFiles, m)
  {
    if |fileNames| == 0 {
      return NoFilesFound;
    }
    var ok := CorrectFileExtensions(fileNames, cfg.inputFileNameExtension);
    if !ok {
      return WrongExtension;
    }
    var tables := Loaded(fileNames, load);
    var base := BaseData(tables, cfg.inputFileDateColumnName);
    var exports := GenerateAll(base, cfg.inputFileDateColumnName, cfg.outputFiles, m);
    return Done(exports);
  }

  /** The loop over the output definitions: one export each, in order, from the same base data. */
  method GenerateAll(base: Table, dateColumn: string, outputFiles: seq<OutputFileDefinition>, m: Matcher)
    returns (exports: seq<Export>)
    requires forall k :: 0 <= k < |outputFiles| ==> CanGenerate(base, outputFiles[k], m)
    ensures |exports| == |outputFiles|
    ensures forall k :: 0 <= k < |outputFiles| ==> exports[k] == GenerateImportDataFile(base, dateColumn, outputFiles[k], m)
    ensures forall k :: 0 <= k < |outputFiles| ==> exports[k].fileName == outputFiles[k].outputFileName
    ensures forall k :: 0 <= k < |outputFiles| ==> (exports[k].Skipped? <==> outputFiles[k].valueColumnName !in base.columns)
  {
    exports := [];
    for i := 0 to |outputFiles|
      invariant |exports| == i
      invariant forall k :: 0 <= k < i ==> exports[k] == GenerateImportDataFile(base, dateColumn, outputFiles[k], m)
    {
      var outputFile := outputFiles[i];
      var written := GenerateImportDataFile(base, dateColumn, outputFile, m);
      exports := exports + [written];
    }
  }
}
