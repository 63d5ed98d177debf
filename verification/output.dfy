/** `generateImportDataFile`: one output definition turned into the two columns written to its file. */
module Output {
  import opened Frames
  import opened Filters
  import opened Recalculation
  import opened RecalculateTable

  /** What one output definition produces; serialisation with `to_csv` is not modelled. */
  datatype Export =
    | Skipped(fileName: string)
    | Written(fileName: string, columns: seq<string>, lines: seq<seq<Cell>>)

  /**
   * `DataFrame.filter([dateColumn, valueColumn])`: the requested labels that exist, in the
   * requested order, each once.
   */
  function Selection(dateColumn: string, valueColumn: string, columns: set<string>): (r: seq<string>)
    ensures forall c :: c in r <==> (c == dateColumn || c == valueColumn) && c in columns
    ensures forall i, j :: 0 <= i < j < |r| ==> r[i] != r[j]
    ensures |r| == 2 ==> r == [dateColumn, valueColumn]
  {
    var date := if dateColumn in columns then [dateColumn] else [];
    var value := if valueColumn in columns && valueColumn != dateColumn then [valueColumn] else [];
    date + value
  }

  /** Each row cut down to the given columns. */
  function Project(rows: seq<Row>, columns: seq<string>): (lines: seq<seq<Cell>>)
    requires forall row, c :: row in rows && c in columns ==> c in row
    ensures |lines| == |rows|
    ensures forall i :: 0 <= i < |rows| ==> |lines[i]| == |columns|
    ensures forall i, j :: 0 <= i < |rows| && 0 <= j < |columns| ==> lines[i][j] == rows[i][columns[j]]
  {
    seq(|rows|, i requires 0 <= i < |rows| => seq(|columns|, j requires 0 <= j < |columns| => rows[i][columns[j]]))
  }

  /** What the source needs of its input so that no KeyError or TypeError is raised. */
  predicate CanGenerate(t: Table, def: OutputFileDefinition, m: Matcher) {
    && WellFormed(t)
    && (def.valueColumnName in t.columns ==>
          && ColumnsExist(t, def.dataFilters)
          && (def.recalculate ==> AllNumeric(Column(FilterData(t, def.dataFilters, m).rows, def.valueColumnName))))
  }

  function GenerateImportDataFile(t: Table, dateColumn: string, def: OutputFileDefinition, m: Matcher): (r: Export)
    requires CanGenerate(t, def, m)
    ensures r.fileName == def.outputFileName
    ensures r.Skipped? <==> def.valueColumnName !in t.columns
    ensures r.Written? ==>
      var kept := FilterData(t, def.dataFilters, m).rows;
      var value := def.valueColumnName;
      var values := if def.recalculate then Totals(Column(kept, value)) else Column(kept, value);
      && |r.lines| == |kept|
      && r.columns == (if dateColumn in t.columns && dateColumn != value then [dateColumn, value] else [value])
      && (forall i :: 0 <= i < |kept| ==> |r.lines[i]| == |r.columns|)
      && (forall i :: 0 <= i < |kept| ==> r.lines[i][|r.columns| - 1] == values[i])
      && (|r.columns| == 2 ==> forall i :: 0 <= i < |kept| ==> r.lines[i][0] == kept[i][dateColumn])
  {
    var value := def.valueColumnName;
    if value !in t.columns then Skipped(def.outputFileName)
    else WriteExport(FilterData(t, def.dataFilters, m), dateColumn, value, def.recalculate, def.outputFileName)
  }

  /** The file written for the filtered rows `kept`, whose value column is present. */
  function WriteExport(kept: Table, dateColumn: string, value: string, recalculate: bool, fileName: string): (r: Export)
    requires WellFormed(kept) && value in kept.columns
    requires recalculate ==> CanRecalculate(kept, value)
    ensures r.Written? && r.fileName == fileName
    ensures var values := if recalculate then Totals(Column(kept.rows, value)) else Column(kept.rows, value);
      && |r.lines| == |kept.rows|
      && r.columns == (if dateColumn in kept.columns && dateColumn != value then [dateColumn, value] else [value])
      && (forall i :: 0 <= i < |kept.rows| ==> |r.lines[i]| == |r.columns|)
      && (forall i :: 0 <= i < |kept.rows| ==> r.lines[i][|r.columns| - 1] == values[i])
      && (|r.columns| == 2 ==> forall i :: 0 <= i < |kept.rows| ==> r.lines[i][0] == kept.rows[i][dateColumn])
  {
    var source := if recalculate then RecalculateData(kept, value) else kept;
    var columns := Selection(dateColumn, value, kept.columns);
    ProjectedSource(kept, source, columns, dateColumn, value, recalculate);
    Written(fileName, columns, Project(source.rows, columns))
  }

  lemma ProjectedSource(kept: Table, source: Table, columns: seq<string>, dateColumn: string, value: string, recalculate: bool)
    requires WellFormed(kept) && value in kept.columns
    requires recalculate ==> CanRecalculate(kept, value)
    requires source == if recalculate then RecalculateData(kept, value) else kept
    requires columns == Selection(dateColumn, value, kept.columns)
    ensures columns == (if dateColumn in kept.columns && dateColumn != value then [dateColumn, value] else [value])
    ensures forall row, c :: row in source.rows && c in columns ==> c in row
    ensures var lines := Project(source.rows, columns);
            var values := if recalculate then Totals(Column(kept.rows, value)) else Column(kept.rows, value);
            && |lines| == |kept.rows|
            && (forall i :: 0 <= i < |kept.rows| ==> |lines[i]| == |columns|)
            && (forall i :: 0 <= i < |kept.rows| ==> lines[i][|columns| - 1] == values[i])
            && (|columns| == 2 ==> forall i :: 0 <= i < |kept.rows| ==> lines[i][0] == kept.rows[i][dateColumn])
  {
    SelectionShape(dateColumn, value, kept.columns);
    assert WellFormed(source) && source.columns == kept.columns && |source.rows| == |kept.rows|;
    var lines := Project(source.rows, columns);
    var values := if recalculate then Totals(Column(kept.rows, value)) else Column(kept.rows, value);
    forall i | 0 <= i < |kept.rows|
      ensures lines[i][|columns| - 1] == values[i]
      ensures |columns| == 2 ==> lines[i][0] == kept.rows[i][dateColumn]
    {
      assert lines[i][|columns| - 1] == source.rows[i][value];
      if |columns| == 2 {
        assert kept.rows[i] in kept.rows;
        assert lines[i][0] == source.rows[i][dateColumn];
      }
    }
  }

  /** With the value column present, the selection is `[date, value]` or just `[value]`. */
  lemma SelectionShape(dateColumn: string, value: string, columns: set<string>)
    requires value in columns
    ensures Selection(dateColumn, value, columns)
            == if dateColumn in columns && dateColumn != value then [dateColumn, value] else [value]
  {
  }
}
