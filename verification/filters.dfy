/** `filterData`: narrowing the rows by an ordered list of column/pattern filters. */
module Filters {
  import opened Frames
  import opened Sequences

  /** Whether a single filter keeps `row`: the cell text matches the pattern exactly when `equal`. */
  predicate Keeps(f: DataFilter, row: Row, m: Matcher) {
    f.column in row && (m.contains(m.render(row[f.column]), f.value) == f.equal)
  }

  /** The row passes every filter of the list. */
  predicate PassesAll(filters: seq<DataFilter>, row: Row, m: Matcher) {
    forall f :: f in filters ==> Keeps(f, row, m)
  }

  predicate ColumnsExist(t: Table, filters: seq<DataFilter>) {
    forall f :: f in filters ==> f.column in t.columns
  }

  /** One pass of the loop: the boolean mask of the filter, inverted when not `equal`, applied. */
  function ApplyFilter(t: Table, f: DataFilter, m: Matcher): (r: Table)
    requires WellFormed(t)
    ensures WellFormed(r) && r.columns == t.columns
    ensures IsSubsequence(r.rows, t.rows)
    ensures forall row :: multiset(r.rows)[row] == (if Keeps(f, row, m) then multiset(t.rows)[row] else 0)
  {
    var keep := (row: Row) => Keeps(f, row, m);
    SelectIsSubsequence(t.rows, keep);
    Table(t.columns, Select(t.rows, keep))
  }

  /** The filters are applied one after another, each to the rows the previous ones kept. */
  function FilterData(t: Table, filters: seq<DataFilter>, m: Matcher): (r: Table)
    requires WellFormed(t) && ColumnsExist(t, filters)
    ensures WellFormed(r) && r.columns == t.columns
    ensures filters == [] ==> r == t
    ensures IsSubsequence(r.rows, t.rows)
    ensures forall row :: multiset(r.rows)[row] == (if PassesAll(filters, row, m) then multiset(t.rows)[row] else 0)
    decreases |filters|
  {
    if filters == [] then
      SubsequenceReflexive(t.rows);
      t
    else
      var narrowed := ApplyFilter(t, filters[0], m);
      var r := FilterData(narrowed, filters[1..], m);
      SubsequenceTransitive(r.rows, narrowed.rows, t.rows);
      assert forall f :: f in filters <==> f == filters[0] || f in filters[1..];
      r
  }

  /** Filtering with `first + second` is filtering with `first`, then with `second`. */
  lemma {:induction false} FilterDataAppend(t: Table, first: seq<DataFilter>, second: seq<DataFilter>, m: Matcher)
    requires WellFormed(t) && ColumnsExist(t, first + second)
    ensures ColumnsExist(t, first) && ColumnsExist(FilterData(t, first, m), second)
    ensures FilterData(t, first + second, m) == FilterData(FilterData(t, first, m), second, m)
    decreases |first|
  {
    if first == [] {
      assert first + second == second;
    } else {
      assert (first + second)[0] == first[0];
      assert (first + second)[1..] == first[1..] + second;
      FilterDataAppend(ApplyFilter(t, first[0], m), first[1..], second, m);
    }
  }

  /** An extra filter at the end never adds rows. */
  lemma FilterNarrows(t: Table, filters: seq<DataFilter>, f: DataFilter, m: Matcher)
    requires WellFormed(t) && ColumnsExist(t, filters + [f])
    ensures |FilterData(t, filters + [f], m).rows| <= |FilterData(t, filters, m).rows|
  {
    FilterDataAppend(t, filters, [f], m);
    var before := FilterData(t, filters, m);
    assert [f][1..] == [];
    assert FilterData(before, [f], m) == ApplyFilter(before, f, m);
    SubsequenceLength(ApplyFilter(before, f, m).rows, before.rows);
  }

  /**
   * The inclusive and the exclusive form of one filter split the rows between them: every
   * row goes to exactly one side, with its multiplicity, and each side keeps the input order.
   */
  lemma FilterPartition(t: Table, column: string, value: string, m: Matcher)
    requires WellFormed(t) && column in t.columns
    ensures var including := FilterData(t, [DataFilter(column, value, true)], m).rows;
            var excluding := FilterData(t, [DataFilter(column, value, false)], m).rows;
            && multiset(including) + multiset(excluding) == multiset(t.rows)
            && |including| + |excluding| == |t.rows|
            && IsSubsequence(including, t.rows) && IsSubsequence(excluding, t.rows)
  {
    var inc, exc := DataFilter(column, value, true), DataFilter(column, value, false);
    SingleFilter(t, inc, m);
    SingleFilter(t, exc, m);
    var including := ApplyFilter(t, inc, m).rows;
    var excluding := ApplyFilter(t, exc, m).rows;
    forall row | true
      ensures (multiset(including) + multiset(excluding))[row] == multiset(t.rows)[row]
    {
      if row in t.rows {
        assert column in row;
      }
    }
    assert multiset(including) + multiset(excluding) == multiset(t.rows);
  }

  /** A one-element filter list is one pass of the loop. */
  lemma SingleFilter(t: Table, f: DataFilter, m: Matcher)
    requires WellFormed(t) && f.column in t.columns
    ensures FilterData(t, [f], m) == ApplyFilter(t, f, m)
  {
    assert [f][1..] == [];
  }
}
