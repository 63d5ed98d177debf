/**
 * `recalculateData`: turning a column of deltas into running totals, one row after another
 * in the order of the (already filtered, date-sorted) rows.
 */
module Recalculation {
  import opened Wrappers
  import opened Frames
  import opened Rounding

  /** A cell `math.isnan` accepts: an int64 or a float64 (possibly NaN). */
  predicate IsNumeric(c: Cell) {
    c.Int? || c.Num?
  }

  /** A numeric cell that is not NaN. */
  predicate IsNumber(c: Cell) {
    c.Int? || (c.Num? && c.x.Some?)
  }

  /** A number that rounding to three decimals leaves unchanged. */
  predicate Settled(c: Cell) {
    c.Int? || (c.Num? && c.x.Some? && OnGrid(c.x.value))
  }

  predicate AllNumeric(cells: seq<Cell>) {
    forall c :: c in cells ==> IsNumeric(c)
  }

  /** No reading is a negative delta (NaN readings count as zero). */
  predicate NoNegativeDeltas(cells: seq<Cell>) {
    forall c :: c in cells ==> IsNumeric(c) && (IsNumber(c) ==> Amount(c) >= 0.0)
  }

  function Amount(c: Cell): real
    requires IsNumber(c)
  {
    Value(c).value
  }

  /** A NaN reading is overwritten with 0.0; any other reading is kept. */
  function Zeroed(c: Cell): (r: Cell)
    requires IsNumeric(c)
    ensures IsNumber(r)
    ensures c.Num? && c.x.None? ==> r.Num? && Amount(r) == 0.0
    ensures IsNumber(c) ==> r == c
  {
    if c.Num? && c.x.None? then Num(Some(0.0)) else c
  }

  /**
   * `round(reading + previous, 3)`: two int64 values add exactly and stay integers; as soon as
   * a float is involved the sum is a float rounded to three decimals.
   */
  function Add(reading: Cell, previous: Cell): (r: Cell)
    requires IsNumber(reading) && IsNumber(previous)
    ensures Settled(r)
    ensures r.Int? <==> reading.Int? && previous.Int?
    ensures Amount(reading) + Amount(previous) - 0.0005 <= Amount(r) <= Amount(reading) + Amount(previous) + 0.0005
    ensures Settled(reading) && Settled(previous) ==> Amount(r) == Amount(reading) + Amount(previous)
  {
    if reading.Int? && previous.Int? then Int(reading.i + previous.i)
    else
      var sum := Amount(reading) + Amount(previous);
      SettledSumExact(reading, previous);
      Num(Some(Round3(sum)))
  }

  lemma SettledSumExact(a: Cell, b: Cell)
    requires IsNumber(a) && IsNumber(b)
    ensures Settled(a) && Settled(b) ==> Round3(Amount(a) + Amount(b)) == Amount(a) + Amount(b)
  {
    if Settled(a) && Settled(b) {
      SettledOnGrid(a);
      SettledOnGrid(b);
      SumOnGrid(Amount(a), Amount(b));
      Round3OnGrid(Amount(a) + Amount(b));
    }
  }

  lemma SettledOnGrid(c: Cell)
    requires IsNumber(c)
    ensures Settled(c) ==> OnGrid(Amount(c))
  {
    if c.Int? {
      IntegerOnGrid(c.i);
    }
  }

  /** The value one row ends up with, given the value stored in the row before it (if any). */
  function Step(previous: Option<Cell>, reading: Cell): (r: Cell)
    requires IsNumeric(reading)
    requires previous.Some? ==> IsNumber(previous.value)
    ensures IsNumber(r)
    ensures previous.Some? ==> Settled(r)
  {
    var own := Zeroed(reading);
    if previous.None? then own else Add(own, previous.value)
  }

  /** The loop over the rows; each step sees the value the previous step stored. */
  function Fold(previous: Option<Cell>, readings: seq<Cell>): (totals: seq<Cell>)
    requires AllNumeric(readings)
    requires previous.Some? ==> IsNumber(previous.value)
    ensures |totals| == |readings|
    ensures forall i :: 0 <= i < |totals| ==> IsNumber(totals[i])
    ensures forall i :: 0 < i < |totals| ==> Settled(totals[i])
    ensures previous.Some? ==> forall i :: 0 <= i < |totals| ==> Settled(totals[i])
    decreases |readings|
  {
    if readings == [] then []
    else
      var first := Step(previous, readings[0]);
      [first] + Fold(Some(first), readings[1..])
  }

  /** The column as the source computes it: the first row is not rounded. */
  function Totals(readings: seq<Cell>): (totals: seq<Cell>)
    requires AllNumeric(readings)
    ensures |totals| == |readings|
    ensures |readings| > 0 ==> totals[0] == Zeroed(readings[0])
    ensures forall i :: 0 <= i < |totals| ==> IsNumber(totals[i])
    ensures forall i :: 0 < i < |totals| ==> Settled(totals[i])
  {
    Fold(None, readings)
  }

  /** The column as the source evidently intends it: the running total starts from 0. */
  function RoundedTotals(readings: seq<Cell>): (totals: seq<Cell>)
    requires AllNumeric(readings)
    ensures |totals| == |readings|
    ensures forall i :: 0 <= i < |totals| ==> Settled(totals[i])
  {
    Fold(Some(Int(0)), readings)
  }

  /** Every pairwise comparison of the column goes upward (or stays). */
  predicate NonDecreasing(totals: seq<Cell>)
    requires forall i :: 0 <= i < |totals| ==> IsNumber(totals[i])
  {
    forall i, j :: 0 <= i < j < |totals| ==> Amount(totals[i]) <= Amount(totals[j])
  }

  lemma FoldEquations(previous: Option<Cell>, readings: seq<Cell>)
    requires AllNumeric(readings)
    requires previous.Some? ==> IsNumber(previous.value)
    ensures var totals := Fold(previous, readings);
            && (|readings| > 0 ==> totals[0] == Step(previous, readings[0]))
            && forall i :: 0 < i < |readings| ==> totals[i] == Step(Some(totals[i - 1]), readings[i])
  {
    forall i | 0 < i < |readings|
      ensures Fold(previous, readings)[i] == Step(Some(Fold(previous, readings)[i - 1]), readings[i])
    {
      FoldAt(previous, readings, i);
    }
  }

  /** Row `i` of the fold is one step from the value stored in row `i - 1`. */
  lemma {:induction false} FoldAt(previous: Option<Cell>, readings: seq<Cell>, i: nat)
    requires AllNumeric(readings)
    requires previous.Some? ==> IsNumber(previous.value)
    requires 0 < i < |readings|
    ensures Fold(previous, readings)[i] == Step(Some(Fold(previous, readings)[i - 1]), readings[i])
    decreases i
  {
    var first := Step(previous, readings[0]);
    var rest := Fold(Some(first), readings[1..]);
    assert Fold(previous, readings) == [first] + rest;
    assert readings[1..][i - 1] == readings[i];
    if i > 1 {
      FoldAt(Some(first), readings[1..], i - 1);
    }
  }

  /**
   * The fold equations of the source loop: the first row holds its own reading (0 for
   * NaN), every later row holds round(own reading or 0 + value stored in the row before, 3).
   */
  lemma TotalsEquations(readings: seq<Cell>)
    requires AllNumeric(readings)
    ensures var totals := Totals(readings);
            && |totals| == |readings|
            && (|readings| > 0 ==> totals[0] == Zeroed(readings[0]))
            && forall i :: 0 < i < |readings| ==> totals[i] == Add(Zeroed(readings[i]), totals[i - 1])
  {
    FoldEquations(None, readings);
  }

  /** The corrected fold treats the first row like every other: a delta added to 0. */
  lemma RoundedTotalsEquations(readings: seq<Cell>)
    requires AllNumeric(readings)
    ensures var totals := RoundedTotals(readings);
            && |totals| == |readings|
            && (|readings| > 0 ==> totals[0] == Add(Zeroed(readings[0]), Int(0)))
            && forall i :: 0 < i < |readings| ==> totals[i] == Add(Zeroed(readings[i]), totals[i - 1])
  {
    FoldEquations(Some(Int(0)), readings);
  }

  /** Starting from a settled total, non-negative deltas never make the column go down. */
  lemma {:induction false} FoldNonDecreasing(previous: Cell, readings: seq<Cell>)
    requires Settled(previous) && NoNegativeDeltas(readings)
    ensures AllNumeric(readings)
    ensures var totals := Fold(Some(previous), readings);
            && NonDecreasing(totals)
            && (|readings| > 0 ==> Amount(previous) <= Amount(totals[0]))
    decreases |readings|
  {
    if readings != [] {
      var first := Step(Some(previous), readings[0]);
      StepNotBelow(previous, readings[0]);
      assert NoNegativeDeltas(readings[1..]) by {
        forall c | c in readings[1..] ensures c in readings { }
      }
      FoldNonDecreasing(first, readings[1..]);
      var rest := Fold(Some(first), readings[1..]);
      assert Fold(Some(previous), readings) == [first] + rest;
      ConsNonDecreasing(first, rest);
    }
  }

  lemma ConsNonDecreasing(first: Cell, rest: seq<Cell>)
    requires IsNumber(first) && forall i :: 0 <= i < |rest| ==> IsNumber(rest[i])
    requires NonDecreasing(rest)
    requires rest != [] ==> Amount(first) <= Amount(rest[0])
    ensures NonDecreasing([first] + rest)
  {
    var totals := [first] + rest;
    forall i, j | 0 <= i < j < |totals|
      ensures Amount(totals[i]) <= Amount(totals[j])
    {
      if i == 0 && j > 1 {
        assert Amount(rest[0]) <= Amount(rest[j - 1]);
      }
    }
  }

  /**
   * The source's column from the second row on never goes down, and the second row lies at
   * most half a thousandth below the (unrounded) first.
   */
  lemma TotalsNonDecreasingAfterFirst(readings: seq<Cell>)
    requires NoNegativeDeltas(readings) && |readings| > 1
    ensures AllNumeric(readings)
    ensures var totals := Totals(readings);
            && NonDecreasing(totals[1..])
            && Amount(totals[0]) - 0.0005 <= Amount(totals[1])
  {
    var first := Step(None, readings[0]);
    var tail := Fold(Some(first), readings[1..]);
    assert Totals(readings) == [first] + tail;
    var second := Step(Some(first), readings[1]);
    assert readings[1..][1..] == readings[2..];
    var rest := Fold(Some(second), readings[2..]);
    assert tail == [second] + rest;
    assert NoNegativeDeltas(readings[2..]) by {
      forall c | c in readings[2..] ensures c in readings { }
    }
    assert readings[1] in readings;
    FoldNonDecreasing(second, readings[2..]);
    ConsNonDecreasing(second, rest);
  }

  /** When the first reading is already settled, the source's column never goes down either. */
  lemma TotalsNonDecreasing(readings: seq<Cell>)
    requires NoNegativeDeltas(readings)
    requires |readings| > 0 ==> Settled(Zeroed(readings[0]))
    ensures AllNumeric(readings)
    ensures var totals := Totals(readings);
            && NonDecreasing(totals)
            && forall i :: 0 <= i < |totals| ==> Amount(totals[i]) >= 0.0
  {
    RoundedTotalsNonDecreasing(readings);
    TotalsAgreeOnGrid(readings);
  }

  /** One step from a settled total with a non-negative delta does not go below that total. */
  lemma StepNotBelow(previous: Cell, reading: Cell)
    requires Settled(previous) && IsNumeric(reading)
    requires IsNumber(reading) ==> Amount(reading) >= 0.0
    ensures Amount(previous) <= Amount(Step(Some(previous), reading))
  {
    var own := Zeroed(reading);
    if !(own.Int? && previous.Int?) {
      SettledOnGrid(previous);
      Round3Monotone(Amount(previous), Amount(own) + Amount(previous));
      Round3OnGrid(Amount(previous));
    }
  }

  /** With no negative deltas the corrected column is non-decreasing and starts at or above 0. */
  lemma RoundedTotalsNonDecreasing(readings: seq<Cell>)
    requires NoNegativeDeltas(readings)
    ensures AllNumeric(readings)
    ensures var totals := RoundedTotals(readings);
            && NonDecreasing(totals)
            && forall i :: 0 <= i < |totals| ==> Amount(totals[i]) >= 0.0
  {
    FoldNonDecreasing(Int(0), readings);
  }

  /**
   * The correction is invisible when the first reading is already a whole number of
   * thousandths (or NaN, or an integer): both folds then produce the same column.
   */
  lemma TotalsAgreeOnGrid(readings: seq<Cell>)
    requires AllNumeric(readings)
    requires |readings| > 0 ==> Settled(Zeroed(readings[0]))
    ensures Totals(readings) == RoundedTotals(readings)
  {
    if readings != [] {
      var own := Zeroed(readings[0]);
      IntegerOnGrid(0);
      assert Add(own, Int(0)) == own by {
        if own.Num? {
          Round3OnGrid(own.x.value);
        }
      }
    }
  }

  /**
   * In the source's column a NaN reading repeats the total of the row before it (0 on the
   * first row). On the second row this needs the first reading to be settled already; see
   * `TotalsMayDecrease` for what happens otherwise.
   */
  lemma MissingReadingRepeatsTotal(readings: seq<Cell>, i: nat)
    requires AllNumeric(readings) && i < |readings|
    requires readings[i] == Num(None)
    requires i == 1 ==> Settled(Zeroed(readings[0]))
    ensures var totals := Totals(readings);
            Amount(totals[i]) == (if i == 0 then 0.0 else Amount(totals[i - 1]))
  {
    TotalsEquations(readings);
    assert Settled(Zeroed(readings[i])) by {
      assert (0.0 * 1000.0).Floor == 0;
    }
  }

  /** In the corrected column a NaN reading repeats the total of the row before it (0 at the start). */
  lemma MissingReadingRepeatsRoundedTotal(readings: seq<Cell>, i: nat)
    requires AllNumeric(readings) && i < |readings|
    requires readings[i] == Num(None)
    ensures var totals := RoundedTotals(readings);
            Amount(totals[i]) == (if i == 0 then 0.0 else Amount(totals[i - 1]))
  {
    RoundedTotalsEquations(readings);
    IntegerOnGrid(0);
    assert Settled(Zeroed(readings[i])) by {
      assert (0.0 * 1000.0).Floor == 0;
    }
  }

  /** Sum of the readings before position `n`, NaN counting as 0. */
  function SumTo(readings: seq<Cell>, n: nat): real
    requires AllNumeric(readings) && n <= |readings|
  {
    if n == 0 then 0.0 else SumTo(readings, n - 1) + Amount(Zeroed(readings[n - 1]))
  }

  /**
   * When every reading is already a whole number of thousandths, rounding never bites and
   * each corrected total is exactly the sum of the readings up to and including its row.
   */
  lemma {:induction false} RoundedTotalsAreRunningSums(readings: seq<Cell>, n: nat)
    requires AllNumeric(readings) && n < |readings|
    requires forall c :: c in readings ==> Settled(Zeroed(c))
    ensures Amount(RoundedTotals(readings)[n]) == SumTo(readings, n + 1)
  {
    RoundedTotalsEquations(readings);
    var totals := RoundedTotals(readings);
    assert readings[n] in readings;
    if n == 0 {
      IntegerOnGrid(0);
    } else {
      RoundedTotalsAreRunningSums(readings, n - 1);
    }
  }

  /**
   * The source's fold can go down although no delta is negative: a first reading with more
   * than three decimals is stored unrounded, the next row rounds it.
   */
  lemma TotalsMayDecrease()
    ensures var readings := [Num(Some(0.1234)), Num(None)];
            && NoNegativeDeltas(readings)
            && Totals(readings) == [Num(Some(0.1234)), Num(Some(0.123))]
            && !NonDecreasing(Totals(readings))
  {
    var readings := [Num(Some(0.1234)), Num(None)];
    TotalsEquations(readings);
    assert (0.1234 * 1000.0).Floor == 123;
    assert RoundHalfEven(123.4) == 123;
    var totals := Totals(readings);
    assert totals[1] == Num(Some(0.123));
  }
}

/** `recalculateData` on a whole table: only the value column is written. */
module RecalculateTable {
  import opened Frames
  import opened Recalculation

  predicate CanRecalculate(t: Table, column: string) {
    && WellFormed(t)
    && column in t.columns
    && AllNumeric(Column(t.rows, column))
  }

  function RecalculateData(t: Table, column: string): (r: Table)
    requires CanRecalculate(t, column)
    ensures WellFormed(r) && r.columns == t.columns && |r.rows| == |t.rows|
    ensures forall i, k :: 0 <= i < |t.rows| && k in t.columns && k != column ==> r.rows[i][k] == t.rows[i][k]
    ensures Column(r.rows, column) == Totals(Column(t.rows, column))
    ensures forall i :: 0 <= i < |t.rows| ==> IsNumber(r.rows[i][column])
    ensures |t.rows| > 0 ==> r.rows[0][column] == Zeroed(t.rows[0][column])
    ensures forall i :: 0 < i < |t.rows| ==> r.rows[i][column] == Add(Zeroed(t.rows[i][column]), r.rows[i - 1][column])
  {
    var totals := Totals(Column(t.rows, column));
    TotalsEquations(Column(t.rows, column));
    var rows := seq(|t.rows|, i requires 0 <= i < |t.rows| => t.rows[i][column := totals[i]]);
    assert forall i :: 0 <= i < |t.rows| ==> t.rows[i] in t.rows;
    Table(t.columns, rows)
  }
}
