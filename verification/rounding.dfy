/**
 * Python's `round(x, 3)` on a float, taken over exact reals: scale by 1000, round half to
 * even, scale back (numpy's algorithm, without IEEE-754 error).
 */
module Rounding {

  /** Nearest integer to `y`; a tie goes to the even neighbour. */
  function RoundHalfEven(y: real): (n: int)
    ensures y - 0.5 <= n as real <= y + 0.5
  {
    var k := y.Floor;
    var frac := y - k as real;
    if frac < 0.5 then k
    else if frac > 0.5 then k + 1
    else if k % 2 == 0 then k
    else k + 1
  }

  /** `x` is a whole number of thousandths. */
  predicate OnGrid(x: real) {
    (x * 1000.0).Floor as real == x * 1000.0
  }

  function Round3(x: real): (r: real)
    ensures OnGrid(r)
    ensures x - 0.0005 <= r <= x + 0.0005
  {
    var n := RoundHalfEven(x * 1000.0);
    Thousandths(n);
    n as real / 1000.0
  }

  /** `n` thousandths is on the grid, and scaling it back up gives `n` again. */
  lemma Thousandths(n: int)
    ensures (n as real / 1000.0) * 1000.0 == n as real
    ensures OnGrid(n as real / 1000.0)
  {
    var r := n as real / 1000.0;
    assert r * 1000.0 == n as real;
    FloorOfInteger(n);
  }

  lemma FloorOfInteger(k: int)
    ensures (k as real).Floor == k
  {
  }

  lemma RoundHalfEvenMonotone(a: real, b: real)
    requires a <= b
    ensures RoundHalfEven(a) <= RoundHalfEven(b)
  {
    var ka, kb := a.Floor, b.Floor;
    if ka == kb {
      assert a - ka as real <= b - kb as real;
    }
  }

  lemma Round3Monotone(a: real, b: real)
    requires a <= b
    ensures Round3(a) <= Round3(b)
  {
    RoundHalfEvenMonotone(a * 1000.0, b * 1000.0);
  }

  /** Rounding leaves a whole number of thousandths alone. */
  lemma Round3OnGrid(x: real)
    requires OnGrid(x)
    ensures Round3(x) == x
  {
    var k := (x * 1000.0).Floor;
    assert RoundHalfEven(x * 1000.0) == k;
  }

  lemma IntegerOnGrid(i: int)
    ensures OnGrid(i as real)
  {
    var k := i * 1000;
    assert i as real * 1000.0 == k as real;
    FloorOfInteger(k);
  }

  lemma SumOnGrid(a: real, b: real)
    requires OnGrid(a) && OnGrid(b)
    ensures OnGrid(a + b)
  {
    var n := (a * 1000.0).Floor + (b * 1000.0).Floor;
    assert (a + b) * 1000.0 == n as real;
  }
}
