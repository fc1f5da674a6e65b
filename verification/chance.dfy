/** Random choices.  A draw of `Math.random()` is a real number in [0, 1);
    scaling it by the number of choices and rounding down gives the index. */
module Chance {

  predicate IsDraw(x: real) {
    0.0 <= x < 1.0
  }

  /** `Math.floor(draw * n)`: an index below `n` whose interval
      [i/n, (i+1)/n) holds the draw. */
  function RandomIndex(draw: real, n: nat): (i: nat)
    requires IsDraw(draw) && n > 0
    ensures i < n
    ensures i as real <= draw * n as real < (i + 1) as real
  {
    var x := draw * n as real;
    assert 0.0 <= x < n as real by {
      assert draw * n as real < 1.0 * n as real;
    }
    x.Floor as nat
  }

  /** Every index is reachable: the draw `i/n` picks index `i`. */
  lemma RandomIndexReaches(i: nat, n: nat)
    requires i < n
    ensures IsDraw(i as real / n as real)
    ensures RandomIndex(i as real / n as real, n) == i
  {
    var d := i as real / n as real;
    assert d * n as real == i as real;
    assert d < 1.0 by {
      assert i as real < n as real;
    }
  }
}
