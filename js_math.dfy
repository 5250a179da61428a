/** The parts of JavaScript's `Math` object the application uses, over the reals.
    Floating-point rounding is not modelled. */
module JsMath {

  /** A value `Math.random()` can return: a real in [0, 1). */
  predicate IsDraw(r: real) {
    0.0 <= r < 1.0
  }

  /** `Math.floor(r * n)` for a draw r: a uniformly chosen index into n elements. */
  function PickIndex(r: real, n: nat): (i: nat)
    requires IsDraw(r) && n > 0
    ensures i < n
    ensures i as real <= r * n as real < i as real + 1.0
  {
    var x := r * n as real;
    ScaledDrawBelow(r, n as real);
    FloorBelow(x, n);
    x.Floor
  }

  /** The floor of a real in [0, m) is an index below m. */
  lemma FloorBelow(x: real, m: nat)
    requires 0.0 <= x < m as real
    ensures 0 <= x.Floor < m
  {
  }

  /** A draw scaled by a positive m stays below m. */
  lemma ScaledDrawBelow(r: real, m: real)
    requires IsDraw(r) && m > 0.0
    ensures 0.0 <= r * m < m
  {
    var gap := 1.0 - r;
    assert gap > 0.0;
    assert gap * m > 0.0;
    assert m - r * m == gap * m;
  }

  /** `Math.round(x)`: the integer closest to x, halves rounded up (towards +infinity). */
  function Round(x: real): (k: int)
    ensures k as real - 0.5 <= x < k as real + 0.5
  {
    (x + 0.5).Floor
  }

  /** Math.round is determined by ECMAScript's characterisation: any integer within
      [x - 1/2, x + 1/2) is the rounded value. */
  lemma RoundUnique(x: real, k: int)
    requires k as real - 0.5 <= x < k as real + 0.5
    ensures Round(x) == k
  {
    var r := Round(x);
    assert r as real - 0.5 <= x < r as real + 0.5;
    assert (r - k) as real < 1.0 && (k - r) as real < 1.0;
  }

  /** Rounding is monotone. */
  lemma RoundMonotone(x: real, y: real)
    requires x <= y
    ensures Round(x) <= Round(y)
  {
  }

  /** Rounding a value of [lo, hi] for integer bounds stays within [lo, hi]. */
  lemma RoundWithin(x: real, lo: int, hi: int)
    requires lo as real <= x <= hi as real
    ensures lo <= Round(x) <= hi
  {
    RoundUnique(lo as real, lo);
    RoundUnique(hi as real, hi);
    RoundMonotone(lo as real, x);
    RoundMonotone(x, hi as real);
  }
}
