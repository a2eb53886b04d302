/** The clamped scroll-to-frame mapper shared by the two DOM players:
    `Math.min(Math.max(0, Math.floor(p * (n - 1))), n - 1)` for a progress
    `p` and a list of `n` frames. Progress is a browser double, idealised as
    a real. */
module FrameIndex {
  import opened MinMax

  /** For a non-empty list the index is a valid position; for an empty list
      the expression evaluates to -1, a position no list has. */
  function FloorIndex(p: real, n: nat): (r: int)
    ensures n >= 1 ==> 0 <= r < n
    ensures n == 0 ==> r == -1
  {
    Min(Max(0, (p * (n - 1) as real).Floor), n - 1)
  }

  /** Inside [0, 1] the clamps are inactive: the index is the whole number of
      frame steps completed, `r <= p * (n - 1) < r + 1`. */
  lemma FloorIndexInRange(p: real, n: nat)
    requires n >= 1 && 0.0 <= p <= 1.0
    ensures var r := FloorIndex(p, n);
      r as real <= p * (n - 1) as real < r as real + 1.0
  {
    var m := (n - 1) as real;
    var x := p * m;
    MulNonneg(p, m);
    MulNonneg(1.0 - p, m);
    assert m - x == (1.0 - p) * m;
    assert 0 <= x.Floor <= n - 1;
    assert FloorIndex(p, n) == x.Floor;
  }

  lemma MulNonneg(a: real, b: real)
    requires a >= 0.0 && b >= 0.0
    ensures a * b >= 0.0
  {
  }

  lemma FloorIndexEndpoints(n: nat)
    requires n >= 1
    ensures FloorIndex(0.0, n) == 0
    ensures FloorIndex(1.0, n) == n - 1
  {
  }

  /** More progress never moves the frame backwards. */
  lemma FloorIndexMonotone(p: real, q: real, n: nat)
    requires p <= q
    ensures FloorIndex(p, n) <= FloorIndex(q, n)
  {
    if n >= 1 {
      var m := (n - 1) as real;
      MulNonneg(q - p, m);
      assert q * m - p * m == (q - p) * m;
    }
  }
}
