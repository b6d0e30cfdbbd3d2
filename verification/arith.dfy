/** Integer facts shared by the line stepper and the flat pixel index. */
module IntArith {

  /** Integer division is determined by the bracket d q <= n < d q + d. */
  lemma DivUnique(n: int, d: int, q: int)
    requires d > 0 && d * q <= n < d * q + d
    ensures n / d == q
  {
    var r := n / d;
    assert n == d * r + n % d && 0 <= n % d < d;
    if r > q {
      assert d * r - d * q == d * (r - q);
      MulAtLeast(d, r - q);
    } else if r < q {
      assert d * q - d * r == d * (q - r);
      MulAtLeast(d, q - r);
    }
  }

  lemma MulAtLeast(d: int, t: int)
    requires d > 0 && t >= 1
    ensures d * t >= d
  {
    assert d * t == d + d * (t - 1);
  }
}
