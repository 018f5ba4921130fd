/** Division of products. */
module Division {
  lemma DivisionIs(a: int, q: int, r: nat, b: nat)
    requires a == q * b + r && r < b
    ensures a / b == q && a % b == r
  {
    var d, m := a / b, a % b;
    assert a == d * b + m && 0 <= m < b;
    assert (d - q) * b == r - m;
    if d > q {
      assert (d - q) * b >= b by { LeastProduct(d - q, b); }
    } else if d < q {
      assert (q - d) * b == m - r;
      LeastProduct(q - d, b);
    }
  }

  lemma LeastProduct(x: int, b: nat)
    requires 1 <= x
    ensures x * b >= b
  {}
}
