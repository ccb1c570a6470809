/** Euclidean division by a positive divisor. */
module Division {
  lemma DivStep(n: int, d: int)
    requires 0 < d <= n
    ensures n / d == (n - d) / d + 1
  {
    var k := (n - d) / d;
    assert n - d == k * d + (n - d) % d;
    assert n == (k + 1) * d + (n - d) % d;
    DivUnique(n, d, k + 1, (n - d) % d);
  }

  lemma DivUnique(n: int, d: int, k: int, r: int)
    requires d > 0 && n == k * d + r && 0 <= r < d
    ensures n / d == k
  {
    var k', r' := n / d, n % d;
    assert n == d * k' + r';
    if k > k' {
      MulAtLeast(k - k', d);
      MulSpread(k, k', d);
    } else if k < k' {
      MulAtLeast(k' - k, d);
      MulSpread(k', k, d);
    }
  }

  lemma MulAtLeast(a: int, d: int)
    requires a >= 1 && d > 0
    ensures a * d >= d
  {
  }

  lemma MulSpread(a: int, b: int, d: int)
    ensures (a - b) * d == a * d - b * d
  {
  }

  lemma MultipleMod(k: int, d: int)
    requires d > 0
    ensures k * d % d == 0 && k * d / d == k
  {
    DivUnique(k * d, d, k, 0);
  }
}
