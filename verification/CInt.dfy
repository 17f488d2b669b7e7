/** Integer division and remainder of C++, truncating toward zero, and facts about quotients. */
module CInt {
  function CDiv(a: int, b: int): int
    requires 0 < b
  {
    if a >= 0 then a / b else -(-a / b)
  }

  function CMod(a: int, b: int): int
    requires 0 < b
  {
    if a >= 0 then a % b else -(-a % b)
  }

  /** The quotient is rounded toward zero, and the remainder has the sign of the dividend. */
  lemma Truncates(a: int, b: int)
    requires 0 < b
    ensures a == CDiv(a, b) * b + CMod(a, b) && -b < CMod(a, b) < b
    ensures (0 <= a ==> 0 <= CMod(a, b)) && (a <= 0 ==> CMod(a, b) <= 0)
  {
  }

  lemma CDivNat(x: nat, n: nat)
    requires 0 < n
    ensures CDiv(x, n) == x / n
  {
  }

  lemma MulGap(n: int, a: int, b: int)
    requires 0 < n && a < b
    ensures n * a + n <= n * b
  {
    var k := b - a - 1;
    assert 0 <= n * k;
    assert n * b == n * (a + 1 + k) == n * a + n + n * k;
  }

  lemma DivModUnique(x: int, n: int, q: int, r: int)
    requires 0 <= r < n && x == n * q + r
    ensures x / n == q && x % n == r
  {
    var q', r' := x / n, x % n;
    assert x == n * q' + r' && 0 <= r' < n;
    if q < q' {
      MulGap(n, q, q');
    } else if q' < q {
      MulGap(n, q', q);
    }
  }

  lemma QuotientBelow(x: nat, n: nat, k: nat)
    requires 0 < n && x < n * k
    ensures x / n < k
  {
    var q := x / n;
    assert x == n * q + x % n;
    if k < q {
      MulGap(n, k, q);
    }
  }

  lemma QuotientFrom(x: nat, n: nat, k: nat)
    requires 0 < n
    ensures x / n >= k <==> x >= n * k
  {
    if x < n * k {
      QuotientBelow(x, n, k);
    } else if x / n < k {
      MulGap(n, x / n, k);
    }
  }
}
