/** Floor division facts shared by the arithmetic kernels. Every later bound on a
    quotient is one use of `DivIff`. */
module IntMath {
  lemma MulMonotone(x: int, y: int, k: int)
    requires x <= y && k >= 0
    ensures x * k <= y * k
  {
    assert (y - x) * k >= 0;
  }

  /** A floor quotient is the greatest integer whose product fits. */
  lemma DivIff(a: int, b: int, q: int)
    requires b > 0
    ensures q <= a / b <==> q * b <= a
  {
    var d, m := a / b, a % b;
    assert a == d * b + m && 0 <= m < b;
    if q <= d {
      MulMonotone(q, d, b);
    } else {
      MulMonotone(d + 1, q, b);
    }
  }

  /** The quotient of a bounded numerator is bounded by the same integer. */
  lemma DivAtMost(a: int, b: int, q: int)
    requires b > 0 && a < (q + 1) * b
    ensures a / b <= q
  {
    DivIff(a, b, q + 1);
  }

  lemma DivMonotone(a: int, a': int, b: int)
    requires b > 0 && a <= a'
    ensures a / b <= a' / b
  {
    DivIff(a, b, a / b);
    DivIff(a', b, a / b);
  }

  lemma DivAntitone(a: int, b: int, b': int)
    requires a >= 0 && 0 < b <= b'
    ensures 0 <= a / b' <= a / b
  {
    DivIff(a, b', 0);
    DivIff(a, b', a / b');
    MulMonotone(b, b', a / b');
    assert a / b' * b <= a / b' * b' by {
      assert b * (a / b') == a / b' * b && b' * (a / b') == a / b' * b';
    }
    DivIff(a, b, a / b');
  }

  /** An exact multiple divides back. */
  lemma DivExact(q: int, b: int)
    requires b > 0
    ensures (q * b) / b == q
  {
    DivIff(q * b, b, q);
    DivIff(q * b, b, q + 1);
    assert (q + 1) * b == q * b + b;
  }

  lemma DivAdd(a: int, k: int, b: int)
    requires b > 0
    ensures (a + k * b) / b == a / b + k
  {
    var q := a / b;
    DivIff(a, b, q);
    DivIff(a, b, q + 1);
    assert (q + k) * b == q * b + k * b;
    assert (q + k + 1) * b == (q + 1) * b + k * b;
    DivIff(a + k * b, b, q + k);
    DivIff(a + k * b, b, q + k + 1);
  }

  lemma Regroup(a: int, b: int, c: int)
    ensures (a * b) * c == a * (b * c)
  {
  }

  lemma Commute(a: int, b: int)
    ensures a * b == b * a
  {
  }

  lemma Distribute(a: int, b: int, k: int)
    ensures (a - b) * k == a * k - b * k
  {
  }

  lemma CancelFactor(x: int, y: int, k: int)
    requires k > 0
    ensures x * k <= y * k <==> x <= y
  {
    if x <= y {
      MulMonotone(x, y, k);
    } else {
      MulMonotone(y + 1, x, k);
      Distribute(y + 1, y, k);
    }
  }
}
