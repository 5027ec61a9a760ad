/** The few facts about products and quotients the layout proofs need. */
module Arith {
  lemma MulAtLeast(k: nat, m: nat)
    requires k >= 1
    ensures k * m >= m
  {
  }

  lemma MulMonotone(a: int, b: int, m: nat)
    requires a <= b
    ensures a * m <= b * m
  {
    assert b * m == a * m + (b - a) * m;
  }

  lemma DivMod(x: int, m: int)
    requires m > 0
    ensures x == (x / m) * m + x % m && 0 <= x % m < m
  {
  }

  lemma DivUnique(x: int, m: nat, q: int, r: nat)
    requires m > 0 && x == q * m + r && r < m
    ensures x / m == q && x % m == r
  {
    var q', r' := x / m, x % m;
    assert x == q' * m + r';
    if q > q' {
      MulAtLeast(q - q', m);
    } else if q < q' {
      MulAtLeast(q' - q, m);
    }
  }

  lemma DivBounds(x: int, m: nat, lo: nat, hi: nat)
    requires m > 0 && lo * m <= x < (hi + 1) * m
    ensures lo <= x / m <= hi
  {
    var q := x / m;
    DivMod(x, m);
    if q > hi {
      MulMonotone(hi + 1, q, m);
    }
    if q < lo {
      MulMonotone(q + 1, lo, m);
    }
  }

  lemma DivMonotone(x: int, y: int, m: nat)
    requires m > 0 && x <= y
    ensures x / m <= y / m
  {
    DivMod(x, m);
    DivMod(y, m);
    if x / m > y / m {
      MulMonotone(y / m + 1, x / m, m);
    }
  }

  /** A fraction a/b of n lines is between none and all of them. */
  lemma FractionBounds(n: nat, a: nat, b: nat)
    requires a <= b && b > 0
    ensures 0 <= n * a / b <= n
  {
    MulMonotone(a, b, n);
    DivMonotone(0, n * a, b);
    DivMonotone(n * a, n * b, b);
    DivUnique(n * b, b, n, 0);
  }
}
