/** Division by a number that is not a constant. */
module Arith {
  lemma {:induction false} MulAtLeast(m: nat, k: nat)
    requires k >= 1
    ensures m * k >= m
  {
    if k > 1 {
      MulAtLeast(m, k - 1);
      Distribute(m, k - 1, 1);
    }
  }

  lemma Distribute(m: nat, a: nat, b: nat)
    ensures m * (a + b) == m * a + m * b
  {
  }

  lemma MulMonotone(m: nat, a: nat, b: nat)
    requires a <= b
    ensures m * a <= m * b
  {
    Distribute(m, a, b - a);
  }

  /** A quotient is determined by its defining equation. */
  lemma QuotientUnique(m: nat, q: nat, r: nat, q': nat, r': nat)
    requires m > 0 && r < m && r' < m && m * q + r == m * q' + r'
    ensures q == q'
  {
    if q < q' {
      MulAtLeast(m, q' - q);
      Distribute(m, q, q' - q);
    } else if q' < q {
      MulAtLeast(m, q - q');
    }
  }

  lemma DivIs(x: nat, m: nat, q: nat, r: nat)
    requires m > 0 && r < m && x == m * q + r
    ensures x / m == q
  {
    DivMod(x, m);
    QuotientUnique(m, q, r, x / m, x % m);
  }

  lemma DivMod(x: nat, m: nat)
    requires m > 0
    ensures 0 <= x / m && x == m * (x / m) + x % m && 0 <= x % m < m
  {
  }

  /** Rounding up: m * (q - 1) < x <= m * q. */
  lemma CeilDiv(x: nat, m: nat, q: nat)
    requires m > 0 && q == (x + m - 1) / m
    ensures x <= m * q < x + m
    ensures x > 0 ==> q > 0
  {
    DivMod(x + m - 1, m);
  }

  /** Scaling both sides of a rounded-up division by b changes nothing. */
  lemma CeilDivScaled(x: nat, m: nat, b: nat)
    requires m > 0 && b > 0
    ensures m * b > 0 && (x * b + m * b - 1) / (m * b) == (x + m - 1) / m
  {
    var q, r := (x + m - 1) / m, (x + m - 1) % m;
    DivMod(x + m - 1, m);
    MulAtLeast(b, m);
    ScaleEquation(x, m, b, q, r);
    MulMonotone(b, r + 1, m);
    DivIs(x * b + m * b - 1, m * b, q, b * r + b - 1);
  }

  lemma ScaleEquation(x: nat, m: nat, b: nat, q: nat, r: nat)
    requires x + m - 1 == m * q + r && m > 0 && b > 0
    ensures x * b + m * b - 1 == m * b * q + (b * r + b - 1)
  {
    calc {
      x * b + m * b - 1;
      (x + m - 1) * b + b - 1;
      (m * q + r) * b + b - 1;
      m * b * q + b * r + b - 1;
    }
  }
}
