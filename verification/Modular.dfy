/** Division with remainder by a variable modulus. */
module Modular {

  lemma MulAtLeast(m: int, k: int)
    requires m > 0
    ensures k >= 1 ==> m * k >= m
    ensures k <= -1 ==> m * k <= -m
  {
    if k >= 1 {
      MulMonotone(m, 1, k);
    } else if k <= -1 {
      MulMonotone(m, 1, -k);
      assert m * (-k) == -(m * k);
    }
  }

  lemma {:induction false} MulMonotone(m: int, a: int, b: int)
    requires m >= 0 && a <= b
    ensures m * a <= m * b
    decreases b - a
  {
    if a < b {
      MulMonotone(m, a, b - 1);
      assert m * b == m * (b - 1) + m;
    }
  }

  lemma Distribute(m: int, a: int, b: int)
    ensures m * (a + b) == m * a + m * b
    ensures m * (a - b) == m * a - m * b
  {
  }

  lemma Associate(a: int, b: int, c: int)
    ensures (a * b) * c == a * (b * c)
    ensures a * b == b * a
  {
  }

  /** Division with remainder has only one result. */
  lemma ModUnique(x: int, m: int, d: int, r: int)
    requires m > 0 && x == m * d + r && 0 <= r < m
    ensures x % m == r && x / m == d
  {
    var q, s := x / m, x % m;
    DivMod(x, m);
    QuotientUnique(m, q, s, d, r);
  }

  lemma DivMod(x: int, m: int)
    requires m > 0
    ensures x == m * (x / m) + x % m && 0 <= x % m < m
  {
  }

  lemma QuotientUnique(m: int, q: int, s: int, d: int, r: int)
    requires m > 0 && m * q + s == m * d + r && 0 <= s < m && 0 <= r < m
    ensures q == d && s == r
  {
    Distribute(m, q, d);
    MulAtLeast(m, q - d);
  }

  /** A product reduced by a multiple of its factor. */
  lemma ScaleMod(v: nat, p: nat, q: nat)
    requires p > 0 && q > 0
    ensures p * q > 0 && (p * v) % (p * q) == p * (v % q)
  {
    DivMod(v, q);
    var d, r := v / q, v % q;
    MulMonotone(p, 0, r);
    MulMonotone(p, r + 1, q);
    Distribute(p, r, 1);
    MulMonotone(p, 1, q);
    Distribute(p, q * d, r);
    Associate(p, q, d);
    ModUnique(p * v, p * q, d, p * r);
  }
}
