/** Powers of two, as used by shift counts and power-of-two sizes. */
module Powers {

  function Pow2(n: nat): (r: nat)
    ensures r > 0
  {
    if n == 0 then 1 else 2 * Pow2(n - 1)
  }

  lemma {:induction false} Pow2Add(a: nat, b: nat)
    ensures Pow2(a + b) == Pow2(a) * Pow2(b)
  {
    if a > 0 {
      Pow2Add(a - 1, b);
      assert Pow2(a + b) == 2 * Pow2((a - 1) + b);
      DoubleFactor(Pow2(a - 1), Pow2(b));
    }
  }

  lemma DoubleFactor(x: nat, y: nat)
    ensures 2 * (x * y) == (2 * x) * y
  {
  }

  lemma {:induction false} Pow2Monotone(a: nat, b: nat)
    requires a <= b
    ensures Pow2(a) <= Pow2(b)
  {
    if a < b { Pow2Monotone(a, b - 1); }
  }

  lemma Pow2Values()
    ensures Pow2(2) == 4
    ensures Pow2(8) == 0x100
    ensures Pow2(31) == 0x8000_0000
    ensures Pow2(32) == 0x1_0000_0000
    ensures Pow2(64) == 0x1_0000_0000_0000_0000
  {
    assert Pow2(4) == 16;
    Pow2Add(4, 4);
    Pow2Add(8, 8);
    Pow2Add(16, 16);
    Pow2Add(32, 32);
    Pow2Add(1, 31);
  }

  /** Dividing a number below `a * b` by `a` gives a number below `b`. */
  lemma DivBelow(x: nat, a: nat, b: nat)
    requires a > 0 && x < a * b
    ensures x / a < b
  {
  }
}
