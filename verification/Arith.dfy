/** Facts about division and powers of two shared by the models. */
module Arith {

  lemma {:induction false} MulAtLeast(u: int, d: int)
    requires u > 0 && d >= 1
    ensures u * d >= u
  {
  }

  lemma {:induction false} MulMonotone(a: int, b: int, c: int)
    requires a <= b && c >= 0
    ensures a * c <= b * c
  {
    assert b * c - a * c == (b - a) * c;
  }

  /** Two ways to write a number as a multiple plus a remainder agree. */
  lemma {:induction false} SameQuotient(u: int, q: int, r: int, q': int, r': int)
    requires u > 0 && 0 <= r < u && 0 <= r' < u
    requires u * q + r == u * q' + r'
    ensures q == q' && r == r'
  {
    assert u * (q - q') == r' - r;
    if q > q' {
      MulAtLeast(u, q - q');
    } else if q < q' {
      assert u * (q' - q) == r - r';
      MulAtLeast(u, q' - q);
    }
  }

  /** Quotient and remainder are unique. */
  lemma {:induction false} DivModUnique(w: int, u: int, q: int, r: int)
    requires u > 0 && 0 <= r < u && w == u * q + r
    ensures w / u == q && w % u == r
  {
    SameQuotient(u, q, r, w / u, w % u);
  }

  lemma {:induction false} DivBound(a: int, d: int)
    requires a >= 0 && d >= 1
    ensures 0 <= a / d <= a
  {
    var q := a / d;
    assert a == d * q + a % d;
    if q > 0 { MulAtLeast(q, d); }
  }

  predicate IsPow2(p: nat) {
    p == 1 || (p >= 2 && p % 2 == 0 && IsPow2(p / 2))
  }

  function Pow2(k: nat): (p: nat)
    ensures p >= 1
  {
    if k == 0 then 1 else 2 * Pow2(k - 1)
  }

  lemma {:induction false} Pow2Values()
    ensures Pow2(0) == 1 && Pow2(1) == 2 && Pow2(2) == 4 && Pow2(3) == 8 && Pow2(4) == 16 && Pow2(5) == 32 &&
            Pow2(6) == 64
    ensures Pow2(7) == 0x80 && Pow2(8) == 0x100 && Pow2(14) == 0x4000 && Pow2(15) == 0x8000 && Pow2(16) == 0x1_0000
    ensures Pow2(21) == 0x20_0000 && Pow2(23) == 0x80_0000 && Pow2(24) == 0x100_0000 && Pow2(27) == 0x800_0000
    ensures Pow2(28) == 0x1000_0000 && Pow2(31) == 0x8000_0000 && Pow2(32) == 0x1_0000_0000
  {
    assert Pow2(7) == 0x80;
    assert Pow2(14) == 0x4000;
    assert Pow2(21) == 0x20_0000;
    assert Pow2(28) == 0x1000_0000;
  }

  lemma {:induction false} Pow2Adds(a: nat, b: nat)
    ensures Pow2(a + b) == Pow2(a) * Pow2(b)
  {
    if a > 0 { Pow2Adds(a - 1, b); }
  }

  lemma {:induction false} Pow2IsPow2(k: nat)
    ensures IsPow2(Pow2(k))
  {
    if k > 0 { Pow2IsPow2(k - 1); }
  }

  lemma {:induction false} DivAtMost(v: int, d: int, a: int)
    requires d > 0 && v < d * (a + 1)
    ensures v / d <= a
  {
    if v / d >= a + 1 { MulMonotone(a + 1, v / d, d); }
  }
}
