/** Single bits of natural numbers. */
module Bits {
  import opened Arith
  import opened Bytes

  predicate BitAt(v: nat, k: nat)
    decreases k
  {
    if k == 0 then v % 2 == 1 else BitAt(v / 2, k - 1)
  }

  /** The number of zero bits below the lowest one bit. */
  function TrailingZeros(v: nat): nat
    requires v > 0
  {
    if v % 2 == 1 then 0 else 1 + TrailingZeros(v / 2)
  }

  lemma {:induction false} TrailingZerosIs(v: nat, k: nat)
    requires v > 0 && BitAt(v, k)
    requires forall j :: 0 <= j < k ==> !BitAt(v, j)
    ensures TrailingZeros(v) == k
    decreases k
  {
    if k == 0 {
    } else {
      assert !BitAt(v, 0);
      forall j | 0 <= j < k - 1 ensures !BitAt(v / 2, j) {
        assert !BitAt(v, j + 1);
      }
      TrailingZerosIs(v / 2, k - 1);
    }
  }

  lemma {:induction false} LowestBit(v: nat)
    requires v > 0
    ensures BitAt(v, TrailingZeros(v))
    ensures forall j :: 0 <= j < TrailingZeros(v) ==> !BitAt(v, j)
  {
    if v % 2 == 0 {
      LowestBit(v / 2);
      forall j | 0 <= j < TrailingZeros(v) ensures !BitAt(v, j) {
        if j > 0 { assert !BitAt(v / 2, j - 1); }
      }
    }
  }

  lemma {:induction false} HasBit(v: nat, k: nat)
    requires BitAt(v, k)
    ensures v >= Pow2(k) >= 1
    decreases k
  {
    if k > 0 { HasBit(v / 2, k - 1); }
  }

  /** A number whose highest one bit is `k` has `k + 1` binary digits. */
  lemma {:induction false} BitLengthIs(v: nat, k: nat)
    requires BitAt(v, k) && v < Pow2(k + 1)
    ensures BitLength(v) == k + 1
    decreases k
  {
    HasBit(v, k);
    if k > 0 { BitLengthIs(v / 2, k - 1); }
  }

  lemma {:induction false} ZeroHasNoBits(k: nat)
    ensures !BitAt(0, k)
    decreases k
  {
    if k > 0 { ZeroHasNoBits(k - 1); }
  }

  lemma {:induction false} AboveAreZero(v: nat, k: nat)
    requires v < Pow2(k)
    ensures !BitAt(v, k)
    decreases k
  {
    if k > 0 { AboveAreZero(v / 2, k - 1); }
  }

  lemma {:induction false} HalfOfProduct(v: nat, p: nat)
    requires p >= 1
    ensures v / (2 * p) == v / 2 / p
  {
    var q, r := v / 2 / p, v / 2 % p;
    assert v / 2 == p * q + r;
    assert 2 * (p * q) == (2 * p) * q;
    DivModUnique(v, 2 * p, q, 2 * r + v % 2);
  }

  /** Shifting right by `s` moves bit `s + k` to bit `k`. */
  lemma {:induction false} ShiftedRight(v: nat, s: nat, k: nat)
    ensures v / Pow2(s) >= 0 && BitAt(v / Pow2(s), k) == BitAt(v, s + k)
    decreases s
  {
    DivBound(v, Pow2(s));
    if s > 0 {
      ShiftedRight(v / 2, s - 1, k);
      HalfOfProduct(v, Pow2(s - 1));
    }
  }

  /** Shifting left by `s` moves bit `k` to bit `s + k` and clears the bits below. */
  lemma {:induction false} ShiftedLeft(v: nat, s: nat, k: nat)
    ensures v * Pow2(s) >= 0 && BitAt(v * Pow2(s), k) == (k >= s && BitAt(v, k - s))
    decreases s
  {
    if s > 0 {
      var w := v * Pow2(s - 1);
      assert v * Pow2(s) == 2 * w;
      ShiftedLeft(v, s - 1, if k > 0 then k - 1 else 0);
    }
  }

  /** Truncating to `n` bits clears the bits above. */
  lemma {:induction false} Truncated(v: nat, n: nat, k: nat)
    ensures BitAt(v % Pow2(n), k) == (k < n && BitAt(v, k))
    decreases n
  {
    if n == 0 {
      ZeroHasNoBits(k);
    } else {
      var p := Pow2(n - 1);
      var q, r := v / 2 / p, v / 2 % p;
      assert v / 2 == p * q + r;
      assert 2 * (p * q) == (2 * p) * q;
      DivModUnique(v, 2 * p, q, 2 * r + v % 2);
      if k > 0 { Truncated(v / 2, n - 1, k - 1); }
    }
  }

  lemma {:induction false} OrBits(a: nat, b: nat, k: nat)
    ensures BitAt(Or(a, b), k) == (BitAt(a, k) || BitAt(b, k))
    decreases k
  {
    if a == 0 {
      ZeroHasNoBits(k);
    } else if b == 0 {
      ZeroHasNoBits(k);
    } else if k > 0 {
      OrBits(a / 2, b / 2, k - 1);
    }
  }

  lemma {:induction false} PowerBits(n: nat, k: nat)
    ensures BitAt(Pow2(n), k) == (k == n)
    decreases n
  {
    if n == 0 {
      if k > 0 { ZeroHasNoBits(k - 1); }
    } else if k > 0 {
      PowerBits(n - 1, k - 1);
    }
  }

  /** Bit `k` of `a + 256 * r` is bit `k` of the byte `a`, or bit `k - 8` of `r`. */
  lemma {:induction false} ByteThenRest(a: byte, r: nat, k: nat)
    ensures BitAt(a + 256 * r, k) == (if k < 8 then BitAt(a, k) else BitAt(r, k - 8))
  {
    hide Pow2;
    Pow2Values();
    DivModUnique(a + 256 * r, 256, r, a);
    if k < 8 {
      Truncated(a + 256 * r, 8, k);
    } else {
      ShiftedRight(a + 256 * r, 8, k - 8);
    }
  }

  /** Bit `k` of a little-endian number is bit `k % 8` of byte `k / 8`. */
  lemma {:induction false} BitsOfBytes(s: seq<byte>, k: nat)
    ensures BitAt(FromLe(s), k) == (k / 8 < |s| && BitAt(s[k / 8], k % 8))
  {
    hide BitAt;
    if s == [] {
      ZeroHasNoBits(k);
    } else {
      ByteThenRest(s[0], FromLe(s[1..]), k);
      if k >= 8 {
        BitsOfBytes(s[1..], k - 8);
      }
    }
  }
}
