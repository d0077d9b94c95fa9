/** Bytes, little-endian numbers and bit operations on natural numbers. */
module Bytes {
  import opened Arith

  type byte = b: int | 0 <= b < 256

  const U32 := 0x1_0000_0000

  type u32 = x: int | 0 <= x < U32

  /** The number whose bytes, least significant first, are `s`. */
  function FromLe(s: seq<byte>): nat {
    if s == [] then 0 else s[0] + 256 * FromLe(s[1..])
  }

  /** The `n` least significant bytes of `v`, least significant first. */
  function LowBytes(v: nat, n: nat): (s: seq<byte>)
    ensures |s| == n
    decreases n
  {
    if n == 0 then [] else [v % 256] + LowBytes(v / 256, n - 1)
  }

  function Pow256(n: nat): (p: nat)
    ensures p >= 1
  {
    if n == 0 then 1 else 256 * Pow256(n - 1)
  }

  lemma {:induction false} Pow256Values()
    ensures Pow256(0) == 1 && Pow256(1) == 0x100 && Pow256(2) == 0x1_0000 && Pow256(3) == 0x100_0000 && Pow256(4) == U32
  {
  }

  lemma {:induction false} FromLeBound(s: seq<byte>)
    ensures 0 <= FromLe(s) < Pow256(|s|)
  {
    if s != [] { FromLeBound(s[1..]); }
  }

  /** Reading back the low bytes of a number that fits gives the number. */
  lemma {:induction false} FromLowBytes(v: nat, n: nat)
    requires v < Pow256(n)
    ensures FromLe(LowBytes(v, n)) == v
    decreases n
  {
    if n > 0 {
      FromLowBytes(v / 256, n - 1);
      assert LowBytes(v, n)[1..] == LowBytes(v / 256, n - 1);
    }
  }

  /** The low bytes of a number that was read are the bytes it was read from. */
  lemma {:induction false} LowBytesOfRead(s: seq<byte>)
    ensures LowBytes(FromLe(s), |s|) == s
  {
    if s != [] {
      LowBytesOfRead(s[1..]);
      DivModUnique(FromLe(s), 256, FromLe(s[1..]), s[0]);
    }
  }

  lemma {:induction false} LowBytesPrefix(v: nat, n: nat, m: nat)
    requires n <= m
    ensures LowBytes(v, m)[..n] == LowBytes(v, n)
    decreases n
  {
    if n > 0 { LowBytesPrefix(v / 256, n - 1, m - 1); }
  }

  /** The low bytes only depend on the number modulo their range. */
  lemma {:induction false} FromLowBytesMod(v: nat, n: nat)
    ensures FromLe(LowBytes(v, n)) == v % Pow256(n)
    decreases n
  {
    if n > 0 {
      FromLowBytesMod(v / 256, n - 1);
      assert LowBytes(v, n)[1..] == LowBytes(v / 256, n - 1);
      var p := Pow256(n - 1);
      var q, r := v / 256 / p, v / 256 % p;
      assert v / 256 == p * q + r;
      assert v == 256 * (p * q + r) + v % 256;
      assert 256 * (p * q) == (256 * p) * q;
      DivModUnique(v, 256 * p, q, 256 * r + v % 256);
    }
  }

  lemma {:induction false} FromLeConcat(a: seq<byte>, b: seq<byte>)
    ensures FromLe(a + b) == FromLe(a) + Pow256(|a|) * FromLe(b)
  {
    if a == [] {
      assert a + b == b;
    } else {
      FromLeConcat(a[1..], b);
      assert (a + b)[1..] == a[1..] + b;
      assert 256 * (Pow256(|a| - 1) * FromLe(b)) == Pow256(|a|) * FromLe(b);
    }
  }

  /** Four bytes, written out. */
  lemma {:induction false} FromLe4(s: seq<byte>)
    requires |s| == 4
    ensures FromLe(s) == s[0] as int + 0x100 * s[1] as int + 0x1_0000 * s[2] as int + 0x100_0000 * s[3] as int
  {
    assert s[1..][1..][1..][1..] == [];
    assert FromLe(s[1..][1..][1..]) == s[3];
    assert FromLe(s[1..][1..]) == s[2] as int + 256 * s[3] as int;
  }

  /** A little-endian number in two's complement. */
  function Signed(s: seq<byte>): int {
    if 2 * FromLe(s) < Pow256(|s|) then FromLe(s) else FromLe(s) - Pow256(|s|)
  }

  /** Low bytes of a number in range, taken modulo 2^32, read back with their sign. */
  lemma {:induction false} SignedBack(x: int, n: nat)
    requires (n == 1 && -128 <= x <= 127) || (n == 4 && -0x8000_0000 <= x <= 0x7FFF_FFFF)
    ensures Signed(LowBytes(x % U32, n)) == x
  {
    hide LowBytes, FromLe, Pow256;
    Pow256Values();
    FromLowBytesMod(x % U32, n);
  }

  /** The number of binary digits; zero for zero. */
  function BitLength(v: nat): nat {
    if v == 0 then 0 else 1 + BitLength(v / 2)
  }

  /** A number has at most `k` binary digits exactly when it is below the `k`-th power of two. */
  lemma {:induction false} BitLengthAtMost(v: nat, k: nat)
    ensures BitLength(v) <= k <==> v < Pow2(k)
    decreases k
  {
    if k > 0 && v > 0 { BitLengthAtMost(v / 2, k - 1); }
  }

  /** Bitwise or, bit by bit. */
  function Or(a: nat, b: nat): nat
    decreases a + b
  {
    if a == 0 then b else if b == 0 then a
    else (if a % 2 == 1 || b % 2 == 1 then 1 else 0) + 2 * Or(a / 2, b / 2)
  }

  /** Bitwise exclusive or, bit by bit. */
  function Xor(a: nat, b: nat): nat
    decreases a + b
  {
    if a == 0 then b else if b == 0 then a
    else (a % 2 + b % 2) % 2 + 2 * Xor(a / 2, b / 2)
  }

  /** Or of numbers whose one-bits do not overlap is their sum. */
  lemma {:induction false} OrIsSum(high: nat, low: nat, k: nat)
    requires low < Pow2(k)
    ensures Or(Pow2(k) * high, low) == Pow2(k) * high + low
    decreases k
  {
    if k > 0 && high > 0 && low > 0 {
      var h := Pow2(k - 1) * high;
      assert Pow2(k) * high == 2 * h;
      MulAtLeast(Pow2(k - 1), high);
      OrIsSum(high, low / 2, k - 1);
    } else if k == 0 {
      assert Pow2(0) * high == high;
    }
  }
}
