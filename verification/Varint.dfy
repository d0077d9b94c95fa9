/** The two variable-length number encodings of the program format. */
module Varint {
  import opened Wrappers
  import opened Arith
  import opened Bytes

  // ---------- Length-prefixed varints ----------

  /** How many bytes follow the first one. */
  function VarintExtra(v: u32): nat {
    var bits := BitLength(v);
    var x := bits / 8;
    Xor(x + bits, x) / 8
  }

  /** The leading one-bits that announce `n` more bytes. */
  function Marker(n: nat): byte
    requires n <= 4
  {
    if n == 0 then 0 else if n == 1 then 0x80 else if n == 2 then 0xC0 else if n == 3 then 0xE0 else 0xF0
  }

  lemma {:induction false} XorTrick(bits: nat)
    requires bits <= 32
    ensures Xor(bits / 8 + bits, bits / 8) / 8 ==
            (if bits <= 7 then 0 else if bits <= 14 then 1 else if bits <= 21 then 2 else if bits <= 28 then 3 else 4)
  {
    hide Xor;
    var x := bits / 8;
    if x == 0 {
      XorZero(bits);
    } else if x == 1 {
      XorOne(bits + 1);
    } else if x == 2 {
      XorTwo(bits + 2);
    } else if x == 3 {
      XorThree(bits + 3);
    } else {
      XorFour(36);
    }
  }

  lemma {:induction false} XorZero(a: nat)
    ensures Xor(a, 0) == a
  {
  }

  lemma {:induction false} XorStep(a: nat, b: nat)
    requires a > 0 && b > 0
    ensures Xor(a, b) == (a % 2 + b % 2) % 2 + 2 * Xor(a / 2, b / 2)
  {
  }

  lemma {:induction false} XorOne(a: nat)
    requires a > 0
    ensures Xor(a, 1) == (if a % 2 == 1 then a - 1 else a + 1)
  {
    hide Xor;
    XorStep(a, 1);
    XorZero(a / 2);
  }

  lemma {:induction false} XorTwo(a: nat)
    requires a >= 4
    ensures Xor(a, 2) == (if a / 2 % 2 == 1 then a - 2 else a + 2)
  {
    hide Xor;
    XorStep(a, 2);
    XorOne(a / 2);
  }

  lemma {:induction false} XorThree(a: nat)
    requires a >= 4
    ensures Xor(a, 3) == (if a % 2 == 1 then 0 else 1) + (if a / 2 % 2 == 1 then a / 4 * 4 else a / 4 * 4 + 2)
  {
    hide Xor;
    XorStep(a, 3);
    XorOne(a / 2);
  }

  lemma {:induction false} XorFour(a: nat)
    requires a >= 8 && a / 4 % 2 == 1
    ensures Xor(a, 4) == a - 4
  {
    hide Xor;
    XorStep(a, 4);
    XorTwo(a / 2);
  }

  lemma {:induction false} VarintExtraIs(v: u32)
    ensures VarintExtra(v) ==
            (if v < 0x80 then 0 else if v < 0x4000 then 1
             else if v < 0x20_0000 then 2 else if v < 0x1000_0000 then 3 else 4)
  {
    hide Xor, BitLength;
    BitLengthAtMost(v, 7);
    BitLengthAtMost(v, 14);
    BitLengthAtMost(v, 21);
    BitLengthAtMost(v, 28);
    BitLengthAtMost(v, 32);
    Pow2Values();
    XorTrick(BitLength(v));
  }

  function EncodeVarint(v: u32): (s: seq<byte>)
    ensures |s| == 1 + VarintExtra(v) <= 5
  {
    VarintExtraIs(v);
    var n := VarintExtra(v);
    var top := if n == 4 then 0 else v / Pow256(n) % 256;
    OrWithMarker(n, top);
    [Or(Marker(n), top)] + LowBytes(v, n)
  }

  lemma {:induction false} OrWithMarker(n: nat, top: nat)
    requires n <= 4 && top < 256
    ensures Or(Marker(n), top) < 256
  {
    Pow2Values();
    OrBelow(Marker(n), top, 8);
  }

  lemma {:induction false} OrBelow(a: nat, b: nat, k: nat)
    requires a < Pow2(k) && b < Pow2(k)
    ensures Or(a, b) < Pow2(k)
    decreases k
  {
    if a > 0 && b > 0 { OrBelow(a / 2, b / 2, k - 1); }
  }

  /** The number of leading one-bits of a byte. */
  function LeadingOnes(b: byte): nat {
    if b < 0x80 then 0 else if b < 0xC0 then 1 else if b < 0xE0 then 2 else if b < 0xF0 then 3
    else if b < 0xF8 then 4 else if b < 0xFC then 5 else if b < 0xFE then 6 else if b < 0xFF then 7 else 8
  }

  /** Reads a varint whose first byte has been taken off the input; gives the number of further bytes and the value.
      The shift of the top bits wraps around at 32 bits, so for four further bytes they are not shifted at all. */
  function ReadVarint(input: seq<byte>, first: byte): (r: Option<(nat, nat)>)
    ensures r.Some? ==> r.value.0 <= |input| && r.value.0 <= 4 && r.value.1 < U32
  {
    var n := LeadingOnes(first);
    if n > |input| || n > 4 then None
    else
      var top := first % Pow2(8 - n);
      var upper := if n == 4 then top else top * Pow256(n) % U32;
      UpperOr(upper, input[..n]);
      Some((n, Or(upper, FromLe(input[..n]))))
  }

  lemma {:induction false} UpperOr(upper: nat, low: seq<byte>)
    requires upper < U32 && |low| <= 4
    ensures Or(upper, FromLe(low)) < U32
  {
    FromLeBound(low);
    assert Pow256(4) == U32 && Pow256(3) < U32 && Pow256(2) < U32 && Pow256(1) < U32 && Pow256(0) < U32;
    Pow2Values();
    OrBelow(upper, FromLe(low), 32);
  }

  lemma {:induction false} TopFits(first: byte, n: nat)
    requires n < 4
    ensures first % Pow2(8 - n) * Pow256(n) < U32 && Pow256(n) == Pow2(8 * n)
  {
    Pow2Values();
    Pow256Values();
    if n == 0 {
    } else if n == 1 {
    } else if n == 2 {
    }
  }

  lemma {:induction false} TopAndRest(top: nat, n: nat, low: nat)
    requires n < 4 && top * Pow256(n) < U32 && Pow256(n) == Pow2(8 * n) && low < Pow256(n)
    ensures Or(top * Pow256(n) % U32, low) == top * Pow256(n) + low
  {
    hide Or, Pow2, Pow256;
    var upper := top * Pow256(n);
    assert upper % U32 == upper;
    assert upper == Pow2(8 * n) * top;
    OrIsSum(top, low, 8 * n);
  }

  /** What is read and when: the first byte's leading ones count the further bytes, and below four of them its
      other bits are the top of the number. */
  lemma {:induction false} ReadVarintIs(input: seq<byte>, first: byte)
    ensures var n := LeadingOnes(first);
            && (ReadVarint(input, first).Some? <==> n <= 4 && n <= |input|)
            && (n < 4 && n <= |input| ==>
                  ReadVarint(input, first) == Some((n, first % Pow2(8 - n) * Pow256(n) + FromLe(input[..n]))))
  {
    hide Or, FromLe, Pow2, Pow256, LeadingOnes;
    var n := LeadingOnes(first);
    if n < 4 && n <= |input| {
      TopFits(first, n);
      FromLeBound(input[..n]);
      TopAndRest(first % Pow2(8 - n), n, FromLe(input[..n]));
    }
  }

  /** The first byte announces the length and carries the top bits. */
  lemma {:induction false} FirstByte(n: nat, top: nat)
    requires n <= 3 && top < Pow2(7 - n)
    ensures Or(Marker(n), top) == Marker(n) + top
    ensures Or(Marker(n), top) < 256 && LeadingOnes(Or(Marker(n), top)) == n && Or(Marker(n), top) % Pow2(8 - n) == top
  {
    hide Or, Pow2;
    Pow2Values();
    if n == 0 {
      OrIsSum(0, top, 7);
      DivModUnique(top, 256, 0, top);
    } else if n == 1 {
      OrIsSum(1, top, 7);
      DivModUnique(0x80 + top, 128, 1, top);
    } else if n == 2 {
      OrIsSum(3, top, 6);
      DivModUnique(0xC0 + top, 64, 3, top);
    } else {
      OrIsSum(7, top, 5);
      DivModUnique(0xE0 + top, 32, 7, top);
    }
  }

  /** Putting the top bits above the low bytes gives the number back. */
  lemma {:induction false} Reassemble(v: nat, n: nat, upper: nat)
    requires n <= 3 && upper == v / Pow256(n) * Pow256(n)
    ensures Or(upper, FromLe(LowBytes(v, n))) == v
  {
    hide Or, Pow2, Pow256, FromLe, LowBytes;
    Pow256Values();
    Pow2Values();
    FromLowBytesMod(v, n);
    var unit := Pow256(n);
    DivBound(v, unit);
    var high, low := v / unit, v % unit;
    assert unit * high == high * unit;
    OrIsSum(high, low, if n == 0 then 0 else if n == 1 then 8 else if n == 2 then 16 else 24);
  }

  /** Reading what was written gives the number and the number of bytes, whatever follows. */
  lemma {:induction false} VarintRoundTrip(v: u32, rest: seq<byte>)
    ensures var s := EncodeVarint(v); ReadVarint(s[1..] + rest, s[0]) == Some((|s| - 1, v as nat))
  {
    hide Or, Pow2, Pow256, VarintExtra;
    VarintExtraIs(v);
    Pow2Values();
    Pow256Values();
    var n := VarintExtra(v);
    var s := EncodeVarint(v);
    var input := s[1..] + rest;
    assert s[1..] == LowBytes(v, n);
    assert input[..n] == LowBytes(v, n);
    if n == 4 {
      FromLowBytes(v, 4);
      OrIsSum(15, 0, 4);
      OrIsSum(0, v, 32);
    } else {
      TopBits(v, n);
      FirstByte(n, v / Pow256(n));
      Reassemble(v, n, v / Pow256(n) * Pow256(n));
    }
  }

  lemma {:induction false} TopBits(v: u32, n: nat)
    requires n == VarintExtra(v) && n <= 3
    ensures v / Pow256(n) < Pow2(7 - n) && v / Pow256(n) % 256 == v / Pow256(n)
    ensures v / Pow256(n) * Pow256(n) % U32 == v / Pow256(n) * Pow256(n)
  {
    hide Pow2, Pow256, VarintExtra;
    VarintExtraIs(v);
    Pow256Values();
    Pow2Values();
  }

  /** Writes a varint to the start of a buffer. */
  method WriteVarint(value: u32, buffer: array<byte>) returns (length: nat)
    requires |EncodeVarint(value)| <= buffer.Length
    modifies buffer
    ensures length == |EncodeVarint(value)|
    ensures buffer[..length] == EncodeVarint(value) && buffer[length..] == old(buffer[length..])
  {
    hide Or, LowBytes, Pow256, Pow2, VarintExtra;
    VarintExtraIs(value);
    Pow256Values();
    var n := VarintExtra(value);
    var bytes := LowBytes(value, 4);
    LowBytesPrefix(value, n, 4);
    OrWithMarker(n, if n == 4 then 0 else value / Pow256(n) % 256);
    length := n + 1;
    if n == 0 {
      Pow2Values();
      OrIsSum(0, value, 8);
      buffer[0] := value;
    } else if n == 1 {
      buffer[0], buffer[1] := Or(0x80, value / 0x100 % 256), bytes[0];
    } else if n == 2 {
      buffer[0], buffer[1], buffer[2] := Or(0xC0, value / 0x1_0000 % 256), bytes[0], bytes[1];
    } else if n == 3 {
      buffer[0], buffer[1], buffer[2], buffer[3] := Or(0xE0, value / 0x100_0000 % 256), bytes[0], bytes[1], bytes[2];
    } else {
      Pow2Values();
      OrIsSum(15, 0, 4);
      buffer[0], buffer[1], buffer[2], buffer[3], buffer[4] := 0xF0, bytes[0], bytes[1], bytes[2], bytes[3];
    }
  }

  // ---------- Simple varints: the length is known from elsewhere ----------

  function LeadingZeros(v: u32): int {
    32 - BitLength(v)
  }

  /** The fewest bytes whose sign extension gives the number back. */
  function SimpleLength(v: u32): (n: nat)
    ensures n <= 4
  {
    var zeros := LeadingZeros(v);
    if zeros == 32 then 0
    else if zeros > 24 then 1
    else if zeros > 16 then 2
    else if zeros > 8 then 3
    else if zeros != 0 then 4
    else
      var ones := LeadingZeros(U32 - 1 - v);
      if ones > 24 then 1 else if ones > 16 then 2 else if ones > 8 then 3 else 4
  }

  function EncodeSimple(v: u32): (s: seq<byte>)
    ensures |s| == SimpleLength(v)
  {
    LowBytes(v, SimpleLength(v))
  }

  /** Writes a simple varint to the start of a buffer. */
  method WriteSimpleVarint(value: u32, buffer: array<byte>) returns (length: nat)
    requires |EncodeSimple(value)| <= buffer.Length
    modifies buffer
    ensures length == |EncodeSimple(value)|
    ensures buffer[..length] == EncodeSimple(value) && buffer[length..] == old(buffer[length..])
  {
    hide LowBytes, SimpleLength;
    length := SimpleLength(value);
    var bytes := LowBytes(value, 4);
    LowBytesPrefix(value, length, 4);
    if length == 1 {
      buffer[0] := bytes[0];
    } else if length == 2 {
      buffer[0], buffer[1] := bytes[0], bytes[1];
    } else if length == 3 {
      buffer[0], buffer[1], buffer[2] := bytes[0], bytes[1], bytes[2];
    } else if length == 4 {
      buffer[0], buffer[1], buffer[2], buffer[3] := bytes[0], bytes[1], bytes[2], bytes[3];
    }
  }

  /** How many high bits to cut off for a given number of bytes. */
  function CutFor(length: nat): nat {
    if length == 0 then 32 else if length == 1 then 24 else if length == 2 then 16 else if length == 3 then 8 else 0
  }

  /** Arithmetic shift right of a 32-bit pattern. */
  function ShiftRightSigned(t: u32, places: nat): (r: nat)
    ensures r < U32
  {
    if t < 0x8000_0000 then
      DivBound(t, Pow2(places));
      t / Pow2(places)
    else
      DivBound(U32 - 1 - t, Pow2(places));
      U32 - 1 - (U32 - 1 - t) / Pow2(places)
  }

  /** Shifts the high bits out and back in, keeping the sign; a right shift by 32 wraps around to no shift. */
  function SignExtend(value: u32, cut: nat): (r: nat)
    requires cut <= 32
    ensures r < U32
  {
    ShiftRightSigned(value * Pow2(cut) % U32, cut % 32)
  }

  /** Reads a simple varint from the low bytes of a chunk. */
  function ReadSimple(chunk: u32, length: nat): nat {
    SignExtend(chunk, CutFor(length))
  }

  lemma {:induction false} SimpleLengthIs(v: u32)
    ensures SimpleLength(v) ==
            (if v == 0 then 0
             else if v < 0x80 || v >= U32 - 0x80 then 1
             else if v < 0x8000 || v >= U32 - 0x8000 then 2
             else if v < 0x80_0000 || v >= U32 - 0x80_0000 then 3
             else 4)
  {
    hide BitLength;
    var w := U32 - 1 - v;
    BitLengthAtMost(v, 0);
    BitLengthAtMost(v, 7);
    BitLengthAtMost(v, 15);
    BitLengthAtMost(v, 23);
    BitLengthAtMost(v, 31);
    BitLengthAtMost(v, 32);
    BitLengthAtMost(w, 7);
    BitLengthAtMost(w, 15);
    BitLengthAtMost(w, 23);
    Pow2Values();
  }

  /** The low bytes, read as a signed number in two's complement. */
  function SignedLow(value: u32, range: nat): int
    requires range > 0
  {
    var low := value % range;
    if 2 * low < range then low else low + U32 - range
  }

  /** What sign extension means. */
  lemma {:induction false} SignExtendIs(value: u32, length: nat)
    requires length <= 4
    ensures length == 0 ==> SignExtend(value, CutFor(length)) == 0
    ensures length > 0 ==> SignExtend(value, CutFor(length)) == SignedLow(value, Pow256(length))
  {
    hide Pow2, Pow256, SignExtend, SignedLow;
    Pow256Values();
    if length == 0 {
      SignExtendNone(value);
    } else if length == 1 {
      SignExtendPart(value, 24, 0x100);
    } else if length == 2 {
      SignExtendPart(value, 16, 0x1_0000);
    } else if length == 3 {
      SignExtendPart(value, 8, 0x100_0000);
    } else {
      SignExtendAll(value);
    }
  }

  lemma {:induction false} SignExtendNone(value: u32)
    ensures SignExtend(value, 32) == 0
  {
    hide Pow2;
    Pow2Values();
    DivModUnique(value * U32, U32, value, 0);
  }

  lemma {:induction false} SignExtendAll(value: u32)
    ensures SignExtend(value, 0) == SignedLow(value, U32)
  {
    hide Pow2;
    Pow2Values();
  }

  lemma {:induction false} SignExtendPart(value: u32, cut: nat, range: nat)
    requires (cut == 24 && range == 0x100) || (cut == 16 && range == 0x1_0000) || (cut == 8 && range == 0x100_0000)
    ensures SignExtend(value, cut) == SignedLow(value, range)
  {
    hide Pow2;
    Pow2Values();
    var unit := Pow2(cut);
    SignExtendBytes(value, range, unit);
  }

  lemma {:induction false} SignExtendBytes(value: nat, range: nat, unit: nat)
    requires value < U32 && range * unit == U32 && range in {0x100, 0x1_0000, 0x100_0000}
    ensures var low := value % range; var t := value * unit % U32;
            t == low * unit &&
            (t < 0x8000_0000 <==> 2 * low < range) &&
            t / unit == low && U32 - 1 - (U32 - 1 - t) / unit == low + U32 - range
  {
    var low := value % range;
    var q := value / range;
    assert value * unit == (range * unit) * q + low * unit by {
      assert value == range * q + low;
    }
    var t := low * unit;
    if range == 0x100 {
      DivModUnique(value * unit, U32, q, low * 0x100_0000);
      DivModUnique(t, 0x100_0000, low, 0);
      DivModUnique(U32 - 1 - t, 0x100_0000, 0xFF - low, 0xFF_FFFF);
    } else if range == 0x1_0000 {
      DivModUnique(value * unit, U32, q, low * 0x1_0000);
      DivModUnique(t, 0x1_0000, low, 0);
      DivModUnique(U32 - 1 - t, 0x1_0000, 0xFFFF - low, 0xFFFF);
    } else {
      DivModUnique(value * unit, U32, q, low * 0x100);
      DivModUnique(t, 0x100, low, 0);
      DivModUnique(U32 - 1 - t, 0x100, 0xFF_FFFF - low, 0xFF);
    }
  }

  /** Reading back a simple varint, whatever the bytes above it are. */
  lemma {:induction false} SimpleRoundTrip(v: u32, chunk: u32)
    requires chunk % Pow256(SimpleLength(v)) == v % Pow256(SimpleLength(v))
    ensures ReadSimple(chunk, SimpleLength(v)) == v
  {
    hide SignExtend, SimpleLength, Pow256;
    SimpleLengthIs(v);
    Pow256Values();
    SignExtendIs(chunk, SimpleLength(v));
  }

  /** No shorter encoding reads back as the same number. */
  lemma {:induction false} SimpleIsShortest(v: u32, length: nat)
    requires length < SimpleLength(v)
    ensures ReadSimple(v, length) != v
  {
    hide SignExtend, SimpleLength, Pow256;
    SimpleLengthIs(v);
    Pow256Values();
    SignExtendIs(v, length);
  }
}
