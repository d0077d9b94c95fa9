/** Decoding undoes encoding, whatever bytes follow the operands. */
module CodecRoundTrip {
  import opened Arith
  import opened Bytes
  import opened Varint
  import opened Codec

  /** Shifting and truncating a little-endian number takes a slice of its bytes. */
  lemma {:induction false} SliceRead(t: seq<byte>, k: nat, m: nat)
    requires k + m <= |t|
    ensures FromLe(t) / Pow256(k) % Pow256(m) == FromLe(t[k..k + m])
  {
    hide FromLe, Pow256;
    var high := t[k..];
    assert t == t[..k] + high;
    FromLeConcat(t[..k], high);
    FromLeBound(t[..k]);
    DivModUnique(FromLe(t), Pow256(k), FromLe(high), FromLe(t[..k]));
    assert high == high[..m] + high[m..];
    assert high[..m] == t[k..k + m];
    FromLeConcat(high[..m], high[m..]);
    FromLeBound(high[..m]);
    DivModUnique(FromLe(high), Pow256(m), FromLe(high[m..]), FromLe(high[..m]));
  }

  lemma {:induction false} WordIs(t: seq<byte>, k: nat)
    requires k + 4 <= |t|
    ensures Word(FromLe(t), k) == FromLe(t[k..k + 4])
  {
    hide FromLe, Pow256;
    Pow256Values();
    SliceRead(t, k, 4);
  }

  lemma {:induction false} WordWithinIs(t: seq<byte>, k: nat, n: nat)
    requires k + 8 <= |t| && n <= 4
    ensures WordWithin(FromLe(t), k, 8 * n) == FromLe(t[k + n..k + n + 4])
  {
    hide FromLe, Pow256;
    Pow256Values();
    SliceRead(t, k, 8);
    SliceRead(t[k..k + 8], n, 4);
    assert t[k..k + 8][n..n + 4] == t[k + n..k + n + 4];
  }

  /** A chunk that starts with a simple varint reads back as its value. */
  lemma {:induction false} ReadBack(s: seq<byte>, v: u32)
    requires |s| == 4 && s[..SimpleLength(v)] == EncodeSimple(v)
    ensures FromLe(s) < U32 && ReadSimple(FromLe(s), SimpleLength(v)) == v
  {
    hide FromLe, Pow256, LowBytes, SimpleLength, ReadSimple;
    var n := SimpleLength(v);
    Pow256Values();
    FromLeBound(s);
    SliceRead(s, 0, n);
    assert s[0..0 + n] == LowBytes(v, n);
    FromLowBytesMod(v, n);
    assert FromLe(s) / Pow256(0) == FromLe(s);
    SimpleRoundTrip(v, FromLe(s));
  }

  lemma {:induction false} LowParts(x: nat, a: byte, b: byte, f: nat)
    requires x == a as int + 256 * b as int + 65536 * f
    ensures x % 16 == a % 16 && x / 16 % 16 == a / 16 && x / 256 % 16 == b % 16
  {
    var g := b as int + 256 * f;
    DivModUnique(x, 16, a / 16 + 16 * g, a % 16);
    DivModUnique(a / 16 + 16 * g, 16, g, a / 16);
    DivModUnique(x, 256, g, a);
    DivModUnique(g, 16, b / 16 + 16 * f, b % 16);
  }

  lemma {:induction false} AuxParts(x: nat, a: byte, b: byte, f: nat)
    requires x == a as int + 256 * b as int + 65536 * f
    ensures x / 16 % 8 == a / 16 % 8 && x % 8 == a % 8 && x / 256 % 8 == b % 8
  {
    var g := b as int + 256 * f;
    DivModUnique(x, 16, a / 16 + 16 * g, a % 16);
    DivModUnique(a / 16 + 16 * g, 8, a / 16 / 8 + 2 * g, a / 16 % 8);
    DivModUnique(x, 8, a / 8 + 32 * g, a % 8);
    DivModUnique(x, 256, g, a);
    DivModUnique(g, 8, b / 8 + 32 * f, b % 8);
  }

  /** The first bytes of a chunk, in its low bits. */
  lemma {:induction false} FirstBytes(t: seq<byte>)
    requires |t| >= 4
    ensures RawReg(FromLe(t)) == RawReg(t[0]) && RawReg(FromLe(t) / 16) == RawReg(t[0] / 16)
    ensures RawReg(FromLe(t) / 256) == RawReg(t[1])
    ensures Word(FromLe(t), 0) / 16 % 8 == t[0] / 16 % 8 && Word(FromLe(t), 0) % 8 == t[0] % 8
    ensures Word(FromLe(t), 0) / 256 % 8 == t[1] % 8
  {
    hide FromLe, Pow256, Word;
    var f := TwoMore(t);
    LowParts(FromLe(t), t[0], t[1], f);
    AuxBytes(t);
  }

  lemma {:induction false} TwoMore(t: seq<byte>) returns (f: nat)
    requires |t| >= 2
    ensures FromLe(t) == t[0] as int + 256 * t[1] as int + 65536 * f
  {
    f := FromLe(t[1..][1..]);
    assert FromLe(t[1..]) == t[1] as int + 256 * f;
  }

  lemma {:induction false} AuxBytes(t: seq<byte>)
    requires |t| >= 4
    ensures Word(FromLe(t), 0) / 16 % 8 == t[0] / 16 % 8 && Word(FromLe(t), 0) % 8 == t[0] % 8
    ensures Word(FromLe(t), 0) / 256 % 8 == t[1] % 8
  {
    hide FromLe, Pow256, Word;
    WordIs(t, 0);
    FromLe4(t[0..4]);
    AuxParts(Word(FromLe(t), 0), t[0], t[1], t[2] as int + 256 * t[3] as int);
  }

  lemma {:induction false} NibblesBack(b: byte, low: nat, high: nat)
    requires low < 16 && high < 16 && b == Nibbles(low, high)
    ensures b / 16 == high && (low <= 12 ==> RawReg(b) == low) && (high <= 12 ==> RawReg(b / 16) == high)
  {
    hide Nibbles;
  }

  lemma {:induction false} Parts(t: seq<byte>, head: seq<byte>, x: seq<byte>, y: seq<byte>)
    requires var s := head + x + y; |s| <= |t| && t[..|s|] == s
    ensures var n := |head| + |x|; t[..|head|] == head && t[|head|..n] == x && t[n..n + |y|] == y
  {
    var s := head + x + y;
    var n := |head| + |x|;
    assert s[..|head|] == head && s[|head|..n] == x && s[n..] == y;
    assert t[..|s|][..|head|] == t[..|head|] && t[..|s|][|head|..n] == t[|head|..n] && t[..|s|][n..] == t[n..n + |y|];
  }

  lemma {:induction false} OneBack(t: seq<byte>, k: nat, v: u32)
    requires |t| == 16 && k <= 1 && t[k..k + SimpleLength(v)] == EncodeSimple(v)
    ensures ReadSimple(Word(FromLe(t), k), SimpleLength(v)) == v
  {
    hide FromLe, Word, SimpleLength, EncodeSimple, ReadSimple;
    WordIs(t, k);
    assert t[k..k + 4][..SimpleLength(v)] == t[k..k + SimpleLength(v)];
    ReadBack(t[k..k + 4], v);
  }

  lemma {:induction false} LastBack(t: seq<byte>, v: u32)
    requires |t| == 16 && t[1..1 + SimpleLength(v)] == EncodeSimple(v)
    ensures ReadLast(FromLe(t), 1 + SimpleLength(v)) == v
  {
    hide FromLe, Word, SimpleLength, EncodeSimple, SignExtend, Lookup;
    OneBack(t, 1, v);
    LookupIs(1, 1 + SimpleLength(v), 0, 0, SimpleLength(v));
  }

  lemma {:induction false} TwoBack(t: seq<byte>, from: nat, aux: nat, i: u32, j: u32)
    requires |t| == 16 && 1 <= from <= 2 && aux % 8 == SimpleLength(i)
    requires var n := from + SimpleLength(i);
             t[from..n] == EncodeSimple(i) && t[n..n + SimpleLength(j)] == EncodeSimple(j)
    ensures ReadTwo(FromLe(t), from, from, from + SimpleLength(i) + SimpleLength(j), aux) == (i, j)
  {
    hide FromLe, Word, WordWithin, SimpleLength, EncodeSimple, SignExtend, Lookup;
    var n := from + SimpleLength(i);
    LookupIs(from, n + SimpleLength(j), aux, SimpleLength(i), SimpleLength(j));
    WordIs(t, from);
    assert t[from..from + 4][..SimpleLength(i)] == t[from..n];
    ReadBack(t[from..from + 4], i);
    WordWithinIs(t, from, SimpleLength(i));
    assert t[n..n + 4][..SimpleLength(j)] == t[n..n + SimpleLength(j)];
    ReadBack(t[n..n + 4], j);
  }

  lemma {:induction false} OffsetBack(target: u32, position: u32)
    ensures WrappingAdd(position, WrappingSub(target, position)) == target
  {
  }

  lemma {:induction false} Imm64Back(t: seq<byte>, v: u64)
    requires |t| == 16 && t[1..9] == LowBytes(v, 8)
    ensures FromLe(t) / 256 % 0x1_0000_0000_0000_0000 == v
  {
    hide FromLe, LowBytes;
    assert Pow256(8) == 0x1_0000_0000_0000_0000 && Pow256(1) == 256;
    SliceRead(t, 1, 8);
    FromLowBytes(v, 8);
  }

  lemma {:induction false} ImmediatesBack(a: Args, position: u32, t: seq<byte>)
    requires |t| == 16 && t[..|EncodeArgs(position, a)|] == EncodeArgs(position, a)
    requires a.NoArgs? || a.Offset? || a.Imm? || a.ImmImm?
    ensures DecodeArgs(FormatOf(a), FromLe(t), position, |EncodeArgs(position, a)|) == a
  {
    hide FromLe, Word, SimpleLength, EncodeSimple, ReadSimple, ReadTwo;
    match a
    case NoArgs =>
    case Offset(target) =>
      OneBack(t, 0, WrappingSub(target, position));
      OffsetBack(target, position);
    case Imm(i) =>
      OneBack(t, 0, i);
    case ImmImm(i, j) =>
      Parts(t, [SimpleLength(i)], EncodeSimple(i), EncodeSimple(j));
      assert t[0] == t[..1][0];
      FirstBytes(t);
      TwoBack(t, 1, Word(FromLe(t), 0), i, j);
  }

  lemma {:induction false} RegistersBack(a: Args, position: u32, t: seq<byte>)
    requires |t| == 16 && t[..|EncodeArgs(position, a)|] == EncodeArgs(position, a)
    requires a.RegReg? || a.RegRegReg? || a.RegImm64?
    ensures DecodeArgs(FormatOf(a), FromLe(t), position, |EncodeArgs(position, a)|) == a
  {
    hide FromLe, Word, LowBytes, Nibbles;
    FirstBytes(t);
    match a
    case RegReg(r, q) =>
      assert t[0] == Nibbles(r, q);
      NibblesBack(t[0], r, q);
    case RegRegReg(r1, r2, r3) =>
      assert t[0] == Nibbles(r2, r3) && t[1] == r1;
      NibblesBack(t[0], r2, r3);
    case RegImm64(r, i) =>
      assert t[0] == r && RawReg(r) == r;
      assert t[1..9] == LowBytes(i, 8);
      Imm64Back(t, i);
  }

  lemma {:induction false} RegisterAndImmediateBack(a: Args, position: u32, t: seq<byte>)
    requires |t| == 16 && t[..|EncodeArgs(position, a)|] == EncodeArgs(position, a)
    requires a.RegImm? || a.RegRegImm? || a.RegRegOffset?
    ensures DecodeArgs(FormatOf(a), FromLe(t), position, |EncodeArgs(position, a)|) == a
  {
    hide FromLe, Word, SimpleLength, EncodeSimple, ReadLast, Nibbles;
    FirstBytes(t);
    match a
    case RegImm(r, i) =>
      assert t[0] == r;
      assert t[1..1 + SimpleLength(i)] == EncodeSimple(i);
      LastBack(t, i);
    case RegRegImm(r, q, i) =>
      assert t[0] == Nibbles(r, q);
      NibblesBack(t[0], r, q);
      assert t[1..1 + SimpleLength(i)] == EncodeSimple(i);
      LastBack(t, i);
    case RegRegOffset(r, q, target) =>
      var d := WrappingSub(target, position);
      assert t[0] == Nibbles(r, q);
      NibblesBack(t[0], r, q);
      assert t[1..1 + SimpleLength(d)] == EncodeSimple(d);
      LastBack(t, d);
      OffsetBack(target, position);
  }

  lemma {:induction false} RegisterAndTwoBack(a: Args, position: u32, t: seq<byte>)
    requires |t| == 16 && t[..|EncodeArgs(position, a)|] == EncodeArgs(position, a)
    requires a.RegImmOffset? || a.RegImmImm?
    ensures DecodeArgs(FormatOf(a), FromLe(t), position, |EncodeArgs(position, a)|) == a
  {
    hide FromLe, Word, SimpleLength, EncodeSimple, ReadTwo, Nibbles, RawReg, WrappingSub, WrappingAdd;
    FirstBytes(t);
    var head := [Nibbles(a.reg1, SimpleLength(a.imm1))];
    Parts(t, head, EncodeSimple(a.imm1),
          if a.RegImmImm? then EncodeSimple(a.imm2) else EncodeSimple(WrappingSub(a.target, position)));
    assert t[0] == t[..1][0] == head[0];
    NibblesBack(t[0], a.reg1, SimpleLength(a.imm1));
    match a
    case RegImmOffset(r, i, target) =>
      TwoBack(t, 1, Word(FromLe(t), 0) / 16, i, WrappingSub(target, position));
      OffsetBack(target, position);
    case RegImmImm(r, i, j) =>
      TwoBack(t, 1, Word(FromLe(t), 0) / 16, i, j);
  }

  lemma {:induction false} RegistersAndTwoBack(r: reg, q: reg, i: u32, j: u32, t: seq<byte>)
    requires var s := [Nibbles(r, q), SimpleLength(i)] + EncodeSimple(i) + EncodeSimple(j); |t| == 16 && t[..|s|] == s
    ensures DecodeArgs(RegRegImmImmF, FromLe(t), 0, 2 + SimpleLength(i) + SimpleLength(j)) == RegRegImmImm(r, q, i, j)
  {
    hide FromLe, Word, SimpleLength, EncodeSimple, ReadTwo, Nibbles, RawReg;
    var head := [Nibbles(r, q), SimpleLength(i)];
    Parts(t, head, EncodeSimple(i), EncodeSimple(j));
    assert t[0] == t[..2][0] == head[0] && t[1] == t[..2][1] == head[1];
    FirstBytes(t);
    NibblesBack(t[0], r, q);
    TwoBack(t, 2, Word(FromLe(t), 0) / 256, i, j);
  }

  lemma {:induction false} WideBack(a: Args, position: u32, t: seq<byte>)
    requires |t| == 16 && t[..|EncodeArgs(position, a)|] == EncodeArgs(position, a)
    requires a.RegRegImmImm?
    ensures DecodeArgs(FormatOf(a), FromLe(t), position, |EncodeArgs(position, a)|) == a
  {
    hide FromLe, Word, SimpleLength, EncodeSimple, ReadTwo, Nibbles, RawReg;
    RegistersAndTwoBack(a.reg1, a.reg2, a.imm1, a.imm2, t);
  }

  lemma {:induction false} ArgsBack(a: Args, position: u32, t: seq<byte>)
    requires |t| == 16 && t[..|EncodeArgs(position, a)|] == EncodeArgs(position, a)
    ensures DecodeArgs(FormatOf(a), FromLe(t), position, |EncodeArgs(position, a)|) == a
  {
    hide FromLe, EncodeArgs, DecodeArgs;
    if a.NoArgs? || a.Offset? || a.Imm? || a.ImmImm? {
      ImmediatesBack(a, position, t);
    } else if a.RegReg? || a.RegRegReg? || a.RegImm64? {
      RegistersBack(a, position, t);
    } else if a.RegImm? || a.RegRegImm? || a.RegRegOffset? {
      RegisterAndImmediateBack(a, position, t);
    } else if a.RegImmOffset? || a.RegImmImm? {
      RegisterAndTwoBack(a, position, t);
    } else {
      WideBack(a, position, t);
    }
  }

  lemma {:induction false} PaddedBack(target: u32, position: u32, t: seq<byte>)
    requires |t| == 16 && t[..4] == LowBytes(WrappingSub(target, position), 4)
    ensures DecodeArgs(OffsetF, FromLe(t), position, 4) == Offset(target)
  {
    hide FromLe, LowBytes, Word, ReadSimple, Pow256;
    var d := WrappingSub(target, position);
    WordIs(t, 0);
    Pow256Values();
    assert t[0..4] == t[..4];
    FromLowBytes(d, 4);
    SignExtendIs(d, 4);
    SignedLowOfWord(d);
    ReadWhole(d);
    OffsetBack(target, position);
  }

  lemma {:induction false} SignedLowOfWord(d: u32)
    ensures SignedLow(d, U32) == d
  {
  }

  lemma {:induction false} ReadWhole(d: u32)
    ensures ReadSimple(d, 4) == SignExtend(d, CutFor(4))
  {
  }

  /** Encode then decode: the emitted bytes, followed by anything, give the instruction back. */
  lemma {:induction false} DecodeEncoded(isa: Isa, position: u32, minimum: nat, i: Instruction, t: seq<byte>)
    requires ValidIsa(isa) && Supported(isa, i) && (minimum == 0 || minimum == 5)
    requires var s := EncodePadded(isa, position, minimum, i); |t| == 16 && t[..|s| - 1] == s[1..]
    ensures var s := EncodePadded(isa, position, minimum, i); Decode(isa, s[0], FromLe(t), position, |s| - 1) == i
  {
    hide FromLe, EncodeArgs, DecodeArgs, LowBytes;
    var s := Encode(isa, position, i);
    assert s[0] == isa.toRaw[i.opcode] && s[1..] == EncodeArgs(position, i.args);
    if |s| < minimum && i.args.Offset? {
      PaddedBack(i.args.target, position, t);
    } else {
      ArgsBack(i.args, position, t);
    }
  }
}
