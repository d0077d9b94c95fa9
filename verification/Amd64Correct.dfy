/** The encoder against the decoder, for every memory operand and all register contents. */
module Amd64Correct {
  import opened Arith
  import opened Wrappers
  import opened Bytes
  import opened Bits
  import opened Varint
  import opened Amd64
  import opened Amd64Address

  // ---------- REX bits ----------

  predicate GoodRex(rex: nat) {
    rex == 0 || 0x40 <= rex < 0x50
  }

  lemma {:induction false} RexByBits(v: nat)
    requires v < 128 && BitAt(v, 6) && !BitAt(v, 5) && !BitAt(v, 4)
    ensures 0x40 <= v < 0x50
  {
    HasBit(v, 6);
    Pow2Values();
    assert BitAt(v / 16, 2) && !BitAt(v / 16, 1) && !BitAt(v / 16, 0) by {
      assert BitAt(v, 4) == BitAt(v / 2, 3) == BitAt(v / 2 / 2, 2) == BitAt(v / 2 / 2 / 2, 1) == BitAt(v / 16, 0);
      assert BitAt(v, 5) == BitAt(v / 2, 4) == BitAt(v / 2 / 2, 3) == BitAt(v / 2 / 2 / 2, 2) == BitAt(v / 16, 1);
      assert BitAt(v, 6) == BitAt(v / 2, 5) == BitAt(v / 2 / 2, 4) == BitAt(v / 2 / 2 / 2, 3) == BitAt(v / 16, 2);
    }
    var w := v / 16;
    assert w < 8 && w % 2 == 0 && w / 2 % 2 == 0;
  }

  lemma {:induction false} RexBits(v: nat)
    requires 0x40 <= v < 0x50
    ensures BitAt(v, 6) && !BitAt(v, 5) && !BitAt(v, 4)
    ensures BitAt(v, 0) == (v % 2 == 1) && BitAt(v, 1) == (v / 2 % 2 == 1) && BitAt(v, 2) == (v / 4 % 2 == 1)
  {
    assert BitAt(v, 1) == BitAt(v / 2, 0);
    assert BitAt(v, 2) == BitAt(v / 2, 1) == BitAt(v / 2 / 2, 0);
    assert v / 2 / 2 == v / 4 && v / 4 / 4 == v / 16 == 4;
    assert BitAt(v, 4) == BitAt(v / 2, 3) == BitAt(v / 4, 2) == BitAt(v / 4 / 2, 1) == BitAt(v / 4 / 2 / 2, 0);
    assert BitAt(v, 5) == BitAt(v / 2, 4) == BitAt(v / 4, 3) == BitAt(v / 4 / 2, 2) == BitAt(v / 4 / 2 / 2, 1);
    assert BitAt(v, 6) == BitAt(v / 2, 5) == BitAt(v / 4, 4) == BitAt(v / 4 / 2, 3) == BitAt(v / 4 / 2 / 2, 2);
    assert v / 4 / 2 / 2 == 4;
    assert BitAt(4, 2) && !BitAt(4, 1) && !BitAt(4, 0);
  }

  /** Setting a REX bit keeps the others, and the byte a REX byte. */
  lemma {:induction false} RexSet(rex: nat, bits: nat, k: nat)
    requires GoodRex(rex) && k < 4 && bits == 0x40 + Pow2(k)
    ensures GoodRex(Or(rex, bits))
    ensures forall j :: 0 <= j < 4 ==> BitAt(Or(rex, bits), j) == (BitAt(rex, j) || j == k)
  {
    hide Or, BitAt;
    Pow2Values();
    OrBelow(rex, bits, 7);
    RexBits(bits);
    BitsOfSum(k, bits);
    forall j | 0 <= j <= 6 ensures BitAt(Or(rex, bits), j) == (BitAt(rex, j) || BitAt(bits, j)) {
      OrBits(rex, bits, j);
    }
    ZeroBits();
    if rex != 0 { RexBits(rex); }
    RexByBits(Or(rex, bits));
  }

  lemma {:induction false} BitsOfSum(k: nat, bits: nat)
    requires k < 4 && bits == 0x40 + Pow2(k)
    ensures forall j :: 0 <= j < 4 ==> BitAt(bits, j) == (j == k)
  {
    hide BitAt;
    Pow2Values();
    forall j | 0 <= j < 4 ensures BitAt(bits, j) == (j == k) {
      PowerBits(k, j);
      PowerBits(6, j);
      OrIsSum(1, Pow2(k), 6);
      OrBits(64, Pow2(k), j);
    }
  }

  lemma {:induction false} ZeroBits()
    ensures forall j :: 0 <= j <= 6 ==> !BitAt(0, j)
  {
    forall j | 0 <= j <= 6 ensures !BitAt(0, j) {
      ZeroHasNoBits(j);
    }
  }

  // ---------- What the builder sets ----------

  /** An instruction ready for a memory operand: only the register field of ModRM, and W and R of REX, may be set. */
  predicate Ready(i: Inst, reg: nat) {
    && reg < 8 && i.modrm == 8 * reg && i.sib == 0 && !i.overrideAddrSize
    && GoodRex(i.rex) && !BitAt(i.rex, 0) && !BitAt(i.rex, 1)
    && PlainOpcode(i)
  }

  /** An opcode that cannot be mistaken for a prefix or an escape. */
  predicate PlainOpcode(i: Inst) {
    !i.vex && !i.opAlt ==>
      !IsPrefix(i.opcode) && !(0x40 <= i.opcode < 0x50) && i.opcode != 0xC4 && i.opcode != 0x0F
  }

  function ModeFor(base: Reg, offset: i32): nat {
    if offset == 0 && base != RBP && base != R13 then 0 else if -128 <= offset <= 127 then 1 else 2
  }

  /** The fields an operand asks for. */
  datatype Layout = Layout(mode: nat, rm: nat, sib: nat, x: bool, b: bool, displacement: seq<byte>)

  function BaseDisplacement(base: Reg, offset: i32): seq<byte> {
    var mode := ModeFor(base, offset);
    LowBytes(offset % U32, if mode == 0 then 0 else if mode == 1 then 1 else 4)
  }

  function LayoutOf(m: MemOp): Layout {
    match Simplify(m)
    case BaseOffset(_, _, base, offset) =>
      Layout(ModeFor(base, offset), base % 8, 0x24, false, base >= 8, BaseDisplacement(base, offset))
    case BaseIndexScaleOffset(_, _, base, index, scale, offset) =>
      Layout(ModeFor(base, offset), 4, 64 * scale + 8 * (index % 8) + base % 8, index >= 8, base >= 8,
             BaseDisplacement(base, offset))
    case IndexScaleOffset(_, _, index, scale, offset) =>
      Layout(0, 4, 64 * scale + 8 * (index % 8) + 5, index >= 8, false, LowBytes(offset % U32, 4))
    case Offset(_, _, offset) => Layout(0, 4, 0x25, false, false, LowBytes(offset % U32, 4))
    case RipRelative(_, offset) => Layout(0, 5, 0, false, false, LowBytes(offset % U32, 4))
  }

  /** The instruction has exactly the fields of a layout. */
  predicate HasLayout(j: Inst, reg: nat, r: bool, l: Layout) {
    && j.modrm == 64 * l.mode + 8 * reg + l.rm && (j.modrm != 0 || j.forceModrm)
    && (l.rm == 4 ==> j.sib == l.sib)
    && GoodRex(j.rex) && BitAt(j.rex, 0) == l.b && BitAt(j.rex, 1) == l.x && BitAt(j.rex, 2) == r
    && LowBytes(j.displacement, j.displacementLength / 8) == l.displacement
  }

  lemma {:induction false} ModrmSum(mode: nat, reg: nat, rm: nat)
    requires reg < 8 && rm < 8
    ensures Or(8 * reg, rm) == 8 * reg + rm && Or(64 * mode, 8 * reg + rm) == 64 * mode + 8 * reg + rm
  {
    hide Or, Pow2;
    Pow2Values();
    OrIsSum(reg, rm, 3);
    OrIsSum(mode, 8 * reg + rm, 6);
  }

  lemma {:induction false} RegBitsAre(r: Reg)
    ensures RegBits(r) == 8 * (r % 8)
  {
  }

  lemma {:induction false} OrZero(a: nat)
    ensures Or(0, a) == a && Or(a, 0) == a
  {
  }

  /** The low byte of a short displacement. */
  lemma {:induction false} ShortDisplacement(offset: i32)
    ensures LowBytes(Unsigned8(offset), 1) == LowBytes(offset % U32, 1)
  {
    assert LowBytes(Unsigned8(offset), 1) == [offset % 256 % 256];
    assert LowBytes(offset % U32, 1) == [offset % U32 % 256];
  }

  lemma {:induction false} DisplacementFields(l: Inst, reg: nat, rm: nat, base: Reg, offset: i32)
    requires reg < 8 && rm < 8 && l.modrm == 8 * reg + rm
    ensures var j := WithDisplacement(l, base, offset);
            && j.modrm == 64 * ModeFor(base, offset) + 8 * reg + rm
            && LowBytes(j.displacement, j.displacementLength / 8) == BaseDisplacement(base, offset)
            && j == l.(modrm := j.modrm, displacement := j.displacement, displacementLength := j.displacementLength)
  {
    hide Or, LowBytes;
    ModrmSum(1, reg, rm);
    ModrmSum(2, reg, rm);
    ShortDisplacement(offset);
    NoLowBytes(offset % U32);
  }

  lemma {:induction false} NoLowBytes(v: nat)
    ensures LowBytes(v, 0) == [] && LowBytes(0, 0) == []
  {
  }

  /** Setting B and X as asked. */
  lemma {:induction false} RexFields(i: Inst, b: bool, x: bool)
    requires GoodRex(i.rex) && !BitAt(i.rex, 0) && !BitAt(i.rex, 1)
    ensures var j := WithRex(WithRex(i, REX_EXT_MODRM_RM, b), REX_EXT_MODRM_SIB_INDEX, x);
            GoodRex(j.rex) && BitAt(j.rex, 0) == b && BitAt(j.rex, 1) == x && BitAt(j.rex, 2) == BitAt(i.rex, 2)
            && j == i.(rex := j.rex)
  {
    hide Or, BitAt, GoodRex;
    Pow2Values();
    if b { RexSet(i.rex, REX_EXT_MODRM_RM, 0); }
    var k := WithRex(i, REX_EXT_MODRM_RM, b);
    if x { RexSet(k.rex, REX_EXT_MODRM_SIB_INDEX, 1); }
  }

  lemma {:induction false} BaseOffsetFields(i: Inst, reg: nat, segment: Option<Seg>, size: RegSize, base: Reg,
      offset: i32)
    requires Ready(i, reg)
    ensures HasLayout(Mem(i, BaseOffset(segment, size, base, offset)), reg, BitAt(i.rex, 2),
                      LayoutOf(BaseOffset(segment, size, base, offset)))
  {
    hide Or, BitAt, GoodRex, LowBytes, ModeFor, BaseDisplacement, WithDisplacement, PlainOpcode;
    RexFields(i, base >= 8, false);
    ModrmSum(0, reg, base % 8);
    var j := WithRex(i, REX_EXT_MODRM_RM, NeedsRex(base)).(forceModrm := true);
    var k := if base == RSP || base == R12 then j.(sib := 0x24) else j;
    DisplacementFields(k.(modrm := Or(k.modrm, RmBits(base))), reg, base % 8, base, offset);
  }

  lemma {:induction false} SibSum(scale: Scale, index: nat, base: nat)
    requires index < 8 && base < 8
    ensures Or(64 * scale, Or(Or(0, 8 * index), base)) == 64 * scale + 8 * index + base
  {
    hide Or;
    OrZero(8 * index);
    ModrmSum(scale, index, base);
  }

  lemma {:induction false} BaseIndexFields(i: Inst, reg: nat, m: MemOp)
    requires Ready(i, reg) && m.BaseIndexScaleOffset?
    ensures HasLayout(Mem(i, m), reg, BitAt(i.rex, 2), LayoutOf(m))
  {
    hide Or, BitAt, GoodRex, LowBytes, ModeFor, BaseDisplacement, WithDisplacement, PlainOpcode;
    RexFields(i, m.base >= 8, m.index >= 8);
    ModrmSum(0, reg, 4);
    RegBitsAre(m.index);
    SibSum(m.scale, m.index % 8, m.base % 8);
    var j := WithRex(WithRex(i, REX_EXT_MODRM_RM, NeedsRex(m.base)), REX_EXT_MODRM_SIB_INDEX, NeedsRex(m.index));
    var l := j.(modrm := Or(j.modrm, 4), sib := Or(64 * m.scale, Or(Or(j.sib, RegBits(m.index)), RmBits(m.base))));
    DisplacementFields(l, reg, 4, m.base, m.offset);
  }

  lemma {:induction false} OtherFields(i: Inst, reg: nat, m: MemOp)
    requires Ready(i, reg) && (m.Offset? || m.RipRelative? || (m.IndexScaleOffset? && m.scale != 0))
    ensures HasLayout(Mem(i, m), reg, BitAt(i.rex, 2), LayoutOf(m))
  {
    hide Or, BitAt, GoodRex, LowBytes, PlainOpcode;
    ModrmSum(0, reg, 4);
    ModrmSum(0, reg, 5);
    OrZero(0x25);
    if m.IndexScaleOffset? {
      RexFields(i, false, m.index >= 8);
      RegBitsAre(m.index);
      SibSum(m.scale, m.index % 8, 5);
    }
  }

  /** The builder puts every operand into the fields its layout asks for. */
  lemma {:induction false} MemFields(i: Inst, reg: nat, m: MemOp)
    requires Ready(i, reg)
    ensures HasLayout(Mem(i, m), reg, BitAt(i.rex, 2), LayoutOf(m))
  {
    hide Ready, HasLayout;
    if m.BaseOffset? {
      BaseOffsetFields(i, reg, m.segment, m.size, m.base, m.offset);
    } else if m.IndexScaleOffset? && m.scale == 0 {
      BaseOffsetFields(i, reg, m.segment, m.size, m.index, m.offset);
      SimplifiedSame(i, m);
    } else if m.BaseIndexScaleOffset? {
      BaseIndexFields(i, reg, m);
    } else {
      OtherFields(i, reg, m);
    }
  }

  lemma {:induction false} SimplifiedSame(i: Inst, m: MemOp)
    ensures Mem(i, m) == Mem(i, Simplify(m)) && LayoutOf(m) == LayoutOf(Simplify(m))
  {
    hide Or, LowBytes, WithDisplacement, BaseDisplacement;
  }

  // ---------- Reading it back ----------

  lemma {:induction false} OptionalPrefix(part: seq<byte>, rest: seq<byte>, p: Prefix)
    requires |part| <= 1 && (part != [] ==> IsPrefix(part[0]))
    ensures ParsePrefixes(part + rest, p) == ParsePrefixes(rest, if part == [] then p else TakePrefix(p, part[0]))
  {
    if part == [] {
      assert part + rest == rest;
    } else {
      assert (part + rest)[1..] == rest;
    }
  }

  lemma {:induction false} PrefixesBack(i: Inst, rest: seq<byte>)
    requires rest != [] && !IsPrefix(rest[0])
    ensures ParsePrefixes(Prefixes(i) + rest, Prefix(None, false)) ==
              (Prefix(i.overrideSegment, i.overrideAddrSize), rest)
  {
    hide ParsePrefixes;
    var a: seq<byte> := if i.opRepPrefix then [0xF3] else [];
    var b: seq<byte> := match i.overrideSegment case None => [] case Some(FS) => [0x64] case Some(GS) => [0x65];
    var c: seq<byte> := if i.overrideOpSize then [0x66] else [];
    var d: seq<byte> := if i.overrideAddrSize then [0x67] else [];
    PrefixesSplit(a, b, c, d, rest);
    var start := Prefix(None, false);
    OptionalPrefix(a, b + (c + (d + rest)), start);
    OptionalPrefix(b, c + (d + rest), start);
    var p := Prefix(i.overrideSegment, false);
    OptionalPrefix(c, d + rest, p);
    OptionalPrefix(d, rest, p);
    NoMorePrefixes(rest, Prefix(i.overrideSegment, i.overrideAddrSize));
  }

  lemma {:induction false} PrefixesSplit(a: seq<byte>, b: seq<byte>, c: seq<byte>, d: seq<byte>, rest: seq<byte>)
    ensures a + b + c + d + rest == a + (b + (c + (d + rest)))
  {
    assert a + b + c + d + rest == a + b + c + (d + rest) == a + b + (c + (d + rest));
  }

  lemma {:induction false} NoMorePrefixes(rest: seq<byte>, p: Prefix)
    requires rest != [] && !IsPrefix(rest[0])
    ensures ParsePrefixes(rest, p) == (p, rest)
  {
  }

  function ExtensionOf(rex: nat): Extension {
    Extension(Flag(BitAt(rex, 2)), Flag(BitAt(rex, 1)), Flag(BitAt(rex, 0)))
  }

  lemma {:induction false} Vex1Fields(i: Inst)
    ensures var v := Vex1(i);
            && v < 256
            && Extension(1 - v / 128, 1 - v / 64 % 2, 1 - v / 32 % 2) == ExtensionOf(i.rex)
  {
    hide Or, BitAt, Pow2;
    Pow2Values();
    var c, b, a, low := Flag(!Rex(i, 0)), Flag(!Rex(i, 1)), Flag(!Rex(i, 2)), i.vexMap % 32;
    OrIsSum(c, low, 5);
    OrIsSum(b, 32 * c + low, 6);
    OrIsSum(a, 64 * b + 32 * c + low, 7);
    var v := 128 * a + 64 * b + 32 * c + low;
    DivModUnique(v, 128, a, 64 * b + 32 * c + low);
    DivModUnique(v, 64, 2 * a + b, 32 * c + low);
    DivModUnique(v, 32, 4 * a + 2 * b + c, low);
  }

  lemma {:induction false} OpcodeBack(i: Inst, rest: seq<byte>)
    requires GoodRex(i.rex) && PlainOpcode(i)
    ensures var s := OpcodeBytes(i) + rest;
            s != [] && !IsPrefix(s[0]) && ParseOpcode(s) == Some((ExtensionOf(i.rex), i.opcode, rest))
  {
    hide BitAt, Vex1, Vex2;
    var s := OpcodeBytes(i) + rest;
    if i.vex {
      Vex1Fields(i);
      assert s[4..] == rest;
    } else {
      ZeroBits();
      if i.rex != 0 {
        RexBits(i.rex);
        assert s[1..] == (if i.opAlt then [0x0F] else []) + [i.opcode] + rest;
      } else {
        assert s == (if i.opAlt then [0x0F] else []) + [i.opcode] + rest;
      }
      var t := (if i.opAlt then [0x0F] else []) + [i.opcode] + rest;
      assert i.opAlt ==> t[2..] == rest;
      assert !i.opAlt ==> t[1..] == rest;
    }
  }

  function OperandOf(m: MemOp): Operand {
    match Simplify(m)
    case BaseOffset(_, _, base, offset) => Memory(false, Some(base), None, offset)
    case BaseIndexScaleOffset(_, _, base, index, scale, offset) =>
      Memory(false, Some(base), Some((index, scale)), offset)
    case IndexScaleOffset(_, _, index, scale, offset) => Memory(false, None, Some((index, scale)), offset)
    case Offset(_, _, offset) => Memory(false, None, None, offset)
    case RipRelative(_, offset) => Memory(true, None, None, offset)
  }

  lemma {:induction false} DisplacementBack(mode: nat, offset: i32, rest: seq<byte>)
    requires mode <= 2 && (mode == 0 ==> offset == 0) && (mode == 1 ==> -128 <= offset <= 127)
    ensures var s := LowBytes(offset % U32, if mode == 0 then 0 else if mode == 1 then 1 else 4);
            ParseDisplacement(s + rest, mode) == Some(offset)
  {
    hide LowBytes, Signed;
    var n := if mode == 0 then 0 else if mode == 1 then 1 else 4;
    var s := LowBytes(offset % U32, n);
    assert (s + rest)[..n] == s;
    if mode > 0 { SignedBack(offset, n); }
  }

  lemma {:induction false} ModrmParts(mode: nat, reg: nat, rm: nat)
    requires mode < 4 && reg < 8 && rm < 8
    ensures var v := 64 * mode + 8 * reg + rm; v < 256 && v / 64 == mode && v / 8 % 8 == reg && v % 8 == rm
  {
    var v := 64 * mode + 8 * reg + rm;
    DivModUnique(v, 64, mode, 8 * reg + rm);
    DivModUnique(v, 8, 8 * mode + reg, rm);
    DivModUnique(8 * mode + reg, 8, mode, reg);
  }

  /** The bytes from ModRM on, for a layout. */
  function TailBytes(reg: nat, l: Layout): seq<byte> {
    [ToByte(64 * l.mode + 8 * reg + l.rm)] + (if l.mode != 3 && l.rm == 4 then [ToByte(l.sib)] else []) + l.displacement
  }

  lemma {:induction false} TailIs(j: Inst, reg: nat, r: bool, l: Layout)
    requires HasLayout(j, reg, r, l) && l.mode < 3 && reg < 8 && l.rm < 8
    ensures ModrmBytes(j) + LowBytes(j.displacement, j.displacementLength / 8) == TailBytes(reg, l)
  {
    hide BitAt, GoodRex, LowBytes, ToByte;
    ModrmParts(l.mode, reg, l.rm);
  }

  /** ModRM without SIB. */
  lemma {:induction false} PlainParsed(mode: nat, reg: nat, rm: nat, ext: Extension, s: seq<byte>, offset: int)
    requires mode < 3 && reg < 8 && rm < 8 && rm != 4
    requires ParseDisplacement(s, if rm == 5 && mode == 0 then 2 else mode) == Some(offset)
    ensures ParseModrm([ToByte(64 * mode + 8 * reg + rm)] + s, ext) ==
            Some((reg + 8 * ext.r,
                  if rm == 5 && mode == 0 then Memory(true, None, None, offset)
                  else Memory(false, Some(rm + 8 * ext.b), None, offset)))
  {
    hide ParseDisplacement, ParseModrm, ToByte;
    FieldsOf(mode, reg, rm);
    PlainFields(ToByte(64 * mode + 8 * reg + rm), mode, reg, rm, ext, s, offset);
  }

  lemma {:induction false} FieldsOf(mode: nat, reg: nat, rm: nat)
    requires mode < 4 && reg < 8 && rm < 8
    ensures var v := ToByte(64 * mode + 8 * reg + rm); v / 64 == mode && v / 8 % 8 == reg && v % 8 == rm
  {
    ModrmParts(mode, reg, rm);
  }

  lemma {:induction false} PlainFields(modrm: byte, mode: nat, reg: nat, rm: nat, ext: Extension, s: seq<byte>,
      offset: int)
    requires modrm / 64 == mode && modrm / 8 % 8 == reg && modrm % 8 == rm && mode < 3 && rm != 4
    requires ParseDisplacement(s, if rm == 5 && mode == 0 then 2 else mode) == Some(offset)
    ensures ParseModrm([modrm] + s, ext) ==
            Some((reg + 8 * ext.r,
                  if rm == 5 && mode == 0 then Memory(true, None, None, offset)
                  else Memory(false, Some(rm + 8 * ext.b), None, offset)))
  {
    hide ParseDisplacement;
    assert ([modrm] + s)[1..] == s;
  }

  /** ModRM with SIB. */
  lemma {:induction false} SibParsed(
    mode: nat, reg: nat, scale: nat, idx: nat, base: nat, ext: Extension, s: seq<byte>, offset: int)
    requires mode < 3 && reg < 8 && scale < 4 && idx < 8 && base < 8
    requires ParseDisplacement(s, if base == 5 && mode == 0 then 2 else mode) == Some(offset)
    ensures ParseModrm([ToByte(64 * mode + 8 * reg + 4), ToByte(64 * scale + 8 * idx + base)] + s, ext) ==
            Some((reg + 8 * ext.r,
                  Memory(false,
                         if base == 5 && mode == 0 then None else Some(base + 8 * ext.b),
                         if idx + 8 * ext.x == 4 then None else Some((idx + 8 * ext.x, scale)),
                         offset)))
  {
    hide ParseDisplacement, ParseModrm, ToByte;
    FieldsOf(mode, reg, 4);
    FieldsOf(scale, idx, base);
    SibFields(ToByte(64 * mode + 8 * reg + 4), ToByte(64 * scale + 8 * idx + base), ext, s, offset);
  }

  lemma {:induction false} SibFields(modrm: byte, sib: byte, ext: Extension, s: seq<byte>, offset: int)
    requires modrm / 64 < 3 && modrm % 8 == 4
    requires ParseDisplacement(s, if sib % 8 == 5 && modrm / 64 == 0 then 2 else modrm / 64) == Some(offset)
    ensures ParseModrm([modrm, sib] + s, ext) ==
            Some((modrm / 8 % 8 + 8 * ext.r,
                  Memory(false,
                         if sib % 8 == 5 && modrm / 64 == 0 then None else Some(sib % 8 + 8 * ext.b),
                         if sib / 8 % 8 + 8 * ext.x == 4 then None else Some((sib / 8 % 8 + 8 * ext.x, sib / 64)),
                         offset)))
  {
    hide ParseDisplacement;
    assert ([modrm, sib] + s)[2..] == s;
  }

  lemma {:induction false} PlainTailBack(m: MemOp, reg: nat, ext: Extension, rest: seq<byte>)
    requires reg < 8 && (Simplify(m).BaseOffset? || Simplify(m).RipRelative?) && LayoutOf(m).rm != 4
    requires ext.b == Flag(LayoutOf(m).b) && ext.x == Flag(LayoutOf(m).x)
    ensures ParseModrm(TailBytes(reg, LayoutOf(m)) + rest, ext) == Some((reg + 8 * ext.r, OperandOf(m)))
  {
    hide LowBytes, Signed, ParseDisplacement, ParseModrm, ModeFor, ToByte;
    var l := LayoutOf(m);
    ModeIs(m);
    DisplacementBack(if Simplify(m).RipRelative? then 2 else l.mode, m.offset, rest);
    PlainParsed(l.mode, reg, l.rm, ext, l.displacement + rest, m.offset);
    assert TailBytes(reg, l) + rest == [ToByte(64 * l.mode + 8 * reg + l.rm)] + (l.displacement + rest);
  }

  lemma {:induction false} SibTailIs(reg: nat, l: Layout, rest: seq<byte>)
    requires l.mode < 3 && l.rm == 4
    ensures TailBytes(reg, l) + rest == [ToByte(64 * l.mode + 8 * reg + 4), ToByte(l.sib)] + (l.displacement + rest)
  {
    hide ToByte;
  }

  /** The three shapes of a SIB byte: a base alone, a base with an index, no base. */
  lemma {:induction false} SibBaseBack(m: MemOp, reg: nat, ext: Extension, rest: seq<byte>)
    requires reg < 8 && LayoutOf(m).rm == 4 && Simplify(m).BaseOffset?
    requires ext.b == Flag(LayoutOf(m).b) && ext.x == Flag(LayoutOf(m).x)
    ensures ParseModrm(TailBytes(reg, LayoutOf(m)) + rest, ext) == Some((reg + 8 * ext.r, OperandOf(m)))
  {
    hide LowBytes, Signed, ParseDisplacement, ModeFor, ParseModrm, TailBytes, ToByte;
    var l := LayoutOf(m);
    ModeIs(m);
    DisplacementBack(l.mode, m.offset, rest);
    SibParsed(l.mode, reg, 0, 4, 4, ext, l.displacement + rest, m.offset);
    SibTailIs(reg, l, rest);
  }

  lemma {:induction false} SibIndexBack(m: MemOp, reg: nat, ext: Extension, rest: seq<byte>)
    requires reg < 8 && m.BaseIndexScaleOffset?
    requires ext.b == Flag(LayoutOf(m).b) && ext.x == Flag(LayoutOf(m).x)
    ensures ParseModrm(TailBytes(reg, LayoutOf(m)) + rest, ext) == Some((reg + 8 * ext.r, OperandOf(m)))
  {
    hide LowBytes, Signed, ParseDisplacement, ModeFor, ParseModrm, TailBytes, ToByte;
    var l := LayoutOf(m);
    ModeIs(m);
    DisplacementBack(l.mode, m.offset, rest);
    SibParsed(l.mode, reg, m.scale, m.index % 8, m.base % 8, ext, l.displacement + rest, m.offset);
    SibTailIs(reg, l, rest);
  }

  lemma {:induction false} SibNoBaseBack(m: MemOp, reg: nat, ext: Extension, rest: seq<byte>)
    requires reg < 8 && (m.Offset? || (m.IndexScaleOffset? && m.scale != 0))
    requires ext.b == Flag(LayoutOf(m).b) && ext.x == Flag(LayoutOf(m).x)
    ensures ParseModrm(TailBytes(reg, LayoutOf(m)) + rest, ext) == Some((reg + 8 * ext.r, OperandOf(m)))
  {
    hide LowBytes, Signed, ParseDisplacement, ModeFor, ParseModrm, TailBytes, ToByte;
    var l := LayoutOf(m);
    DisplacementBack(2, m.offset, rest);
    if m.IndexScaleOffset? {
      SibParsed(0, reg, m.scale, m.index % 8, 5, ext, l.displacement + rest, m.offset);
    } else {
      SibParsed(0, reg, 0, 4, 5, ext, l.displacement + rest, m.offset);
    }
    SibTailIs(reg, l, rest);
  }

  lemma {:induction false} TailBack(m: MemOp, reg: nat, ext: Extension, rest: seq<byte>)
    requires reg < 8 && ext.b == Flag(LayoutOf(m).b) && ext.x == Flag(LayoutOf(m).x)
    ensures ParseModrm(TailBytes(reg, LayoutOf(m)) + rest, ext) == Some((reg + 8 * ext.r, OperandOf(m)))
  {
    hide ParseModrm, TailBytes, LowBytes, ModeFor;
    if m.BaseIndexScaleOffset? {
      SibIndexBack(m, reg, ext, rest);
    } else if m.Offset? || (m.IndexScaleOffset? && m.scale != 0) {
      SibNoBaseBack(m, reg, ext, rest);
    } else if LayoutOf(m).rm == 4 {
      SibBaseBack(m, reg, ext, rest);
    } else {
      PlainTailBack(m, reg, ext, rest);
    }
  }

  lemma {:induction false} ModeIs(m: MemOp)
    ensures var l := LayoutOf(m);
            l.mode < 3 && l.rm < 8 &&
            (Simplify(m).BaseOffset? || Simplify(m).BaseIndexScaleOffset? ==>
               l.mode == ModeFor(Simplify(m).base, m.offset)
               && (l.mode == 0 ==> m.offset == 0 && Simplify(m).base % 8 != 5)
               && (l.mode == 1 ==> -128 <= m.offset <= 127))
  {
    hide LowBytes;
  }

  // ---------- The address ----------

  lemma {:induction false} AddMultiple(v: int, unit: int, k: int)
    requires unit > 0
    ensures (v + unit * k) % unit == v % unit
  {
    assert unit * (v / unit) + unit * k == unit * (v / unit + k);
    DivModUnique(v + unit * k, unit, v / unit + k, v % unit);
  }

  /** Truncating registers before adding them up changes nothing that survives the truncation of the sum. */
  lemma {:induction false} WrapSum(unit: int, a: int, b: int, factor: int, offset: int)
    requires unit > 0
    ensures (a % unit + (b % unit) * factor + offset) % unit == (a + b * factor + offset) % unit
  {
    var qa, qb := a / unit, b / unit;
    var v := a % unit + (b % unit) * factor + offset;
    assert a + b * factor + offset == v + unit * (qa + qb * factor) by {
      assert a == unit * qa + a % unit;
      assert b == unit * qb + b % unit;
      assert b * factor == unit * (qb * factor) + (b % unit) * factor;
      assert unit * (qa + qb * factor) == unit * qa + unit * (qb * factor);
    }
    AddMultiple(v, unit, qa + qb * factor);
  }

  predicate Narrow(m: MemOp) {
    match m
    case RipRelative(_, _) => false
    case Offset(_, size, offset) => size == R32 && offset < 0
    case _ => m.size == R32
  }

  lemma {:induction false} WrapTwice(size: RegSize, a: nat, b: nat, factor: nat, offset: int)
    ensures Wrap(size, Wrap(size, a) + Wrap(size, b) * factor + offset) == Wrap(size, a + b * factor + offset)
  {
    WrapSum(if size == R32 then U32 else U64, a, b, factor, offset);
  }

  lemma {:induction false} WrapOne(size: RegSize, a: nat, offset: int)
    ensures Wrap(size, Wrap(size, a) + offset) == Wrap(size, a + offset)
  {
    hide Wrap;
    WrapTwice(size, a, 0, 0, offset);
  }

  lemma {:induction false} WrapIndex(size: RegSize, b: nat, factor: nat, offset: int)
    ensures Wrap(size, Wrap(size, b) * factor + offset) == Wrap(size, b * factor + offset)
  {
    WrapTwice(size, 0, b, factor, offset);
  }

  lemma {:induction false} WrapOffset(m: MemOp)
    requires m.Offset?
    ensures Wrap(if Narrow(m) then R32 else R64, m.offset) == Wrap(m.size, m.offset)
  {
  }

  /** The operand a processor decodes has the meaning of the operand that was encoded. */
  lemma {:induction false} OperandMeans(d: Decoded, m: MemOp, regs: seq<nat>, next: nat)
    requires IsRegs(regs) && d.operand == OperandOf(m) && d.prefix.narrow == Narrow(m)
    ensures RegsWithin(d.operand) && EffectiveAddress(d, regs, next) == Meaning(m, regs, next)
  {
    hide Wrap;
    match m
    case BaseOffset(_, size, base, offset) =>
      WrapOne(size, regs[base], offset);
    case BaseIndexScaleOffset(_, size, base, index, scale, offset) =>
      WrapTwice(size, regs[base], regs[index], Factor(scale), offset);
    case IndexScaleOffset(_, size, index, scale, offset) =>
      WrapIndex(size, regs[index], Factor(scale), offset);
    case Offset(_, _, offset) =>
      WrapOffset(m);
    case RipRelative(_, offset) =>
  }

  lemma {:induction false} DisplacementKeeps(l: Inst, base: Reg, offset: i32)
    ensures var j := WithDisplacement(l, base, offset);
            j.opcode == l.opcode && j.vex == l.vex && j.opAlt == l.opAlt
  {
    hide Or;
  }

  lemma {:induction false} MemKeeps(i: Inst, reg: nat, m: MemOp)
    requires Ready(i, reg)
    ensures var j := Mem(i, m);
            && j.overrideSegment == m.segment && j.overrideAddrSize == Narrow(m)
            && j.opcode == i.opcode && j.vex == i.vex && j.opAlt == i.opAlt && PlainOpcode(j)
  {
    hide Or, BitAt, GoodRex, WithDisplacement, IsPrefix, RegBits, RmBits;
    var s := Simplify(m);
    if s.BaseOffset? {
      var j := WithRex(i, REX_EXT_MODRM_RM, NeedsRex(s.base)).(forceModrm := true);
      var k := if s.base == RSP || s.base == R12 then j.(sib := 0x24) else j;
      DisplacementKeeps(k.(modrm := Or(k.modrm, RmBits(s.base))), s.base, s.offset);
    } else if s.BaseIndexScaleOffset? {
      var j := WithRex(WithRex(i, REX_EXT_MODRM_RM, NeedsRex(s.base)), REX_EXT_MODRM_SIB_INDEX, NeedsRex(s.index));
      var l := j.(modrm := Or(j.modrm, 4), sib := Or(64 * s.scale, Or(Or(j.sib, RegBits(s.index)), RmBits(s.base))));
      DisplacementKeeps(l, s.base, s.offset);
    }
  }

  /** An instruction with the fields of an operand decodes to that operand, and so to its address. */
  lemma {:induction false} LayoutIsMeant(j: Inst, reg: nat, r: bool, m: MemOp, regs: seq<nat>, next: nat)
    requires reg < 8 && HasLayout(j, reg, r, LayoutOf(m)) && IsRegs(regs)
    requires j.overrideSegment == m.segment && j.overrideAddrSize == Narrow(m) && PlainOpcode(j)
    ensures Addresses(Decode(Encode(j)), j.opcode, reg + 8 * Flag(r), m, regs, next)
  {
    hide BitAt, GoodRex, LowBytes, PlainOpcode, ParsePrefixes, ParseOpcode, ParseModrm, Prefixes, OpcodeBytes;
    hide ModrmBytes, LayoutOf, TailBytes, EffectiveAddress, Meaning, RegsWithin, OperandOf;
    var l := LayoutOf(m);
    var imm := LowBytes(j.immediate, j.immediateLength / 8);
    LayoutBounds(m);
    TailIs(j, reg, r, l);
    var tail := TailBytes(reg, l) + imm;
    EncodeIs(j, TailBytes(reg, l), imm);
    OpcodeBack(j, tail);
    PrefixesBack(j, OpcodeBytes(j) + tail);
    TailBack(m, reg, ExtensionOf(j.rex), imm);
    OperandIsMemory(m);
    OperandMeans(Decoded(Prefix(j.overrideSegment, j.overrideAddrSize), j.opcode, reg + 8 * Flag(r), OperandOf(m)), m,
      regs, next);
  }

  /** What a decoded instruction must be: the opcode, the register field, and the address and segment of the operand. */
  ghost predicate Addresses(d: Option<Decoded>, opcode: byte, reg: nat, m: MemOp, regs: seq<nat>, next: nat)
    requires IsRegs(regs)
  {
    && d.Some? && d.value.operand.Memory? && RegsWithin(d.value.operand)
    && EffectiveAddress(d.value, regs, next) == Meaning(m, regs, next)
    && d.value.prefix.segment == m.segment
    && d.value.opcode == opcode && d.value.reg == reg
  }

  /** Whatever the operand and the register contents, the emitted bytes address what the operand means. */
  lemma {:induction false} AddressIsMeant(i: Inst, reg: nat, m: MemOp, regs: seq<nat>, next: nat)
    requires Ready(i, reg) && IsRegs(regs)
    ensures Addresses(Decode(Encode(Mem(i, m))), i.opcode, reg + 8 * Flag(BitAt(i.rex, 2)), m, regs, next)
  {
    hide BitAt, GoodRex, PlainOpcode, Mem, Encode, Decode, HasLayout, Addresses;
    MemFields(i, reg, m);
    MemKeeps(i, reg, m);
    LayoutIsMeant(Mem(i, m), reg, BitAt(i.rex, 2), m, regs, next);
  }

  lemma {:induction false} LayoutBounds(m: MemOp)
    ensures LayoutOf(m).mode < 3 && LayoutOf(m).rm < 8
  {
    hide LowBytes;
  }

  lemma {:induction false} OperandIsMemory(m: MemOp)
    ensures OperandOf(m).Memory?
  {
  }

  lemma {:induction false} EncodeIs(j: Inst, tail: seq<byte>, imm: seq<byte>)
    requires tail == ModrmBytes(j) + LowBytes(j.displacement, j.displacementLength / 8)
    requires imm == LowBytes(j.immediate, j.immediateLength / 8)
    ensures Encode(j) == Prefixes(j) + (OpcodeBytes(j) + (tail + imm))
  {
    hide Prefixes, OpcodeBytes, ModrmBytes, LowBytes;
  }

  // ---------- Opcode extension after the operand, and register operands ----------

  lemma {:induction false} LowBitKept(a: nat, b: nat, bit: nat)
    requires bit < 2
    ensures Or(2 * a + bit, 2 * b) == 2 * Or(a, b) + bit
  {
    if 2 * a + bit > 0 && b > 0 {
      assert (2 * a + bit) % 2 == bit && (2 * a + bit) / 2 == a && 2 * b / 2 == b && 2 * b % 2 == 0;
    }
  }

  lemma {:induction false} ExtensionBetween(mode: nat, ext: nat, rm: nat)
    requires ext < 8 && rm < 8
    ensures Or(64 * mode + rm, 8 * ext) == 64 * mode + 8 * ext + rm
  {
    hide Or, Pow2;
    Pow2Values();
    var a, b := rm / 2, rm / 4;
    LowBitKept(32 * mode + a, 4 * ext, rm % 2);
    LowBitKept(16 * mode + b, 2 * ext, a % 2);
    LowBitKept(8 * mode, ext, b % 2);
    OrIsSum(mode, ext, 3);
    assert 64 * mode + rm == 2 * (32 * mode + a) + rm % 2;
    assert 32 * mode + a == 2 * (16 * mode + b) + a % 2;
    assert 16 * mode + b == 2 * (8 * mode) + b % 2;
  }

  /** The same address, with the opcode extension set after the operand. */
  lemma {:induction false} AddressIsMeantThenExtended(i: Inst, ext: nat, m: MemOp, regs: seq<nat>, next: nat)
    requires Ready(i, 0) && ext < 8 && IsRegs(regs)
    ensures Addresses(Decode(Encode(ModrmOpext(Mem(i, m), ext))), i.opcode, ext + 8 * Flag(BitAt(i.rex, 2)), m, regs,
            next)
  {
    hide BitAt, GoodRex, Mem, Encode, Decode, Addresses, LowBytes, Or, LayoutOf, IsPrefix;
    MemFields(i, 0, m);
    MemKeeps(i, 0, m);
    LayoutBounds(m);
    ExtensionBetween(LayoutOf(m).mode, ext, LayoutOf(m).rm);
    LayoutIsMeant(ModrmOpext(Mem(i, m), ext), ext, BitAt(i.rex, 2), m, regs, next);
  }

  lemma {:induction false} DirectTail(j: Inst, reg: nat, rm: nat)
    requires reg < 8 && rm < 8 && j.modrm == 64 * 3 + 8 * reg + rm && j.displacementLength == 0
    ensures ModrmBytes(j) + LowBytes(j.displacement, j.displacementLength / 8) == [ToByte(64 * 3 + 8 * reg + rm)]
  {
    hide ToByte, LowBytes;
    ModrmParts(3, reg, rm);
    NoLowBytes(j.displacement);
  }

  /** A register operand decodes as that register. */
  lemma {:induction false} DirectIsMeant(i: Inst, reg: nat, r: Reg)
    requires Ready(i, reg) && i.displacementLength == 0
    ensures var d := Decode(Encode(ModrmDirect(i, r)));
            && d.Some? && d.value.operand == Direct(r) && d.value.opcode == i.opcode
            && d.value.reg == reg + 8 * Flag(BitAt(i.rex, 2))
  {
    hide Or, BitAt, LowBytes, GoodRex, PlainOpcode, ParsePrefixes, ParseOpcode, ParseModrm, Prefixes, OpcodeBytes,
        ToByte, ModrmBytes;
    RexFields(i, r >= 8, false);
    ModrmSum(3, reg, r % 8);
    var j := ModrmDirect(i, r);
    DirectKeeps(i, r);
    var imm := LowBytes(j.immediate, j.immediateLength / 8);
    var modrm := ToByte(64 * 3 + 8 * reg + r % 8);
    DirectTail(j, reg, r % 8);
    EncodeIs(j, [modrm], imm);
    OpcodeBack(j, [modrm] + imm);
    PrefixesBack(j, OpcodeBytes(j) + ([modrm] + imm));
    DirectParsed(reg, r % 8, ExtensionOf(j.rex), imm);
  }

  lemma {:induction false} DirectKeeps(i: Inst, r: Reg)
    requires PlainOpcode(i)
    ensures var j := ModrmDirect(i, r); PlainOpcode(j) && j.opcode == i.opcode
  {
    hide Or;
  }

  lemma {:induction false} DirectParsed(reg: nat, rm: nat, ext: Extension, rest: seq<byte>)
    requires reg < 8 && rm < 8
    ensures ParseModrm([ToByte(64 * 3 + 8 * reg + rm)] + rest, ext) == Some((reg + 8 * ext.r, Direct(rm + 8 * ext.b)))
  {
    hide ParseDisplacement;
    FieldsOf(3, reg, rm);
  }
}
