/** Encoding of amd64 instructions with a memory operand. */
module Amd64 {
  import opened Wrappers
  import opened Bytes
  import opened Bits

  type Reg = r: int | 0 <= r < 16
  /** Any register but `rsp` can be an index. */
  type RegIndex = r: int | 0 <= r < 16 && r != 4
  type i32 = x: int | -0x8000_0000 <= x < 0x8000_0000
  type Scale = s: int | 0 <= s < 4

  datatype Seg = FS | GS
  datatype RegSize = R32 | R64

  datatype MemOp =
    | BaseOffset(segment: Option<Seg>, size: RegSize, base: Reg, offset: i32)
    | BaseIndexScaleOffset(segment: Option<Seg>, size: RegSize, base: Reg, index: RegIndex, scale: Scale, offset: i32)
    | IndexScaleOffset(segment: Option<Seg>, size: RegSize, index: RegIndex, scale: Scale, offset: i32)
    | Offset(segment: Option<Seg>, size: RegSize, offset: i32)
    | RipRelative(segment: Option<Seg>, offset: i32)

  /** An instruction under construction. Lengths of displacement and immediate are in bits. */
  datatype Inst = Inst(
    opRepPrefix: bool, overrideOpSize: bool, overrideAddrSize: bool, opAlt: bool, forceModrm: bool,
    rex: nat, opcode: byte, modrm: nat, sib: nat,
    displacement: u32, displacementLength: nat, immediate: u32, immediateLength: nat,
    overrideSegment: Option<Seg>,
    vex: bool, vexMap: nat, vexReg: nat, vexPrefix: nat)

  const REX := 0x40
  const REX_64B_OP := 0x48
  const REX_EXT_MODRM_REG := 0x44
  const REX_EXT_MODRM_SIB_INDEX := 0x42
  const REX_EXT_MODRM_RM := 0x41

  const RSP := 4
  const RBP := 5
  const R12 := 12
  const R13 := 13

  // ---------- Building ----------

  function NewInst(opcode: byte): Inst {
    Inst(false, false, false, false, false, 0, opcode, 0, 0, 0, 0, 0, 0, None, false, 0, 0, 0)
  }

  function NeedsRex(r: Reg): bool {
    r >= 8
  }

  function RmBits(r: Reg): nat {
    r % 8
  }

  function RegBits(r: Reg): nat {
    8 * r % 64
  }

  function WithRex(i: Inst, bits: nat, cond: bool): Inst {
    if cond then i.(rex := Or(i.rex, bits)) else i
  }

  function ModrmReg(i: Inst, r: Reg): Inst {
    var j := WithRex(i, REX_EXT_MODRM_REG, NeedsRex(r));
    j.(modrm := Or(j.modrm, RegBits(r)), forceModrm := true)
  }

  function ModrmOpext(i: Inst, ext: nat): Inst {
    i.(modrm := Or(i.modrm, 8 * ext), forceModrm := true)
  }

  /** A register in place of a memory operand. */
  function ModrmDirect(i: Inst, r: Reg): Inst {
    var j := WithRex(i, REX_EXT_MODRM_RM, NeedsRex(r));
    j.(modrm := Or(0xC0, Or(j.modrm, RmBits(r))))
  }

  /** An index without a scale is just a base. */
  function Simplify(m: MemOp): MemOp {
    if m.IndexScaleOffset? && m.scale == 0 then BaseOffset(m.segment, m.size, m.index, m.offset) else m
  }

  function Unsigned32(x: i32): u32 {
    x % U32
  }

  function Unsigned8(x: int): byte {
    x % 256
  }

  /** The displacement of an operand with a base: none, one byte or four. */
  function WithDisplacement(i: Inst, base: Reg, offset: i32): Inst {
    var needed := offset != 0 || base == RBP || base == R13;
    if !needed then i.(displacement := 0, displacementLength := 0)
    else if -128 <= offset <= 127 then
      i.(modrm := Or(0x40, i.modrm), displacement := Unsigned8(offset), displacementLength := 8)
    else i.(modrm := Or(0x80, i.modrm), displacement := Unsigned32(offset), displacementLength := 32)
  }

  function Mem(i: Inst, operand: MemOp): Inst {
    match Simplify(operand)
    case BaseOffset(segment, size, base, offset) =>
      var j := WithRex(i, REX_EXT_MODRM_RM, NeedsRex(base)).(forceModrm := true);
      var k := if base == RSP || base == R12 then j.(sib := 0x24) else j;
      var l := k.(modrm := Or(k.modrm, RmBits(base)));
      WithDisplacement(l, base, offset)
      .(overrideSegment := segment, overrideAddrSize := i.overrideAddrSize || size == R32)
    case BaseIndexScaleOffset(segment, size, base, index, scale, offset) =>
      var j := WithRex(WithRex(i, REX_EXT_MODRM_RM, NeedsRex(base)), REX_EXT_MODRM_SIB_INDEX, NeedsRex(index));
      var l := j.(modrm := Or(j.modrm, 4), sib := Or(64 * scale, Or(Or(j.sib, RegBits(index)), RmBits(base))));
      WithDisplacement(l, base, offset)
      .(overrideSegment := segment, overrideAddrSize := i.overrideAddrSize || size == R32)
    case IndexScaleOffset(segment, size, index, scale, offset) =>
      var j := WithRex(i, REX_EXT_MODRM_SIB_INDEX, NeedsRex(index));
      j.(modrm := Or(j.modrm, 4), sib := Or(64 * scale, Or(Or(j.sib, RegBits(index)), 5)),
         displacement := Unsigned32(offset), displacementLength := 32,
         overrideSegment := segment, overrideAddrSize := i.overrideAddrSize || size == R32)
    case Offset(segment, size, offset) =>
      i.(modrm := Or(i.modrm, 4), sib := Or(i.sib, 0x25),
         displacement := Unsigned32(offset), displacementLength := 32,
         overrideSegment := segment, overrideAddrSize := i.overrideAddrSize || (size == R32 && offset < 0))
    case RipRelative(segment, offset) =>
      i.(modrm := Or(i.modrm, 5),
         displacement := Unsigned32(offset), displacementLength := 32, overrideSegment := segment)
  }

  // ---------- Encoding ----------

  predicate Rex(i: Inst, bit: nat) {
    BitAt(i.rex, bit)
  }

  function Flag(b: bool): nat {
    if b then 1 else 0
  }

  /** The two payload bytes of a three-byte VEX prefix: inverted R, X, B and the map; W, vvvv and pp. */
  function Vex1(i: Inst): nat {
    Or(128 * Flag(!Rex(i, 2)), Or(64 * Flag(!Rex(i, 1)), Or(32 * Flag(!Rex(i, 0)), i.vexMap % 32)))
  }

  function Vex2(i: Inst): nat {
    Or(128 * Flag(Rex(i, 3)), Or(8 * (i.vexReg % 16), i.vexPrefix % 4))
  }

  function ToByte(n: nat): byte {
    n % 256
  }

  function Prefixes(i: Inst): seq<byte> {
    (if i.opRepPrefix then [0xF3] else [])
    + (match i.overrideSegment case None => [] case Some(FS) => [0x64] case Some(GS) => [0x65])
    + (if i.overrideOpSize then [0x66] else [])
    + (if i.overrideAddrSize then [0x67] else [])
  }

  function OpcodeBytes(i: Inst): seq<byte> {
    (if i.vex then [0xC4, ToByte(Vex1(i)), ToByte(Vex2(i))]
     else (if i.rex != 0 then [ToByte(i.rex)] else []) + (if i.opAlt then [0x0F] else []))
    + [i.opcode]
  }

  function ModrmBytes(i: Inst): seq<byte> {
    if i.modrm != 0 || i.forceModrm then
      [ToByte(i.modrm)] + (if i.modrm / 64 % 4 != 3 && i.modrm % 8 == 4 then [ToByte(i.sib)] else [])
    else []
  }

  /** The bytes of an instruction, in the order they are appended. */
  function Encode(i: Inst): seq<byte> {
    Prefixes(i) + OpcodeBytes(i) + ModrmBytes(i)
    + LowBytes(i.displacement, i.displacementLength / 8) + LowBytes(i.immediate, i.immediateLength / 8)
  }
}
