/** The instructions that refer to a label, before and after their label is known. */
module LabelInstructions {
  import opened Arith
  import opened Wrappers
  import opened Bytes
  import opened Bits
  import opened Fixups
  import opened Amd64
  import opened Amd64Address
  import opened Amd64Correct

  type Condition = c: int | 0 <= c < 16

  datatype LabelInst =
    | JmpLabel8(target: nat)
    | JmpLabel32(target: nat)
    | CallLabel32(target: nat)
    | JccLabel8(condition: Condition, target: nat)
    | JccLabel32(condition: Condition, target: nat)
    | JccLabel32Default(condition: Condition, target: nat, otherwise: i32)
    | LeaRipLabel(reg: Reg, target: nat)

  /** `lea reg, [rip + offset]`. */
  function Lea(reg: Reg, offset: i32): Inst {
    Mem(ModrmReg(WithRex(NewInst(0x8D), REX_64B_OP, true), reg), RipRelative(None, offset))
  }

  function Imm8(i: Inst, value: int): Inst {
    i.(immediate := Unsigned8(value), immediateLength := 8)
  }

  function Imm32(i: Inst, value: i32): Inst {
    i.(immediate := Unsigned32(value), immediateLength := 32)
  }

  function JccRel32(c: Condition, distance: i32): Inst {
    Imm32(NewInst(ToByte(Or(0x80, c))).(opAlt := true), distance)
  }

  /** The placeholder that is pushed, and the fixup that goes with it. */
  function PieceOf(i: LabelInst): Piece {
    match i
    case JmpLabel8(l) => Piece([0x0F, 0x0B], Some(Fix(l, [0xEB], 1)))
    case JmpLabel32(l) => Piece([0x0F, 0x0B, 0x90, 0x0F, 0x0B], Some(Fix(l, [0xE9], 4)))
    case CallLabel32(l) => Piece([0x0F, 0x0B, 0x90, 0x0F, 0x0B], Some(Fix(l, [0xE8], 4)))
    case JccLabel8(c, l) => Piece([0x0F, 0x0B], Some(Fix(l, [ToByte(Or(0x70, c))], 1)))
    case JccLabel32(c, l) => Piece([0x0F, 0x0B, 0x0F, 0x0B, 0x0F, 0x0B], Some(Fix(l, [0x0F, ToByte(Or(0x80, c))], 4)))
    case JccLabel32Default(c, l, otherwise) =>
      Piece(Encode(JccRel32(c, otherwise)), Some(Fix(l, [0x0F, ToByte(Or(0x80, c))], 4)))
    case LeaRipLabel(reg, l) =>
      var inst := Lea(reg, 0);
      Piece([0x0F, 0x0B, 0x0F, 0x0B, 0x0F, 0x0B, 0x90],
        Some(Fix(l, [ToByte(inst.rex), inst.opcode, ToByte(inst.modrm)], 4)))
  }

  /** The instruction without a label, for a known distance. */
  function Relative(i: LabelInst, distance: i32): Inst {
    match i
    case JmpLabel8(_) => Imm8(NewInst(0xEB), distance)
    case JmpLabel32(_) => Imm32(NewInst(0xE9), distance)
    case CallLabel32(_) => Imm32(NewInst(0xE8), distance)
    case JccLabel8(c, _) => Imm8(NewInst(ToByte(Or(0x70, c))), distance)
    case JccLabel32(c, _) => JccRel32(c, distance)
    case JccLabel32Default(c, _, _) => JccRel32(c, distance)
    case LeaRipLabel(reg, _) => Lea(reg, distance)
  }

  lemma {:induction false} JccBytes(c: Condition, distance: i32)
    ensures Encode(JccRel32(c, distance)) == [0x0F, ToByte(Or(0x80, c))] + LowBytes(distance % U32, 4)
  {
    hide Or, LowBytes, ToByte;
    NoLowBytes(0);
  }

  /** Every label instruction can be patched. */
  lemma {:induction false} LabelPieceIsGood(i: LabelInst, labels: nat)
    requires i.target < labels
    ensures GoodPiece(PieceOf(i), labels)
  {
    hide Or, LowBytes, ToByte, Encode;
    if i.JccLabel32Default? { JccBytes(i.condition, i.otherwise); }
  }

  lemma {:induction false} ImmediateBytes(distance: i32)
    ensures Displacement(4, distance) == LowBytes(Unsigned32(distance), 4)
    ensures Displacement(1, distance) == LowBytes(Unsigned8(distance), 1)
  {
    hide LowBytes;
    ShortDisplacement(distance);
  }

  lemma {:induction false} LeaBytes(reg: Reg, distance: i32)
    ensures var inst := Lea(reg, 0);
            Encode(Lea(reg, distance)) ==
              [ToByte(inst.rex), inst.opcode, ToByte(inst.modrm)] + LowBytes(distance % U32, 4)
  {
    hide Or, LowBytes, ToByte, RegBits;
    NoLowBytes(0);
    LeaFields(reg);
  }

  lemma {:induction false} LeaFields(reg: Reg)
    ensures var inst := Lea(reg, 0); inst.rex != 0 && inst.modrm == 8 * (reg % 8) + 5 && inst.modrm % 8 == 5
  {
    hide Or, Pow2, BitAt;
    Pow2Values();
    OrZero(REX_64B_OP);
    RegBitsAre(reg);
    OrZero(8 * (reg % 8));
    ModrmSum(0, reg % 8, 5);
    if reg >= 8 {
      OrBits(REX_64B_OP, REX_EXT_MODRM_REG, 2);
      PowerBits(2, 2);
      BitsOfSum(2, REX_EXT_MODRM_REG);
      HasBit(Or(REX_64B_OP, REX_EXT_MODRM_REG), 2);
    }
  }

  /** Patching a label instruction gives the plain instruction for the distance from its end to the label. */
  lemma {:induction false} PatchedIsRelative(i: LabelInst, end: int, labels: seq<int>)
    requires i.target < |labels| && labels[i.target] != UNDEFINED && Reachable(PieceOf(i), end, labels)
    ensures GoodPiece(PieceOf(i), |labels|) && -0x8000_0000 <= labels[i.target] - end < 0x8000_0000
    ensures Patched(PieceOf(i), end, labels) == Encode(Relative(i, labels[i.target] - end))
  {
    hide Or, LowBytes, ToByte, Encode, Displacement, Lea, JccRel32;
    LabelPieceIsGood(i, |labels|);
    InRangeFits(PieceOf(i).fix.value.width, labels[i.target] - end);
    var distance: i32 := labels[i.target] - end;
    ImmediateBytes(distance);
    if i.JccLabel32? || i.JccLabel32Default? {
      JccBytes(i.condition, distance);
      if i.JccLabel32Default? { JccBytes(i.condition, i.otherwise); }
    } else if i.LeaRipLabel? {
      LeaBytes(i.reg, distance);
    } else {
      BranchBytes(i, distance);
    }
  }

  lemma {:induction false} InRangeFits(width: nat, distance: int)
    requires InRange(width, distance)
    ensures -0x8000_0000 <= distance < 0x8000_0000
  {
  }

  lemma {:induction false} BranchBytes(i: LabelInst, distance: i32)
    requires i.JmpLabel8? || i.JmpLabel32? || i.CallLabel32? || i.JccLabel8?
    ensures var fix := PieceOf(i).fix.value;
            Encode(Relative(i, distance)) ==
              fix.opcode + LowBytes(if fix.width == 1 then Unsigned8(distance) else Unsigned32(distance), fix.width)
  {
    hide Or, LowBytes, ToByte;
    NoLowBytes(0);
  }

  lemma {:induction false} LeaIsReady(reg: Reg)
    ensures Ready(ModrmReg(WithRex(NewInst(0x8D), REX_64B_OP, true), reg), reg % 8)
  {
    hide Or, BitAt, Pow2;
    Pow2Values();
    ZeroBits();
    OrZero(REX_64B_OP);
    RexSet(0, REX_64B_OP, 3);
    RexSet(REX_64B_OP, REX_EXT_MODRM_REG, 2);
    RegBitsAre(reg);
    OrZero(8 * (reg % 8));
  }

  /** A patched `lea` computes the address of its label, counted from the same origin as the code. */
  lemma {:induction false} LeaReachesLabel(reg: Reg, target: nat, end: nat, labels: seq<int>, regs: seq<nat>)
    requires target < |labels| && 0 <= labels[target] < U64 && labels[target] != UNDEFINED && IsRegs(regs)
    requires Reachable(PieceOf(LeaRipLabel(reg, target)), end, labels)
    ensures GoodPiece(PieceOf(LeaRipLabel(reg, target)), |labels|)
    ensures var d := Decode(Patched(PieceOf(LeaRipLabel(reg, target)), end, labels));
            && d.Some? && d.value.operand.Memory? && RegsWithin(d.value.operand)
            && EffectiveAddress(d.value, regs, end) == labels[target]
  {
    hide Or, BitAt, LowBytes, Encode, Decode, Patched, PieceOf, EffectiveAddress, RegsWithin, Ready, Mem, ModrmReg;
    PatchedIsRelative(LeaRipLabel(reg, target), end, labels);
    LeaIsReady(reg);
    AddressIsMeant(ModrmReg(WithRex(NewInst(0x8D), REX_64B_OP, true), reg), reg % 8,
                   RipRelative(None, labels[target] - end), regs, end);
  }
}
