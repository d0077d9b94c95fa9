/** Instructions and their byte encoding, for any instruction set. */
module Codec {
  import opened Wrappers
  import opened Arith
  import opened Bytes
  import opened Varint

  type reg = r: int | 0 <= r <= 12
  type u64 = x: int | 0 <= x < 0x1_0000_0000_0000_0000

  /** The thirteen shapes of operands. */
  datatype Format =
    | Argless | RegImmF | RegImmOffsetF | RegImmImmF | RegRegImmF | RegRegOffsetF | RegRegRegF
    | OffsetF | ImmF | ImmImmF | RegRegF | RegRegImmImmF | RegImm64F

  /** An opcode with the properties the format depends on. */
  datatype Opcode = Opcode(id: nat, format: Format, startsBlock: bool, canFallthrough: bool)

  /** Operands; immediates are 32-bit patterns, targets absolute code positions. */
  datatype Args =
    | NoArgs
    | RegImm(reg1: reg, imm1: u32)
    | RegImmOffset(reg1: reg, imm1: u32, target: u32)
    | RegImmImm(reg1: reg, imm1: u32, imm2: u32)
    | RegRegImm(reg1: reg, reg2: reg, imm1: u32)
    | RegRegOffset(reg1: reg, reg2: reg, target: u32)
    | RegRegReg(reg1: reg, reg2: reg, reg3: reg)
    | Offset(target: u32)
    | Imm(imm1: u32)
    | ImmImm(imm1: u32, imm2: u32)
    | RegReg(reg1: reg, reg2: reg)
    | RegRegImmImm(reg1: reg, reg2: reg, imm1: u32, imm2: u32)
    | RegImm64(reg1: reg, imm64: u64)

  datatype Instruction = Invalid | Op(opcode: Opcode, args: Args)

  const TRAP := Opcode(0, Argless, true, false)

  function FormatOf(a: Args): Format {
    match a
    case NoArgs => Argless
    case RegImm(_, _) => RegImmF
    case RegImmOffset(_, _, _) => RegImmOffsetF
    case RegImmImm(_, _, _) => RegImmImmF
    case RegRegImm(_, _, _) => RegRegImmF
    case RegRegOffset(_, _, _) => RegRegOffsetF
    case RegRegReg(_, _, _) => RegRegRegF
    case Offset(_) => OffsetF
    case Imm(_) => ImmF
    case ImmImm(_, _) => ImmImmF
    case RegReg(_, _) => RegRegF
    case RegRegImmImm(_, _, _, _) => RegRegImmImmF
    case RegImm64(_, _) => RegImm64F
  }

  function OpcodeOf(i: Instruction): Opcode {
    if i.Invalid? then TRAP else i.opcode
  }

  const JUMP := Opcode(1, OffsetF, true, false)

  /** The code position an instruction jumps to, if it has one. */
  function TargetOf(i: Instruction): Option<u32> {
    if i.Op? && (i.args.Offset? || i.args.RegImmOffset? || i.args.RegRegOffset?) then Some(i.args.target) else None
  }

  function WithTarget(i: Instruction, t: u32): Instruction
    requires TargetOf(i).Some?
  {
    i.(args := i.args.(target := t))
  }

  /** An instruction set: which raw byte stands for which opcode. */
  datatype Isa = Isa(fromRaw: seq<Option<Opcode>>, toRaw: map<Opcode, byte>)

  const UNUSED: byte := 255

  ghost predicate ValidIsa(isa: Isa) {
    && |isa.fromRaw| == 256 && isa.fromRaw[UNUSED] == None
    && (forall op :: op in isa.toRaw ==> isa.fromRaw[isa.toRaw[op]] == Some(op))
    && (forall b :: 0 <= b < 256 && isa.fromRaw[b].Some? ==>
          isa.fromRaw[b].value in isa.toRaw && isa.toRaw[isa.fromRaw[b].value] == b)
  }

  function RawOpcode(isa: Isa, op: Opcode): byte {
    if op in isa.toRaw then isa.toRaw[op] else UNUSED
  }

  predicate Supported(isa: Isa, i: Instruction) {
    i.Op? && i.opcode in isa.toRaw && i.opcode.format == FormatOf(i.args)
  }

  // ---------- Writing ----------

  /** Two half bytes in one byte. */
  function Nibbles(low: nat, high: nat): (b: byte)
    requires low < 16 && high < 16
    ensures b == low + 16 * high
  {
    NibblesAreSum(low, high);
    Or(16 * high, low)
  }

  lemma {:induction false} NibblesAreSum(low: nat, high: nat)
    requires low < 16
    ensures Or(16 * high, low) == low + 16 * high
  {
    hide Or, Pow2;
    Pow2Values();
    OrIsSum(high, low, 4);
  }

  function WrappingSub(a: u32, b: u32): (r: u32) {
    (a - b) % U32
  }

  function WrappingAdd(a: u32, b: u32): (r: u32) {
    (a + b) % U32
  }

  function EncodeArgs(position: u32, a: Args): (s: seq<byte>)
    ensures |s| <= 11
  {
    match a
    case NoArgs => []
    case RegImm(r, i) => [r] + EncodeSimple(i)
    case RegImmOffset(r, i, t) =>
      [Nibbles(r, SimpleLength(i))] + EncodeSimple(i) + EncodeSimple(WrappingSub(t, position))
    case RegImmImm(r, i, j) => [Nibbles(r, SimpleLength(i))] + EncodeSimple(i) + EncodeSimple(j)
    case RegRegImm(r, q, i) => [Nibbles(r, q)] + EncodeSimple(i)
    case RegRegOffset(r, q, t) => [Nibbles(r, q)] + EncodeSimple(WrappingSub(t, position))
    case RegRegReg(r1, r2, r3) => [Nibbles(r2, r3), r1]
    case Offset(t) => EncodeSimple(WrappingSub(t, position))
    case Imm(i) => EncodeSimple(i)
    case ImmImm(i, j) => [SimpleLength(i)] + EncodeSimple(i) + EncodeSimple(j)
    case RegReg(r, q) => [Nibbles(r, q)]
    case RegRegImmImm(r, q, i, j) => [Nibbles(r, q), SimpleLength(i)] + EncodeSimple(i) + EncodeSimple(j)
    case RegImm64(r, i) => [r] + LowBytes(i, 8)
  }

  /** The bytes of an instruction placed at `position`. */
  function Encode(isa: Isa, position: u32, i: Instruction): (s: seq<byte>)
    ensures 1 <= |s| <= 12
  {
    if i.Invalid? then [RawOpcode(isa, TRAP)] else [RawOpcode(isa, i.opcode)] + EncodeArgs(position, i.args)
  }

  /** The same, with jumps padded to a minimum size by writing out the whole distance. */
  function EncodePadded(isa: Isa, position: u32, minimum: nat, i: Instruction): (s: seq<byte>)
    requires minimum <= 5
    ensures 1 <= |s| <= 12
  {
    var s := Encode(isa, position, i);
    if |s| < minimum && i.Op? && i.args.Offset? then
      [s[0]] + LowBytes(WrappingSub(i.args.target, position), 4)[..minimum - 1]
    else s
  }

  // ---------- Reading ----------

  /** The canonical register a raw number stands for. */
  function RawReg(raw: nat): reg {
    var v := raw % 16;
    if v > 12 then 12 else v
  }

  function Pack(bits1: nat, skip1: nat, bits2: nat): nat {
    Or(4096 * bits2, Or(64 * skip1, bits1))
  }

  function Unpack(entry: nat): (nat, nat, nat) {
    (entry % 64, entry / 64 % 64, entry / 4096 % 64)
  }

  function Clamp(low: int, high: int, v: int): int {
    if v < low then low else if v > high then high else v
  }

  /** The table entry for an index holding five bits of `skip` and three of `aux`. */
  function TableEntry(offset: nat, index: nat): nat {
    var skip, aux := index % 32, index / 32;
    var length1 := if aux < 4 then aux else 4;
    var length2 := Clamp(0, 4, skip - length1 - offset);
    Pack(CutFor(length1), 8 * length1, CutFor(length2))
  }

  function TableIndex(skip: nat, aux: nat): nat {
    Or(32 * (aux % 8), skip)
  }

  /** Bits to cut off the first immediate, bits to skip to the second, bits to cut off the second. */
  function Lookup(offset: nat, skip: nat, aux: nat): (nat, nat, nat) {
    Unpack(TableEntry(offset, TableIndex(skip, aux)))
  }

  lemma {:induction false} UnpackPack(bits1: nat, skip1: nat, bits2: nat)
    requires bits1 < 64 && skip1 < 64 && bits2 < 64
    ensures Unpack(Pack(bits1, skip1, bits2)) == (bits1, skip1, bits2)
  {
    hide Or, Pow2;
    assert Pow2(6) == 64 && Pow2(12) == 4096 by { Pow2Values(); Pow2Adds(6, 6); }
    OrIsSum(skip1, bits1, 6);
    OrIsSum(bits2, Or(64 * skip1, bits1), 12);
    var x := 4096 * bits2 + 64 * skip1 + bits1;
    DivModUnique(x, 64, 64 * bits2 + skip1, bits1);
    DivModUnique(64 * bits2 + skip1, 64, bits2, skip1);
    DivModUnique(x, 4096, bits2, 64 * skip1 + bits1);
  }

  /** The table says what the two lengths say. */
  lemma {:induction false} LookupIs(offset: nat, skip: nat, aux: nat, length1: nat, length2: nat)
    requires skip < 32
    requires length1 == (if aux % 8 < 4 then aux % 8 else 4)
    requires length2 == Clamp(0, 4, skip - length1 - offset)
    ensures Lookup(offset, skip, aux) == (CutFor(length1), 8 * length1, CutFor(length2))
  {
    hide Or, Pow2, Pack, Unpack;
    Pow2Values();
    OrIsSum(aux % 8, skip, 5);
    UnpackPack(CutFor(length1), 8 * length1, CutFor(length2));
  }

  /** `(chunk >> 8 * from) as u32`. */
  function Word(chunk: nat, from: nat): (w: nat)
    ensures w < U32
  {
    chunk / Pow256(from) % U32
  }

  /** `(chunk >> 8 * from) as u64 >> shift as u32`, for a shift by whole bytes. */
  function WordWithin(chunk: nat, from: nat, shift: nat): (w: nat)
    ensures w < U32
  {
    chunk / Pow256(from) % Pow256(8) / Pow256(shift / 8) % U32
  }

  function ReadImm(chunk: nat, skip: nat): u32 {
    ReadSimple(Word(chunk, 0), skip)
  }

  /** The two immediates whose lengths the table looks up. */
  function ReadTwo(chunk: nat, from: nat, offset: nat, skip: nat, aux: nat): (r: (u32, u32))
    requires skip < 32
  {
    LookupWithin(offset, skip, aux);
    var (bits1, skip1, bits2) := Lookup(offset, skip, aux);
    (SignExtend(Word(chunk, from), bits1), SignExtend(WordWithin(chunk, from, skip1), bits2))
  }

  lemma {:induction false} LookupWithin(offset: nat, skip: nat, aux: nat)
    requires skip < 32
    ensures Lookup(offset, skip, aux).0 <= 32 && Lookup(offset, skip, aux).2 <= 32
  {
    hide Lookup;
    var length1 := if aux % 8 < 4 then aux % 8 else 4;
    LookupIs(offset, skip, aux, length1, Clamp(0, 4, skip - length1 - offset));
  }

  /** The last immediate of a format with registers in its first byte. */
  function ReadLast(chunk: nat, skip: nat): u32
    requires skip < 32
  {
    LookupWithin(1, skip, 0);
    SignExtend(Word(chunk, 1), Lookup(1, skip, 0).2)
  }

  function DecodeArgs(format: Format, chunk: nat, position: u32, skip: nat): Args
    requires skip < 32
  {
    match format
    case Argless => NoArgs
    case RegImmF => RegImm(RawReg(chunk), ReadLast(chunk, skip))
    case RegImmOffsetF =>
      var (i, j) := ReadTwo(chunk, 1, 1, skip, Word(chunk, 0) / 16);
      RegImmOffset(RawReg(chunk), i, WrappingAdd(position, j))
    case RegImmImmF =>
      var (i, j) := ReadTwo(chunk, 1, 1, skip, Word(chunk, 0) / 16);
      RegImmImm(RawReg(chunk), i, j)
    case RegRegImmF => RegRegImm(RawReg(chunk), RawReg(chunk / 16), ReadLast(chunk, skip))
    case RegRegOffsetF => RegRegOffset(RawReg(chunk), RawReg(chunk / 16), WrappingAdd(position, ReadLast(chunk, skip)))
    case RegRegRegF => RegRegReg(RawReg(chunk / 256), RawReg(chunk), RawReg(chunk / 16))
    case OffsetF => Offset(WrappingAdd(position, ReadImm(chunk, skip)))
    case ImmF => Imm(ReadImm(chunk, skip))
    case ImmImmF =>
      var (i, j) := ReadTwo(chunk, 1, 1, skip, Word(chunk, 0));
      ImmImm(i, j)
    case RegRegF => RegReg(RawReg(chunk), RawReg(chunk / 16))
    case RegRegImmImmF =>
      var (i, j) := ReadTwo(chunk, 2, 2, skip, Word(chunk, 0) / 256);
      RegRegImmImm(RawReg(chunk), RawReg(chunk / 16), i, j)
    case RegImm64F => RegImm64(RawReg(chunk), chunk / 256 % 0x1_0000_0000_0000_0000)
  }

  /** The instruction whose raw opcode is `raw` and whose sixteen following bytes make up `chunk`. */
  function Decode(isa: Isa, raw: byte, chunk: nat, position: u32, skip: nat): Instruction
    requires skip < 32 && |isa.fromRaw| == 256
  {
    match isa.fromRaw[raw]
    case None => Invalid
    case Some(op) => Op(op, DecodeArgs(op.format, chunk, position, skip))
  }
}
