/** Decoding an encoded memory operand gives the address that was meant. */
module Amd64Address {
  import opened Wrappers
  import opened Bytes
  import opened Amd64

  const U64 := 0x1_0000_0000_0000_0000

  // ---------- What an operand means ----------

  /** Contents of the sixteen registers. */
  predicate IsRegs(regs: seq<nat>) {
    |regs| == 16 && forall i :: 0 <= i < 16 ==> regs[i] < U64
  }

  function Wrap(size: RegSize, v: int): nat {
    if size == R32 then v % U32 else v % U64
  }

  function Value(size: RegSize, regs: seq<nat>, r: Reg): nat
    requires IsRegs(regs)
  {
    Wrap(size, regs[r])
  }

  function Factor(s: Scale): nat {
    if s == 0 then 1 else if s == 1 then 2 else if s == 2 then 4 else 8
  }

  /** The address an operand stands for, without its segment; `next` is the address of the next instruction. */
  function Meaning(m: MemOp, regs: seq<nat>, next: nat): nat
    requires IsRegs(regs)
  {
    match m
    case BaseOffset(_, size, base, offset) => Wrap(size, Value(size, regs, base) + offset)
    case BaseIndexScaleOffset(_, size, base, index, scale, offset) =>
      Wrap(size, Value(size, regs, base) + Value(size, regs, index) * Factor(scale) + offset)
    case IndexScaleOffset(_, size, index, scale, offset) =>
      Wrap(size, Value(size, regs, index) * Factor(scale) + offset)
    case Offset(_, size, offset) => Wrap(size, offset)
    case RipRelative(_, offset) => Wrap(R64, next + offset)
  }

  // ---------- How a processor decodes ----------

  datatype Prefix = Prefix(segment: Option<Seg>, narrow: bool)

  predicate IsPrefix(b: byte) {
    b in {0xF0, 0xF2, 0xF3, 0x64, 0x65, 0x66, 0x67}
  }

  function TakePrefix(p: Prefix, b: byte): Prefix {
    if b == 0x64 then p.(segment := Some(FS))
    else if b == 0x65 then p.(segment := Some(GS))
    else if b == 0x67 then p.(narrow := true)
    else p
  }

  /** Legacy prefixes, section 2.1.1 of the Intel SDM volume 2A. */
  function ParsePrefixes(s: seq<byte>, p: Prefix): (Prefix, seq<byte>) {
    if s == [] || !IsPrefix(s[0]) then (p, s) else ParsePrefixes(s[1..], TakePrefix(p, s[0]))
  }

  /** Extension bits of ModRM.reg, SIB.index and ModRM.rm or SIB.base. */
  datatype Extension = Extension(r: nat, x: nat, b: nat)

  /** REX, section 2.2.1, or three-byte VEX, section 2.3.5, and the opcode. */
  function ParseOpcode(s: seq<byte>): Option<(Extension, byte, seq<byte>)> {
    if s == [] then None
    else if s[0] == 0xC4 then
      if |s| < 4 then None
      else Some((Extension(1 - s[1] / 128, 1 - s[1] / 64 % 2, 1 - s[1] / 32 % 2), s[3], s[4..]))
    else
      var rex := 0x40 <= s[0] < 0x50;
      var ext := if rex then Extension(s[0] / 4 % 2, s[0] / 2 % 2, s[0] % 2) else Extension(0, 0, 0);
      var t := if rex then s[1..] else s;
      if t == [] then None
      else if t[0] != 0x0F then Some((ext, t[0], t[1..]))
      else if |t| < 2 then None
      else Some((ext, t[1], t[2..]))
  }

  datatype Operand =
    | Direct(reg: nat)
    | Memory(rip: bool, base: Option<nat>, index: Option<(nat, nat)>, displacement: int)

  function ParseDisplacement(s: seq<byte>, mode: nat): Option<int> {
    var n := if mode == 0 then 0 else if mode == 1 then 1 else 4;
    if |s| < n then None else Some(if n == 0 then 0 else Signed(s[..n]))
  }

  /** ModRM and SIB, section 2.1.5 of the Intel SDM volume 2A, with the REX extensions of section 2.2.1. */
  function ParseModrm(s: seq<byte>, ext: Extension): Option<(nat, Operand)> {
    if s == [] then None
    else
      var mode, reg, rm := s[0] / 64, s[0] / 8 % 8 + 8 * ext.r, s[0] % 8;
      if mode == 3 then Some((reg, Direct(rm + 8 * ext.b)))
      else if rm == 4 then
        if |s| < 2 then None
        else
          var scale, idx := s[1] / 64, s[1] / 8 % 8 + 8 * ext.x;
          var index := if idx == 4 then None else Some((idx, scale));
          if s[1] % 8 == 5 && mode == 0 then
            var d :- ParseDisplacement(s[2..], 2);
            Some((reg, Memory(false, None, index, d)))
          else
            var d :- ParseDisplacement(s[2..], mode);
            Some((reg, Memory(false, Some(s[1] % 8 + 8 * ext.b), index, d)))
      else if rm == 5 && mode == 0 then
        var d :- ParseDisplacement(s[1..], 2);
        Some((reg, Memory(true, None, None, d)))
      else
        var d :- ParseDisplacement(s[1..], mode);
        Some((reg, Memory(false, Some(rm + 8 * ext.b), None, d)))
  }

  datatype Decoded = Decoded(prefix: Prefix, opcode: byte, reg: nat, operand: Operand)

  function Decode(s: seq<byte>): Option<Decoded> {
    var (prefix, s1) := ParsePrefixes(s, Prefix(None, false));
    var (ext, opcode, s2) :- ParseOpcode(s1);
    var (reg, operand) :- ParseModrm(s2, ext);
    Some(Decoded(prefix, opcode, reg, operand))
  }

  predicate RegsWithin(o: Operand) {
    o.Memory? ==>
      (o.base.Some? ==> o.base.value < 16) && (o.index.Some? ==> o.index.value.0 < 16 && o.index.value.1 < 4)
  }

  /** The address a decoded memory operand stands for. */
  function EffectiveAddress(d: Decoded, regs: seq<nat>, next: nat): nat
    requires IsRegs(regs) && d.operand.Memory? && RegsWithin(d.operand)
  {
    var o := d.operand;
    Wrap(if d.prefix.narrow then R32 else R64,
         (if o.rip then next else 0)
         + (if o.base.Some? then regs[o.base.value] else 0)
         + (if o.index.Some? then regs[o.index.value.0] * Factor(o.index.value.1) else 0)
         + o.displacement)
  }
}
