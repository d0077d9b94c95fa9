/** Walking over code: the instruction iterator and the visitor loop. */
module Traversal {
  import opened Wrappers
  import opened Bytes
  import opened Codec
  import opened Bitmask
  import opened BitmaskScans

  datatype Program = Program(isa: Isa, code: seq<byte>, bitmask: seq<byte>)

  /** The mask has one bit per code byte and zeros after them. */
  ghost predicate ValidProgram(p: Program) {
    && |p.isa.fromRaw| == 256 && |p.code| < U32 && MaskFits(p.bitmask, |p.code|)
    && forall i :: |p.code| <= i ==> !Mark(p.bitmask, i)
  }

  datatype Parsed = Parsed(kind: Instruction, offset: nat, next: nat)

  /** What a consumer sees: an instruction and where it is. */
  datatype Event = Event(offset: nat, kind: Instruction)

  // ---------- One instruction ----------

  /** The sixteen bytes after the opcode, cut out of the code with room to spare. */
  function FastChunk(p: Program, o: nat): (t: seq<byte>)
    requires o + 32 <= |p.code|
    ensures |t| == 16
  {
    p.code[o..o + 32][1..17]
  }

  /** The same near the end of the code, filled up with zeros. */
  function SlowChunk(p: Program, o: nat): (t: seq<byte>)
    requires o < |p.code|
    ensures |t| == 16
  {
    var chunk := p.code[o..Min(o + 17, |p.code|)];
    chunk[1..] + seq(17 - |chunk|, _ => 0)
  }

  lemma {:induction false} ChunksAgree(p: Program, o: nat)
    requires o + 32 <= |p.code|
    ensures FastChunk(p, o) == SlowChunk(p, o)
  {
  }

  function InstructionAt(p: Program, o: nat): Instruction
    requires o < |p.code| < U32 && |p.isa.fromRaw| == 256
  {
    Decode(p.isa, p.code[o], FromLe(SlowChunk(p, o)), o, Skip(p.bitmask, |p.code|, o))
  }

  function NextAfter(p: Program, o: nat): (n: nat)
    requires o < |p.code|
    ensures o < n <= |p.code|
  {
    o + Skip(p.bitmask, |p.code|, o) + 1
  }

  predicate CanFallThrough(p: Program, o: nat)
    requires o < |p.code| && |p.isa.fromRaw| == 256
  {
    match p.isa.fromRaw[p.code[o]]
    case None => TRAP.canFallthrough
    case Some(op) => op.canFallthrough
  }

  /** Whether the step at `o` reports that no instruction follows. */
  predicate StepInvalid(p: Program, o: nat)
    requires o < |p.code| && |p.isa.fromRaw| == 256
  {
    if o + 32 <= |p.code| then FastInvalid(p.bitmask, |p.code|, o)
    else SlowInvalid(p.bitmask, |p.code|, o) && !(NextAfter(p, o) >= |p.code| && !CanFallThrough(p, o))
  }

  method StepSlow(p: Program, o: nat) returns (next: nat, kind: Instruction, invalid: bool)
    requires ValidProgram(p) && o < |p.code|
    ensures next == NextAfter(p, o) && kind == InstructionAt(p, o)
    ensures invalid == (SlowInvalid(p.bitmask, |p.code|, o) && !(NextAfter(p, o) >= |p.code| && !CanFallThrough(p, o)))
  {
    hide Decode, FromLe, Skip, SlowInvalid;
    var skip;
    skip, invalid := ParseBitmaskSlow(p.bitmask, |p.code|, o);
    if invalid && o + skip + 1 >= |p.code| && !CanFallThrough(p, o) {
      invalid := false;
    }
    next, kind := o + skip + 1, Decode(p.isa, p.code[o], FromLe(SlowChunk(p, o)), o, skip);
  }

  method StepFast(p: Program, o: nat) returns (next: nat, kind: Instruction, invalid: bool)
    requires ValidProgram(p) && o + 32 <= |p.code|
    ensures next == NextAfter(p, o) && kind == InstructionAt(p, o) && invalid == FastInvalid(p.bitmask, |p.code|, o)
  {
    hide Decode, FromLe, ParseBitmaskFast, NextMark;
    FastSkipIsSlowSkip(p.bitmask, |p.code|, o);
    ChunksAgree(p, o);
    var skip := ParseBitmaskFast(p.bitmask, o).value;
    kind := Decode(p.isa, p.code[o], FromLe(FastChunk(p, o)), o, skip);
    next := o + skip + 1;
    invalid := skip == MAX_SKIP && !GetBit(p.bitmask, |p.code|, next);
  }

  method ParseInstruction(p: Program, o: nat) returns (next: nat, kind: Instruction, invalid: bool)
    requires ValidProgram(p) && o < |p.code|
    ensures next == NextAfter(p, o) && kind == InstructionAt(p, o) && invalid == StepInvalid(p, o)
  {
    hide FastInvalid, SlowInvalid, Skip, InstructionAt;
    if o + 32 <= |p.code| {
      next, kind, invalid := StepFast(p, o);
    } else {
      next, kind, invalid := StepSlow(p, o);
    }
  }

  // ---------- The iterator ----------

  datatype Iter = Iter(offset: nat, invalidAt: Option<nat>, done: bool)

  function NextMarked(p: Program, i: nat): nat {
    Min(|p.code|, NextMark(p.bitmask, i))
  }

  /** A fresh iterator. */
  function Start(p: Program, offset: u32, bounded: bool): Iter {
    if GetBit(p.bitmask, |p.code|, offset) then Iter(offset, None, false)
    else if bounded then
      if offset == U32 - 1 then Iter(offset, None, true) else Iter(Min(offset + 1, |p.code|), Some(offset), true)
    else Iter(NextMarked(p, offset), Some(offset), false)
  }

  /** Where the iterator goes on after the instruction at `o`. */
  function After(p: Program, o: nat, bounded: bool): Iter
    requires o < |p.code| < U32 && |p.isa.fromRaw| == 256
  {
    var next := NextAfter(p, o);
    if !StepInvalid(p, o) then Iter(next, None, false)
    else
      var falls := OpcodeOf(InstructionAt(p, o)).canFallthrough;
      var trap := if falls then Some(next) else None;
      if next == |p.code| then Iter(|p.code| + 1, trap, false)
      else if bounded then Iter(if falls then |p.code| else next, trap, true)
      else Iter(NextMarked(p, next), trap, false)
  }

  function Advance(p: Program, bounded: bool, it: Iter): (Option<Parsed>, Iter)
    requires |p.code| < U32 && |p.isa.fromRaw| == 256
  {
    if it.invalidAt.Some? then (Some(Parsed(Invalid, it.invalidAt.value, it.offset)), it.(invalidAt := None))
    else if it.done || it.offset >= |p.code| then (None, it)
    else (Some(Parsed(InstructionAt(p, it.offset), it.offset, NextAfter(p, it.offset))), After(p, it.offset, bounded))
  }

  class Instructions {
    const program: Program
    const bounded: bool
    var offset: nat
    var invalidOffset: Option<nat>
    var isDone: bool

    function State(): Iter
      reads this
    {
      Iter(offset, invalidOffset, isDone)
    }

    constructor (program: Program, offset: u32, bounded: bool)
      requires ValidProgram(program)
      ensures this.program == program && this.bounded == bounded && State() == Start(program, offset, bounded)
    {
      hide NextMark, Mark;
      this.program := program;
      this.bounded := bounded;
      isDone := false;
      if GetBit(program.bitmask, |program.code|, offset) {
        this.offset := offset;
        invalidOffset := None;
      } else if bounded {
        isDone := true;
        if offset == U32 - 1 {
          this.offset := offset;
          invalidOffset := None;
        } else {
          this.offset := Min(offset + 1, |program.code|);
          invalidOffset := Some(offset);
        }
      } else {
        var next := FindNextOffset(program.bitmask, |program.code|, offset);
        this.offset := next;
        invalidOffset := Some(offset);
      }
    }

    method Next() returns (item: Option<Parsed>)
      requires ValidProgram(program)
      modifies this
      ensures (item, State()) == Advance(program, bounded, old(State()))
    {
      hide NextMark, InstructionAt, StepInvalid, Skip;
      if invalidOffset.Some? {
        item := Some(Parsed(Invalid, invalidOffset.value, offset));
        invalidOffset := None;
        return;
      }
      if isDone || offset >= |program.code| {
        return None;
      }
      var o := offset;
      var next, kind, invalid := ParseInstruction(program, o);
      if !invalid {
        offset := next;
      } else {
        if next == |program.code| {
          offset := |program.code| + 1;
        } else if bounded {
          isDone := true;
          offset := if OpcodeOf(kind).canFallthrough then |program.code| else next;
        } else {
          offset := FindNextOffset(program.bitmask, |program.code|, next);
        }
        if OpcodeOf(kind).canFallthrough {
          invalidOffset := Some(next);
        }
      }
      item := Some(Parsed(kind, o, next));
    }
  }
}
