/** Laying out code: basic blocks, the dispatch table and branch relaxation. */
module CodeWriter {
  import opened Wrappers
  import opened Bytes
  import opened Codec

  datatype Export = ByBlock(block: nat) | ByInstruction(index: nat)

  /** The parts of a program builder that decide the code. */
  datatype Source = Source(
    isa: Isa,
    exports: seq<(Export, seq<byte>)>,
    code: seq<Instruction>,
    dispatch: seq<seq<byte>>,
    ignoreIncompatibility: bool)

  /** An instruction being laid out. Before relaxation its target is a block, afterwards a code position. */
  datatype Entry = Entry(
    instruction: Instruction,
    bytes: seq<byte>,
    targetIndex: Option<nat>,
    position: u32,
    minimum: nat)

  datatype BuildError = SymbolNotFound | SymbolNotABlock | UnsupportedInstruction
  datatype Result<+T> = Ok(value: T) | Err(error: BuildError)

  // ---------- Collecting the instructions ----------

  /** The first export under a given name. */
  function FindExport(exports: seq<(Export, seq<byte>)>, symbol: seq<byte>): Option<Export> {
    if exports == [] then None
    else if exports[0].1 == symbol then Some(exports[0].0)
    else FindExport(exports[1..], symbol)
  }

  predicate DispatchResolves(s: Source, n: nat)
    requires n < |s.dispatch|
  {
    match FindExport(s.exports, s.dispatch[n]) case Some(ByBlock(_)) => true case _ => false
  }

  predicate Allowed(s: Source, i: Instruction) {
    s.ignoreIncompatibility || OpcodeOf(i) in s.isa.toRaw
  }

  /** Block numbers stay within 32 bits after the shift by the dispatch table. */
  predicate BlocksFit(s: Source) {
    && (forall n :: 0 <= n < |s.code| && TargetOf(s.code[n]).Some? ==> TargetOf(s.code[n]).value + |s.dispatch| < U32)
    && (forall e :: 0 <= e < |s.exports| && s.exports[e].0.ByBlock? ==> s.exports[e].0.block + |s.dispatch| < U32)
  }

  lemma {:induction false} FoundFits(exports: seq<(Export, seq<byte>)>, symbol: seq<byte>, shift: nat)
    requires forall e :: 0 <= e < |exports| && exports[e].0.ByBlock? ==> exports[e].0.block + shift < U32
    ensures match FindExport(exports, symbol) case Some(ByBlock(block)) => block + shift < U32 case _ => true
  {
    if exports != [] && exports[0].1 != symbol { FoundFits(exports[1..], symbol, shift); }
  }

  function Shifted(i: Instruction, shift: nat): Instruction
    requires TargetOf(i).Some? ==> TargetOf(i).value + shift < U32
  {
    if TargetOf(i).Some? then WithTarget(i, TargetOf(i).value + shift) else i
  }

  function Fresh(i: Instruction, minimum: nat): Entry {
    Entry(i, [], None, 0, minimum)
  }

  /** All dispatch jumps but the last are padded. */
  function DispatchMinimum(s: Source, n: nat): nat {
    if n + 1 == |s.dispatch| then 0 else 5
  }

  /** The jump for the n-th dispatch table symbol. */
  function DispatchEntry(s: Source, n: nat): Entry
    requires BlocksFit(s) && n < |s.dispatch| && DispatchResolves(s, n)
  {
    FoundFits(s.exports, s.dispatch[n], |s.dispatch|);
    Fresh(Op(JUMP, Offset(FindExport(s.exports, s.dispatch[n]).value.block + |s.dispatch|)), DispatchMinimum(s, n))
  }

  predicate Buildable(s: Source) {
    && (forall n :: 0 <= n < |s.dispatch| ==> DispatchResolves(s, n))
    && (forall n :: 0 <= n < |s.code| ==> Allowed(s, s.code[n]))
  }

  /** First the dispatch jumps, then the code, with shifted block numbers. */
  function Prepared(s: Source): (entries: seq<Entry>)
    requires BlocksFit(s) && Buildable(s)
    ensures |entries| == |s.dispatch| + |s.code|
  {
    seq(|s.dispatch|, n requires 0 <= n < |s.dispatch| => DispatchEntry(s, n))
    + seq(|s.code|, n requires 0 <= n < |s.code| => Fresh(Shifted(s.code[n], |s.dispatch|), 0))
  }

  /** Collects the instructions, or says why it cannot. */
  method Prepare(s: Source) returns (r: Result<seq<Entry>>)
    requires BlocksFit(s)
    ensures r.Ok? <==> Buildable(s)
    ensures r.Ok? ==> r.value == Prepared(s)
  {
    hide TargetOf, WithTarget, Allowed, BlocksFit, DispatchResolves;
    var table: seq<Entry> := [];
    for nth := 0 to |s.dispatch|
      invariant |table| == nth
      invariant forall n :: 0 <= n < nth ==> DispatchResolves(s, n) && table[n] == DispatchEntry(s, n)
    {
      DispatchCases(s, nth);
      match FindExport(s.exports, s.dispatch[nth]) {
        case None => return Err(SymbolNotFound);
        case Some(ByInstruction(_)) => return Err(SymbolNotABlock);
        case Some(ByBlock(block)) =>
          table := table + [Fresh(Op(JUMP, Offset(block + |s.dispatch|)), if nth + 1 == |s.dispatch| then 0 else 5)];
      }
    }
    var code := [];
    for nth := 0 to |s.code|
      invariant |code| == nth
      invariant forall n :: 0 <= n < nth ==>
                Allowed(s, s.code[n]) && ShiftFits(s, n) && code[n] == Fresh(Shifted(s.code[n], |s.dispatch|), 0)
    {
      ShiftFitsAt(s, nth);
      if !Allowed(s, s.code[nth]) {
        return Err(UnsupportedInstruction);
      }
      code := code + [Fresh(Shifted(s.code[nth], |s.dispatch|), 0)];
    }
    assert table == seq(|s.dispatch|, n requires 0 <= n < |s.dispatch| => DispatchEntry(s, n));
    assert table + code == Prepared(s);
    r := Ok(table + code);
  }

  predicate ShiftFits(s: Source, n: nat)
    requires n < |s.code|
  {
    TargetOf(s.code[n]).Some? ==> TargetOf(s.code[n]).value + |s.dispatch| < U32
  }

  lemma {:induction false} ShiftFitsAt(s: Source, n: nat)
    requires BlocksFit(s) && n < |s.code|
    ensures ShiftFits(s, n)
  {
  }

  lemma {:induction false} DispatchCases(s: Source, n: nat)
    requires BlocksFit(s) && n < |s.dispatch|
    ensures match FindExport(s.exports, s.dispatch[n])
            case Some(ByBlock(block)) => DispatchResolves(s, n) && block + |s.dispatch| < U32
            case _ => !DispatchResolves(s, n)
  {
    FoundFits(s.exports, s.dispatch[n], |s.dispatch|);
  }

  // ---------- Basic blocks ----------

  /** Where each basic block starts, among the first `n` instructions: at 0 and after every block-ending instruction. */
  function BlockStarts(entries: seq<Entry>, n: nat): (starts: seq<nat>)
    requires n <= |entries|
    ensures |starts| >= 1 && starts[0] == 0
    ensures forall b :: 1 <= b < |starts| ==>
              0 < starts[b] <= n && OpcodeOf(entries[starts[b] - 1].instruction).startsBlock
    ensures forall a, b :: 0 <= a < b < |starts| ==> starts[a] < starts[b]
  {
    if n == 0 then [0]
    else if OpcodeOf(entries[n - 1].instruction).startsBlock then BlockStarts(entries, n - 1) + [n]
    else BlockStarts(entries, n - 1)
  }

  method FindBlocks(entries: seq<Entry>) returns (starts: seq<nat>)
    ensures starts == BlockStarts(entries, |entries|)
  {
    hide OpcodeOf;
    starts := [0];
    for n := 0 to |entries|
      invariant starts == BlockStarts(entries, n)
    {
      if OpcodeOf(entries[n].instruction).startsBlock {
        starts := starts + [n + 1];
      }
    }
  }

  // ---------- Layout ----------

  /** The length of the first `n` entries. */
  function LengthOf(entries: seq<Entry>, n: nat): nat
    requires n <= |entries|
  {
    if n == 0 then 0 else LengthOf(entries, n - 1) + |entries[n - 1].bytes|
  }

  predicate Padding(i: Instruction, minimum: nat) {
    minimum == 0 || (minimum == 5 && i.Op? && i.args.Offset?)
  }

  /** An entry holds the encoding of its instruction at its position. */
  predicate Encoded(isa: Isa, e: Entry) {
    && Padding(e.instruction, e.minimum)
    && (e.targetIndex.Some? <==> TargetOf(e.instruction).Some?)
    && e.bytes == EncodePadded(isa, e.position, e.minimum, e.instruction)
  }

  /** Everything but targets, positions and bytes. */
  predicate SameShape(a: Entry, b: Entry) {
    && a.targetIndex == b.targetIndex && a.minimum == b.minimum
    && (if TargetOf(a.instruction).Some? then
          TargetOf(b.instruction).Some? && b.instruction == WithTarget(a.instruction, TargetOf(b.instruction).value)
        else b.instruction == a.instruction)
  }

  lemma {:induction false} SameShapeAsItself(e: Entry)
    ensures SameShape(e, e)
  {
  }

  lemma {:induction false} SameShapeTwice(a: Entry, b: Entry, c: Entry)
    requires SameShape(a, b) && SameShape(b, c)
    ensures SameShape(a, c) && a.targetIndex == b.targetIndex == c.targetIndex
  {
  }

  predicate TargetsWithin(entries: seq<Entry>) {
    forall n :: 0 <= n < |entries| && entries[n].targetIndex.Some? ==> entries[n].targetIndex.value < |entries|
  }

  /** What holds when relaxation stops: entries lie end to end and every target is where it should be. */
  predicate SettledAt(entries: seq<Entry>, n: nat)
    requires n < |entries| && TargetsWithin(entries)
  {
    && entries[n].position == LengthOf(entries, n)
    && (entries[n].targetIndex.Some? ==>
          TargetOf(entries[n].instruction) == Some(entries[entries[n].targetIndex.value].position))
  }

  lemma {:induction false} EncodingIgnoresPosition(isa: Isa, a: u32, b: u32, minimum: nat, i: Instruction)
    requires TargetOf(i) == None && minimum <= 5
    ensures EncodePadded(isa, a, minimum, i) == EncodePadded(isa, b, minimum, i)
  {
  }

  /** First layout: resolves blocks to instructions and guesses the targets. */
  method FirstLayout(isa: Isa, entries: array<Entry>, starts: seq<nat>) returns (fits: bool)
    requires forall n :: 0 <= n < entries.Length ==> Padding(entries[n].instruction, entries[n].minimum)
    requires forall n :: 0 <= n < entries.Length && TargetOf(entries[n].instruction).Some? ==>
               TargetOf(entries[n].instruction).value < |starts|
    requires forall n :: 0 <= n < entries.Length ==> entries[n].targetIndex == None
    modifies entries
    ensures fits ==> forall n :: 0 <= n < entries.Length ==>
              Encoded(isa, entries[n]) && Resolved(starts, old(entries[n]), entries[n])
  {
    hide EncodePadded;
    var position: u32 := 0;
    for n := 0 to entries.Length
      invariant forall j :: 0 <= j < n ==> Encoded(isa, entries[j]) && Resolved(starts, old(entries[j]), entries[j])
      invariant forall j :: n <= j < entries.Length ==> entries[j] == old(entries[j])
    {
      var e := entries[n];
      var instruction, targetIndex := e.instruction, None;
      if TargetOf(instruction).Some? {
        var nth := starts[TargetOf(instruction).value];
        instruction := WithTarget(instruction, (position + nth - n) % U32);
        targetIndex := Some(nth);
      }
      var bytes := EncodePadded(isa, position, e.minimum, instruction);
      entries[n] := Entry(instruction, bytes, targetIndex, position, e.minimum);
      if position + |bytes| >= U32 {
        return false;
      }
      position := position + |bytes|;
    }
    fits := true;
  }

  /** A laid out entry is the prepared one with its block looked up. */
  predicate Resolved(starts: seq<nat>, prepared: Entry, e: Entry) {
    && e.minimum == prepared.minimum
    && (match TargetOf(prepared.instruction)
        case None => e.targetIndex == None && e.instruction == prepared.instruction
        case Some(block) =>
          && block < |starts| && e.targetIndex == Some(starts[block])
          && TargetOf(e.instruction).Some?
          && e.instruction == WithTarget(prepared.instruction, TargetOf(e.instruction).value))
  }

  /** One round of relaxation. Entries stay encoded; if nothing changed, the layout has settled. */
  method RelaxOnce(isa: Isa, entries: array<Entry>) returns (modified: bool, fits: bool)
    requires TargetsWithin(entries[..])
    requires forall n :: 0 <= n < entries.Length ==> Encoded(isa, entries[n])
    modifies entries
    ensures forall n :: 0 <= n < entries.Length ==> Encoded(isa, entries[n]) && SameShape(old(entries[n]), entries[n])
    ensures fits && !modified ==> TargetsWithin(entries[..]) && forall n :: 0 <= n < entries.Length ==>
            SettledAt(entries[..], n)
    ensures fits && !modified ==> LengthOf(entries[..], entries.Length) < U32
  {
    hide EncodePadded, TargetOf, SameShape, Encoded;
    ghost var before := entries[..];
    modified := false;
    var position: u32 := 0;
    forall j | 0 <= j < entries.Length ensures SameShape(before[j], entries[j]) {
      SameShapeAsItself(before[j]);
    }
    for n := 0 to entries.Length
      invariant TargetsWithin(entries[..])
      invariant forall j :: 0 <= j < entries.Length ==> Encoded(isa, entries[j]) && SameShape(before[j], entries[j])
      invariant !modified ==> entries[..] == before && position == LengthOf(before, n)
      invariant !modified ==> forall j :: 0 <= j < n ==> SettledAt(before, j)
    {
      var e, changed := RelaxEntry(isa, entries, n, position);
      SameShapeTwice(before[n], entries[n], e);
      entries[n] := e;
      if position + |e.bytes| >= U32 {
        return modified || changed, false;
      }
      position := position + |e.bytes|;
      modified := modified || changed;
    }
    fits := true;
  }

  /** The new state of one entry. */
  method RelaxEntry(isa: Isa, entries: array<Entry>, n: nat, position: u32) returns (e: Entry, changed: bool)
    requires n < entries.Length && TargetsWithin(entries[..]) && Encoded(isa, entries[n])
    ensures Encoded(isa, e) && SameShape(entries[n], e)
    ensures !changed ==> e == entries[n] && e.position == position
    ensures !changed && e.targetIndex.Some? ==>
            TargetOf(e.instruction) == Some(entries[..][e.targetIndex.value].position)
  {
    hide EncodePadded;
    e := entries[n];
    changed := e.position != position;
    e := e.(position := position);
    if e.targetIndex.Some? {
      var target := entries[e.targetIndex.value].position;
      changed := changed || TargetOf(e.instruction).value != target;
      e := e.(instruction := WithTarget(e.instruction, target));
      if changed {
        e := e.(bytes := EncodePadded(isa, position, e.minimum, e.instruction));
      }
    } else {
      EncodingIgnoresPosition(isa, entries[n].position, position, e.minimum, e.instruction);
    }
  }

  /** Every branch names an existing block that has an instruction. */
  predicate BlocksExist(prepared: seq<Entry>, starts: seq<nat>) {
    forall n :: 0 <= n < |prepared| && TargetOf(prepared[n].instruction).Some? ==>
      TargetOf(prepared[n].instruction).value < |starts| && starts[TargetOf(prepared[n].instruction).value] < |prepared|
  }

  /** The layout relaxation is after: the prepared instructions, encoded end to end, with every target resolved. */
  predicate LaidOut(isa: Isa, starts: seq<nat>, prepared: seq<Entry>, entries: seq<Entry>) {
    && |entries| == |prepared| && TargetsWithin(entries) && LengthOf(entries, |entries|) < U32
    && (forall n :: 0 <= n < |entries| ==> Encoded(isa, entries[n]) && Resolved(starts, prepared[n], entries[n]))
    && (forall n :: 0 <= n < |entries| ==> SettledAt(entries, n))
  }

  lemma {:induction false} ShapeKeepsResolved(starts: seq<nat>, prepared: Entry, a: Entry, b: Entry)
    requires Resolved(starts, prepared, a) && SameShape(a, b)
    ensures Resolved(starts, prepared, b)
  {
  }

  lemma {:induction false} ResolvedWithin(prepared: seq<Entry>, starts: seq<nat>, entries: seq<Entry>)
    requires BlocksExist(prepared, starts) && |entries| == |prepared|
    requires forall n :: 0 <= n < |entries| ==> Resolved(starts, prepared[n], entries[n])
    ensures TargetsWithin(entries)
  {
  }

  /** Lays the instructions out and relaxes until nothing changes, in at most the given number of rounds.
      Gives nothing when the code grows beyond 32 bits or the rounds run out. */
  method Layout(isa: Isa, prepared: seq<Entry>, starts: seq<nat>, rounds: nat) returns (r: Option<seq<Entry>>)
    requires BlocksExist(prepared, starts)
    requires forall n :: 0 <= n < |prepared| ==>
               Padding(prepared[n].instruction, prepared[n].minimum) && prepared[n].targetIndex == None
    ensures r.Some? ==> LaidOut(isa, starts, prepared, r.value)
  {
    hide Encoded, SettledAt, Resolved, SameShape, LengthOf, Padding;
    var entries := new Entry[|prepared|](i requires 0 <= i < |prepared| => prepared[i]);
    assert entries[..] == prepared;
    var fits := FirstLayout(isa, entries, starts);
    if !fits {
      return None;
    }
    ResolvedWithin(prepared, starts, entries[..]);
    for round := 0 to rounds
      invariant forall n :: 0 <= n < entries.Length ==>
                Encoded(isa, entries[n]) && Resolved(starts, prepared[n], entries[n])
      invariant TargetsWithin(entries[..])
    {
      ghost var before := entries[..];
      var modified;
      modified, fits := RelaxOnce(isa, entries);
      forall n | 0 <= n < entries.Length ensures Resolved(starts, prepared[n], entries[n]) {
        ShapeKeepsResolved(starts, prepared[n], before[n], entries[n]);
      }
      ResolvedWithin(prepared, starts, entries[..]);
      if !fits {
        return None;
      }
      if !modified {
        return Some(entries[..]);
      }
    }
    r := None;
  }
}
