/** Serialized code as a whole, and what its parts promise each other. */
module CodeSerializer {
  import opened Wrappers
  import opened Bytes
  import opened Varint
  import opened Codec
  import opened Bitmask
  import opened BitmaskScans
  import opened Traversal
  import opened CodeWriter
  import opened CodeImage
  import opened CodeRoundTrip
  import opened JumpTable

  datatype Serialized = Serialized(
    jumpTable: seq<byte>,
    entrySize: nat,
    code: seq<byte>,
    bitmask: seq<byte>,
    exports: seq<(nat, seq<byte>)>)

  // ---------- Valid jump targets ----------

  /** Whether the reader lets a program jump to `offset`. */
  predicate JumpTargetValid(p: Program, offset: nat)
    requires |p.isa.fromRaw| == 256
  {
    GetBit(p.bitmask, |p.code|, offset) && (offset == 0 || FollowsBlockEnd(p, offset))
  }

  predicate FollowsBlockEnd(p: Program, offset: nat)
    requires |p.isa.fromRaw| == 256 && offset / 8 < |p.bitmask| && offset <= |p.code|
  {
    match PreviousSkip(p.bitmask, offset)
    case None => false
    case Some(skip) =>
      && 0 <= offset - skip - 1 < |p.code|
      && p.isa.fromRaw[p.code[offset - skip - 1]].Some?
      && p.isa.fromRaw[p.code[offset - skip - 1]].value.startsBlock
  }

  lemma {:induction false} PreviousIsPrevious(p: Program, entries: seq<Entry>, n: nat)
    requires Emitted(p, entries) && 0 < n < |entries|
    ensures LengthOf(entries, n) / 8 < |p.bitmask| && LengthOf(entries, n) < |p.code|
    ensures PreviousSkip(p.bitmask, LengthOf(entries, n)) == Some(|entries[n - 1].bytes| - 1)
    ensures LengthOf(entries, n) == LengthOf(entries, n - 1) + |entries[n - 1].bytes|
  {
    hide Mark, PreviousSkip, Encoded, SettledAt, Supported, Starts, CodeOf;
    forall j | 0 <= j < |entries| ensures |entries[j].bytes| > 0 {
      EntryLength(p.isa, entries[j]);
    }
    NextIsNext(p, entries, n);
    NextIsNext(p, entries, n - 1);
    EntryLength(p.isa, entries[n - 1]);
    StartsAt(entries, |entries|, n - 1);
    PreviousSkipIs(p.bitmask, LengthOf(entries, n), LengthOf(entries, n - 1));
  }

  /** At the start of instruction `n` a jump is valid exactly when `n` starts a basic block. */
  lemma {:induction false} ValidAtInstruction(p: Program, entries: seq<Entry>, n: nat)
    requires Emitted(p, entries) && n < |entries|
    ensures |p.isa.fromRaw| == 256
    ensures JumpTargetValid(p, LengthOf(entries, n)) <==> n == 0 || OpcodeOf(entries[n - 1].instruction).startsBlock
  {
    hide Emitted, Mark, PreviousSkip, EncodePadded, NextMark, NextMarked, Skip, Supported;
    NextIsNext(p, entries, n);
    EntryFacts(p, entries, n);
    if n > 0 {
      PreviousIsPrevious(p, entries, n);
      EntryFacts(p, entries, n - 1);
      OpcodeByteAt(p, entries[n - 1], LengthOf(entries, n - 1));
      NoneAtZero(entries, n);
    }
  }

  lemma {:induction false} NoneAtZero(entries: seq<Entry>, n: nat)
    requires 0 < n <= |entries| && |entries[n - 1].bytes| > 0
    ensures LengthOf(entries, n) > 0
  {
  }

  lemma {:induction false} OpcodeByteAt(p: Program, e: Entry, o: nat)
    requires ValidIsa(p.isa) && Supported(p.isa, e.instruction) && Padding(e.instruction, e.minimum) && o < U32
    requires e.bytes == EncodePadded(p.isa, o, e.minimum, e.instruction)
    requires o + |e.bytes| <= |p.code| && p.code[o..o + |e.bytes|] == e.bytes
    ensures p.isa.fromRaw[p.code[o]] == Some(OpcodeOf(e.instruction))
  {
    assert p.code[o] == p.code[o..o + |e.bytes|][0];
    assert e.bytes[0] == p.isa.toRaw[e.instruction.opcode];
  }

  lemma {:induction false} StartIsPosition(entries: seq<Entry>, m: nat, i: nat) returns (n: nat)
    requires m <= |entries| && forall j :: 0 <= j < |entries| ==> |entries[j].bytes| > 0
    requires i < LengthOf(entries, m) && Starts(entries, m)[i]
    ensures n < m && LengthOf(entries, n) == i
  {
    if i < LengthOf(entries, m - 1) {
      n := StartIsPosition(entries, m - 1, i);
    } else {
      n := m - 1;
    }
  }

  lemma {:induction false} BlockStartsHas(entries: seq<Entry>, m: nat, n: nat)
    requires n <= m <= |entries| && (n == 0 || OpcodeOf(entries[n - 1].instruction).startsBlock)
    ensures n in BlockStarts(entries, m)
  {
    if n == m {
      if n == 0 { assert BlockStarts(entries, 0)[0] == 0; }
    } else {
      BlockStartsHas(entries, m - 1, n);
    }
  }

  /** The valid jump targets of emitted code are exactly the positions of its basic blocks. */
  lemma {:induction false} JumpTargetsAreBlocks(p: Program, entries: seq<Entry>, i: nat)
    requires Emitted(p, entries)
    ensures |p.isa.fromRaw| == 256
    ensures JumpTargetValid(p, i) <==>
            exists n :: n in BlockStarts(entries, |entries|) && n < |entries| && entries[n].position == i
  {
    hide Mark, PreviousSkip, EncodePadded, CodeOf, Starts, JumpTargetValid, Encoded, Supported;
    forall j | 0 <= j < |entries| ensures |entries[j].bytes| > 0 {
      EntryLength(p.isa, entries[j]);
    }
    var starts := BlockStarts(entries, |entries|);
    if JumpTargetValid(p, i) {
      ValidIsMarked(p, i);
      var n := StartIsPosition(entries, |entries|, i);
      ValidAtInstruction(p, entries, n);
      BlockStartsHas(entries, |entries|, n);
      assert SettledAt(entries, n);
    }
    forall n | n in starts && n < |entries| && entries[n].position == i ensures JumpTargetValid(p, i) {
      var b :| 0 <= b < |starts| && starts[b] == n;
      assert SettledAt(entries, n);
      ValidAtInstruction(p, entries, n);
    }
  }

  lemma {:induction false} ValidIsMarked(p: Program, i: nat)
    requires |p.isa.fromRaw| == 256 && JumpTargetValid(p, i)
    ensures Mark(p.bitmask, i)
  {
  }

  // ---------- The dispatch table ----------

  /** A padded jump takes five bytes. */
  lemma {:induction false} PaddedJump(isa: Isa, e: Entry)
    requires Encoded(isa, e) && e.minimum == 5
    ensures |e.bytes| == 5
  {
    hide SimpleLength, EncodeSimple, LowBytes;
  }

  /** Dispatch entry `n` is at byte `5 * n`. */
  lemma {:induction false} DispatchAt(isa: Isa, entries: seq<Entry>, n: nat)
    requires n < |entries| && forall j :: 0 <= j < n ==> Encoded(isa, entries[j]) && entries[j].minimum == 5
    ensures LengthOf(entries, n) == 5 * n
  {
    hide Encoded;
    if n > 0 {
      DispatchAt(isa, entries, n - 1);
      PaddedJump(isa, entries[n - 1]);
    }
  }

  // ---------- The whole of it ----------

  datatype Outcome = Built(result: Serialized) | Failed(error: BuildError) | GaveUp

  predicate BlockExists(starts: seq<nat>, count: nat, block: nat) {
    block < |starts| && starts[block] < count
  }

  /** Branches, jump table and exports only name blocks and instructions there are. */
  predicate ReferencesExist(s: Source, jumpTable: seq<nat>)
    requires BlocksFit(s) && Buildable(s)
  {
    var prepared := Prepared(s);
    var starts := BlockStarts(prepared, |prepared|);
    && BlocksExist(prepared, starts)
    && (forall i :: 0 <= i < |jumpTable| ==> BlockExists(starts, |prepared|, jumpTable[i] + |s.dispatch|))
    && (forall e :: 0 <= e < |s.exports| ==>
          match s.exports[e].0
          case ByBlock(block) => BlockExists(starts, |prepared|, block + |s.dispatch|)
          case ByInstruction(index) => index < |prepared|)
  }

  /** The code positions of some blocks. */
  function BlockPositions(entries: seq<Entry>, starts: seq<nat>, blocks: seq<nat>, shift: nat): (r: seq<u32>)
    requires forall i :: 0 <= i < |blocks| ==> BlockExists(starts, |entries|, blocks[i] + shift)
    ensures |r| == |blocks|
  {
    seq(|blocks|, i requires 0 <= i < |blocks| =>
      assert BlockExists(starts, |entries|, blocks[i] + shift); BlockPosition(entries, starts, blocks[i] + shift))
  }

  function BlockPosition(entries: seq<Entry>, starts: seq<nat>, block: nat): u32
    requires BlockExists(starts, |entries|, block)
  {
    entries[starts[block]].position
  }

  function ExportIndex(starts: seq<nat>, e: Export, shift: nat): nat
    requires e.ByBlock? ==> e.block + shift < |starts|
  {
    if e.ByBlock? then starts[e.block + shift] else e.index
  }

  ghost predicate ExportsAre(s: Source, starts: seq<nat>, entries: seq<Entry>, exports: seq<(nat, seq<byte>)>) {
    && |exports| == |s.exports|
    && forall e :: 0 <= e < |exports| ==>
         && (s.exports[e].0.ByBlock? ==> s.exports[e].0.block + |s.dispatch| < |starts|)
         && ExportIndex(starts, s.exports[e].0, |s.dispatch|) < |entries|
         && exports[e] == (entries[ExportIndex(starts, s.exports[e].0, |s.dispatch|)].position, s.exports[e].1)
  }

  lemma {:induction false} PreparedIsFresh(s: Source, n: nat)
    requires BlocksFit(s) && Buildable(s) && n < |Prepared(s)|
    ensures Padding(Prepared(s)[n].instruction, Prepared(s)[n].minimum) && Prepared(s)[n].targetIndex == None
  {
    hide FindExport, BlocksFit, TargetOf, WithTarget;
  }

  /** The serialized parts, in terms of a settled layout. */
  ghost predicate BuiltFrom(s: Source, jumpTable: seq<nat>, prepared: seq<Entry>, entries: seq<Entry>,
      out: Serialized) {
    var starts := BlockStarts(prepared, |prepared|);
    && LaidOut(s.isa, starts, prepared, entries)
    && out.code == CodeOf(entries, |entries|) && MaskFits(out.bitmask, |out.code|) && MaskIs(out.bitmask, entries)
    && TableIs(entries, starts, jumpTable, |s.dispatch|, out)
    && ExportsAre(s, starts, entries, out.exports)
  }

  ghost predicate TableIs(entries: seq<Entry>, starts: seq<nat>, jumpTable: seq<nat>, shift: nat, out: Serialized) {
    && (forall i :: 0 <= i < |jumpTable| ==> BlockExists(starts, |entries|, jumpTable[i] + shift))
    && var positions := BlockPositions(entries, starts, jumpTable, shift);
    out.entrySize == EntrySize(positions) && out.jumpTable == Table(positions, out.entrySize)
  }

  /** Serializes code. The entries are the layout it settled on. */
  method SerializeCode(s: Source, jumpTable: seq<nat>, rounds: nat) returns (out: Outcome, ghost entries: seq<Entry>)
    requires BlocksFit(s) && (Buildable(s) ==> ReferencesExist(s, jumpTable))
    ensures out.Failed? <==> !Buildable(s)
    ensures out.Built? ==> BuiltFrom(s, jumpTable, Prepared(s), entries, out.result)
  {
    hide Prepared, BlocksFit, Buildable, BlockStarts, BlocksExist, LaidOut, CodeOf, Mark, Starts, EntrySize, Table;
    entries := [];
    var collected := Prepare(s);
    if collected.Err? {
      return Failed(collected.error), [];
    }
    var prepared := collected.value;
    var starts := FindBlocks(prepared);
    forall n | 0 <= n < |prepared|
      ensures Padding(prepared[n].instruction, prepared[n].minimum) && prepared[n].targetIndex == None
    {
      PreparedIsFresh(s, n);
    }
    var layout := Layout(s.isa, prepared, starts, rounds);
    if layout.None? {
      return GaveUp, [];
    }
    var laid := layout.value;
    entries := laid;
    LaidOutLengths(s.isa, starts, prepared, laid);
    var size, table := WriteTable(BlockPositions(laid, starts, jumpTable, |s.dispatch|));
    var code, mask := Emit(laid);
    var exports := WriteExports(s, starts, laid);
    out := Built(Serialized(table, size, code, mask, exports));
  }

  ghost predicate MaskIs(mask: seq<byte>, entries: seq<Entry>) {
    && (forall j :: 0 <= j < |entries| ==> |entries[j].bytes| > 0)
    && forall i :: 0 <= i ==> Mark(mask, i) == (i < LengthOf(entries, |entries|) && Starts(entries, |entries|)[i])
  }

  lemma {:induction false} LaidOutLengths(isa: Isa, starts: seq<nat>, prepared: seq<Entry>, entries: seq<Entry>)
    requires LaidOut(isa, starts, prepared, entries)
    ensures |entries| == |prepared| && forall j :: 0 <= j < |entries| ==> |entries[j].bytes| > 0
  {
    hide EncodePadded, Resolved, SettledAt, TargetOf;
  }

  method WriteExports(s: Source, starts: seq<nat>, entries: seq<Entry>) returns (exports: seq<(nat, seq<byte>)>)
    requires forall e :: 0 <= e < |s.exports| ==>
               match s.exports[e].0
               case ByBlock(block) => BlockExists(starts, |entries|, block + |s.dispatch|)
               case ByInstruction(index) => index < |entries|
    ensures ExportsAre(s, starts, entries, exports)
  {
    exports := [];
    for e := 0 to |s.exports|
      invariant |exports| == e
      invariant forall k :: 0 <= k < e ==>
                  && (s.exports[k].0.ByBlock? ==> s.exports[k].0.block + |s.dispatch| < |starts|)
                  && ExportIndex(starts, s.exports[k].0, |s.dispatch|) < |entries|
                  && exports[k] == (entries[ExportIndex(starts, s.exports[k].0, |s.dispatch|)].position, s.exports[k].1)
    {
      var nth := match s.exports[e].0
                 case ByBlock(block) => starts[block + |s.dispatch|]
                 case ByInstruction(index) => index;
      exports := exports + [(entries[nth].position, s.exports[e].1)];
    }
  }

  // ---------- What a built program promises ----------

  /** Instructions the instruction set has, with operands of the right format. */
  ghost predicate AllSupported(s: Source) {
    && ValidIsa(s.isa) && (s.dispatch != [] ==> JUMP in s.isa.toRaw)
    && forall n :: 0 <= n < |s.code| ==> Supported(s.isa, s.code[n])
  }

  lemma {:induction false} PreparedSupported(s: Source, n: nat)
    requires BlocksFit(s) && Buildable(s) && AllSupported(s) && n < |Prepared(s)|
    ensures Supported(s.isa, Prepared(s)[n].instruction)
  {
    hide FindExport, BlocksFit, Buildable, ValidIsa;
    if n >= |s.dispatch| {
      assert Prepared(s)[n] == Fresh(Shifted(s.code[n - |s.dispatch|], |s.dispatch|), 0);
    }
  }

  lemma {:induction false} ResolvedSupported(isa: Isa, starts: seq<nat>, prepared: Entry, e: Entry)
    requires Supported(isa, prepared.instruction) && Resolved(starts, prepared, e)
    ensures Supported(isa, e.instruction) && OpcodeOf(e.instruction) == OpcodeOf(prepared.instruction)
  {
  }

  /** A built program is an emission of its layout, so the reader gives its instructions back. */
  lemma {:induction false} BuiltIsEmitted(s: Source, jumpTable: seq<nat>, entries: seq<Entry>, out: Serialized)
    requires BlocksFit(s) && Buildable(s) && AllSupported(s) && BuiltFrom(s, jumpTable, Prepared(s), entries, out)
    ensures Emitted(Program(s.isa, out.code, out.bitmask), entries)
  {
    hide Prepared, BlocksFit, Buildable, BlockStarts, Supported, Resolved, CodeOf, Mark, Starts, EncodePadded,
        LengthOf, TargetOf, SettledAt;
    hide TableIs, ExportsAre;
    var prepared := Prepared(s);
    var starts := BlockStarts(prepared, |prepared|);
    forall n | 0 <= n < |entries| ensures Supported(s.isa, entries[n].instruction) {
      PreparedSupported(s, n);
      ResolvedSupported(s.isa, starts, prepared[n], entries[n]);
    }
  }

  /** Block starts depend on the opcodes only. */
  lemma {:induction false} SameBlockStarts(a: seq<Entry>, b: seq<Entry>, n: nat)
    requires n <= |a| == |b| && forall j :: 0 <= j < |a| ==> OpcodeOf(a[j].instruction) == OpcodeOf(b[j].instruction)
    ensures BlockStarts(a, n) == BlockStarts(b, n)
  {
    if n > 0 { SameBlockStarts(a, b, n - 1); }
  }

  /** Every block of the source lies at a valid jump target. */
  lemma {:induction false} BlocksAreValidTargets(s: Source, entries: seq<Entry>, p: Program, block: nat)
    requires BlocksFit(s) && Buildable(s) && AllSupported(s) && Emitted(p, entries) && p.isa == s.isa
    requires var prepared := Prepared(s); LaidOut(s.isa, BlockStarts(prepared, |prepared|), prepared, entries)
    requires var prepared := Prepared(s); BlockExists(BlockStarts(prepared, |prepared|), |entries|, block)
    ensures |p.isa.fromRaw| == 256
    ensures var prepared := Prepared(s);
            JumpTargetValid(p, entries[BlockStarts(prepared, |prepared|)[block]].position)
  {
    hide Prepared, BlocksFit, Buildable, BlockStarts, Supported, Resolved, Emitted, EncodePadded, LengthOf, TargetOf,
        SettledAt;
    hide JumpTargetValid;
    var prepared := Prepared(s);
    var starts := BlockStarts(prepared, |prepared|);
    forall n | 0 <= n < |entries| ensures OpcodeOf(prepared[n].instruction) == OpcodeOf(entries[n].instruction) {
      PreparedSupported(s, n);
      ResolvedSupported(s.isa, starts, prepared[n], entries[n]);
    }
    SameBlockStarts(prepared, entries, |prepared|);
    assert starts[block] in starts;
    JumpTargetsAreBlocks(p, entries, entries[starts[block]].position);
  }

  /** Branches of the source go to the position of the block they name. */
  lemma {:induction false} BranchesHitTheirBlocks(s: Source, entries: seq<Entry>, n: nat)
    requires BlocksFit(s) && Buildable(s) && n < |s.code| && TargetOf(s.code[n]).Some?
    requires var prepared := Prepared(s); LaidOut(s.isa, BlockStarts(prepared, |prepared|), prepared, entries)
    ensures var prepared := Prepared(s);
            var starts := BlockStarts(prepared, |prepared|);
            var block := TargetOf(s.code[n]).value + |s.dispatch|;
            && BlockExists(starts, |entries|, block)
            && entries[|s.dispatch| + n].instruction == WithTarget(s.code[n], entries[starts[block]].position)
  {
    hide BlocksFit, Buildable, BlockStarts, Encoded, LengthOf, Prepared, TargetOf, WithTarget, Shifted, Resolved;
    var prepared := Prepared(s);
    var starts := BlockStarts(prepared, |prepared|);
    var e := entries[|s.dispatch| + n];
    ShiftFitsAt(s, n);
    PreparedCode(s, n);
    assert Resolved(starts, prepared[|s.dispatch| + n], e) && SettledAt(entries, |s.dispatch| + n);
    ResolvedBranch(s.code[n], |s.dispatch|, starts, e);
  }

  lemma {:induction false} PreparedCode(s: Source, n: nat)
    requires BlocksFit(s) && Buildable(s) && n < |s.code|
    ensures ShiftFits(s, n) && Prepared(s)[|s.dispatch| + n] == Fresh(Shifted(s.code[n], |s.dispatch|), 0)
  {
    hide FindExport, Shifted;
    ShiftFitsAt(s, n);
  }

  lemma {:induction false} ResolvedBranch(i: Instruction, shift: nat, starts: seq<nat>, e: Entry)
    requires TargetOf(i).Some? && TargetOf(i).value + shift < U32
    requires Resolved(starts, Fresh(Shifted(i, shift), 0), e)
    ensures TargetOf(i).value + shift < |starts| && e.targetIndex == Some(starts[TargetOf(i).value + shift])
    ensures TargetOf(e.instruction).Some? && e.instruction == WithTarget(i, TargetOf(e.instruction).value)
  {
  }

  /** Dispatch entry `n` is a jump at byte `5 * n` to its export's block. */
  lemma {:induction false} DispatchJumps(s: Source, entries: seq<Entry>, n: nat)
    requires BlocksFit(s) && Buildable(s) && n < |s.dispatch|
    requires var prepared := Prepared(s); LaidOut(s.isa, BlockStarts(prepared, |prepared|), prepared, entries)
    ensures var prepared := Prepared(s);
            var starts := BlockStarts(prepared, |prepared|);
            && entries[n].position == 5 * n && DispatchResolves(s, n)
            && var block := FindExport(s.exports, s.dispatch[n]).value.block + |s.dispatch|;
            && BlockExists(starts, |entries|, block)
            && entries[n].instruction == Op(JUMP, Offset(entries[starts[block]].position))
  {
    hide BlocksFit, BlockStarts, LengthOf, FindExport, EncodePadded;
    var prepared := Prepared(s);
    var starts := BlockStarts(prepared, |prepared|);
    forall j | 0 <= j < n ensures Encoded(s.isa, entries[j]) && entries[j].minimum == 5 {
      assert prepared[j] == DispatchEntry(s, j);
      assert Resolved(starts, prepared[j], entries[j]);
    }
    DispatchAt(s.isa, entries, n);
    assert prepared[n] == DispatchEntry(s, n);
    assert Resolved(starts, prepared[n], entries[n]) && SettledAt(entries, n);
  }

  /** Where the blocks of the jump table ended up. */
  ghost function TablePositions(s: Source, jumpTable: seq<nat>, prepared: seq<Entry>, entries: seq<Entry>,
      out: Serialized): (r: seq<u32>)
    requires BuiltFrom(s, jumpTable, prepared, entries, out)
    ensures |r| == |jumpTable| && out.entrySize == EntrySize(r) && out.jumpTable == Table(r, out.entrySize)
  {
    BlockPositions(entries, BlockStarts(prepared, |prepared|), jumpTable, |s.dispatch|)
  }

  /** Jump table entry `i` reads back as the position of its block exactly when the low bytes of some block
      in the table are non-zero as far as that position has significant bytes. Otherwise it reads as what the
      entry size leaves of the position, or not at all. */
  lemma {:induction false} JumpTableReadsBackIff(
      s: Source, jumpTable: seq<nat>, prepared: seq<Entry>, entries: seq<Entry>, out: Serialized, i: nat)
    requires BuiltFrom(s, jumpTable, prepared, entries, out) && i < |jumpTable|
    ensures var positions := TablePositions(s, jumpTable, prepared, entries, out);
            && (GetByIndex(out.jumpTable, out.entrySize, i) == Some(positions[i])
                <==> Covered(positions, i) && IndexFits(positions, i))
            && GetByIndex(out.jumpTable, out.entrySize, i) ==
               if IndexFits(positions, i) && out.entrySize != 0 then Some(positions[i] % Pow256(out.entrySize))
               else None
  {
    hide BuiltFrom, TablePositions, Table, EntrySize, GetByIndex, Pow256, Covered, IndexFits;
    var positions := TablePositions(s, jumpTable, prepared, entries, out);
    WrittenEntryReadsBackIff(positions, i);
    EntryReadsAs(positions, i);
  }
}
