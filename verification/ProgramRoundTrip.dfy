/** From a program's source to its blob and back to running code. */
module ProgramRoundTrip {
  import opened Wrappers
  import opened Bytes
  import opened Bitmask
  import opened Codec
  import opened Traversal
  import opened TraversalCoverage
  import opened CodeWriter
  import opened CodeRoundTrip
  import opened JumpTable
  import opened CodeSerializer
  import opened BlobWriter
  import opened BlobContents
  import opened BlobRoundTrip

  /** The program a reader makes of a parsed blob. */
  function ProgramOf(isa: Isa, l: Loaded): Program {
    Program(isa, l.code.code, l.code.bitmask)
  }

  /** Whatever bytes parse, the traversals apply to the code in them. */
  lemma {:induction false} ParsedIsTraversable(isa: Isa, blob: seq<byte>)
    requires |isa.fromRaw| == 256 && Parse(blob).Some?
    ensures ValidProgram(ProgramOf(isa, Parse(blob).value))
  {
    hide Parse, Mark;
    ParsedMaskIsValid(blob);
  }

  lemma {:induction false} LimitsMeanWritable(m: Image)
    requires WithinLimits(m)
    ensures Writable(m)
  {
  }

  /** A built program, written to a blob and parsed, delivers its instructions at their positions. */
  lemma {:induction false} WrittenProgramReadsBack(
    s: Source, jumpTable: seq<nat>, entries: seq<Entry>, out: Serialized, m: Image)
    requires BlocksFit(s) && Buildable(s) && AllSupported(s) && BuiltFrom(s, jumpTable, Prepared(s), entries, out)
    requires entries != [] && WithinLimits(m)
    requires m.code.code == out.code && m.code.bitmask == out.bitmask
    ensures Parse(Blob(m)).Some?
    ensures var p := ProgramOf(s.isa, Parse(Blob(m)).value);
            ValidProgram(p) && Collect(p, false, Start(p, 0, false)) == Written(entries, 0) + Tail(p, entries)
  {
    hide Parse, Blob, BuiltFrom, BlocksFit, Buildable, Prepared, WithinLimits, Collect, Written, Emitted,
        AllSupported, ValidProgram;
    LimitsMeanWritable(m);
    ParseWritten(m);
    BuiltIsEmitted(s, jumpTable, entries, out);
    IteratorReadsBack(ProgramOf(s.isa, Parse(Blob(m)).value), entries);
  }

  /** The exports a reader finds in a parsed blob. */
  function ExportsIn(l: Loaded): seq<(u32, seq<byte>)> {
    ExportsFrom(l.parts.exports, if l.parts.exports == [] then Finished else Uninitialized, 0)
  }

  /** What a reader makes of a written blob. */
  function Reread(m: Image): (l: Loaded)
    requires WithinLimits(m)
    ensures l.code == m.code && l.code.entrySize <= 4 && ExportsIn(l) == m.exports
  {
    BlobReadsBack(m);
    LimitsMeanWritable(m);
    Parse(Blob(m)).value
  }

  /** Entry `i` of the jump table of a built program, written to a blob and parsed, reads as the position of
      its block exactly when the table keeps that position; and the exports are those of the program. */
  lemma {:induction false} WrittenTablesReadBack(
    s: Source, jumpTable: seq<nat>, prepared: seq<Entry>, entries: seq<Entry>, out: Serialized, m: Image, i: nat)
    requires BuiltFrom(s, jumpTable, prepared, entries, out) && i < |jumpTable| && WithinLimits(m)
    requires m.code.jumpTable == out.jumpTable && m.code.entrySize == out.entrySize && m.exports == out.exports
    ensures var positions := TablePositions(s, jumpTable, prepared, entries, out);
            GetByIndex(Reread(m).code.jumpTable, Reread(m).code.entrySize, i) == Some(positions[i])
            <==> Covered(positions, i) && IndexFits(positions, i)
    ensures ExportsAre(s, BlockStarts(prepared, |prepared|), entries, ExportsIn(Reread(m)))
  {
    BuiltExports(s, jumpTable, prepared, entries, out);
    hide Reread, BuiltFrom, WithinLimits, TablePositions, GetByIndex, Covered, IndexFits, ExportsIn, ExportsAre;
    JumpTableReadsBackIff(s, jumpTable, prepared, entries, out, i);
  }

  lemma {:induction false} BuiltExports(s: Source, jumpTable: seq<nat>, prepared: seq<Entry>, entries: seq<Entry>,
      out: Serialized)
    requires BuiltFrom(s, jumpTable, prepared, entries, out)
    ensures ExportsAre(s, BlockStarts(prepared, |prepared|), entries, out.exports)
  {
  }
}
