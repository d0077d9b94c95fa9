/** What the code writer emits, the reader reads back. */
module CodeRoundTrip {
  import opened Bytes
  import opened Codec
  import opened CodecRoundTrip
  import opened Bitmask
  import opened Traversal
  import opened TraversalCoverage
  import opened CodeWriter
  import opened CodeImage

  /** Code bytes and mask as they are emitted for a settled layout of supported instructions. */
  ghost predicate Emitted(p: Program, entries: seq<Entry>) {
    && ValidIsa(p.isa) && TargetsWithin(entries)
    && (forall n :: 0 <= n < |entries| ==> Encoded(p.isa, entries[n]) && Supported(p.isa, entries[n].instruction))
    && (forall n :: 0 <= n < |entries| ==> SettledAt(entries, n))
    && p.code == CodeOf(entries, |entries|) && |p.code| < U32 && MaskFits(p.bitmask, |p.code|)
    && (forall i :: 0 <= i ==> Mark(p.bitmask, i) == (i < |p.code| && Starts(entries, |entries|)[i]))
  }

  lemma {:induction false} EntryLength(isa: Isa, e: Entry)
    requires Encoded(isa, e)
    ensures 1 <= |e.bytes| <= 12 && |e.bytes| >= e.minimum
  {
  }

  lemma {:induction false} EmittedIsValid(p: Program, entries: seq<Entry>)
    requires Emitted(p, entries)
    ensures ValidProgram(p)
  {
  }

  lemma {:induction false} EmittedLength(p: Program, entries: seq<Entry>)
    requires Emitted(p, entries)
    ensures |p.code| == LengthOf(entries, |entries|)
  {
  }

  /** The scan from the start of instruction `n` finds the start of the next one, or the end. */
  lemma {:induction false} NextIsNext(p: Program, entries: seq<Entry>, n: nat)
    requires Emitted(p, entries) && n < |entries|
    ensures var o := LengthOf(entries, n);
            && o < |p.code| && Mark(p.bitmask, o) && LengthOf(entries, n + 1) <= |p.code|
            && LengthOf(entries, n + 1) == o + |entries[n].bytes|
            && NextMarked(p, o + 1) == LengthOf(entries, n + 1)
            && Skip(p.bitmask, |p.code|, o) == |entries[n].bytes| - 1
            && (n + 1 < |entries| ==> NextMark(p.bitmask, o + 1) == LengthOf(entries, n + 1) < |p.code|)
  {
    hide Mark, NextMark, Encoded, SettledAt, Supported, Starts, CodeOf;
    forall j | 0 <= j < |entries| ensures |entries[j].bytes| > 0 {
      EntryLength(p.isa, entries[j]);
    }
    EntryLength(p.isa, entries[n]);
    StartsAt(entries, |entries|, n);
    var o, next := LengthOf(entries, n), LengthOf(entries, n + 1);
    if n + 1 < |entries| {
      StartsAt(entries, |entries|, n + 1);
      NextMarkIs(p.bitmask, o + 1, next);
    } else {
      NextMarkIs(p.bitmask, o + 1, 8 * |p.bitmask|);
    }
  }

  lemma {:induction false} EntryFacts(p: Program, entries: seq<Entry>, n: nat)
    requires Emitted(p, entries) && n < |entries|
    ensures ValidIsa(p.isa) && |p.isa.fromRaw| == 256 && |p.code| < U32
    ensures Supported(p.isa, entries[n].instruction) && Padding(entries[n].instruction, entries[n].minimum)
    ensures entries[n].position == LengthOf(entries, n)
    ensures entries[n].bytes == EncodePadded(p.isa, LengthOf(entries, n), entries[n].minimum, entries[n].instruction)
    ensures var o := LengthOf(entries, n);
            o + |entries[n].bytes| <= |p.code| && p.code[o..o + |entries[n].bytes|] == entries[n].bytes
  {
    hide Supported, EncodePadded, TargetOf, CodeOf, Mark, Starts;
    assert SettledAt(entries, n);
    CodeAt(entries, |entries|, n);
  }

  /** The chunk read at `o` starts with the operand bytes written there. */
  lemma {:induction false} ChunkStarts(p: Program, o: nat, bytes: seq<byte>)
    requires 1 <= |bytes| <= 16 && o + |bytes| <= |p.code| && p.code[o..o + |bytes|] == bytes
    ensures p.code[o] == bytes[0] && SlowChunk(p, o)[..|bytes| - 1] == bytes[1..]
  {
    assert p.code[o] == p.code[o..o + |bytes|][0];
    assert SlowChunk(p, o)[..|bytes| - 1] == p.code[o..o + |bytes|][1..];
  }

  /** The reader decodes instruction `n` at its position. */
  lemma {:induction false} ReadsBack(p: Program, entries: seq<Entry>, n: nat)
    requires Emitted(p, entries) && n < |entries|
    ensures |p.isa.fromRaw| == 256
    ensures var o := LengthOf(entries, n); o < |p.code| < U32 && InstructionAt(p, o) == entries[n].instruction
  {
    hide Emitted, EncodePadded, Skip, Decode, FromLe, LengthOf, TargetOf, NextMarked, Supported, ValidIsa, SlowChunk,
        NextMark, Mark;
    NextIsNext(p, entries, n);
    EntryFacts(p, entries, n);
    var o, e := LengthOf(entries, n), entries[n];
    ChunkStarts(p, o, e.bytes);
    DecodeEncoded(p.isa, o, e.minimum, e.instruction, SlowChunk(p, o));
  }

  /** The events for instructions `n` and on. */
  function Written(entries: seq<Entry>, n: nat): seq<Event>
    requires n <= |entries|
    decreases |entries| - n
  {
    if n == |entries| then []
    else [Event(entries[n].position, entries[n].instruction)] + Written(entries, n + 1)
  }

  /** The `Invalid` the iterator adds when execution can run off the end. */
  function Tail(p: Program, entries: seq<Entry>): seq<Event> {
    if entries != [] && OpcodeOf(entries[|entries| - 1].instruction).canFallthrough then [Event(|p.code|, Invalid)]
    else []
  }

  /** Only the last instruction is followed by an `Invalid`, and only if it can fall through. */
  lemma {:induction false} TrapsOnlyAtEnd(p: Program, entries: seq<Entry>, n: nat)
    requires Emitted(p, entries) && n < |entries|
    ensures var o := LengthOf(entries, n);
            && o < |p.code| && |p.isa.fromRaw| == 256
            && (Traps(Iterating, p, o) <==> n + 1 == |entries| && OpcodeOf(entries[n].instruction).canFallthrough)
            && (n + 1 == |entries| ==> NextAfter(p, o) == |p.code|)
  {
    hide Emitted, Mark, NextMark, InstructionAt, EncodePadded, Supported, ValidIsa, GetBit, LengthOf, CanFallThrough;
    NextIsNext(p, entries, n);
    ReadsBack(p, entries, n);
    EntryFacts(p, entries, n);
    EmittedLength(p, entries);
    DecodedFallsThrough(p, LengthOf(entries, n));
  }

  lemma {:induction false} VisitsWritten(p: Program, entries: seq<Entry>, n: nat)
    requires Emitted(p, entries) && n <= |entries|
    ensures |p.isa.fromRaw| == 256
    ensures Visits(p, LengthOf(entries, n), Iterating) ==
              Written(entries, n) + (if n < |entries| then Tail(p, entries) else [])
    decreases |entries| - n
  {
    hide Emitted, Mark, NextMark, InstructionAt, Traps, NextAfter, EncodePadded, Supported;
    EmittedIsValid(p, entries);
    EmittedLength(p, entries);
    if n < |entries| {
      var o := LengthOf(entries, n);
      NextIsNext(p, entries, n);
      ReadsBack(p, entries, n);
      TrapsOnlyAtEnd(p, entries, n);
      VisitsWritten(p, entries, n + 1);
      EntryFacts(p, entries, n);
    }
  }

  /** Encode then decode, for whole programs: the unbounded iterator gives back exactly the written instructions, at
      the written positions, and one `Invalid` at the end if the last one can fall through. */
  lemma {:induction false} IteratorReadsBack(p: Program, entries: seq<Entry>)
    requires Emitted(p, entries) && entries != []
    ensures ValidProgram(p)
    ensures Collect(p, false, Start(p, 0, false)) == Written(entries, 0) + Tail(p, entries)
  {
    hide NextMark, Encoded, Starts, Supported, CodeOf, Collect, Visits;
    EmittedIsValid(p, entries);
    IteratorCoversAll(p);
    NextIsNext(p, entries, 0);
    FirstMark(p);
    VisitsWritten(p, entries, 0);
  }
}
