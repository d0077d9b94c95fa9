/** Parsing what was written gives back everything that was put in. */
module BlobRoundTrip {
  import opened Wrappers
  import opened Bytes
  import opened Bitmask
  import opened Varint
  import opened BlobWriter
  import opened BlobReader
  import opened BlobContents

  // ---------- Single fields ----------

  /** The blob goes on with `s`, to its end. */
  ghost predicate Ahead(blob: seq<byte>, q: nat, s: seq<byte>) {
    q <= |blob| && blob[q..] == s
  }

  lemma {:induction false} VarintBack(blob: seq<byte>, q: nat, v: u32, rest: seq<byte>)
    requires Ahead(blob, q, EncodeVarint(v) + rest)
    ensures VarintAt(blob, q) == Some((v, q + |EncodeVarint(v)|)) && Ahead(blob, q + |EncodeVarint(v)|, rest)
  {
    hide EncodeVarint, ReadVarint;
    var s := EncodeVarint(v);
    assert blob[q] == blob[q..][0] == s[0];
    assert blob[q + 1..] == blob[q..][1..] == s[1..] + rest;
    VarintRoundTrip(v, rest);
    assert blob[q + |s|..] == blob[q..][|s|..];
  }

  lemma {:induction false} SliceBack(blob: seq<byte>, q: nat, s: seq<byte>, rest: seq<byte>)
    requires Ahead(blob, q, s + rest)
    ensures SliceAt(blob, q, |s|) == Some((s, q + |s|)) && Ahead(blob, q + |s|, rest)
  {
    assert blob[q..q + |s|] == blob[q..][..|s|];
    assert blob[q + |s|..] == blob[q..][|s|..];
  }

  lemma {:induction false} ByteBack(blob: seq<byte>, q: nat, b: byte, rest: seq<byte>)
    requires Ahead(blob, q, [b] + rest)
    ensures q < |blob| && blob[q] == b && ByteAt(blob, q) == Some((b, q + 1)) && Ahead(blob, q + 1, rest)
  {
    assert blob[q] == blob[q..][0];
    assert blob[q + 1..] == blob[q..][1..];
  }

  lemma {:induction false} CursorBack(blob: seq<byte>, q: nat, rest: seq<byte>)
    requires Ahead(blob, q, rest) && rest != []
    ensures q < |blob| && blob[q] == rest[0] && SectionByte(blob, q) == Some(CursorAt(blob, q))
  {
    assert blob[q] == blob[q..][0];
  }

  lemma {:induction false} Assoc4(a: seq<byte>, b: seq<byte>, c: seq<byte>, d: seq<byte>)
    ensures a + b + c + d == a + (b + (c + d))
  {
    Assoc(a + b, c, d);
    Assoc(a, b, c + d);
  }

  /** The cursor just after the byte at `q`. */
  function CursorAt(blob: seq<byte>, q: nat): Cursor
    requires q < |blob|
  {
    Cursor(blob[q], q + 1)
  }

  /** A written section: where its payload starts. */
  lemma {:induction false} SectionOpens(blob: seq<byte>, q: nat, id: byte, payload: seq<byte>, rest: seq<byte>)
    requires payload != [] && |payload| < U32 && Ahead(blob, q, Section(id, payload) + rest)
    ensures q < |blob| && blob[q] == id
    ensures var n := q + 1 + |EncodeVarint(|payload|)|;
            && VarintAt(blob, q + 1) == Some((|payload|, n)) && Ahead(blob, n, payload + rest)
            && q + |Section(id, payload)| == n + |payload|
  {
    hide EncodeVarint, VarintAt, Ahead;
    var length := EncodeVarint(|payload|);
    Assoc4([id], length, payload, rest);
    ByteBack(blob, q, id, length + (payload + rest));
    VarintBack(blob, q + 1, |payload|, payload + rest);
  }

  lemma {:induction false} SectionLeftOut(blob: seq<byte>, q: nat, id: byte, rest: seq<byte>)
    requires Ahead(blob, q, Section(id, []) + rest) && rest != []
    ensures Section(id, []) == [] && Ahead(blob, q, rest) && q < |blob| && blob[q] == rest[0]
  {
    assert Section(id, []) + rest == rest;
    CursorBack(blob, q, rest);
  }

  /** A plain section reads back, and the cursor moves to the byte after it. */
  lemma {:induction false} SectionBack(blob: seq<byte>, q: nat, id: byte, payload: seq<byte>, rest: seq<byte>)
    requires |payload| < U32 && Ahead(blob, q, Section(id, payload) + rest) && rest != [] && rest[0] != id
    ensures var n := q + |Section(id, payload)|;
            && q < |blob| && n < |blob| && Ahead(blob, n, rest)
            && SectionAt(blob, CursorAt(blob, q), id) == Some((payload, CursorAt(blob, n)))
  {
    hide EncodeVarint, VarintAt, Ahead, Section, SliceAt, SectionByte;
    if payload == [] {
      SectionLeftOut(blob, q, id, rest);
    } else {
      SectionOpens(blob, q, id, payload, rest);
      var n := q + 1 + |EncodeVarint(|payload|)|;
      SliceBack(blob, n, payload, rest);
      CursorBack(blob, n + |payload|, rest);
    }
  }

  // ---------- Memory configuration ----------

  lemma {:induction false} MemoryBack(blob: seq<byte>, q: nat, m: Image, rest: seq<byte>)
    requires Ahead(blob, q, Section(MEMORY_CONFIG, MemoryPayload(m)) + rest) && rest != [] && rest[0] != MEMORY_CONFIG
    ensures var n := q + |Section(MEMORY_CONFIG, MemoryPayload(m))|;
            && q < |blob| && n < |blob| && Ahead(blob, n, rest)
            && MemoryAt(blob, CursorAt(blob, q)) == Some((m.roSize, m.rwSize, m.stackSize, CursorAt(blob, n)))
  {
    hide EncodeVarint, VarintAt, Section, Ahead, SectionByte;
    var payload := MemoryPayload(m);
    if payload == [] {
      SectionLeftOut(blob, q, MEMORY_CONFIG, rest);
    } else {
      SectionOpens(blob, q, MEMORY_CONFIG, payload, rest);
      var start := q + 1 + |EncodeVarint(|payload|)|;
      var a, b, c := EncodeVarint(m.roSize), EncodeVarint(m.rwSize), EncodeVarint(m.stackSize);
      Assoc4(a, b, c, rest);
      VarintBack(blob, start, m.roSize, b + (c + rest));
      VarintBack(blob, start + |a|, m.rwSize, c + rest);
      VarintBack(blob, start + |a| + |b|, m.stackSize, rest);
      CursorBack(blob, start + |payload|, rest);
    }
  }

  // ---------- Imports ----------

  lemma {:induction false} ImportsBack(blob: seq<byte>, q: nat, m: Image, rest: seq<byte>)
    requires |m.imports| <= MAXIMUM_IMPORT_COUNT && |ImportsPayload(m)| < U32
    requires Ahead(blob, q, Section(IMPORTS, ImportsPayload(m)) + rest) && rest != [] && rest[0] != IMPORTS
    ensures var n := q + |Section(IMPORTS, ImportsPayload(m))|;
            && q < |blob| && n < |blob| && Ahead(blob, n, rest)
            && ImportsAt(blob, CursorAt(blob, q))
               == Some((ImportOffsets(m.imports, |m.imports|), ImportSymbols(m.imports, |m.imports|),
                 CursorAt(blob, n)))
  {
    hide EncodeVarint, VarintAt, Section, SliceAt, ImportOffsets, ImportSymbols, Ahead, SectionByte;
    var payload := ImportsPayload(m);
    if m.imports == [] {
      SectionLeftOut(blob, q, IMPORTS, rest);
      NoImports();
    } else {
      SectionOpens(blob, q, IMPORTS, payload, rest);
      var start := q + 1 + |EncodeVarint(|payload|)|;
      var count := |m.imports|;
      var a, b, c := EncodeVarint(count), ImportOffsets(m.imports, count), ImportSymbols(m.imports, count);
      Assoc4(a, b, c, rest);
      VarintBack(blob, start, count, b + (c + rest));
      SliceBack(blob, start + |a|, b, c + rest);
      SliceBack(blob, start + |a| + |b|, c, rest);
      CursorBack(blob, start + |payload|, rest);
    }
  }

  lemma {:induction false} NoImports()
    ensures ImportOffsets([], 0) == [] && ImportSymbols([], 0) == []
  {
  }

  // ---------- The whole blob ----------

  /** What the reader accepts: the format's own limits. */
  predicate WithinLimits(m: Image) {
    && Writable(m) && m.version <= 3 && |m.ro| <= m.roSize && |m.rw| <= m.rwSize
    && |m.imports| <= MAXIMUM_IMPORT_COUNT
    && HEADER + |Sections(m, 1)| < Pow256(8)
    && GoodCode(m.code)
  }

  predicate GoodCode(c: CodeParts) {
    && |c.code| <= MAXIMUM_CODE_SIZE && c.entryCount <= MAXIMUM_JUMP_TABLE_ENTRIES && c.entrySize <= 4
    && c.entryCount * c.entrySize < U32 && |c.jumpTable| == c.entryCount * c.entrySize
    && MaskFits(c.bitmask, |c.code|) && PaddedWithZeros(c.bitmask, |c.code|)
  }

  /** After section `k - 1` comes a later section or the end. */
  lemma {:induction false} LaterSection(m: Image, k: nat)
    requires Writable(m) && 1 <= k <= 7
    ensures Sections(m, k)[0] == END_OF_FILE || k <= Sections(m, k)[0] <= 6
    decreases 7 - k
  {
    hide Payload, Writable;
    if k < 7 {
      LaterSection(m, k + 1);
      if Payload(m, k) == [] {
        assert Section(k, Payload(m, k)) + Sections(m, k + 1) == Sections(m, k + 1);
      }
    }
  }

  /** The parts a reader must find. */
  function PartsOf(m: Image): Parts
    requires Writable(m)
  {
    Parts(m.version, m.roSize, m.rwSize, m.stackSize, m.ro, m.rw,
          ImportOffsets(m.imports, |m.imports|), ImportSymbols(m.imports, |m.imports|),
          ExportsPayload(m), CodePayload(m.code), [], [], [], [])
  }

  lemma {:induction false} HeaderBack(m: Image)
    requires WithinLimits(m)
    ensures var blob := Blob(m);
            SectionsFrom(m, blob, 1, HEADER) && HeaderAt(blob) == Some((m.version, CursorAt(blob, HEADER)))
  {
    hide Sections, LowBytes, FromLe, Writable, GoodCode;
    var blob := Blob(m);
    var length := LowBytes(HEADER + |Sections(m, 1)|, 8);
    assert blob[..4] == MAGIC;
    assert blob[4] == m.version;
    assert blob[5..] == length + Sections(m, 1);
    SliceBack(blob, 5, length, Sections(m, 1));
    FromLowBytes(|blob|, 8);
    CursorBack(blob, HEADER, Sections(m, 1));
  }

  /** Section `k` and the rest start at `q`. */
  ghost predicate SectionsFrom(m: Image, blob: seq<byte>, k: nat, q: nat)
    requires Writable(m) && 1 <= k <= 7
  {
    q < |blob| && Ahead(blob, q, Sections(m, k))
  }

  lemma {:induction false} PlainSectionBack(m: Image, blob: seq<byte>, k: nat, q: nat) returns (n: nat)
    requires Writable(m) && 1 <= k <= 6 && SectionsFrom(m, blob, k, q)
    ensures SectionsFrom(m, blob, k + 1, n)
    ensures SectionAt(blob, CursorAt(blob, q), k) == Some((Payload(m, k), CursorAt(blob, n)))
  {
    hide Section, Payload, Writable, SectionAt, Ahead;
    LaterSection(m, k + 1);
    SectionBack(blob, q, k, Payload(m, k), Sections(m, k + 1));
    n := q + |Section(k, Payload(m, k))|;
  }

  /** At the end marker every optional section is absent. */
  lemma {:induction false} AbsentAtEnd(m: Image, blob: seq<byte>, q: nat, id: byte)
    requires Writable(m) && SectionsFrom(m, blob, 7, q) && id != END_OF_FILE
    ensures SectionAt(blob, CursorAt(blob, q), id) == Some(([], CursorAt(blob, q)))
    ensures SkipOptional(blob, CursorAt(blob, q)) == Some(CursorAt(blob, q)) && blob[q] == END_OF_FILE
  {
    hide Writable;
    assert blob[q] == blob[q..][0];
  }

  lemma {:induction false} MemorySectionBack(m: Image, blob: seq<byte>, q: nat) returns (n: nat)
    requires Writable(m) && SectionsFrom(m, blob, 1, q)
    ensures SectionsFrom(m, blob, 2, n)
    ensures MemoryAt(blob, CursorAt(blob, q)) == Some((m.roSize, m.rwSize, m.stackSize, CursorAt(blob, n)))
  {
    hide Section, Writable, MemoryAt, MemoryPayload, Ahead;
    LaterSection(m, 2);
    MemoryBack(blob, q, m, Sections(m, 2));
    n := q + |Section(MEMORY_CONFIG, MemoryPayload(m))|;
  }

  lemma {:induction false} ImportSectionBack(m: Image, blob: seq<byte>, q: nat) returns (n: nat)
    requires Writable(m) && |m.imports| <= MAXIMUM_IMPORT_COUNT && SectionsFrom(m, blob, 4, q)
    ensures SectionsFrom(m, blob, 5, n)
    ensures ImportsAt(blob, CursorAt(blob, q))
            == Some((ImportOffsets(m.imports, |m.imports|), ImportSymbols(m.imports, |m.imports|), CursorAt(blob, n)))
  {
    hide Section, ImportsAt, ImportsPayload, ExportsPayload, CodePayload, Ahead;
    LaterSection(m, 5);
    ImportsBack(blob, q, m, Sections(m, 5));
    n := q + |Section(IMPORTS, ImportsPayload(m))|;
  }

  /** Splitting a written blob gives back its sections. */
  lemma {:induction false} PartsBack(m: Image)
    requires WithinLimits(m)
    ensures ParseParts(Blob(m)) == Some(PartsOf(m))
  {
    hide HeaderAt, MemoryAt, SectionAt, ImportsAt, SkipOptional, Blob, Sections, Writable, GoodCode, Section;
    hide MemoryPayload, ImportsPayload, ExportsPayload, CodePayload, SectionsFrom, ImportOffsets, ImportSymbols;
    var blob := Blob(m);
    HeaderBack(m);
    var q2 := MemorySectionBack(m, blob, HEADER);
    var q3 := PlainSectionBack(m, blob, 2, q2);
    var q4 := PlainSectionBack(m, blob, 3, q3);
    var q5 := ImportSectionBack(m, blob, q4);
    var q6 := PlainSectionBack(m, blob, 5, q5);
    var q7 := PlainSectionBack(m, blob, 6, q6);
    AbsentAtEnd(m, blob, q7, DEBUG_STRINGS);
    AbsentAtEnd(m, blob, q7, DEBUG_LINE_PROGRAMS);
    AbsentAtEnd(m, blob, q7, DEBUG_LINE_PROGRAM_RANGES);
    AbsentAtEnd(m, blob, q7, METADATA_HASH);
  }

  lemma {:induction false} CodePayloadIs(c: CodeParts)
    requires |c.code| < U32
    ensures CodePayload(c) ==
            EncodeVarint(c.entryCount) +
              ([c.entrySize] + (EncodeVarint(|c.code|) + (c.jumpTable + (c.code + c.bitmask))))
  {
    hide EncodeVarint;
    var a, s, b := EncodeVarint(c.entryCount), [c.entrySize], EncodeVarint(|c.code|);
    Assoc4(a + s + b, c.jumpTable, c.code, c.bitmask);
    Assoc4(a, s, b, c.jumpTable + (c.code + c.bitmask));
  }

  lemma {:induction false} CodeHeaderBack(c: CodeParts)
    requires GoodCode(c)
    ensures var payload := CodePayload(c);
            var n := |EncodeVarint(c.entryCount)| + 1 + |EncodeVarint(|c.code|)|;
            && CodeHeaderAt(payload) == Some((c.entryCount, c.entrySize, |c.code|, n))
            && Ahead(payload, n, c.jumpTable + (c.code + c.bitmask))
  {
    hide EncodeVarint, VarintAt, ByteAt, PaddedWithZeros, CodePayload, Ahead;
    var payload := CodePayload(c);
    var a, b := EncodeVarint(c.entryCount), EncodeVarint(|c.code|);
    var tail := c.jumpTable + (c.code + c.bitmask);
    CodePayloadIs(c);
    AheadAtStart(payload);
    VarintBack(payload, 0, c.entryCount, [c.entrySize] + (b + tail));
    ByteBack(payload, |a|, c.entrySize, b + tail);
    VarintBack(payload, |a| + 1, |c.code|, tail);
  }

  lemma {:induction false} CodeBack(c: CodeParts)
    requires GoodCode(c)
    ensures |c.code| < U32 && ParseCode(CodePayload(c)) == Some(c)
  {
    hide EncodeVarint, CodeHeaderAt, SliceAt, PaddedWithZeros, CodePayload, Ahead;
    var payload := CodePayload(c);
    var n := |EncodeVarint(c.entryCount)| + 1 + |EncodeVarint(|c.code|)|;
    CodeHeaderBack(c);
    SliceBack(payload, n, c.jumpTable, c.code + c.bitmask);
    SliceBack(payload, n + |c.jumpTable|, c.code, c.bitmask);
    AheadIs(payload, n + |c.jumpTable| + |c.code|, c.bitmask);
  }

  lemma {:induction false} AheadAtStart(blob: seq<byte>)
    ensures Ahead(blob, 0, blob)
  {
  }

  lemma {:induction false} AheadIs(blob: seq<byte>, q: nat, s: seq<byte>)
    requires Ahead(blob, q, s)
    ensures q <= |blob| && blob[q..] == s
  {
  }

  /** Parsing a written blob succeeds and gives back all its parts. */
  lemma {:induction false} ParseWritten(m: Image)
    requires WithinLimits(m)
    ensures Parse(Blob(m)) == Some(Loaded(PartsOf(m), m.code))
  {
    hide ParseParts, Blob, ParseCode, EncodeVarint, Sections, ImportsPayload, ExportsPayload;
    PartsBack(m);
    CodeBack(m.code);
  }

  // ---------- Exports ----------

  lemma {:induction false} ExportBack(blob: seq<byte>, q: nat, e: (u32, seq<byte>), rest: seq<byte>)
    requires |e.1| < U32 && Ahead(blob, q, ExportBytes(e) + rest)
    ensures var n := q + |ExportBytes(e)|; ExportAt(blob, q) == Some((e.0, e.1, n)) && Ahead(blob, n, rest)
  {
    hide EncodeVarint, VarintAt, SliceAt, Ahead;
    var a, b := EncodeVarint(e.0), EncodeVarint(|e.1|);
    Assoc4(a, b, e.1, rest);
    VarintBack(blob, q, e.0, b + (e.1 + rest));
    VarintBack(blob, q + |a|, |e.1|, e.1 + rest);
    SliceBack(blob, q + |a| + |b|, e.1, rest);
  }

  lemma {:induction false} ExportListBack(blob: seq<byte>, q: nat, exports: seq<(u32, seq<byte>)>, i: nat)
    requires SymbolsFit(exports) && i <= |exports| && Ahead(blob, q, ExportList(exports, i))
    ensures ExportsFrom(blob, Pending(|exports| - i), q) == exports[i..]
    decreases |exports| - i
  {
    hide ExportBytes, ExportAt, Ahead;
    if i < |exports| {
      ExportBack(blob, q, exports[i], ExportList(exports, i + 1));
      ExportListBack(blob, q + |ExportBytes(exports[i])|, exports, i + 1);
      assert exports[i..] == [exports[i]] + exports[i + 1..];
    }
  }

  /** The export iterator over a written export section delivers the exports. */
  lemma {:induction false} ExportsBack(m: Image)
    requires Writable(m)
    ensures var payload := ExportsPayload(m);
            ExportsFrom(payload, if payload == [] then Finished else Uninitialized, 0) == m.exports
  {
    hide EncodeVarint, VarintAt, ExportAt, ImportsPayload, CodePayload, Ahead;
    var payload := ExportsPayload(m);
    if m.exports != [] {
      AheadAtStart(payload);
      VarintBack(payload, 0, |m.exports|, ExportList(m.exports, 0));
      ExportListBack(payload, |EncodeVarint(|m.exports|)|, m.exports, 0);
    }
  }

  /** Everything a caller sees of a written blob is what was put in. */
  lemma {:induction false} BlobReadsBack(m: Image)
    requires WithinLimits(m)
    ensures Parse(Blob(m)).Some?
    ensures var l := Parse(Blob(m)).value;
            && l.parts.version == m.version && l.code == m.code
            && (l.parts.roSize, l.parts.rwSize, l.parts.stackSize) == (m.roSize, m.rwSize, m.stackSize)
            && l.parts.ro == m.ro && l.parts.rw == m.rw
            && (forall i :: 0 <= i < |m.imports| ==>
                  ImportAt(l.parts.importOffsets, l.parts.importSymbols, i) == Some(m.imports[i]))
            && |l.parts.importOffsets| / 4 == |m.imports|
            && ExportsFrom(l.parts.exports, if l.parts.exports == [] then Finished else Uninitialized, 0) == m.exports
  {
    hide Parse, Blob, ExportsFrom, ImportAt, Sections, CodePayload, ExportsPayload;
    ParseWritten(m);
    ExportsBack(m);
    forall i | 0 <= i < |m.imports|
      ensures ImportAt(ImportOffsets(m.imports, |m.imports|), ImportSymbols(m.imports, |m.imports|), i) ==
                Some(m.imports[i])
    {
      ImportReadsBack(m.imports, i);
    }
  }
}
