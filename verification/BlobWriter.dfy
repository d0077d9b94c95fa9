/** Writing a program blob: header, sections, end marker. */
module BlobWriter {
  import opened Bytes
  import opened Varint

  const MEMORY_CONFIG: byte := 1
  const RO_DATA: byte := 2
  const RW_DATA: byte := 3
  const IMPORTS: byte := 4
  const EXPORTS: byte := 5
  const CODE_AND_JUMP_TABLE: byte := 6
  const END_OF_FILE: byte := 0

  const MAGIC: seq<byte> := [0x50, 0x56, 0x4D, 0x00]

  /** The serialized code section, before framing. */
  datatype CodeParts = CodeParts(
    entryCount: u32, entrySize: byte, jumpTable: seq<byte>, code: seq<byte>, bitmask: seq<byte>)

  /** Everything a blob holds. */
  datatype Image = Image(
    version: byte,
    roSize: u32, rwSize: u32, stackSize: u32,
    ro: seq<byte>, rw: seq<byte>,
    imports: seq<seq<byte>>,
    exports: seq<(u32, seq<byte>)>,
    code: CodeParts)

  // ---------- Payloads ----------

  function MemoryPayload(m: Image): seq<byte> {
    if m.roSize > 0 || m.rwSize > 0 || m.stackSize > 0 then
      EncodeVarint(m.roSize) + EncodeVarint(m.rwSize) + EncodeVarint(m.stackSize)
    else []
  }

  /** The symbols of the first `n` imports, end to end. */
  function ImportSymbols(imports: seq<seq<byte>>, n: nat): seq<byte>
    requires n <= |imports|
  {
    if n == 0 then [] else ImportSymbols(imports, n - 1) + imports[n - 1]
  }

  /** Where each of the first `n` symbols starts, as 32-bit little-endian numbers. */
  function ImportOffsets(imports: seq<seq<byte>>, n: nat): (s: seq<byte>)
    requires n <= |imports|
    ensures |s| == 4 * n
  {
    if n == 0 then []
    else ImportOffsets(imports, n - 1) + LowBytes(|ImportSymbols(imports, n - 1)|, 4)
  }

  function ImportsPayload(m: Image): seq<byte>
    requires |m.imports| < U32
  {
    if m.imports == [] then []
    else
      EncodeVarint(|m.imports|) + ImportOffsets(m.imports, |m.imports|) + ImportSymbols(m.imports, |m.imports|)
  }

  function ExportBytes(e: (u32, seq<byte>)): seq<byte>
    requires |e.1| < U32
  {
    EncodeVarint(e.0) + EncodeVarint(|e.1|) + e.1
  }

  predicate SymbolsFit(exports: seq<(u32, seq<byte>)>) {
    |exports| < U32 && forall i :: 0 <= i < |exports| ==> |exports[i].1| < U32
  }

  /** Exports `i` and on. */
  function ExportList(exports: seq<(u32, seq<byte>)>, i: nat): seq<byte>
    requires i <= |exports| && SymbolsFit(exports)
    decreases |exports| - i
  {
    if i == |exports| then [] else ExportBytes(exports[i]) + ExportList(exports, i + 1)
  }

  function ExportsPayload(m: Image): seq<byte>
    requires SymbolsFit(m.exports)
  {
    if m.exports == [] then [] else EncodeVarint(|m.exports|) + ExportList(m.exports, 0)
  }

  function CodePayload(c: CodeParts): seq<byte>
    requires |c.code| < U32
  {
    EncodeVarint(c.entryCount) + [c.entrySize] + EncodeVarint(|c.code|) + c.jumpTable + c.code + c.bitmask
  }

  /** A framed section; an empty one is left out. */
  function Section(id: byte, payload: seq<byte>): seq<byte>
    requires |payload| < U32
  {
    if payload == [] then [] else [id] + EncodeVarint(|payload|) + payload
  }

  /** What the writer demands: every length fits its field. */
  predicate Writable(m: Image) {
    && |m.ro| < U32 && |m.rw| < U32 && |m.imports| < U32 && SymbolsFit(m.exports) && |m.code.code| < U32
    && |ImportsPayload(m)| < U32 && |ExportsPayload(m)| < U32 && |CodePayload(m.code)| < U32
  }

  /** Sections `k` to 6 and the end marker. */
  function Sections(m: Image, k: nat): (s: seq<byte>)
    requires Writable(m) && 1 <= k <= 7
    ensures s != []
    decreases 7 - k
  {
    if k == 7 then [END_OF_FILE] else Section(k, Payload(m, k)) + Sections(m, k + 1)
  }

  function Payload(m: Image, k: nat): (s: seq<byte>)
    requires Writable(m) && 1 <= k <= 6
    ensures |s| < U32
  {
    if k == 1 then MemoryPayload(m)
    else if k == 2 then m.ro
    else if k == 3 then m.rw
    else if k == 4 then ImportsPayload(m)
    else if k == 5 then ExportsPayload(m)
    else CodePayload(m.code)
  }

  const HEADER := 13

  /** The whole blob: magic, version, total length, sections. */
  function Blob(m: Image): seq<byte>
    requires Writable(m)
  {
    MAGIC + [m.version] + LowBytes(HEADER + |Sections(m, 1)|, 8) + Sections(m, 1)
  }

  // ---------- The writer ----------

  class Writer {
    var buffer: seq<byte>

    constructor ()
      ensures buffer == []
    {
      buffer := [];
    }

    method PushRawBytes(slice: seq<byte>)
      modifies this
      ensures buffer == old(buffer) + slice
    {
      buffer := buffer + slice;
    }

    method PushVarint(value: u32)
      modifies this
      ensures buffer == old(buffer) + EncodeVarint(value)
    {
      hide EncodeVarint;
      var scratch := new byte[5](_ => 0xFF);
      var length := WriteVarint(value, scratch);
      PushRawBytes(scratch[..length]);
    }

    method PushBytesWithLength(slice: seq<byte>)
      requires |slice| < U32
      modifies this
      ensures buffer == old(buffer) + (EncodeVarint(|slice|) + slice)
    {
      hide EncodeVarint;
      PushVarint(|slice|);
      PushRawBytes(slice);
    }

    method PushSection(section: byte, contents: seq<byte>)
      requires |contents| < U32
      modifies this
      ensures buffer == old(buffer) + Section(section, contents)
    {
      hide EncodeVarint;
      if contents == [] {
        return;
      }
      PushRawBytes([section]);
      PushVarint(|contents|);
      PushRawBytes(contents);
    }

    /** Opens a section written in place: five bytes are reserved for its length. */
    method OpenSection(section: byte) returns (position: nat)
      modifies this
      ensures position == |old(buffer)|
      ensures buffer == old(buffer) + [section] + [0xFF, 0xFF, 0xFF, 0xFF, 0xFF]
    {
      position := |buffer|;
      PushRawBytes([section]);
      PushRawBytes([0xFF, 0xFF, 0xFF, 0xFF, 0xFF]);
    }

    /** Closes it: writes the length over the reserved bytes and drops what is left of them. */
    method CloseSection(position: nat, ghost before: seq<byte>, ghost section: byte, ghost payload: seq<byte>)
      requires position == |before| && |payload| < U32
      requires buffer == before + [section] + [0xFF, 0xFF, 0xFF, 0xFF, 0xFF] + payload
      modifies this
      ensures buffer == before + Section(section, payload)
    {
      hide EncodeVarint;
      var lengthAt := position + 1;
      var start := lengthAt + 5;
      var length := |buffer| - start;
      if length == 0 {
        buffer := buffer[..position];
        return;
      }
      var bytes := EncodeVarint(length);
      Patched(before + [section], [0xFF, 0xFF, 0xFF, 0xFF, 0xFF], payload, bytes);
      buffer := buffer[..lengthAt] + bytes + buffer[lengthAt + |bytes|..];
      buffer := buffer[..lengthAt + |bytes|] + buffer[start..];
      assert before + [section] + bytes + payload == before + ([section] + bytes + payload);
    }
  }

  /** Overwriting part of the padding and cutting out the rest leaves just the new bytes. */
  lemma {:induction false} Patched(head: seq<byte>, padding: seq<byte>, payload: seq<byte>, bytes: seq<byte>)
    requires |bytes| <= |padding|
    ensures var b := head + padding + payload;
            var c := b[..|head|] + bytes + b[|head| + |bytes|..];
            c[..|head| + |bytes|] + c[|head| + |padding|..] == head + bytes + payload
  {
    var b := head + padding + payload;
    var c := b[..|head|] + bytes + b[|head| + |bytes|..];
    assert c[..|head| + |bytes|] == head + bytes;
    assert c[|head| + |padding|..] == payload;
  }

  lemma {:induction false} Assoc(a: seq<byte>, b: seq<byte>, c: seq<byte>)
    ensures a + b + c == a + (b + c)
  {
  }

  method WriteMemory(w: Writer, m: Image)
    modifies w
    ensures w.buffer == old(w.buffer) + Section(MEMORY_CONFIG, MemoryPayload(m))
  {
    hide EncodeVarint, Section;
    ghost var before := w.buffer;
    if m.roSize > 0 || m.rwSize > 0 || m.stackSize > 0 {
      var position := w.OpenSection(MEMORY_CONFIG);
      ghost var open := w.buffer;
      w.PushVarint(m.roSize);
      w.PushVarint(m.rwSize);
      w.PushVarint(m.stackSize);
      Assoc(open, EncodeVarint(m.roSize), EncodeVarint(m.rwSize));
      Assoc(open, EncodeVarint(m.roSize) + EncodeVarint(m.rwSize), EncodeVarint(m.stackSize));
      w.CloseSection(position, before, MEMORY_CONFIG, MemoryPayload(m));
    } else {
      NoSection(MEMORY_CONFIG);
    }
  }

  lemma {:induction false} NoSection(id: byte)
    ensures Section(id, []) == []
  {
  }

  method WriteImports(w: Writer, m: Image)
    requires Writable(m)
    modifies w
    ensures w.buffer == old(w.buffer) + Section(IMPORTS, ImportsPayload(m))
  {
    hide EncodeVarint, Section, LowBytes, CodePayload, ExportsPayload, SymbolsFit;
    ghost var before := w.buffer;
    NoSection(IMPORTS);
    if m.imports == [] {
      return;
    }
    var position := w.OpenSection(IMPORTS);
    ghost var open := w.buffer;
    var offsets: seq<byte>, symbols: seq<byte> := [], [];
    for i := 0 to |m.imports|
      invariant offsets == ImportOffsets(m.imports, i) && symbols == ImportSymbols(m.imports, i)
    {
      offsets := offsets + LowBytes(|symbols|, 4);
      symbols := symbols + m.imports[i];
    }
    w.PushVarint(|m.imports|);
    w.PushRawBytes(offsets);
    w.PushRawBytes(symbols);
    Assoc(open, EncodeVarint(|m.imports|), offsets);
    Assoc(open, EncodeVarint(|m.imports|) + offsets, symbols);
    w.CloseSection(position, before, IMPORTS, ImportsPayload(m));
  }

  method WriteExports(w: Writer, m: Image)
    requires Writable(m)
    modifies w
    ensures w.buffer == old(w.buffer) + Section(EXPORTS, ExportsPayload(m))
  {
    hide EncodeVarint, Section, CodePayload, ImportsPayload, ExportBytes;
    ghost var before := w.buffer;
    NoSection(EXPORTS);
    if m.exports == [] {
      return;
    }
    var position := w.OpenSection(EXPORTS);
    ghost var open := w.buffer;
    w.PushVarint(|m.exports|);
    Assoc(open, EncodeVarint(|m.exports|), ExportList(m.exports, 0));
    for i := 0 to |m.exports|
      invariant w.buffer + ExportList(m.exports, i) == open + ExportsPayload(m)
    {
      ghost var was := w.buffer;
      WriteExport(w, m, i);
      Assoc(was, ExportBytes(m.exports[i]), ExportList(m.exports, i + 1));
    }
    w.CloseSection(position, before, EXPORTS, ExportsPayload(m));
  }

  method WriteExport(w: Writer, m: Image, i: nat)
    requires SymbolsFit(m.exports) && i < |m.exports|
    modifies w
    ensures w.buffer == old(w.buffer) + ExportBytes(m.exports[i])
  {
    hide EncodeVarint;
    ghost var was := w.buffer;
    var (target, symbol) := m.exports[i];
    w.PushVarint(target);
    w.PushBytesWithLength(symbol);
    Assoc(was, EncodeVarint(target), EncodeVarint(|symbol|) + symbol);
    Assoc(EncodeVarint(target), EncodeVarint(|symbol|), symbol);
  }

  method WriteCode(w: Writer, m: Image)
    requires Writable(m)
    modifies w
    ensures w.buffer == old(w.buffer) + Section(CODE_AND_JUMP_TABLE, CodePayload(m.code))
  {
    hide EncodeVarint, Section, ExportsPayload, ImportsPayload;
    ghost var before := w.buffer;
    var c := m.code;
    var position := w.OpenSection(CODE_AND_JUMP_TABLE);
    ghost var open := w.buffer;
    w.PushVarint(c.entryCount);
    w.PushRawBytes([c.entrySize]);
    w.PushVarint(|c.code|);
    w.PushRawBytes(c.jumpTable);
    w.PushRawBytes(c.code);
    w.PushRawBytes(c.bitmask);
    Assoc(open, EncodeVarint(c.entryCount), [c.entrySize]);
    ghost var head := EncodeVarint(c.entryCount) + [c.entrySize];
    Assoc(open, head, EncodeVarint(|c.code|));
    Assoc(open, head + EncodeVarint(|c.code|), c.jumpTable);
    Assoc(open, head + EncodeVarint(|c.code|) + c.jumpTable, c.code);
    Assoc(open, head + EncodeVarint(|c.code|) + c.jumpTable + c.code, c.bitmask);
    w.CloseSection(position, before, CODE_AND_JUMP_TABLE, CodePayload(c));
  }

  /** Writing section `k` leaves the sections after it. */
  lemma {:induction false} SectionWritten(buffer: seq<byte>, m: Image, k: nat)
    requires Writable(m) && 1 <= k <= 6
    ensures buffer + Section(k, Payload(m, k)) + Sections(m, k + 1) == buffer + Sections(m, k)
  {
    hide Section, Payload, Writable;
    Assoc(buffer, Section(k, Payload(m, k)), Sections(m, k + 1));
  }

  /** Writes the whole blob. */
  method ToVec(m: Image) returns (output: seq<byte>)
    requires Writable(m)
    ensures output == Blob(m)
  {
    hide Section, MemoryPayload, ImportsPayload, ExportsPayload, CodePayload, LowBytes, Sections;
    var w := new Writer();
    w.PushRawBytes(MAGIC);
    w.PushRawBytes([m.version]);
    w.PushRawBytes([0, 0, 0, 0, 0, 0, 0, 0]);
    ghost var header := w.buffer;
    SectionWritten(w.buffer, m, 1);
    WriteMemory(w, m);
    SectionWritten(w.buffer, m, 2);
    w.PushSection(RO_DATA, m.ro);
    SectionWritten(w.buffer, m, 3);
    w.PushSection(RW_DATA, m.rw);
    SectionWritten(w.buffer, m, 4);
    WriteImports(w, m);
    SectionWritten(w.buffer, m, 5);
    WriteExports(w, m);
    SectionWritten(w.buffer, m, 6);
    WriteCode(w, m);
    LastSection(m);
    w.PushRawBytes([END_OF_FILE]);
    HeaderPatched(m, header, w.buffer);
    output := w.buffer[..5] + LowBytes(|w.buffer|, 8) + w.buffer[13..];
  }

  lemma {:induction false} LastSection(m: Image)
    requires Writable(m)
    ensures Sections(m, 7) == [END_OF_FILE]
  {
  }

  lemma {:induction false} HeaderPatched(m: Image, header: seq<byte>, buffer: seq<byte>)
    requires Writable(m) && header == MAGIC + [m.version] + [0, 0, 0, 0, 0, 0, 0, 0] &&
             buffer == header + Sections(m, 1)
    ensures buffer[..5] + LowBytes(|buffer|, 8) + buffer[13..] == Blob(m)
  {
    hide Sections, LowBytes, Writable;
    assert buffer[..5] == MAGIC + [m.version];
    assert buffer[13..] == Sections(m, 1);
  }
}
