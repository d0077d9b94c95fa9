/** Reading a program blob. */
module BlobReader {
  import opened Wrappers
  import opened Bytes
  import opened Varint
  import opened BlobWriter

  const MAXIMUM_CODE_SIZE := 32 * 1024 * 1024
  const MAXIMUM_JUMP_TABLE_ENTRIES := 16 * 1024 * 1024
  const MAXIMUM_IMPORT_COUNT := 1024

  const DEBUG_STRINGS: byte := 128
  const DEBUG_LINE_PROGRAMS: byte := 129
  const DEBUG_LINE_PROGRAM_RANGES: byte := 130
  const METADATA_HASH: byte := 131

  /** The sections of a blob, unparsed. */
  datatype Parts = Parts(
    version: byte,
    roSize: u32, rwSize: u32, stackSize: u32,
    ro: seq<byte>, rw: seq<byte>,
    importOffsets: seq<byte>, importSymbols: seq<byte>,
    exports: seq<byte>, code: seq<byte>,
    debugStrings: seq<byte>, debugLinePrograms: seq<byte>, debugRanges: seq<byte>, metadataHash: seq<byte>)

  /** A position just after a section byte. */
  datatype Cursor = Cursor(section: byte, position: nat)

  // ---------- Primitive reads ----------

  function SliceAt(blob: seq<byte>, position: nat, length: nat): (r: Option<(seq<byte>, nat)>)
    ensures r.Some? ==> position <= r.value.1 <= |blob| && |r.value.0| == length
  {
    if position + length > |blob| then None else Some((blob[position..position + length], position + length))
  }

  function ByteAt(blob: seq<byte>, position: nat): (r: Option<(byte, nat)>)
    ensures r.Some? ==> position < r.value.1 <= |blob|
  {
    if position >= |blob| then None else Some((blob[position], position + 1))
  }

  function VarintAt(blob: seq<byte>, position: nat): (r: Option<(u32, nat)>)
    ensures r.Some? ==> position < r.value.1 <= |blob|
  {
    var (first, rest) :- ByteAt(blob, position);
    var (length, value) :- ReadVarint(blob[rest..], first);
    Some((value, rest + length))
  }

  function SectionByte(blob: seq<byte>, position: nat): (r: Option<Cursor>)
    ensures r.Some? ==> position < r.value.position <= |blob|
  {
    var (section, next) :- ByteAt(blob, position);
    Some(Cursor(section, next))
  }

  // ---------- Sections ----------

  /** The contents of a section if it is the one at the cursor, nothing otherwise. */
  function SectionAt(blob: seq<byte>, at: Cursor, expected: byte): (r: Option<(seq<byte>, Cursor)>)
    requires at.position <= |blob|
    ensures r.Some? ==> at.position <= r.value.1.position <= |blob|
  {
    if at.section != expected then Some(([], at))
    else
      var (length, start) :- VarintAt(blob, at.position);
      var (contents, end) :- SliceAt(blob, start, length);
      var next :- SectionByte(blob, end);
      Some((contents, next))
  }

  function MemoryAt(blob: seq<byte>, at: Cursor): (r: Option<(u32, u32, u32, Cursor)>)
    requires at.position <= |blob|
    ensures r.Some? ==> at.position <= r.value.3.position <= |blob|
  {
    if at.section != MEMORY_CONFIG then Some((0, 0, 0, at))
    else
      var (length, start) :- VarintAt(blob, at.position);
      var (ro, p1) :- VarintAt(blob, start);
      var (rw, p2) :- VarintAt(blob, p1);
      var (stack, p3) :- VarintAt(blob, p2);
      if start + length != p3 then None
      else
        var next :- SectionByte(blob, p3);
        Some((ro, rw, stack, next))
  }

  function ImportsAt(blob: seq<byte>, at: Cursor): (r: Option<(seq<byte>, seq<byte>, Cursor)>)
    requires at.position <= |blob|
    ensures r.Some? ==> at.position <= r.value.2.position <= |blob|
  {
    if at.section != IMPORTS then Some(([], [], at))
    else
      var (length, start) :- VarintAt(blob, at.position);
      var (count, p1) :- VarintAt(blob, start);
      if count > MAXIMUM_IMPORT_COUNT then None
      else
        var (offsets, p2) :- SliceAt(blob, p1, 4 * count);
        if length < p2 - start then None
        else
          var (symbols, p3) :- SliceAt(blob, p2, length - (p2 - start));
          var next :- SectionByte(blob, p3);
          Some((offsets, symbols, next))
  }

  /** Skips sections nobody knows, as long as they are optional. */
  function SkipOptional(blob: seq<byte>, at: Cursor): (r: Option<Cursor>)
    requires at.position <= |blob|
    ensures r.Some? ==> at.position <= r.value.position <= |blob| && r.value.section < 128
    decreases |blob| - at.position
  {
    if at.section < 128 then Some(at)
    else
      var (length, start) :- VarintAt(blob, at.position);
      var (_, end) :- SliceAt(blob, start, length);
      var next :- SectionByte(blob, end);
      SkipOptional(blob, next)
  }

  /** Magic, version and length, up to the first section byte. */
  function HeaderAt(blob: seq<byte>): (r: Option<(byte, Cursor)>)
    ensures r.Some? ==> r.value.1.position <= |blob|
  {
    if |blob| < 4 || blob[..4] != MAGIC then None
    else
      var (version, p1) :- ByteAt(blob, 4);
      if version > 3 then None
      else
        var (length, p2) :- SliceAt(blob, p1, 8);
        if FromLe(length) != |blob| then None
        else
          var at :- SectionByte(blob, p2);
          Some((version, at))
  }

  /** Splits a blob into its sections. */
  function ParseParts(blob: seq<byte>): Option<Parts> {
    var (version, at) :- HeaderAt(blob);
    var (roSize, rwSize, stackSize, at1) :- MemoryAt(blob, at);
    var (ro, at2) :- SectionAt(blob, at1, RO_DATA);
    var (rw, at3) :- SectionAt(blob, at2, RW_DATA);
    var (offsets, symbols, at4) :- ImportsAt(blob, at3);
    var (exports, at5) :- SectionAt(blob, at4, EXPORTS);
    var (code, at6) :- SectionAt(blob, at5, CODE_AND_JUMP_TABLE);
    var (strings, at7) :- SectionAt(blob, at6, DEBUG_STRINGS);
    var (programs, at8) :- SectionAt(blob, at7, DEBUG_LINE_PROGRAMS);
    var (ranges, at9) :- SectionAt(blob, at8, DEBUG_LINE_PROGRAM_RANGES);
    var (hash, at10) :- SectionAt(blob, at9, METADATA_HASH);
    var last :- SkipOptional(blob, at10);
    if last.section != END_OF_FILE then None
    else Some(Parts(version, roSize, rwSize, stackSize, ro, rw, offsets, symbols, exports, code, strings, programs,
      ranges, hash))
  }

  // ---------- The reader ----------

  class Reader {
    const blob: seq<byte>
    var position: nat

    predicate Valid()
      reads this
    {
      position <= |blob|
    }

    constructor (blob: seq<byte>, position: nat)
      requires position <= |blob|
      ensures this.blob == blob && this.position == position
    {
      this.blob, this.position := blob, position;
    }

    method ReadSlice(length: nat) returns (r: Option<seq<byte>>)
      requires Valid()
      modifies this
      ensures Valid()
      ensures match SliceAt(blob, old(position), length)
              case None => r == None && position == old(position)
              case Some((slice, next)) => r == Some(slice) && position == next
    {
      if |blob| - position < length {
        return None;
      }
      r := Some(blob[position..position + length]);
      position := position + length;
    }

    method ReadByte() returns (r: Option<byte>)
      requires Valid()
      modifies this
      ensures Valid()
      ensures match ByteAt(blob, old(position))
              case None => r == None
              case Some((b, next)) => r == Some(b) && position == next
    {
      var slice :- ReadSlice(1);
      r := Some(slice[0]);
    }

    method ReadVarint() returns (r: Option<u32>)
      requires Valid()
      modifies this
      ensures Valid()
      ensures match VarintAt(blob, old(position))
              case None => r == None
              case Some((v, next)) => r == Some(v) && position == next
    {
      var first :- ReadByte();
      var r1 :- Varint.ReadVarint(blob[position..], first);
      var (length, value) := r1;
      position := position + length;
      r := Some(value);
    }

    /** Reads a section if it is the expected one and moves on to the next section byte. */
    method ReadSection(section: byte, expected: byte) returns (r: Option<(seq<byte>, byte)>)
      requires Valid()
      modifies this
      ensures Valid()
      ensures match SectionAt(blob, Cursor(section, old(position)), expected)
              case None => r == None
              case Some((contents, next)) => r == Some((contents, next.section)) && position == next.position
    {
      hide Varint.ReadVarint;
      if section != expected {
        return Some(([], section));
      }
      var length :- ReadVarint();
      var contents :- ReadSlice(length);
      var next :- ReadByte();
      r := Some((contents, next));
    }

    method ReadMemory(section: byte) returns (r: Option<(u32, u32, u32, byte)>)
      requires Valid()
      modifies this
      ensures Valid()
      ensures match MemoryAt(blob, Cursor(section, old(position)))
              case None => r == None
              case Some((a, b, c, next)) => r == Some((a, b, c, next.section)) && position == next.position
    {
      hide Varint.ReadVarint, VarintAt;
      if section != MEMORY_CONFIG {
        return Some((0, 0, 0, section));
      }
      var length :- ReadVarint();
      var start := position;
      var ro :- ReadVarint();
      var rw :- ReadVarint();
      var stack :- ReadVarint();
      if start + length != position {
        return None;
      }
      var next :- ReadByte();
      r := Some((ro, rw, stack, next));
    }

    method ReadImports(section: byte) returns (r: Option<(seq<byte>, seq<byte>, byte)>)
      requires Valid()
      modifies this
      ensures Valid()
      ensures match ImportsAt(blob, Cursor(section, old(position)))
              case None => r == None
              case Some((offsets, symbols, next)) =>
                r == Some((offsets, symbols, next.section)) && position == next.position
    {
      hide Varint.ReadVarint, VarintAt;
      if section != IMPORTS {
        return Some(([], [], section));
      }
      var length :- ReadVarint();
      var start := position;
      var count :- ReadVarint();
      if count > MAXIMUM_IMPORT_COUNT {
        return None;
      }
      var offsets :- ReadSlice(4 * count);
      if length < position - start {
        return None;
      }
      var symbols :- ReadSlice(length - (position - start));
      var next :- ReadByte();
      r := Some((offsets, symbols, next));
    }

    method SkipOptionalSections(section: byte) returns (r: Option<byte>)
      requires Valid()
      modifies this
      ensures Valid()
      ensures match SkipOptional(blob, Cursor(section, old(position)))
              case None => r == None
              case Some(next) => r == Some(next.section)
    {
      hide Varint.ReadVarint, VarintAt;
      var at := section;
      while at >= 128
        invariant Valid()
        invariant SkipOptional(blob, Cursor(section, old(position))) == SkipOptional(blob, Cursor(at, position))
        decreases |blob| - position
      {
        var length :- ReadVarint();
        var _ :- ReadSlice(length);
        at :- ReadByte();
      }
      r := Some(at);
    }

    /** Magic, version and length. */
    method ReadHeader() returns (r: Option<(byte, byte)>)
      requires position == 4 <= |blob| && blob[..4] == MAGIC
      modifies this
      ensures Valid()
      ensures match HeaderAt(blob)
              case None => r == None
              case Some((version, next)) => r == Some((version, next.section)) && position == next.position
    {
      hide FromLe;
      var version :- ReadByte();
      if version > 3 {
        return None;
      }
      var length :- ReadSlice(8);
      if FromLe(length) != |blob| {
        return None;
      }
      var section :- ReadByte();
      r := Some((version, section));
    }
  }

  /** Splits a blob into its sections, reading from front to back. */
  method FromBytes(blob: seq<byte>) returns (r: Option<Parts>)
    ensures r == ParseParts(blob)
  {
    hide HeaderAt, MemoryAt, SectionAt, ImportsAt, SkipOptional;
    BadMagic(blob);
    if |blob| < 4 || blob[..4] != MAGIC {
      return None;
    }
    var reader := new Reader(blob, 4);
    var r2 :- reader.ReadHeader();
    var (version, section) := r2;
    var r3 :- reader.ReadMemory(section);
    var (roSize, rwSize, stackSize, section1) := r3;
    var r4 :- reader.ReadSection(section1, RO_DATA);
    var (ro, section2) := r4;
    var r5 :- reader.ReadSection(section2, RW_DATA);
    var (rw, section3) := r5;
    var r6 :- reader.ReadImports(section3);
    var (offsets, symbols, section4) := r6;
    var r7 :- reader.ReadSection(section4, EXPORTS);
    var (exports, section5) := r7;
    var r8 :- reader.ReadSection(section5, CODE_AND_JUMP_TABLE);
    var (code, section6) := r8;
    var r9 :- reader.ReadSection(section6, DEBUG_STRINGS);
    var (strings, section7) := r9;
    var r10 :- reader.ReadSection(section7, DEBUG_LINE_PROGRAMS);
    var (programs, section8) := r10;
    var r11 :- reader.ReadSection(section8, DEBUG_LINE_PROGRAM_RANGES);
    var (ranges, section9) := r11;
    var r12 :- reader.ReadSection(section9, METADATA_HASH);
    var (hash, section10) := r12;
    var last :- reader.SkipOptionalSections(section10);
    if last != END_OF_FILE {
      return None;
    }
    r := Some(Parts(version, roSize, rwSize, stackSize, ro, rw, offsets, symbols, exports, code, strings, programs,
      ranges, hash));
  }

  lemma {:induction false} BadMagic(blob: seq<byte>)
    ensures |blob| < 4 || blob[..4] != MAGIC ==> HeaderAt(blob) == None
  {
  }
}
