/** What a parsed blob holds: code, jump table, imports and exports. */
module BlobContents {
  import opened Arith
  import opened Wrappers
  import opened Bytes
  import opened Bits
  import opened Bitmask
  import opened BlobWriter
  import opened BlobReader

  // ---------- Code and jump table ----------

  /** The bits after the end of the code are the high bits of the last byte. */
  predicate PaddedWithZeros(bitmask: seq<byte>, codeLen: nat)
    requires MaskFits(bitmask, codeLen)
  {
    codeLen % 8 != 0 ==> bitmask[|bitmask| - 1] / Pow2(codeLen % 8) == 0
  }

  /** Entry count, entry size and code length, with the limits on them. */
  function CodeHeaderAt(payload: seq<byte>): (r: Option<(u32, byte, u32, nat)>)
    ensures r.Some? ==> r.value.1 <= 4 && r.value.2 <= MAXIMUM_CODE_SIZE && r.value.3 <= |payload|
  {
    var (count, p1) :- VarintAt(payload, 0);
    if count > MAXIMUM_JUMP_TABLE_ENTRIES then None
    else
      var (size, p2) :- ByteAt(payload, p1);
      var (length, p3) :- VarintAt(payload, p2);
      if length > MAXIMUM_CODE_SIZE || size > 4 || count * size >= U32 then None else Some((count, size, length, p3))
  }

  function ParseCode(payload: seq<byte>): (r: Option<CodeParts>)
    ensures r.Some? ==>
              && |r.value.code| <= MAXIMUM_CODE_SIZE && MaskFits(r.value.bitmask, |r.value.code|)
              && PaddedWithZeros(r.value.bitmask, |r.value.code|)
              && r.value.entrySize <= 4 && |r.value.jumpTable| == r.value.entryCount * r.value.entrySize
  {
    var (count, size, length, p3) :- CodeHeaderAt(payload);
    var (table, p4) :- SliceAt(payload, p3, count * size);
    var (code, p5) :- SliceAt(payload, p4, length);
    var bitmask := payload[p5..];
    if |bitmask| != length / 8 + (if length % 8 != 0 then 1 else 0) then None
    else if !PaddedWithZeros(bitmask, length) then None
    else Some(CodeParts(count, size, table, code, bitmask))
  }

  /** The same, reading from front to back. */
  method LoadCode(payload: seq<byte>) returns (r: Option<CodeParts>)
    ensures r == ParseCode(payload)
  {
    hide VarintAt, Pow2, ByteAt, SliceAt;
    var reader := new Reader(payload, 0);
    var count :- reader.ReadVarint();
    if count > MAXIMUM_JUMP_TABLE_ENTRIES {
      return None;
    }
    var size :- reader.ReadByte();
    var length :- reader.ReadVarint();
    if length > MAXIMUM_CODE_SIZE || size > 4 || count * size >= U32 {
      return None;
    }
    var table :- reader.ReadSlice(count * size);
    var code :- reader.ReadSlice(length);
    SliceToEnd(payload, reader.position);
    var rest := reader.ReadSlice(|payload| - reader.position);
    var bitmask := rest.value;
    var padded := |code| % 8 != 0;
    if |bitmask| != |code| / 8 + (if padded then 1 else 0) {
      return None;
    }
    if padded && bitmask[|bitmask| - 1] / Pow2(|code| % 8) != 0 {
      return None;
    }
    r := Some(CodeParts(count, size, table, code, bitmask));
  }

  lemma {:induction false} SliceToEnd(blob: seq<byte>, position: nat)
    requires position <= |blob|
    ensures SliceAt(blob, position, |blob| - position) == Some((blob[position..], |blob|))
  {
    assert blob[position..position + (|blob| - position)] == blob[position..];
  }

  datatype Loaded = Loaded(parts: Parts, code: CodeParts)

  function FromParts(parts: Parts): Option<Loaded> {
    if |parts.ro| > parts.roSize || |parts.rw| > parts.rwSize || parts.code == [] then None
    else
      var code :- ParseCode(parts.code);
      Some(Loaded(parts, code))
  }

  function Parse(blob: seq<byte>): Option<Loaded> {
    var parts :- ParseParts(blob);
    FromParts(parts)
  }

  lemma {:induction false} PaddingIsClear(bitmask: seq<byte>, codeLen: nat, i: nat)
    requires MaskFits(bitmask, codeLen) && PaddedWithZeros(bitmask, codeLen) && codeLen <= i
    ensures !Mark(bitmask, i)
  {
    hide BitAt, Pow2;
    if i / 8 < |bitmask| {
      ShiftedRight(bitmask[i / 8], codeLen % 8, i - codeLen);
      ZeroHasNoBits(i - codeLen);
      assert i % 8 == codeLen % 8 + (i - codeLen);
    }
  }

  lemma {:induction false} PaddingHasMark(bitmask: seq<byte>, codeLen: nat) returns (i: nat)
    requires MaskFits(bitmask, codeLen) && !PaddedWithZeros(bitmask, codeLen)
    ensures codeLen <= i && Mark(bitmask, i)
  {
    hide BitAt, Pow2, TrailingZeros;
    var last, cut := bitmask[|bitmask| - 1], codeLen % 8;
    DivBound(last, Pow2(cut));
    var k := TrailingZeros(last / Pow2(cut));
    LowestBit(last / Pow2(cut));
    ShiftedRight(last, cut, k);
    i := codeLen + k;
    BitsOfByteAreLow(last, cut + k);
    assert i / 8 == |bitmask| - 1 && i % 8 == cut + k;
  }

  lemma {:induction false} BitsOfByteAreLow(b: byte, k: nat)
    requires BitAt(b, k)
    ensures k < 8
  {
    hide BitAt;
    if k >= 8 { ByteHasNoBit(b, k); }
  }

  /** The padding test holds exactly when no bit is set after the end of the code. */
  lemma {:induction false} PaddingTestIsExact(bitmask: seq<byte>, codeLen: nat)
    requires MaskFits(bitmask, codeLen)
    ensures PaddedWithZeros(bitmask, codeLen) <==> forall i :: codeLen <= i ==> !Mark(bitmask, i)
  {
    hide PaddedWithZeros, Mark;
    if PaddedWithZeros(bitmask, codeLen) {
      forall i | codeLen <= i ensures !Mark(bitmask, i) {
        PaddingIsClear(bitmask, codeLen, i);
      }
    } else {
      var i := PaddingHasMark(bitmask, codeLen);
    }
  }

  /** Every blob that parses has a mask that fits its code and is clear after the end of it. */
  lemma {:induction false} ParsedMaskIsValid(blob: seq<byte>)
    requires Parse(blob).Some?
    ensures var c := Parse(blob).value.code;
            |c.code| < U32 && MaskFits(c.bitmask, |c.code|) && forall i :: |c.code| <= i ==> !Mark(c.bitmask, i)
  {
    hide ParseParts, ParseCode, Mark, PaddedWithZeros;
    var c := Parse(blob).value.code;
    PaddingTestIsExact(c.bitmask, |c.code|);
  }

  // ---------- Imports ----------

  /** Import `index`: from its offset to the next one's, or to the end. */
  function ImportAt(offsets: seq<byte>, symbols: seq<byte>, index: nat): Option<seq<byte>> {
    var start := index * 4;
    if start + 4 >= U32 || start + 4 > |offsets| then None
    else
      var offset := FromLe(offsets[start..start + 4]);
      var next := if start + 8 < U32 && start + 8 <= |offsets| then FromLe(offsets[start + 4..start + 8])
                  else |symbols|;
      if offset <= next <= |symbols| then Some(symbols[offset..next]) else None
  }

  lemma {:induction false} SymbolsGrow(imports: seq<seq<byte>>, n: nat, m: nat)
    requires n <= m <= |imports|
    ensures |ImportSymbols(imports, n)| <= |ImportSymbols(imports, m)|
    ensures ImportSymbols(imports, m)[..|ImportSymbols(imports, n)|] == ImportSymbols(imports, n)
  {
    if n < m { SymbolsGrow(imports, n, m - 1); }
  }

  lemma {:induction false} OffsetAt(imports: seq<seq<byte>>, m: nat, n: nat)
    requires n < m <= |imports|
    ensures ImportOffsets(imports, m)[4 * n..4 * n + 4] == LowBytes(|ImportSymbols(imports, n)|, 4)
  {
    hide LowBytes;
    if n + 1 < m { OffsetAt(imports, m - 1, n); }
  }

  lemma {:induction false} OffsetReads(imports: seq<seq<byte>>, i: nat)
    requires i < |imports| && |ImportSymbols(imports, |imports|)| < U32
    ensures FromLe(ImportOffsets(imports, |imports|)[4 * i..4 * i + 4]) == |ImportSymbols(imports, i)|
  {
    hide LowBytes, FromLe, ImportOffsets;
    assert Pow256(4) == U32;
    SymbolsGrow(imports, i, |imports|);
    OffsetAt(imports, |imports|, i);
    FromLowBytes(|ImportSymbols(imports, i)|, 4);
  }

  lemma {:induction false} SymbolSlice(imports: seq<seq<byte>>, i: nat)
    requires i < |imports|
    ensures var all := ImportSymbols(imports, |imports|);
            var a, b := |ImportSymbols(imports, i)|, |ImportSymbols(imports, i + 1)|;
            a <= b <= |all| && all[a..b] == imports[i]
  {
    SymbolsGrow(imports, i + 1, |imports|);
    var all, b := ImportSymbols(imports, |imports|), |ImportSymbols(imports, i + 1)|;
    assert all[|ImportSymbols(imports, i)|..b] == all[..b][|ImportSymbols(imports, i)|..];
  }

  /** The i-th import reads back as the i-th symbol. */
  lemma {:induction false} ImportReadsBack(imports: seq<seq<byte>>, i: nat)
    requires i < |imports| && 4 * |imports| + 4 < U32 && |ImportSymbols(imports, |imports|)| < U32
    ensures ImportAt(ImportOffsets(imports, |imports|), ImportSymbols(imports, |imports|), i) == Some(imports[i])
  {
    hide FromLe, ImportOffsets, ImportSymbols;
    OffsetReads(imports, i);
    SymbolSlice(imports, i);
    if i + 1 < |imports| { OffsetReads(imports, i + 1); }
  }

  // ---------- Exports ----------

  datatype ExportState = Uninitialized | Pending(remaining: nat) | Finished

  function BytesWithLengthAt(blob: seq<byte>, position: nat): (r: Option<(seq<byte>, nat)>)
    ensures r.Some? ==> position < r.value.1 <= |blob|
  {
    var (length, start) :- VarintAt(blob, position);
    SliceAt(blob, start, length)
  }

  function ExportAt(blob: seq<byte>, position: nat): (r: Option<(u32, seq<byte>, nat)>)
    ensures r.Some? ==> position < r.value.2 <= |blob|
  {
    var (target, p1) :- VarintAt(blob, position);
    var (symbol, p2) :- BytesWithLengthAt(blob, p1);
    Some((target, symbol, p2))
  }

  /** What the export iterator still delivers. */
  function ExportsFrom(blob: seq<byte>, state: ExportState, position: nat): seq<(u32, seq<byte>)>
    decreases state.Uninitialized?, if position <= |blob| then |blob| - position else 0
  {
    match state
    case Finished => []
    case Uninitialized =>
      (match VarintAt(blob, position)
       case None => []
       case Some((count, next)) => ExportsFrom(blob, Pending(count), next))
    case Pending(remaining) =>
      if remaining == 0 then []
      else
        match ExportAt(blob, position)
        case None => []
        case Some((target, symbol, next)) => [(target, symbol)] + ExportsFrom(blob, Pending(remaining - 1), next)
  }

  class ExportIterator {
    const reader: Reader
    var state: ExportState

    ghost predicate Valid()
      reads this, reader
    {
      reader.Valid()
    }

    ghost function Left(): seq<(u32, seq<byte>)>
      reads this, reader
    {
      ExportsFrom(reader.blob, state, reader.position)
    }

    constructor (exports: seq<byte>)
      ensures Valid() && fresh(reader) && reader.blob == exports && reader.position == 0
      ensures state == (if exports == [] then Finished else Uninitialized)
    {
      reader := new Reader(exports, 0);
      state := if exports == [] then Finished else Uninitialized;
    }

    /** Delivers the next export, if any. */
    method Next() returns (r: Option<(u32, seq<byte>)>)
      requires Valid()
      modifies this, reader
      ensures Valid()
      ensures old(Left()) == match r case None => [] case Some(item) => [item] + Left()
    {
      hide VarintAt;
      var remaining;
      match state {
        case Uninitialized => state := Finished; remaining :- reader.ReadVarint();
        case Pending(n) => state := Finished; remaining := n;
        case Finished => return None;
      }
      assert old(Left()) == ExportsFrom(reader.blob, Pending(remaining), reader.position);
      if remaining == 0 {
        return None;
      }
      var target :- reader.ReadVarint();
      var length :- reader.ReadVarint();
      var symbol :- reader.ReadSlice(length);
      state := Pending(remaining - 1);
      r := Some((target, symbol));
    }
  }
}
