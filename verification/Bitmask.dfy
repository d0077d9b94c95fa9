/** The mask of instruction starts and the scans over it. */
module Bitmask {
  import opened Arith
  import opened Bytes
  import opened Bits

  const MAX_SKIP := 24

  function Min(a: int, b: int): int {
    if a < b then a else b
  }

  /** Whether an instruction starts at `i`. */
  predicate Mark(bitmask: seq<byte>, i: nat) {
    i / 8 < |bitmask| && BitAt(bitmask[i / 8], i % 8)
  }

  predicate GetBit(bitmask: seq<byte>, codeLen: nat, offset: nat) {
    Mark(bitmask, offset) && offset <= codeLen
  }

  /** The first mark from `i` on, or the end of the mask; `i` itself when it lies beyond the end. */
  function NextMark(bitmask: seq<byte>, i: nat): (r: nat)
    ensures i <= r
    ensures i <= 8 * |bitmask| ==> r <= 8 * |bitmask|
    ensures forall j :: i <= j < r ==> !Mark(bitmask, j)
    ensures r < 8 * |bitmask| ==> Mark(bitmask, r)
    decreases 8 * |bitmask| - i
  {
    if i >= 8 * |bitmask| || Mark(bitmask, i) then i else NextMark(bitmask, i + 1)
  }

  lemma {:induction false} NextMarkIs(bitmask: seq<byte>, i: nat, r: nat)
    requires i <= r <= 8 * |bitmask|
    requires forall j :: i <= j < r ==> !Mark(bitmask, j)
    requires r < 8 * |bitmask| ==> Mark(bitmask, r)
    ensures NextMark(bitmask, i) == r
  {
    hide Mark;
  }

  /** Moving past unmarked positions does not change what comes next. */
  lemma {:induction false} NextMarkFrom(bitmask: seq<byte>, i: nat, j: nat)
    requires i <= j <= 8 * |bitmask|
    requires forall k :: i <= k < j ==> !Mark(bitmask, k)
    ensures NextMark(bitmask, i) == NextMark(bitmask, j)
  {
    NextMarkIs(bitmask, i, NextMark(bitmask, j));
  }

  // ---------- Scanning a byte at a time ----------

  /** What one byte, shifted to the current position, says about the marks from there on. */
  lemma {:induction false} ByteStep(bitmask: seq<byte>, i: nat)
    requires i / 8 < |bitmask|
    ensures var mask := bitmask[i / 8] / Pow2(i % 8);
            (mask == 0 ==> forall j :: i <= j < i + 8 - i % 8 ==> !Mark(bitmask, j)) &&
            (mask > 0 ==> NextMark(bitmask, i) == i + TrailingZeros(mask) && i + TrailingZeros(mask) < i + 8 - i % 8) &&
            mask >= 0
  {
    hide NextMark;
    var byte, shift := bitmask[i / 8], i % 8;
    DivBound(byte, Pow2(shift));
    var mask := byte / Pow2(shift);
    forall j | i <= j < i + 8 - i % 8 ensures Mark(bitmask, j) == BitAt(mask, j - i) {
      ShiftedRight(byte, shift, j - i);
      assert j / 8 == i / 8 && j % 8 == shift + (j - i);
    }
    if mask == 0 {
      forall j | i <= j < i + 8 - i % 8 ensures !Mark(bitmask, j) {
        ZeroHasNoBits(j - i);
      }
    } else {
      ByteStepFound(bitmask, i, mask);
    }
  }

  lemma {:induction false} ByteStepFound(bitmask: seq<byte>, i: nat, mask: nat)
    requires i / 8 < |bitmask| && mask > 0 && mask == bitmask[i / 8] / Pow2(i % 8)
    requires forall j :: i <= j < i + 8 - i % 8 ==> Mark(bitmask, j) == BitAt(mask, j - i)
    ensures NextMark(bitmask, i) == i + TrailingZeros(mask) < i + 8 - i % 8
  {
    hide NextMark, Mark, BitAt;
    var z := TrailingZeros(mask);
    LowestBit(mask);
    if z >= 8 - i % 8 {
      ShiftedRight(bitmask[i / 8], i % 8, z);
      ByteHasNoBit(bitmask[i / 8], i % 8 + z);
      assert false;
    }
    forall j | i <= j < i + z ensures !Mark(bitmask, j) {
      assert !BitAt(mask, j - i);
    }
    assert BitAt(mask, z) && Mark(bitmask, i + z);
    NextMarkIs(bitmask, i, i + z);
  }

  lemma {:induction false} ByteHasNoBit(b: byte, k: nat)
    requires k >= 8
    ensures !BitAt(b, k)
  {
    ShiftedRight(b, 8, k - 8);
    Pow2Values();
    ZeroHasNoBits(k - 8);
  }

  /** The first mark from `offset` on, capped at the end of the code. */
  method FindNextOffset(bitmask: seq<byte>, codeLen: nat, offset: nat) returns (next: nat)
    ensures next == Min(codeLen, NextMark(bitmask, offset))
  {
    hide NextMark, BitAt;
    next := offset;
    while next / 8 < |bitmask|
      invariant offset <= next && (next / 8 < |bitmask| || next == offset || next == 8 * |bitmask|)
      invariant forall j :: offset <= j < next ==> !Mark(bitmask, j)
      decreases 8 * |bitmask| - next
    {
      var shift := next % 8;
      var mask := bitmask[next / 8] / Pow2(shift);
      ByteStep(bitmask, next);
      if mask == 0 {
        next := next + 8 - shift;
      } else {
        NextMarkFrom(bitmask, offset, next);
        next := Min(codeLen, next + TrailingZeros(mask));
        return;
      }
    }
    EndOfMask(bitmask, offset, next);
    next := Min(codeLen, next);
  }

  lemma {:induction false} EndOfMask(bitmask: seq<byte>, i: nat, r: nat)
    requires i <= r && r / 8 >= |bitmask| && (r == i || r == 8 * |bitmask|)
    requires forall j :: i <= j < r ==> !Mark(bitmask, j)
    ensures NextMark(bitmask, i) == r
  {
    if r == 8 * |bitmask| && i <= r { NextMarkIs(bitmask, i, r); }
  }

  // ---------- The two forward scans ----------

  /** How many operand bytes the instruction at `o` has: up to the next mark, the end of the code or the limit. */
  function Skip(bitmask: seq<byte>, codeLen: nat, o: nat): (skip: int)
    requires o < codeLen
    ensures 0 <= skip <= MAX_SKIP && o + skip + 1 <= codeLen
  {
    Min(MAX_SKIP, Min(NextMark(bitmask, o + 1), codeLen) - o - 1)
  }

  /** The slow scan gives up at a byte boundary once it is past the limit. */
  predicate InReach(o: nat, t: nat) {
    t - o <= 24 || (t - o == 25 && t % 8 != 0)
  }

  /** Whether the slow scan finds no acceptable next instruction. */
  predicate SlowInvalid(bitmask: seq<byte>, codeLen: nat, o: nat) {
    var t := NextMark(bitmask, o + 1);
    !(t < codeLen && InReach(o, t))
  }

  predicate MaskFits(bitmask: seq<byte>, codeLen: nat) {
    |bitmask| == (codeLen + 7) / 8
  }

  /** Byte by byte, giving up at the first byte boundary 24 or more past the start. */
  method ParseBitmaskSlow(bitmask: seq<byte>, codeLen: nat, o: nat) returns (skip: nat, invalid: bool)
    requires MaskFits(bitmask, codeLen) && o < codeLen
    ensures skip == Skip(bitmask, codeLen, o) && invalid == SlowInvalid(bitmask, codeLen, o)
  {
    hide NextMark, BitAt, Mark;
    var offset := o + 1;
    var origin := offset;
    invalid := true;
    while offset / 8 < |bitmask|
      invariant origin <= offset <= 8 * |bitmask|
      invariant offset == origin || offset % 8 == 0
      invariant offset == origin || offset - origin < MAX_SKIP
      invariant forall j :: origin <= j < offset ==> !Mark(bitmask, j)
      invariant invalid
      decreases 8 * |bitmask| - offset
    {
      var shift := offset % 8;
      var mask := bitmask[offset / 8] / Pow2(shift);
      ByteStep(bitmask, offset);
      NextMarkFrom(bitmask, origin, offset);
      if mask == 0 {
        offset := offset + 8 - shift;
        if offset - origin < MAX_SKIP {
          continue;
        }
        NextMarkFrom(bitmask, origin, offset);
      } else {
        offset := offset + TrailingZeros(mask);
        invalid := offset >= codeLen || offset - origin > MAX_SKIP;
      }
      break;
    }
    if offset / 8 >= |bitmask| { EndOfMask(bitmask, origin, offset); }
    skip := Min(Min(offset, codeLen) - origin, MAX_SKIP);
  }
}
