/** The word-at-a-time scans agree with the byte-at-a-time scan, but for one boundary case. */
module BitmaskScans {
  import opened Wrappers
  import opened Arith
  import opened Bytes
  import opened Bits
  import opened Bitmask

  // ---------- Forward, a word at a time ----------

  /** Four mask bytes from the byte of `i` on, shifted so that bit `k` is the mark at `i + k`. */
  function WindowFrom(bitmask: seq<byte>, i: nat): (w: int)
    requires i / 8 + 4 <= |bitmask|
    ensures w >= 0
  {
    DivBound(FromLe(bitmask[i / 8..i / 8 + 4]), Pow2(i % 8));
    FromLe(bitmask[i / 8..i / 8 + 4]) / Pow2(i % 8)
  }

  lemma {:induction false} WindowBits(bitmask: seq<byte>, i: nat, k: nat)
    requires i / 8 + 4 <= |bitmask| && i % 8 + k < 32
    ensures BitAt(WindowFrom(bitmask, i), k) == Mark(bitmask, i + k)
  {
    hide BitAt, FromLe, Pow2;
    var s := bitmask[i / 8..i / 8 + 4];
    ShiftedRight(FromLe(s), i % 8, k);
    BitsOfBytes(s, i % 8 + k);
    assert (i + k) / 8 == i / 8 + (i % 8 + k) / 8 && (i + k) % 8 == (i % 8 + k) % 8;
  }

  function ParseBitmaskFast(bitmask: seq<byte>, o: nat): Option<nat> {
    var origin := o + 1;
    if origin / 8 + 4 > |bitmask| then None
    else
      OrWithLimit(WindowFrom(bitmask, origin));
      Some(TrailingZeros(Or(WindowFrom(bitmask, origin), Pow2(MAX_SKIP))))
  }

  lemma {:induction false} OrWithLimit(w: nat)
    ensures Or(w, Pow2(MAX_SKIP)) > 0
  {
    hide Pow2, Or, BitAt;
    PowerBits(MAX_SKIP, MAX_SKIP);
    OrBits(w, Pow2(MAX_SKIP), MAX_SKIP);
    HasBit(Or(w, Pow2(MAX_SKIP)), MAX_SKIP);
  }

  lemma {:induction false} FastBits(bitmask: seq<byte>, i: nat, k: nat)
    requires i / 8 + 4 <= |bitmask| && k <= MAX_SKIP
    ensures BitAt(Or(WindowFrom(bitmask, i), Pow2(MAX_SKIP)), k) == (Mark(bitmask, i + k) || k == MAX_SKIP)
  {
    hide BitAt, Pow2, Or, WindowFrom;
    OrBits(WindowFrom(bitmask, i), Pow2(MAX_SKIP), k);
    PowerBits(MAX_SKIP, k);
    WindowBits(bitmask, i, k);
  }

  lemma {:induction false} FastIsNext(bitmask: seq<byte>, o: nat)
    requires (o + 1) / 8 + 4 <= |bitmask|
    ensures ParseBitmaskFast(bitmask, o) == Some(Min(MAX_SKIP, NextMark(bitmask, o + 1) - o - 1))
  {
    hide BitAt, Pow2, Or, WindowFrom, TrailingZeros, NextMark, Mark;
    var i := o + 1;
    var k := Min(MAX_SKIP, NextMark(bitmask, i) - i);
    OrWithLimit(WindowFrom(bitmask, i));
    var mask := Or(WindowFrom(bitmask, i), Pow2(MAX_SKIP));
    forall j | 0 <= j < k ensures !BitAt(mask, j) {
      FastBits(bitmask, i, j);
    }
    FastBits(bitmask, i, k);
    TrailingZerosIs(mask, k);
  }

  /** Within 32 bytes of the end of the code or more, both scans measure the same instruction. */
  lemma {:induction false} FastSkipIsSlowSkip(bitmask: seq<byte>, codeLen: nat, o: nat)
    requires MaskFits(bitmask, codeLen) && o + 32 <= codeLen
    ensures ParseBitmaskFast(bitmask, o) == Some(Skip(bitmask, codeLen, o))
  {
    hide NextMark, ParseBitmaskFast;
    FastIsNext(bitmask, o);
  }

  /** The fast path's verdict on the next instruction. */
  predicate FastInvalid(bitmask: seq<byte>, codeLen: nat, o: nat)
    requires o < codeLen
  {
    var skip := Skip(bitmask, codeLen, o);
    skip == MAX_SKIP && !GetBit(bitmask, codeLen, o + skip + 1)
  }

  /** The verdicts differ exactly when the next mark is 25 bytes on and starts a mask byte:
      then the fast path accepts it and the slow one does not. */
  lemma {:induction false} VerdictsDifferOnlyAtBoundary(bitmask: seq<byte>, codeLen: nat, o: nat)
    requires MaskFits(bitmask, codeLen) && o + 32 <= codeLen
    ensures FastInvalid(bitmask, codeLen, o) != SlowInvalid(bitmask, codeLen, o)
            <==> NextMark(bitmask, o + 1) == o + 25 && (o + 25) % 8 == 0
    ensures NextMark(bitmask, o + 1) == o + 25 && (o + 25) % 8 == 0 ==>
              !FastInvalid(bitmask, codeLen, o) && SlowInvalid(bitmask, codeLen, o)
  {
    hide Mark;
    var t := NextMark(bitmask, o + 1);
    assert t > o + 25 ==> !Mark(bitmask, o + 25);
  }

  // ---------- Backward ----------

  function MaskByte(bitmask: seq<byte>, offset: nat, back: nat): byte
    requires offset / 8 < |bitmask|
  {
    if offset >= 8 * back then bitmask[offset / 8 - back] else 0
  }

  /** Up to four mask bytes that end with the byte of `offset`. */
  function BytesBefore(bitmask: seq<byte>, offset: nat): (s: seq<byte>)
    requires offset / 8 < |bitmask|
    ensures |s| == 4
  {
    [MaskByte(bitmask, offset, 3), MaskByte(bitmask, offset, 2), MaskByte(bitmask, offset, 1), bitmask[offset / 8]]
  }

  /** The window before `offset`, in 32 bits: bit `30 - k` is the mark at `offset - 1 - k`. */
  function WindowBefore(bitmask: seq<byte>, offset: nat): (w: int)
    requires offset / 8 < |bitmask|
    ensures 0 <= w < 0x8000_0000
  {
    var mask := FromLe(BytesBefore(bitmask, offset));
    mask * Pow2(8 - offset % 8) % U32 / 2
  }

  function PreviousSkip(bitmask: seq<byte>, offset: nat): Option<int>
    requires offset / 8 < |bitmask|
  {
    var skip := 32 - BitLength(WindowBefore(bitmask, offset)) - 1;
    if skip > MAX_SKIP then None else Some(skip)
  }

  lemma {:induction false} ByteBefore(bitmask: seq<byte>, offset: nat, m: nat)
    requires offset / 8 < |bitmask| && m < 32
    ensures BitAt(BytesBefore(bitmask, offset)[m / 8], m % 8)
            == (offset / 8 * 8 + m >= 24 && Mark(bitmask, offset / 8 * 8 + m - 24))
  {
    hide BitAt;
    var back := 3 - m / 8;
    ZeroHasNoBits(m % 8);
    assert BytesBefore(bitmask, offset)[m / 8] == MaskByte(bitmask, offset, back);
    if offset >= 8 * back {
      var p := offset / 8 * 8 + m - 24;
      assert p == 8 * (offset / 8 - back) + m % 8;
      assert p / 8 == offset / 8 - back && p % 8 == m % 8;
    }
  }

  /** Bit `30 - k` of the window is the mark `k + 1` places before `offset`, as far as the window reaches. */
  lemma {:induction false} WindowBeforeBits(bitmask: seq<byte>, offset: nat, k: nat)
    requires offset / 8 < |bitmask| && k <= 30
    ensures BitAt(WindowBefore(bitmask, offset), 30 - k)
            == (k < offset % 8 + 24 && k < offset && Mark(bitmask, offset - 1 - k))
  {
    hide BitAt, FromLe, Pow2, BytesBefore, Mark;
    Pow2Values();
    var mask := FromLe(BytesBefore(bitmask, offset));
    var up := 8 - offset % 8;
    assert mask * Pow2(up) >= 0;
    ShiftedLeft(mask, up, 31 - k);
    Truncated(mask * Pow2(up), 32, 31 - k);
    HalfBit(mask * Pow2(up) % U32, 30 - k);
    if 31 - k >= up {
      var m := 31 - k - up;
      BitsOfBytes(BytesBefore(bitmask, offset), m);
      ByteBefore(bitmask, offset, m);
    }
  }

  lemma {:induction false} HalfBit(v: nat, k: nat)
    ensures BitAt(v / 2, k) == BitAt(v, k + 1)
  {
  }

  /** What the backward scan finds: the nearest mark, if the window reaches it and the distance is within the limit. */
  lemma {:induction false} PreviousSkipIs(bitmask: seq<byte>, offset: nat, o: nat)
    requires offset / 8 < |bitmask| && o < offset
    requires Mark(bitmask, o) && forall j :: o < j < offset ==> !Mark(bitmask, j)
    ensures PreviousSkip(bitmask, offset) == if InReach(o, offset) then Some(offset - 1 - o) else None
  {
    hide BitAt, Pow2, BitLength, WindowBefore, Mark;
    var w := WindowBefore(bitmask, offset);
    var k := offset - 1 - o;
    if k < offset % 8 + 24 {
      WindowBeforeBits(bitmask, offset, k);
      ClearAbove(bitmask, offset, k);
      BitLengthIs(w, 30 - k);
    } else {
      ClearAbove(bitmask, offset, 31);
      BitLengthAtMost(w, 0);
    }
  }

  /** With no mark in the `k` places before `offset` that it reaches, the window is below `2^(31 - k)`. */
  lemma {:induction false} ClearAbove(bitmask: seq<byte>, offset: nat, k: nat)
    requires offset / 8 < |bitmask| && k <= 31
    requires forall j :: offset - k <= j < offset && 0 <= j && offset - 1 - j < offset % 8 + 24 ==> !Mark(bitmask, j)
    ensures WindowBefore(bitmask, offset) < Pow2(31 - k)
  {
    hide BitAt, Pow2, WindowBefore, Mark;
    if k == 0 {
      Pow2Values();
    } else {
      ClearAbove(bitmask, offset, k - 1);
      WindowBeforeBits(bitmask, offset, k - 1);
      ClearTopBit(WindowBefore(bitmask, offset), 31 - k);
    }
  }

  lemma {:induction false} ClearTopBit(v: nat, n: nat)
    requires v < Pow2(n + 1) && !BitAt(v, n)
    ensures v < Pow2(n)
    decreases n
  {
    if n > 0 { ClearTopBit(v / 2, n - 1); }
  }

  /** With no mark at all before it, the backward scan finds nothing. */
  lemma {:induction false} PreviousSkipNone(bitmask: seq<byte>, offset: nat)
    requires offset / 8 < |bitmask|
    requires forall j :: 0 <= j < offset ==> !Mark(bitmask, j)
    ensures PreviousSkip(bitmask, offset) == None
  {
    hide BitAt, BitLength, WindowBefore, Mark;
    ClearAbove(bitmask, offset, 31);
    BitLengthAtMost(WindowBefore(bitmask, offset), 0);
  }

  // ---------- Forward against backward ----------

  /** The slow scan from `o` accepts `t` as the next instruction. */
  predicate ForwardAccepts(bitmask: seq<byte>, codeLen: nat, o: nat, t: nat)
    requires o < codeLen
  {
    Skip(bitmask, codeLen, o) == t - o - 1 && !SlowInvalid(bitmask, codeLen, o)
  }

  /** The slow scan from `o` accepts `t` exactly when `t` is marked and the backward scan from `t` leads to `o`. */
  lemma {:induction false} ForwardIffBackward(bitmask: seq<byte>, codeLen: nat, o: nat, t: nat)
    requires MaskFits(bitmask, codeLen) && o < t < codeLen && Mark(bitmask, o)
    ensures ForwardAccepts(bitmask, codeLen, o, t) <==> Mark(bitmask, t) && PreviousSkip(bitmask, t) == Some(t - o - 1)
  {
    hide PreviousSkip, Mark;
    if Mark(bitmask, t) {
      var p := LastMark(bitmask, o, t);
      PreviousSkipIs(bitmask, t, p);
      if p == o { NextMarkIs(bitmask, o + 1, t); }
    }
  }

  lemma {:induction false} LastMark(bitmask: seq<byte>, o: nat, t: nat) returns (p: nat)
    requires o < t && Mark(bitmask, o)
    ensures o <= p < t && Mark(bitmask, p) && forall j :: p < j < t ==> !Mark(bitmask, j)
    decreases t
  {
    if Mark(bitmask, t - 1) || o == t - 1 {
      p := t - 1;
    } else {
      p := LastMark(bitmask, o, t - 1);
    }
  }
}
