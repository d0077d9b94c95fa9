/** The emitted code bytes and the mask of instruction starts. */
module CodeImage {
  import opened Arith
  import opened Bytes
  import opened Bits
  import opened Bitmask
  import opened Varint
  import opened CodeWriter

  /** A growing sequence of bits, packed into bytes. */
  class BitVec {
    var bytes: seq<byte>
    var current: nat
    var bits: nat

    ghost predicate Valid()
      reads this
    {
      bits < 8 && current < Pow2(bits)
    }

    /** The bits pushed so far. */
    ghost function Contents(): (s: seq<bool>)
      reads this
      ensures |s| == 8 * |bytes| + bits
    {
      BitsIn(bytes, current, bits)
    }

    constructor ()
      ensures Valid() && Contents() == [] && bytes == []
    {
      bytes, current, bits := [], 0, 0;
    }

    method Push(value: bool)
      requires Valid()
      modifies this
      ensures Valid() && Contents() == old(Contents()) + [value]
    {
      hide BitsIn, Pow2, Or;
      Pushed(bytes, current, bits, value);
      current := if value then Or(current, Pow2(bits)) else current;
      bits := bits + 1;
      if bits == 8 {
        bytes := bytes + [current];
        current := 0;
        bits := 0;
      }
    }

    /** Fills the last byte up with zeros. */
    method Finish() returns (mask: seq<byte>)
      requires Valid()
      modifies this
      ensures |mask| == (|old(Contents())| + 7) / 8
      ensures forall i :: 0 <= i ==> Mark(mask, i) == (i < |old(Contents())| && old(Contents())[i])
    {
      hide BitIn, Pow2, Mark;
      ghost var contents := Contents();
      while bits > 0
        invariant Valid() && |contents| <= |Contents()| < |contents| + 8 && Contents()[..|contents|] == contents
        invariant forall i :: |contents| <= i < |Contents()| ==> !Contents()[i]
        decreases if bits == 0 then 0 else 8 - bits
      {
        ghost var before := Contents();
        Push(false);
        assert Contents()[..|contents|] == before[..|contents|];
      }
      mask := bytes;
      ghost var all := Contents();
      forall i | 0 <= i ensures Mark(mask, i) == (i < |contents| && contents[i]) {
        MaskBits(mask, current, i);
        assert i < |all| ==> all[i] == BitIn(mask, current, i);
        if i < |contents| {
          assert all[i] == all[..|contents|][i];
        }
      }
    }
  }

  /** Bit `i` of some whole bytes followed by the bits of an unfinished byte. */
  predicate BitIn(bytes: seq<byte>, current: nat, i: nat) {
    if i < 8 * |bytes| then Mark(bytes, i) else BitAt(current, i - 8 * |bytes|)
  }

  function BitsIn(bytes: seq<byte>, current: nat, bits: nat): (s: seq<bool>)
    ensures |s| == 8 * |bytes| + bits
    ensures forall i :: 0 <= i < |s| ==> s[i] == BitIn(bytes, current, i)
  {
    seq(8 * |bytes| + bits, i requires 0 <= i < 8 * |bytes| + bits => BitIn(bytes, current, i))
  }

  lemma {:induction false} PushedBit(current: nat, bits: nat, value: bool)
    requires bits < 8 && current < Pow2(bits)
    ensures (if value then Or(current, Pow2(bits)) else current) < Pow2(bits + 1)
  {
    OrBelow(current, Pow2(bits), bits + 1);
  }

  /** One more bit, in the unfinished byte or completing it. */
  lemma {:induction false} Pushed(bytes: seq<byte>, current: nat, bits: nat, value: bool)
    requires bits < 8 && current < Pow2(bits)
    ensures Pow2(0) == 1
    ensures var now := if value then Or(current, Pow2(bits)) else current;
            && now < Pow2(bits + 1) && (bits + 1 == 8 ==> now < 256)
            && BitsIn(bytes, now, bits + 1) == BitsIn(bytes, current, bits) + [value]
            && (bits + 1 == 8 ==> BitsIn(bytes + [now], 0, 0) == BitsIn(bytes, current, bits) + [value])
  {
    hide BitIn, Pow2;
    Pow2Values();
    PushedBit(current, bits, value);
    var now := if value then Or(current, Pow2(bits)) else current;
    var length := 8 * |bytes| + bits;
    forall i | 0 <= i < length ensures BitIn(bytes, now, i) == BitIn(bytes, current, i) {
      BitKept(bytes, current, now, bits, i);
    }
    LastBit(bytes, current, now, bits, value);
    assert BitsIn(bytes, now, bits + 1) == BitsIn(bytes, current, bits) + [value];
    if bits + 1 == 8 {
      forall i | 0 <= i <= length ensures BitIn(bytes + [now], 0, i) == BitIn(bytes, now, i) {
        ByteDone(bytes, now, i);
      }
      assert BitsIn(bytes + [now], 0, 0) == BitsIn(bytes, now, bits + 1);
    }
  }

  lemma {:induction false} BitKept(bytes: seq<byte>, was: nat, now: nat, bits: nat, i: nat)
    requires i < 8 * |bytes| + bits && (now == was || now == Or(was, Pow2(bits)))
    ensures BitIn(bytes, now, i) == BitIn(bytes, was, i)
  {
    hide Or, Pow2, BitAt;
    if i >= 8 * |bytes| {
      OrBits(was, Pow2(bits), i - 8 * |bytes|);
      PowerBits(bits, i - 8 * |bytes|);
    }
  }

  lemma {:induction false} LastBit(bytes: seq<byte>, was: nat, now: nat, bits: nat, value: bool)
    requires was < Pow2(bits) && now == (if value then Or(was, Pow2(bits)) else was)
    ensures BitIn(bytes, now, 8 * |bytes| + bits) == value
  {
    hide Or, Pow2, BitAt;
    AboveAreZero(was, bits);
    OrBits(was, Pow2(bits), bits);
    PowerBits(bits, bits);
  }

  lemma {:induction false} ByteDone(bytes: seq<byte>, now: byte, i: nat)
    requires i < 8 * |bytes| + 8
    ensures BitIn(bytes + [now], 0, i) == BitIn(bytes, now, i)
  {
    hide BitAt;
    if i >= 8 * |bytes| {
      assert i / 8 == |bytes| && i % 8 == i - 8 * |bytes|;
    }
  }

  lemma {:induction false} MaskBits(mask: seq<byte>, current: nat, i: nat)
    ensures i < 8 * |mask| ==> Mark(mask, i) == BitIn(mask, current, i)
    ensures i >= 8 * |mask| ==> !Mark(mask, i)
  {
  }

  // ---------- Emission ----------

  /** The bytes of the first `n` entries. */
  function CodeOf(entries: seq<Entry>, n: nat): (s: seq<byte>)
    requires n <= |entries|
    ensures |s| == LengthOf(entries, n)
  {
    if n == 0 then [] else CodeOf(entries, n - 1) + entries[n - 1].bytes
  }

  /** A set bit for the first byte of an instruction, clear ones for the rest. */
  function StartBits(length: nat): (s: seq<bool>)
    requires length > 0
    ensures |s| == length
  {
    seq(length, i => i == 0)
  }

  function Starts(entries: seq<Entry>, n: nat): (s: seq<bool>)
    requires n <= |entries| && forall j :: 0 <= j < |entries| ==> |entries[j].bytes| > 0
    ensures |s| == LengthOf(entries, n)
  {
    if n == 0 then [] else Starts(entries, n - 1) + StartBits(|entries[n - 1].bytes|)
  }

  method Emit(entries: seq<Entry>) returns (code: seq<byte>, mask: seq<byte>)
    requires forall j :: 0 <= j < |entries| ==> |entries[j].bytes| > 0
    ensures code == CodeOf(entries, |entries|) && |mask| == (|code| + 7) / 8
    ensures forall i :: 0 <= i ==> Mark(mask, i) == (i < |code| && Starts(entries, |entries|)[i])
  {
    hide Mark;
    code := [];
    var bits := new BitVec();
    for n := 0 to |entries|
      invariant fresh(bits) && bits.Valid() && bits.Contents() == Starts(entries, n)
      invariant code == CodeOf(entries, n)
    {
      EmitStart(bits, |entries[n].bytes|);
      code := code + entries[n].bytes;
    }
    mask := bits.Finish();
  }

  method EmitStart(bits: BitVec, length: nat)
    requires bits.Valid() && length > 0
    modifies bits
    ensures bits.Valid() && bits.Contents() == old(bits.Contents()) + StartBits(length)
  {
    ghost var before := bits.Contents();
    bits.Push(true);
    for i := 1 to length
      invariant bits.Valid() && bits.Contents() == before + StartBits(length)[..i]
    {
      bits.Push(false);
      assert StartBits(length)[..i + 1] == StartBits(length)[..i] + [false];
    }
    assert StartBits(length)[..length] == StartBits(length);
  }

  /** Instruction `n` starts where the lengths before it add up to, and nothing starts inside it. */
  lemma {:induction false} StartsAt(entries: seq<Entry>, m: nat, n: nat)
    requires n < m <= |entries| && forall j :: 0 <= j < |entries| ==> |entries[j].bytes| > 0
    ensures LengthOf(entries, n) < LengthOf(entries, n + 1) <= LengthOf(entries, m)
    ensures Starts(entries, m)[LengthOf(entries, n)]
    ensures forall i :: LengthOf(entries, n) < i < LengthOf(entries, n + 1) ==> !Starts(entries, m)[i]
  {
    if n + 1 < m { StartsAt(entries, m - 1, n); }
  }

  /** The bytes of instruction `n` are where its position says. */
  lemma {:induction false} CodeAt(entries: seq<Entry>, m: nat, n: nat)
    requires n < m <= |entries|
    ensures LengthOf(entries, n) <= LengthOf(entries, n + 1) <= LengthOf(entries, m)
    ensures CodeOf(entries, m)[LengthOf(entries, n)..LengthOf(entries, n + 1)] == entries[n].bytes
  {
    if n + 1 < m { CodeAt(entries, m - 1, n); }
  }
}
