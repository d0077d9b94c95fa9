/** The instruction buffer: up to sixteen bytes packed into one number. */
module InstBuf {
  import opened Arith
  import opened Bytes
  import opened Amd64

  const CAPACITY := 128

  lemma {:induction false} Pow2OfBytes(n: nat)
    ensures Pow2(8 * n) == Pow256(n)
  {
    if n > 0 {
      Pow2OfBytes(n - 1);
      Pow2Adds(8, 8 * (n - 1));
      Pow2Values();
    }
  }

  /** Or-ing bytes in above the ones there are appends them. */
  lemma {:induction false} Packed(out: nat, n: nat, value: nat, w: nat)
    requires out < Pow256(n) && value < Pow256(w)
    ensures value * Pow2(8 * n) >= 0
    ensures var v := Or(value * Pow2(8 * n), out);
            v < Pow256(n + w) && LowBytes(v, n + w) == LowBytes(out, n) + LowBytes(value, w)
  {
    hide Or, FromLe, LowBytes, Pow2, Pow256;
    Pow2OfBytes(n);
    OrIsSum(value, out, 8 * n);
    assert Pow2(8 * n) * value == value * Pow2(8 * n);
    var low, high := LowBytes(out, n), LowBytes(value, w);
    FromLowBytes(out, n);
    FromLowBytes(value, w);
    FromLeConcat(low, high);
    FromLeBound(low + high);
    LowBytesOfRead(low + high);
  }

  class Buffer {
    var out: nat
    /** In bits. */
    var length: nat

    ghost predicate Valid()
      reads this
    {
      length % 8 == 0 && length <= CAPACITY && out < Pow256(length / 8)
    }

    /** The bytes appended so far. */
    ghost function Contents(): seq<byte>
      reads this
    {
      LowBytes(out, length / 8)
    }

    constructor ()
      ensures Valid() && Contents() == []
    {
      out, length := 0, 0;
    }

    method Append(b: byte)
      requires Valid() && length + 8 <= CAPACITY
      modifies this
      ensures Valid() && Contents() == old(Contents()) + [b] && length == old(length) + 8
    {
      AppendPacked(b, 8);
    }

    method AppendPacked(value: nat, bits: nat)
      requires Valid() && bits % 8 == 0 && length + bits <= CAPACITY && value < Pow256(bits / 8)
      modifies this
      ensures Valid() && Contents() == old(Contents()) + LowBytes(value, bits / 8) && length == old(length) + bits
    {
      hide Or, LowBytes, Pow2, Pow256;
      Packed(out, length / 8, value, bits / 8);
      assert 8 * (length / 8) == length;
      out := Or(value * Pow2(length), out);
      length := length + bits;
    }

    /** Appends an instruction piece by piece. */
    method EncodeInto(i: Inst)
      requires Valid() && length + 8 * |Encode(i)| <= CAPACITY
      requires i.displacementLength % 8 == 0 && i.displacement < Pow256(i.displacementLength / 8)
      requires i.immediateLength % 8 == 0 && i.immediate < Pow256(i.immediateLength / 8)
      modifies this
      ensures Valid() && Contents() == old(Contents()) + Encode(i)
    {
      hide LowBytes, Pow256, Vex1, Vex2, ToByte;
      ghost var before := Contents();
      EncodePrefixes(i);
      EncodeOpcode(i);
      EncodeModrm(i);
      AppendPacked(i.displacement, i.displacementLength);
      AppendPacked(i.immediate, i.immediateLength);
      Pieces(before, Prefixes(i), OpcodeBytes(i), ModrmBytes(i),
             LowBytes(i.displacement, i.displacementLength / 8), LowBytes(i.immediate, i.immediateLength / 8));
    }

    method EncodePrefixes(i: Inst)
      requires Valid() && length + 8 * |Prefixes(i)| <= CAPACITY
      modifies this
      ensures Valid() && Contents() == old(Contents()) + Prefixes(i) && length == old(length) + 8 * |Prefixes(i)|
    {
      hide LowBytes, Pow256;
      if i.opRepPrefix {
        Append(0xF3);
      }
      EncodeSegment(i);
      if i.overrideOpSize {
        Append(0x66);
      }
      if i.overrideAddrSize {
        Append(0x67);
      }
    }

    method EncodeSegment(i: Inst)
      requires Valid() && (i.overrideSegment.Some? ==> length + 8 <= CAPACITY)
      modifies this
      ensures Valid() && length == old(length) + (if i.overrideSegment.Some? then 8 else 0)
      ensures Contents() == old(Contents()) +
                match i.overrideSegment case None => [] case Some(FS) => [0x64] case Some(GS) => [0x65]
    {
      hide LowBytes, Pow256;
      match i.overrideSegment {
        case Some(FS) => Append(0x64);
        case Some(GS) => Append(0x65);
        case None =>
      }
    }

    method EncodeOpcode(i: Inst)
      requires Valid() && length + 8 * |OpcodeBytes(i)| <= CAPACITY
      modifies this
      ensures Valid() && Contents() == old(Contents()) + OpcodeBytes(i) && length == old(length) + 8 * |OpcodeBytes(i)|
    {
      hide LowBytes, Pow256, Vex1, Vex2, ToByte;
      if i.vex {
        Append(0xC4);
        Append(ToByte(Vex1(i)));
        Append(ToByte(Vex2(i)));
      } else {
        if i.rex != 0 {
          Append(ToByte(i.rex));
        }
        if i.opAlt {
          Append(0x0F);
        }
      }
      Append(i.opcode);
    }

    method EncodeModrm(i: Inst)
      requires Valid() && length + 8 * |ModrmBytes(i)| <= CAPACITY
      modifies this
      ensures Valid() && Contents() == old(Contents()) + ModrmBytes(i) && length == old(length) + 8 * |ModrmBytes(i)|
    {
      hide LowBytes, Pow256, ToByte;
      if i.modrm != 0 || i.forceModrm {
        Append(ToByte(i.modrm));
        if i.modrm / 64 % 4 != 3 && i.modrm % 8 == 4 {
          Append(ToByte(i.sib));
        }
      }
    }
  }

  lemma {:induction false} Pieces(s: seq<byte>, a: seq<byte>, b: seq<byte>, c: seq<byte>, d: seq<byte>, e: seq<byte>)
    ensures s + a + b + c + d + e == s + (a + b + c + d + e)
  {
    assert s + a + b + c == s + (a + b + c);
    assert s + (a + b + c) + d == s + (a + b + c + d);
  }
}
