/** The assembler: code, labels and the fixups that connect them. */
module Fixups {
  import opened Arith
  import opened Wrappers
  import opened Bytes

  // ---------- Packed fixups ----------

  /** The low bytes are the opcode, two bits above them its length, the top four the displacement's length. */
  function PackKind(opcode: seq<byte>, width: nat): nat {
    Or(0x1000_0000 * width, Or(0x100_0000 * |opcode|, PackOpcode(opcode)))
  }

  function PackOpcode(opcode: seq<byte>): nat {
    if opcode == [] then 0 else Or(256 * PackOpcode(opcode[1..]), opcode[0])
  }

  function KindOffset(kind: nat): nat {
    kind / 0x100_0000 % 4
  }

  function KindLength(kind: nat): nat {
    kind / 0x1000_0000
  }

  function KindOpcode(kind: nat): nat {
    kind % 0x100_0000
  }

  lemma {:induction false} PackedOpcodeIs(opcode: seq<byte>)
    ensures PackOpcode(opcode) == FromLe(opcode)
  {
    hide Or, Pow2;
    if opcode != [] {
      PackedOpcodeIs(opcode[1..]);
      Pow2Values();
      OrIsSum(FromLe(opcode[1..]), opcode[0], 8);
    }
  }

  /** Packing loses nothing. */
  lemma {:induction false} UnpackKind(opcode: seq<byte>, width: nat)
    requires 1 <= |opcode| <= 3 && width < 16
    ensures var kind := PackKind(opcode, width);
            KindOffset(kind) == |opcode| && KindLength(kind) == width && LowBytes(KindOpcode(kind), |opcode|) == opcode
  {
    hide Or, Pow2, FromLe, LowBytes, PackOpcode;
    var low := PackOpcode(opcode);
    PackedOpcodeIs(opcode);
    FromLeBound(opcode);
    OpcodeFits(opcode);
    Pow2Values();
    OrIsSum(|opcode|, low, 24);
    OrIsSum(width, 0x100_0000 * |opcode| + low, 28);
    var kind := 0x1000_0000 * width + 0x100_0000 * |opcode| + low;
    DivModUnique(kind, 0x1000_0000, width, 0x100_0000 * |opcode| + low);
    DivModUnique(kind, 0x100_0000, 16 * width + |opcode|, low);
    DivModUnique(16 * width + |opcode|, 4, 4 * width, |opcode|);
    LowBytesOfRead(opcode);
  }

  lemma {:induction false} OpcodeFits(opcode: seq<byte>)
    requires |opcode| <= 3
    ensures FromLe(opcode) < 0x100_0000
  {
    FromLeBound(opcode);
    Pow256Values();
  }

  // ---------- What is pushed ----------

  /** A label instruction's fixup: where it goes, its real opcode and the width of its displacement. */
  datatype Fix = Fix(target: nat, opcode: seq<byte>, width: nat)

  /** Bytes as pushed, with a fixup if they refer to a label. */
  datatype Piece = Piece(bytes: seq<byte>, fix: Option<Fix>)

  predicate GoodPiece(p: Piece, labels: nat) {
    p.fix.Some? ==>
      && 1 <= |p.fix.value.opcode| <= 3 && p.fix.value.width in {1, 4}
      && |p.fix.value.opcode| + p.fix.value.width <= |p.bytes| < 256
      && p.fix.value.target < labels
  }

  datatype Fixup = Fixup(target: nat, offset: nat, length: nat, kind: nat)

  /** The bytes of the first `n` pieces, as pushed. */
  function Flatten(pieces: seq<Piece>, n: nat): seq<byte>
    requires n <= |pieces|
  {
    if n == 0 then [] else Flatten(pieces, n - 1) + pieces[n - 1].bytes
  }

  function FixupAt(p: Piece, offset: nat): Fixup
    requires p.fix.Some?
  {
    Fixup(p.fix.value.target, offset, |p.bytes|, PackKind(p.fix.value.opcode, p.fix.value.width))
  }

  /** The fixups of the first `n` pieces. */
  function FixupsOf(pieces: seq<Piece>, n: nat): seq<Fixup>
    requires n <= |pieces|
  {
    if n == 0 then []
    else
      FixupsOf(pieces, n - 1)
      + (if pieces[n - 1].fix.Some? then [FixupAt(pieces[n - 1], |Flatten(pieces, n - 1)|)] else [])
  }

  // ---------- What comes out ----------

  const UNDEFINED := 0x7FFF_FFFF_FFFF_FFFF

  function Displacement(width: nat, distance: int): seq<byte> {
    LowBytes(distance % U32, width)
  }

  predicate InRange(width: nat, distance: int) {
    if width == 1 then -128 <= distance <= 127 else -0x8000_0000 <= distance <= 0x7FFF_FFFF
  }

  predicate Reachable(p: Piece, end: int, labels: seq<int>) {
    p.fix.Some? && p.fix.value.target < |labels| && labels[p.fix.value.target] != UNDEFINED ==>
      InRange(p.fix.value.width, labels[p.fix.value.target] - end)
  }

  /** A piece that ends at `end`, with its label resolved if it has one that is defined. */
  function Patched(p: Piece, end: int, labels: seq<int>): (s: seq<byte>)
    requires GoodPiece(p, |labels|)
    ensures |s| == |p.bytes|
  {
    if p.fix.None? || labels[p.fix.value.target] == UNDEFINED then p.bytes
    else
      var fix := p.fix.value;
      fix.opcode + Displacement(fix.width, labels[fix.target] - end) + p.bytes[|fix.opcode| + fix.width..]
  }

  lemma {:induction false} PatchedCases(p: Piece, end: int, labels: seq<int>)
    requires GoodPiece(p, |labels|) && p.fix.Some?
    ensures var fix := p.fix.value;
            var bytes := Displacement(fix.width, labels[fix.target] - end);
            |bytes| == fix.width &&
            Patched(p, end, labels) ==
              if labels[fix.target] == UNDEFINED then p.bytes
              else fix.opcode + bytes + p.bytes[|fix.opcode| + fix.width..]
  {
  }

  /** The bytes of the first `n` pieces, patched. */
  function Final(pieces: seq<Piece>, labels: seq<int>, n: nat): (s: seq<byte>)
    requires n <= |pieces| && GoodPieces(pieces, |labels|)
    ensures |s| == |Flatten(pieces, n)|
  {
    if n == 0 then []
    else Final(pieces, labels, n - 1) + Patched(pieces[n - 1], |Flatten(pieces, n)|, labels)
  }

  /** Piece `k` of the final code: patched, in its place. */
  lemma {:induction false} FinalAt(pieces: seq<Piece>, labels: seq<int>, n: nat, k: nat)
    requires k < n <= |pieces| && GoodPieces(pieces, |labels|)
    ensures var a, b := |Flatten(pieces, k)|, |Flatten(pieces, k + 1)|;
            a <= b <= |Flatten(pieces, n)| && Final(pieces, labels, n)[a..b] == Patched(pieces[k], b, labels)
  {
    hide Patched, GoodPiece;
    if k + 1 < n { FinalAt(pieces, labels, n - 1, k); }
  }

  /** What the processor reads from a displacement in range is the distance. */
  lemma {:induction false} DisplacementReads(width: nat, distance: int)
    requires width in {1, 4} && InRange(width, distance)
    ensures Signed(Displacement(width, distance)) == distance
  {
    hide LowBytes, Signed;
    SignedBack(distance, width);
  }

  /** A patched label instruction starts with its opcode, and its end plus its displacement is the label. */
  lemma {:induction false} PatchedHitsLabel(p: Piece, end: int, labels: seq<int>)
    requires GoodPiece(p, |labels|) && Reachable(p, end, labels)
    requires p.fix.Some? && labels[p.fix.value.target] != UNDEFINED
    ensures var n, w := |p.fix.value.opcode|, p.fix.value.width;
            var s := Patched(p, end, labels);
            && s[..n] == p.fix.value.opcode
            && end + Signed(s[n..n + w]) == labels[p.fix.value.target]
            && s[n + w..] == p.bytes[n + w..]
  {
    hide Signed, InRange, LowBytes;
    var fix := p.fix.value;
    DisplacementReads(fix.width, labels[fix.target] - end);
    var n, w := |fix.opcode|, fix.width;
    var s := Patched(p, end, labels);
    assert s[n..n + w] == Displacement(w, labels[fix.target] - end);
  }

  /** In the final code, every label instruction whose label is defined starts with its opcode, and its end plus its
      displacement is the label's offset; every other piece is as it was pushed. */
  lemma {:induction false} FinalHitsLabels(pieces: seq<Piece>, labels: seq<int>, k: nat)
    requires k < |pieces| && GoodPieces(pieces, |labels|) && Reachable(pieces[k], |Flatten(pieces, k + 1)|, labels)
    ensures var code := Final(pieces, labels, |pieces|);
            var start, end := |Flatten(pieces, k)|, |Flatten(pieces, k + 1)|;
            var fix := pieces[k].fix;
            && start <= end <= |code|
            && (fix.None? || labels[fix.value.target] == UNDEFINED ==> code[start..end] == pieces[k].bytes)
            && (fix.Some? && labels[fix.value.target] != UNDEFINED ==>
                  var n, w := |fix.value.opcode|, fix.value.width;
                  && start + n + w <= end
                  && code[start..start + n] == fix.value.opcode
                  && end + Signed(code[start + n..start + n + w]) == labels[fix.value.target]
                  && code[start + n + w..end] == pieces[k].bytes[n + w..])
  {
    hide Flatten, Final, Signed, Patched, Reachable, Displacement;
    var code := Final(pieces, labels, |pieces|);
    var start, end := |Flatten(pieces, k)|, |Flatten(pieces, k + 1)|;
    FinalAt(pieces, labels, |pieces|, k);
    FlattenStep(pieces, k);
    if pieces[k].fix.Some? {
      PatchedCases(pieces[k], end, labels);
      if labels[pieces[k].fix.value.target] != UNDEFINED {
        PatchedHitsLabel(pieces[k], end, labels);
        var n, w := |pieces[k].fix.value.opcode|, pieces[k].fix.value.width;
        var s := code[start..end];
        SliceOfSlice(code, start, end, 0, n);
        SliceOfSlice(code, start, end, n, n + w);
        SliceOfSlice(code, start, end, n + w, end - start);
        assert s[0..n] == s[..n] && s[n + w..end - start] == s[n + w..];
      }
    } else {
      NotPatched(pieces[k], end, labels);
    }
  }

  lemma {:induction false} SliceOfSlice(s: seq<byte>, a: nat, b: nat, i: nat, j: nat)
    requires i <= j <= b - a && b <= |s|
    ensures s[a..b][i..j] == s[a + i..a + j]
  {
    var x, y := s[a..b][i..j], s[a + i..a + j];
    assert |x| == |y| && forall k :: 0 <= k < |x| ==> x[k] == y[k];
  }

  lemma {:induction false} FlattenStep(pieces: seq<Piece>, k: nat)
    requires k < |pieces|
    ensures |Flatten(pieces, k + 1)| == |Flatten(pieces, k)| + |pieces[k].bytes|
  {
  }

  lemma {:induction false} NotPatched(p: Piece, end: int, labels: seq<int>)
    requires GoodPiece(p, |labels|) && p.fix.None?
    ensures Patched(p, end, labels) == p.bytes
  {
  }

  // ---------- Prefixes of a history ----------

  lemma {:induction false} PrefixOf(pieces: seq<Piece>, k: nat, n: nat)
    requires n <= k <= |pieces|
    ensures Flatten(pieces[..k], n) == Flatten(pieces, n) && FixupsOf(pieces[..k], n) == FixupsOf(pieces, n)
  {
    if n > 0 { PrefixOf(pieces, k, n - 1); }
  }

  lemma {:induction false} FlattenGrows(pieces: seq<Piece>, k: nat, n: nat)
    requires k <= n <= |pieces|
    ensures |Flatten(pieces, k)| <= |Flatten(pieces, n)|
    ensures Flatten(pieces, n)[..|Flatten(pieces, k)|] == Flatten(pieces, k)
  {
    if k < n { FlattenGrows(pieces, k, n - 1); }
  }

  /** Appending a piece appends its bytes and its fixup. */
  lemma {:induction false} Appended(pieces: seq<Piece>, p: Piece)
    ensures Flatten(pieces + [p], |pieces| + 1) == Flatten(pieces, |pieces|) + p.bytes
    ensures FixupsOf(pieces + [p], |pieces| + 1) ==
            FixupsOf(pieces, |pieces|) + (if p.fix.Some? then [FixupAt(p, |Flatten(pieces, |pieces|)|)] else [])
  {
    PrefixOf(pieces + [p], |pieces|, |pieces|);
    assert (pieces + [p])[..|pieces|] == pieces;
  }

  /** Beyond piece `k` there is no fixup left, or there is a last one and it lies beyond piece `k`. */
  lemma {:induction false} LastFixup(pieces: seq<Piece>, m: nat, k: nat) returns (q: nat)
    requires k <= m <= |pieces|
    ensures k <= q <= m
    ensures q == m ==> FixupsOf(pieces, m) == FixupsOf(pieces, k)
    ensures q < m ==> pieces[q].fix.Some? && |Flatten(pieces, q)| >= |Flatten(pieces, k)| &&
                      FixupsOf(pieces, m) == FixupsOf(pieces, q) + [FixupAt(pieces[q], |Flatten(pieces, q)|)]
    decreases m - k
  {
    hide FixupAt;
    if k == m {
      q := m;
    } else if pieces[m - 1].fix.Some? {
      q := m - 1;
      FlattenGrows(pieces, k, q);
    } else {
      q := LastFixup(pieces, m - 1, k);
      if q == m - 1 { q := m; }
    }
  }

  /** Fixups among the first `k` pieces lie before their end. */
  lemma {:induction false} FixupsBefore(pieces: seq<Piece>, labels: nat, k: nat)
    requires k <= |pieces| && GoodPieces(pieces, labels)
    ensures forall i :: 0 <= i < |FixupsOf(pieces, k)| ==> FixupsOf(pieces, k)[i].offset < |Flatten(pieces, k)|
  {
    hide PackKind;
    if k > 0 { FixupsBefore(pieces, labels, k - 1); }
  }

  /** A last fixup beyond piece `k` is the last one of the first `q` pieces and one more, for some `q` from `k` on. */
  lemma {:induction false} PopFixup(pieces: seq<Piece>, labels: nat, m: nat, k: nat) returns (q: nat)
    requires GoodPieces(pieces, labels) && k <= m <= |pieces| && FixupsOf(pieces, m) != []
    requires FixupsOf(pieces, m)[|FixupsOf(pieces, m)| - 1].offset >= |Flatten(pieces, k)|
    ensures k <= q <= |pieces| && FixupsOf(pieces, m)[..|FixupsOf(pieces, m)| - 1] == FixupsOf(pieces, q)
  {
    hide FixupsOf, Flatten, GoodPieces, FixupAt;
    FixupsBefore(pieces, labels, k);
    q := LastFixup(pieces, m, k);
  }

  lemma {:induction false} KeptFixups(pieces: seq<Piece>, m: nat, k: nat)
    requires k <= m <= |pieces|
    requires FixupsOf(pieces, m) == [] || FixupsOf(pieces, m)[|FixupsOf(pieces, m)| - 1].offset < |Flatten(pieces, k)|
    ensures FixupsOf(pieces, m) == FixupsOf(pieces, k)
  {
    hide FixupsOf, Flatten, PackKind;
    var q := LastFixup(pieces, m, k);
  }

  /** The piece a fixup belongs to, and that nothing before it, from `p` on, has one. */
  lemma {:induction false} NextFixup(pieces: seq<Piece>, p: nat, i: nat) returns (q: nat)
    requires p <= |pieces| && |FixupsOf(pieces, p)| == i < |FixupsOf(pieces, |pieces|)|
    ensures p <= q < |pieces| && pieces[q].fix.Some? && FixupsOf(pieces, q) == FixupsOf(pieces, p)
    ensures forall j :: p <= j < q ==> pieces[j].fix.None?
    ensures FixupsOf(pieces, |pieces|)[i] == FixupAt(pieces[q], |Flatten(pieces, q)|)
    decreases |pieces| - p
  {
    hide FixupAt;
    if p == |pieces| {
      q := p;
    } else if pieces[p].fix.Some? {
      q := p;
      FixupsGrow(pieces, p + 1, |pieces|);
    } else {
      q := NextFixup(pieces, p + 1, i);
    }
  }

  lemma {:induction false} FixupsGrow(pieces: seq<Piece>, k: nat, n: nat)
    requires k <= n <= |pieces|
    ensures |FixupsOf(pieces, k)| <= |FixupsOf(pieces, n)| &&
            FixupsOf(pieces, n)[..|FixupsOf(pieces, k)|] == FixupsOf(pieces, k)
  {
    hide FixupAt;
    if k < n { FixupsGrow(pieces, k, n - 1); }
  }

  // ---------- Patching ----------

  ghost predicate GoodPieces(pieces: seq<Piece>, labels: nat) {
    forall i :: 0 <= i < |pieces| ==> GoodPiece(pieces[i], labels)
  }

  /** The unpatched bytes from piece `p` on. */
  ghost function Rest(pieces: seq<Piece>, p: nat): seq<byte>
    requires p <= |pieces|
  {
    FlattenGrows(pieces, p, |pieces|);
    Flatten(pieces, |pieces|)[|Flatten(pieces, p)|..]
  }

  lemma {:induction false} PatchBytes(pre: seq<byte>, bytes: seq<byte>, post: seq<byte>, opcode: seq<byte>,
      distance: seq<byte>)
    requires |opcode| + |distance| <= |bytes|
    ensures var b := pre + bytes + post;
            var c := b[..|pre|] + opcode + b[|pre| + |opcode|..];
            var at := |pre| + |opcode|;
            c[..at] + distance + c[at + |distance|..] ==
              pre + (opcode + distance + bytes[|opcode| + |distance|..]) + post
  {
    var b := pre + bytes + post;
    var c := b[..|pre|] + opcode + b[|pre| + |opcode|..];
    var at := |pre| + |opcode|;
    assert c[..at] == pre + opcode;
    assert c[at + |distance|..] == bytes[|opcode| + |distance|..] + post;
  }

  lemma {:induction false} Beginning(pieces: seq<Piece>, labels: seq<int>)
    requires GoodPieces(pieces, |labels|)
    ensures Final(pieces, labels, 0) + Rest(pieces, 0) == Flatten(pieces, |pieces|) && FixupsOf(pieces, 0) == []
  {
  }

  lemma {:induction false} Ending(pieces: seq<Piece>, labels: seq<int>)
    requires GoodPieces(pieces, |labels|)
    ensures Final(pieces, labels, |pieces|) + Rest(pieces, |pieces|) == Final(pieces, labels, |pieces|)
  {
    hide Flatten;
  }

  /** One piece further. */
  lemma {:induction false} OnePiece(pieces: seq<Piece>, labels: seq<int>, q: nat)
    requires GoodPieces(pieces, |labels|) && q < |pieces|
    ensures |Flatten(pieces, q + 1)| == |Flatten(pieces, q)| + |pieces[q].bytes|
    ensures Rest(pieces, q) == pieces[q].bytes + Rest(pieces, q + 1)
    ensures Final(pieces, labels, q + 1) ==
              Final(pieces, labels, q) + Patched(pieces[q], |Flatten(pieces, q + 1)|, labels)
  {
    hide Patched, GoodPiece;
    FlattenGrows(pieces, q + 1, |pieces|);
    var all, a, b := Flatten(pieces, |pieces|), |Flatten(pieces, q)|, |Flatten(pieces, q + 1)|;
    assert all[..b] == Flatten(pieces, q) + pieces[q].bytes;
    assert all[a..b] == all[..b][a..];
    assert all[a..] == all[a..b] + all[b..];
  }

  /** Pieces without a label stay as they are. */
  lemma {:induction false} SkipUnlabelled(pieces: seq<Piece>, labels: seq<int>, p: nat, q: nat)
    requires GoodPieces(pieces, |labels|) && p <= q <= |pieces| && forall j :: p <= j < q ==> pieces[j].fix.None?
    ensures Final(pieces, labels, q) + Rest(pieces, q) == Final(pieces, labels, p) + Rest(pieces, p)
    ensures forall j :: p <= j < q ==> Reachable(pieces[j], |Flatten(pieces, j + 1)|, labels)
  {
    hide Final, Rest, Flatten;
    if p < q {
      SkipUnlabelled(pieces, labels, p, q - 1);
      OnePiece(pieces, labels, q - 1);
      var bytes := pieces[q - 1].bytes;
      assert Final(pieces, labels, q - 1) + bytes + Rest(pieces, q) ==
          Final(pieces, labels, q - 1) + (bytes + Rest(pieces, q));
    }
  }

  lemma {:induction false} OneFixup(pieces: seq<Piece>, q: nat)
    requires q < |pieces| && pieces[q].fix.Some?
    ensures |FixupsOf(pieces, q + 1)| == |FixupsOf(pieces, q)| + 1
  {
  }

  lemma {:induction false} NoneLeft(pieces: seq<Piece>, p: nat)
    requires p <= |pieces| && |FixupsOf(pieces, p)| == |FixupsOf(pieces, |pieces|)|
    ensures forall j :: p <= j < |pieces| ==> pieces[j].fix.None?
  {
    forall j | p <= j < |pieces| ensures pieces[j].fix.None? {
      FixupsGrow(pieces, p, j);
      FixupsGrow(pieces, j + 1, |pieces|);
    }
  }

  // ---------- The assembler ----------

  class Assembler {
    var code: seq<byte>
    var labels: seq<int>
    var fixups: seq<Fixup>
    ghost var pieces: seq<Piece>

    /** Code and fixups are those of everything pushed and not cut off again. */
    ghost predicate Valid()
      reads this
    {
      && code == Flatten(pieces, |pieces|) && fixups == FixupsOf(pieces, |pieces|)
      && GoodPieces(pieces, |labels|)
    }

    constructor ()
      ensures Valid() && pieces == [] && labels == []
    {
      code, labels, fixups, pieces := [], [], [], [];
    }

    method ForwardDeclareLabel() returns (name: nat)
      requires Valid()
      modifies this`labels
      ensures Valid() && name == |old(labels)| && labels == old(labels) + [UNDEFINED]
    {
      name := |labels|;
      labels := labels + [UNDEFINED];
    }

    method CreateLabel() returns (name: nat)
      requires Valid()
      modifies this`labels
      ensures Valid() && name == |old(labels)| && labels == old(labels) + [|code|]
    {
      name := |labels|;
      labels := labels + [|code|];
    }

    method DefineLabel(name: nat)
      requires Valid() && name < |labels| && labels[name] == UNDEFINED
      modifies this`labels
      ensures Valid() && labels == old(labels)[name := |code|]
    {
      labels := labels[name := |code|];
    }

    method SetLabelOffset(name: nat, offset: int)
      requires Valid() && name < |labels|
      modifies this`labels
      ensures Valid() && labels == old(labels)[name := offset]
    {
      labels := labels[name := offset];
    }

    /** Pushes an instruction, which may refer to a label. */
    method Push(bytes: seq<byte>, fix: Option<Fix>)
      requires Valid() && GoodPiece(Piece(bytes, fix), |labels|)
      modifies this`code, this`fixups, this`pieces
      ensures Valid() && pieces == old(pieces) + [Piece(bytes, fix)]
    {
      hide Flatten, FixupsOf, PackKind;
      var offset := |code|;
      code := code + bytes;
      if fix.Some? {
        fixups := fixups + [Fixup(fix.value.target, offset, |bytes|, PackKind(fix.value.opcode, fix.value.width))];
      }
      Appended(pieces, Piece(bytes, fix));
      pieces := pieces + [Piece(bytes, fix)];
    }

    method PushRaw(bytes: seq<byte>)
      requires Valid()
      modifies this`code, this`fixups, this`pieces
      ensures Valid() && pieces == old(pieces) + [Piece(bytes, None)]
    {
      hide Flatten, FixupsOf;
      Appended(pieces, Piece(bytes, None));
      code := code + bytes;
      pieces := pieces + [Piece(bytes, None)];
    }

    /** Cuts the code off after the first `k` pieces, and drops the fixups beyond. */
    method Truncate(length: nat, ghost k: nat)
      requires Valid() && k <= |pieces| && length == |Flatten(pieces, k)|
      modifies this`code, this`fixups, this`pieces
      ensures Valid() && pieces == old(pieces)[..k]
    {
      hide Flatten, FixupsOf, PackKind, GoodPiece;
      FlattenGrows(pieces, k, |pieces|);
      code := code[..length];
      ghost var m := |pieces|;
      while fixups != [] && fixups[|fixups| - 1].offset >= length
        invariant pieces == old(pieces) && code == old(code)[..length]
        invariant k <= m <= |pieces| && fixups == FixupsOf(pieces, m)
        decreases |fixups|
      {
        m := PopFixup(pieces, |labels|, m, k);
        fixups := fixups[..|fixups| - 1];
      }
      KeptFixups(pieces, m, k);
      PrefixOf(pieces, k, k);
      pieces := pieces[..k];
    }

    /** Resolves one fixup. Fails when the label is too far away. */
    method Apply(fixup: Fixup, ghost pre: seq<byte>, ghost p: Piece, ghost post: seq<byte>) returns (ok: bool)
      requires GoodPiece(p, |labels|) && p.fix.Some? && fixup == FixupAt(p, |pre|) && code == pre + p.bytes + post
      modifies this`code
      ensures ok == Reachable(p, |pre| + |p.bytes|, labels)
      ensures ok ==> code == pre + Patched(p, |pre| + |p.bytes|, labels) + post
    {
      hide PackKind, LowBytes, KindOffset, KindLength, KindOpcode, Patched, Displacement, InRange;
      PatchedCases(p, |pre| + |p.bytes|, labels);
      var end := fixup.offset + fixup.length;
      var target := labels[fixup.target];
      if target == UNDEFINED {
        return true;
      }
      UnpackKind(p.fix.value.opcode, p.fix.value.width);
      var n, width := KindOffset(fixup.kind), KindLength(fixup.kind);
      var opcode := LowBytes(KindOpcode(fixup.kind), 3);
      LowBytesPrefix(KindOpcode(fixup.kind), n, 3);
      var distance := target - end;
      if !InRange(width, distance) {
        return false;
      }
      ghost var before := code;
      WriteOpcode(fixup.offset, n, opcode);
      var at := fixup.offset + n;
      code := code[..at] + Displacement(width, distance) + code[at + width..];
      PatchBytes(pre, p.bytes, post, opcode[..n], Displacement(width, distance));
      ok := true;
    }

    /** Writes the opcode bytes one by one. */
    method WriteOpcode(offset: nat, n: nat, opcode: seq<byte>)
      requires 1 <= n <= 3 && |opcode| == 3 && offset + n <= |code|
      modifies this`code
      ensures code == old(code)[..offset] + opcode[..n] + old(code)[offset + n..]
    {
      code := code[offset := opcode[0]];
      if n >= 2 {
        code := code[offset + 1 := opcode[1]];
        if n >= 3 {
          code := code[offset + 2 := opcode[2]];
        }
      }
    }

    /** Resolves all fixups. Fails when some label is too far away. */
    method Finalize() returns (ok: bool)
      requires Valid()
      modifies this`code, this`fixups
      ensures ok <==> forall i :: 0 <= i < |pieces| ==> Reachable(pieces[i], |Flatten(pieces, i + 1)|, labels)
      ensures ok ==> code == Final(pieces, labels, |pieces|) && fixups == []
    {
      hide Flatten, FixupsOf, Final, GoodPiece, Patched, PackKind, Reachable, FixupAt, Rest;
      ghost var p := 0;
      Beginning(pieces, labels);
      for i := 0 to |fixups|
        invariant fixups == FixupsOf(pieces, |pieces|)
        invariant p <= |pieces| && |FixupsOf(pieces, p)| == i
        invariant code == Final(pieces, labels, p) + Rest(pieces, p)
        invariant forall j :: 0 <= j < p ==> Reachable(pieces[j], |Flatten(pieces, j + 1)|, labels)
      {
        ghost var q := NextFixup(pieces, p, i);
        SkipUnlabelled(pieces, labels, p, q);
        OnePiece(pieces, labels, q);
        ghost var pre, post := Final(pieces, labels, q), Rest(pieces, q + 1);
        assert pre + (pieces[q].bytes + post) == pre + pieces[q].bytes + post;
        var reached := Apply(fixups[i], pre, pieces[q], post);
        if !reached {
          assert !Reachable(pieces[q], |Flatten(pieces, q + 1)|, labels);
          return false;
        }
        OneFixup(pieces, q);
        p := q + 1;
      }
      NoneLeft(pieces, p);
      SkipUnlabelled(pieces, labels, p, |pieces|);
      Ending(pieces, labels);
      fixups := [];
      ok := true;
    }
  }
}
