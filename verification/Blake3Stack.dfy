/** The stack of subtree chaining values that incremental hashing keeps (section 5.1.2 of the
    BLAKE3 paper): one entry for each one-bit of the number of finished chunks. */
module Blake3Stack {
  import opened Arith
  import opened Bytes
  import opened Blake3

  /** The chaining values of the complete subtrees over `n` finished chunks, largest first. */
  function Stack(m: Mode, first: nat, bytes: seq<byte>, n: nat): seq<Words8>
    requires |bytes| == CHUNK_LEN * n
    decreases n
  {
    if n == 0 then []
    else
      var p := HighBit(n);
      [SubtreeCv(m, first, bytes[..CHUNK_LEN * p])] + Stack(m, first + p, bytes[CHUNK_LEN * p..], n - p)
  }

  /** Merges a node with the stack entries from the top down, as finalizing does. */
  function Fold(m: Mode, stack: seq<Words8>, o: Output): Output
    decreases |stack|
  {
    if stack == [] then o
    else Fold(m, stack[..|stack| - 1], ParentOutput(m, stack[|stack| - 1], ChainingValue(m, o)))
  }

  // ---------- Finalizing ----------

  lemma {:induction false} FoldFromBottom(m: Mode, a: Words8, stack: seq<Words8>, o: Output)
    ensures Fold(m, [a] + stack, o) == ParentOutput(m, a, ChainingValue(m, Fold(m, stack, o)))
    decreases |stack|
  {
    var whole := [a] + stack;
    if stack == [] {
      assert whole[..0] == [];
      assert Fold(m, [], ParentOutput(m, a, ChainingValue(m, o))) == ParentOutput(m, a, ChainingValue(m, o));
    } else {
      var next := ParentOutput(m, stack[|stack| - 1], ChainingValue(m, o));
      assert whole[..|whole| - 1] == [a] + stack[..|stack| - 1];
      assert whole[|whole| - 1] == stack[|stack| - 1];
      FoldFromBottom(m, a, stack[..|stack| - 1], next);
    }
  }

  lemma {:induction false} FullChunksOf(n: nat, last: nat)
    requires 0 < last <= CHUNK_LEN
    ensures FullChunks(CHUNK_LEN * n + last) == n
  {
    DivModUnique(CHUNK_LEN * n + last - 1, CHUNK_LEN, n, last - 1);
  }

  /** Folding the last chunk into the stack gives the root of the whole tree. */
  lemma {:induction false} FoldIsSubtree(m: Mode, first: nat, done: seq<byte>, n: nat, last: seq<byte>)
    requires |done| == CHUNK_LEN * n && |last| <= CHUNK_LEN && (n > 0 ==> |last| > 0)
    ensures Fold(m, Stack(m, first, done, n), ChunkOutput(m, first + n, last)) == Subtree(m, first, done + last)
    decreases n
  {
    hide HighBit, ChunkOutput, ParentOutput, ChainingValue;
    var bytes := done + last;
    if n == 0 {
      assert bytes == last;
    } else {
      FullChunksOf(n, |last|);
      var p := HighBit(n);
      var cut := CHUNK_LEN * p;
      assert bytes[..cut] == done[..cut];
      assert bytes[cut..] == done[cut..] + last;
      FoldIsSubtree(m, first + p, done[cut..], n - p, last);
      FoldFromBottom(m, SubtreeCv(m, first, done[..cut]), Stack(m, first + p, done[cut..], n - p),
        ChunkOutput(m, first + n, last));
    }
  }

  // ---------- Adding a chunk ----------

  /** The largest power of two that divides `n`. */
  function LowBit(n: nat): (p: nat)
    requires n >= 1
    ensures 1 <= p <= n
  {
    if n % 2 == 1 then 1 else 2 * LowBit(n / 2)
  }

  /** The number of one-bits. */
  function Ones(n: nat): nat {
    if n == 0 then 0 else n % 2 + Ones(n / 2)
  }

  lemma {:induction false} BitsOfPow2(p: nat)
    requires IsPow2(p)
    ensures p >= 1 && HighBit(p) == p && LowBit(p) == p && Ones(p) == 1
    ensures p >= 2 ==> HighBit(p - 1) == p / 2
  {
    if p >= 2 {
      BitsOfPow2(p / 2);
      if p > 2 { assert (p - 1) / 2 == p / 2 - 1; }
    }
  }

  /** Taking away the highest bit leaves one fewer one-bits. */
  lemma {:induction false} OnesWithoutHighBit(n: nat)
    requires n >= 1
    ensures Ones(n) == 1 + Ones(n - HighBit(n))
    decreases n
  {
    if n > 1 {
      var h := HighBit(n / 2);
      OnesWithoutHighBit(n / 2);
      assert (n - 2 * h) / 2 == n / 2 - h && (n - 2 * h) % 2 == n % 2;
    }
  }

  /** Taking away the highest bit leaves the lowest bit, unless they are the same. */
  lemma {:induction false} LowBitWithoutHighBit(n: nat)
    requires n >= 1
    ensures if n == HighBit(n) then LowBit(n) == n else LowBit(n) == LowBit(n - HighBit(n))
    decreases n
  {
    if n > 1 {
      var h := HighBit(n / 2);
      LowBitWithoutHighBit(n / 2);
      assert (n - 2 * h) / 2 == n / 2 - h && (n - 2 * h) % 2 == n % 2;
    }
  }

  /** Taking away the lowest bit leaves the highest bit, unless they are the same. */
  lemma {:induction false} HighBitWithoutLowBit(n: nat)
    requires n >= 1 && n != HighBit(n)
    ensures n > LowBit(n) && HighBit(n - LowBit(n)) == HighBit(n)
    decreases n
  {
    LowBitWithoutHighBit(n);
    if n % 2 == 0 {
      HighBitWithoutLowBit(n / 2);
      var b := LowBit(n / 2);
      assert (n - 2 * b) / 2 == n / 2 - b;
    } else {
      assert (n - 1) / 2 == n / 2;
    }
  }

  /** There is one stack entry for each one-bit of the number of finished chunks. */
  lemma {:induction false} StackLength(m: Mode, first: nat, bytes: seq<byte>, n: nat)
    requires |bytes| == CHUNK_LEN * n
    ensures |Stack(m, first, bytes, n)| == Ones(n)
    decreases n
  {
    if n > 0 {
      var p := HighBit(n);
      StackLength(m, first + p, bytes[CHUNK_LEN * p..], n - p);
      OnesWithoutHighBit(n);
    }
  }

  lemma {:induction false} OnesBound(n: nat, k: nat)
    requires n < Pow2(k)
    ensures Ones(n) <= k
    decreases k
  {
    if n > 0 { OnesBound(n / 2, k - 1); }
  }

  /** The top of the stack covers the chunks of the lowest one-bit. */
  lemma {:induction false} StackTop(m: Mode, first: nat, bytes: seq<byte>, n: nat)
    requires n >= 1 && |bytes| == CHUNK_LEN * n
    ensures var rest := n - LowBit(n);
            Stack(m, first, bytes, n) ==
            Stack(m, first, bytes[..CHUNK_LEN * rest], rest) + [SubtreeCv(m, first + rest, bytes[CHUNK_LEN * rest..])]
    decreases n
  {
    hide HighBit, LowBit, SubtreeCv;
    var p, b := HighBit(n), LowBit(n);
    var rest := n - b;
    LowBitWithoutHighBit(n);
    if n == p {
      assert bytes[..CHUNK_LEN * p] == bytes;
      assert bytes[CHUNK_LEN * p..] == [];
      assert Stack(m, first + p, [], 0) == [];
      assert bytes[CHUNK_LEN * rest..] == bytes;
    } else {
      var right := bytes[CHUNK_LEN * p..];
      HighBitWithoutLowBit(n);
      StackTop(m, first + p, right, n - p);
      var kept := bytes[..CHUNK_LEN * rest];
      assert kept[..CHUNK_LEN * p] == bytes[..CHUNK_LEN * p];
      assert kept[CHUNK_LEN * p..] == right[..CHUNK_LEN * (rest - p)];
      assert right[CHUNK_LEN * (rest - p)..] == bytes[CHUNK_LEN * rest..];
    }
  }

  lemma {:induction false} DoubleIsPow2(t: nat)
    requires IsPow2(t)
    ensures IsPow2(2 * t) && HighBit(2 * t - 1) == t
  {
    assert 2 * t / 2 == t;
    BitsOfPow2(2 * t);
  }

  lemma {:induction false} SplitsInHalf(n: nat)
    requires IsPow2(n)
    ensures HighBit(FullChunks(CHUNK_LEN * (2 * n))) == n
  {
    DoubleIsPow2(n);
    FullChunksOf(2 * n - 1, CHUNK_LEN);
    hide HighBit;
  }

  /** Two neighbouring complete subtrees of the same size make one of twice the size. */
  lemma {:induction false} MergeEqual(m: Mode, first: nat, left: seq<byte>, right: seq<byte>, t: nat)
    requires IsPow2(t) && |left| == |right| == CHUNK_LEN * t
    ensures SubtreeCv(m, first, left + right) ==
            ChainingValue(m, ParentOutput(m, SubtreeCv(m, first, left), SubtreeCv(m, first + t, right)))
  {
    hide HighBit, FullChunks, ChunkOutput, ParentOutput, ChainingValue, IsPow2;
    var bytes := left + right;
    PowersArePositive(t);
    SplitsInHalf(t);
    assert |bytes| == CHUNK_LEN * (2 * t);
    assert bytes[..CHUNK_LEN * t] == left;
    assert bytes[CHUNK_LEN * t..] == right;
  }

  lemma {:induction false} PowersArePositive(t: nat)
    requires IsPow2(t)
    ensures t >= 1
  {
  }

  /** `t` is the lowest bit of `n - t` when `2 * t` divides `n`. */
  lemma {:induction false} LowBitBelow(n: nat, t: nat)
    requires IsPow2(t) && n >= 2 * t && n % (2 * t) == 0
    ensures LowBit(n - t) == t
    decreases t
  {
    if t > 1 {
      HalfDivides(n, t);
      LowBitBelow(n / 2, t / 2);
      assert (n - t) / 2 == n / 2 - t / 2;
    }
  }

  lemma {:induction false} HalfDivides(n: nat, t: nat)
    requires t >= 2 && t % 2 == 0 && n % (2 * t) == 0
    ensures n % 2 == 0 && (n / 2) % t == 0
  {
    var q := n / (2 * t);
    assert n == 2 * t * q;
    assert n / 2 == t * q;
    MultipleHasNoRemainder(t, q);
  }

  lemma {:induction false} MultipleHasNoRemainder(t: nat, q: nat)
    requires t > 0
    ensures (t * q) % t == 0
  {
    DivModUnique(t * q, t, q, 0);
  }

  /** `t` is the lowest bit of an odd multiple of `t`. */
  lemma {:induction false} LowBitOfOddMultiple(q: nat, t: nat)
    requires IsPow2(t) && q % 2 == 1
    ensures t * q >= 1 && LowBit(t * q) == t
    decreases t
  {
    if t > 1 {
      LowBitOfOddMultiple(q, t / 2);
      assert t * q == 2 * (t / 2 * q);
    }
  }

  // ---------- One chunk added, merge by merge ----------

  /** While chunk number `total` is added, the last `t` chunks have been merged into one node. */
  ghost predicate Merging(m: Mode, bytes: seq<byte>, total: nat, t: nat, stack: seq<Words8>, cv: Words8) {
    && IsPow2(t) && 1 <= t <= total && total % t == 0 && |bytes| == CHUNK_LEN * total
    && stack == Stack(m, 0, bytes[..CHUNK_LEN * (total - t)], total - t)
    && cv == SubtreeCv(m, total - t, bytes[CHUNK_LEN * (total - t)..])
  }

  lemma {:induction false} MergeBegins(m: Mode, bytes: seq<byte>, total: nat, stack: seq<Words8>)
    requires total >= 1 && |bytes| == CHUNK_LEN * total &&
             stack == Stack(m, 0, bytes[..CHUNK_LEN * (total - 1)], total - 1)
    ensures Merging(m, bytes, total, 1, stack,
            ChainingValue(m, ChunkOutput(m, total - 1, bytes[CHUNK_LEN * (total - 1)..])))
  {
    hide Stack, ChunkOutput;
    assert IsPow2(1);
    var last := bytes[CHUNK_LEN * (total - 1)..];
    assert |last| == CHUNK_LEN;
    assert SubtreeCv(m, total - 1, last) == ChainingValue(m, ChunkOutput(m, total - 1, last));
  }

  lemma {:induction false} EvenMultiple(total: nat, t: nat)
    requires t >= 1 && total % t == 0 && (total / t) % 2 == 0 && total >= 1
    ensures total % (2 * t) == 0 && total >= 2 * t && total / (2 * t) == total / t / 2
  {
    var q := total / t;
    assert total == t * q;
    var h := q / 2;
    assert q == 2 * h;
    assert total == (2 * t) * h;
    DivModUnique(total, 2 * t, h, 0);
    assert h != 0;
    MulAtLeast(2 * t, h);
  }

  /** An even count: the top of the stack is the left neighbour, and merging doubles the node. */
  lemma {:induction false} MergeStep(m: Mode, bytes: seq<byte>, total: nat, t: nat, stack: seq<Words8>, cv: Words8)
    requires Merging(m, bytes, total, t, stack, cv) && (total / t) % 2 == 0
    ensures |stack| > 0
    ensures Merging(m, bytes, total, 2 * t, stack[..|stack| - 1],
                    ChainingValue(m, ParentOutput(m, stack[|stack| - 1], cv)))
  {
    hide Stack, SubtreeCv, LowBit, ChainingValue, ParentOutput, IsPow2;
    EvenMultiple(total, t);
    DoubleIsPow2(t);
    LowBitBelow(total, t);
    var rest := total - 2 * t;
    var done := bytes[..CHUNK_LEN * (total - t)];
    StackTop(m, 0, done, total - t);
    var left := done[CHUNK_LEN * rest..];
    var right := bytes[CHUNK_LEN * (total - t)..];
    assert done[..CHUNK_LEN * rest] == bytes[..CHUNK_LEN * rest];
    assert bytes[CHUNK_LEN * rest..] == left + right;
    MergeEqual(m, rest, left, right, t);
    assert stack[..|stack| - 1] == Stack(m, 0, done[..CHUNK_LEN * rest], rest);
  }

  /** An odd count: pushing the node completes the stack. */
  lemma {:induction false} MergeEnds(m: Mode, bytes: seq<byte>, total: nat, t: nat, stack: seq<Words8>, cv: Words8)
    requires Merging(m, bytes, total, t, stack, cv) && (total / t) % 2 == 1
    ensures stack + [cv] == Stack(m, 0, bytes, total)
  {
    OddMultiple(total, t);
    hide Stack, SubtreeCv, LowBit;
    StackTop(m, 0, bytes, total);
  }

  lemma {:induction false} OddMultiple(total: nat, t: nat)
    requires IsPow2(t) && total % t == 0 && (total / t) % 2 == 1
    ensures total >= 1 && LowBit(total) == t
  {
    hide LowBit;
    var q := total / t;
    assert total == t * q;
    LowBitOfOddMultiple(q, t);
  }
}
