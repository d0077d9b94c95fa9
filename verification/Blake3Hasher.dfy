/** The incremental hasher: a chunk buffer and a stack of chaining values, updated in place. */
module Blake3Hasher {
  import opened Arith
  import opened Bytes
  import opened Blake3
  import opened Blake3Stack

  const MAX_STACK := 54
  const MAX_MESSAGE := 0x1_0000_0000_0000_0000

  // ---------- Absorbing into one chunk ----------

  /** The chaining value of the first blocks does not depend on what follows them. */
  lemma {:induction false} ChunkCvOfPrefix(m: Mode, counter: nat, bytes: seq<byte>, more: seq<byte>, k: nat)
    requires BLOCK_LEN * k <= |bytes|
    ensures ChunkCv(m, counter, bytes + more, k) == ChunkCv(m, counter, bytes, k)
  {
    if k > 0 {
      ChunkCvOfPrefix(m, counter, bytes, more, k - 1);
      assert (bytes + more)[BLOCK_LEN * (k - 1)..BLOCK_LEN * k] == bytes[BLOCK_LEN * (k - 1)..BLOCK_LEN * k];
    }
  }

  /** The fields of a chunk state after absorbing `bytes`. */
  ghost predicate Absorbs(m: Mode, counter: nat, bytes: seq<byte>, cv: Words8, block: Block, blockLen: nat,
      blocks: nat) {
    && blocks == BlocksBeforeLast(|bytes|)
    && blockLen == |bytes| - BLOCK_LEN * blocks
    && cv == ChunkCv(m, counter, bytes, blocks)
    && block == Padded(bytes[BLOCK_LEN * blocks..])
  }

  lemma {:induction false} BlocksAre(n: nat, k: nat, len: nat)
    requires n == BLOCK_LEN * k + len && 0 < len <= BLOCK_LEN
    ensures BlocksBeforeLast(n) == k
  {
    DivModUnique(n - 1, BLOCK_LEN, k, len - 1);
  }

  lemma {:induction false} BlocksBound(n: nat)
    ensures 0 <= n - BLOCK_LEN * BlocksBeforeLast(n) <= BLOCK_LEN
    ensures n > 0 ==> n - BLOCK_LEN * BlocksBeforeLast(n) > 0
  {
  }

  /** Bytes that fit into the block buffer are copied behind what is there. */
  lemma {:induction false} AbsorbIntoBlock(m: Mode, counter: nat, bytes: seq<byte>, cv: Words8, block: Block,
      blockLen: nat, blocks: nat, more: seq<byte>)
    requires Absorbs(m, counter, bytes, cv, block, blockLen, blocks)
    requires 0 < |more| && blockLen + |more| <= BLOCK_LEN
    ensures Absorbs(m, counter, bytes + more, cv, block[..blockLen] + more + block[blockLen + |more|..],
            blockLen + |more|, blocks)
  {
    hide ChunkCv;
    BlocksAre(|bytes + more|, blocks, blockLen + |more|);
    ChunkCvOfPrefix(m, counter, bytes, more, blocks);
    assert (bytes + more)[BLOCK_LEN * blocks..] == bytes[BLOCK_LEN * blocks..] + more;
  }

  /** A full block is compressed once it is known not to be the last. */
  lemma {:induction false} AbsorbAfterFullBlock(m: Mode, counter: nat, bytes: seq<byte>, cv: Words8, block: Block,
      blocks: nat, more: seq<byte>)
    requires Absorbs(m, counter, bytes, cv, block, BLOCK_LEN, blocks)
    requires 0 < |more| <= BLOCK_LEN
    ensures var next := m.compress(cv, WordsOf(block), counter, BLOCK_LEN, m.flags | StartFlag(blocks))[..8];
            Absorbs(m, counter, bytes + more, next, Padded(more), |more|, blocks + 1)
  {
    var all := bytes + more;
    BlocksAre(|all|, blocks + 1, |more|);
    ChunkCvOfPrefix(m, counter, bytes, more, blocks);
    assert all[BLOCK_LEN * (blocks + 1)..] == more;
    assert all[BLOCK_LEN * blocks..BLOCK_LEN * (blocks + 1)] == bytes[BLOCK_LEN * blocks..];
    assert Padded(bytes[BLOCK_LEN * blocks..]) == bytes[BLOCK_LEN * blocks..];
  }

  /** One round of absorbing: compress a full block, then copy what fits. */
  lemma {:induction false} AbsorbRound(m: Mode, counter: nat, bytes: seq<byte>, cv: Words8, block: Block,
      blockLen: nat, blocks: nat, more: seq<byte>)
    requires Absorbs(m, counter, bytes, cv, block, blockLen, blocks)
    requires var room := if blockLen == BLOCK_LEN then BLOCK_LEN else BLOCK_LEN - blockLen; 0 < |more| <= room
    ensures blockLen == BLOCK_LEN ==>
              Absorbs(m, counter, bytes + more,
                      m.compress(cv, WordsOf(block), counter, BLOCK_LEN, m.flags | StartFlag(blocks))[..8],
                      Padded([])[..0] + more + Padded([])[|more|..], |more|, blocks + 1)
    ensures blockLen != BLOCK_LEN ==>
              Absorbs(m, counter, bytes + more, cv, block[..blockLen] + more + block[blockLen + |more|..],
                blockLen + |more|, blocks)
  {
    if blockLen == BLOCK_LEN {
      AbsorbAfterFullBlock(m, counter, bytes, cv, block, blocks, more);
      assert Padded([])[..0] + more + Padded([])[|more|..] == Padded(more);
    } else {
      AbsorbIntoBlock(m, counter, bytes, cv, block, blockLen, blocks, more);
    }
    hide Absorbs;
  }

  class ChunkState {
    const mode: Mode
    const chunkCounter: nat
    var chainingValue: Words8
    var block: Block
    var blockLen: nat
    var blocksCompressed: nat
    ghost var absorbed: seq<byte>

    ghost predicate Valid()
      reads this
    {
      |absorbed| <= CHUNK_LEN &&
      Absorbs(mode, chunkCounter, absorbed, chainingValue, block, blockLen, blocksCompressed)
    }

    constructor (mode: Mode, chunkCounter: nat)
      ensures Valid() && absorbed == [] && this.mode == mode && this.chunkCounter == chunkCounter
    {
      this.mode := mode;
      this.chunkCounter := chunkCounter;
      chainingValue := mode.key;
      block := Padded([]);
      blockLen := 0;
      blocksCompressed := 0;
      absorbed := [];
    }

    function Len(): (n: nat)
      requires Valid()
      reads this
      ensures n == |absorbed|
    {
      BLOCK_LEN * blocksCompressed + blockLen
    }

    /** If the block buffer is full, compresses it; then copies as much as fits. */
    method AbsorbSome(input: seq<byte>) returns (take: nat)
      requires Valid() && input != [] && |absorbed| + |input| <= CHUNK_LEN
      modifies this
      ensures 0 < take <= |input| && Valid() && absorbed == old(absorbed) + input[..take]
    {
      hide Absorbs, WordsOf, StartFlag, Padded;
      BufferBound(mode, chunkCounter, absorbed, chainingValue, block, blockLen, blocksCompressed);
      ghost var room := if blockLen == BLOCK_LEN then BLOCK_LEN else BLOCK_LEN - blockLen;
      ghost var more := input[..if room < |input| then room else |input|];
      AbsorbRound(mode, chunkCounter, absorbed, chainingValue, block, blockLen, blocksCompressed, more);
      if blockLen == BLOCK_LEN {
        FlushBlock();
      }
      var want := BLOCK_LEN - blockLen;
      take := if want < |input| then want else |input|;
      CopyIn(input[..take]);
      absorbed := absorbed + input[..take];
    }

    /** More input is coming, so this block is not the last of its chunk. */
    method FlushBlock()
      modifies `chainingValue, `blocksCompressed, `block, `blockLen
      ensures chainingValue == mode.compress(old(chainingValue), WordsOf(old(block)), chunkCounter, BLOCK_LEN,
                                             mode.flags | StartFlag(old(blocksCompressed)))[..8]
      ensures blocksCompressed == old(blocksCompressed) + 1 && block == Padded([]) && blockLen == 0
    {
      chainingValue := mode.compress(chainingValue, WordsOf(block), chunkCounter, BLOCK_LEN,
                                     mode.flags | StartFlag(blocksCompressed))[..8];
      blocksCompressed := blocksCompressed + 1;
      block := Padded([]);
      blockLen := 0;
    }

    method CopyIn(bytes: seq<byte>)
      requires blockLen + |bytes| <= BLOCK_LEN
      modifies `block, `blockLen
      ensures block == old(block)[..old(blockLen)] + bytes + old(block)[old(blockLen) + |bytes|..]
      ensures blockLen == old(blockLen) + |bytes|
    {
      block := block[..blockLen] + bytes + block[blockLen + |bytes|..];
      blockLen := blockLen + |bytes|;
    }

    method Update(input: seq<byte>)
      requires Valid() && |absorbed| + |input| <= CHUNK_LEN
      modifies this
      ensures Valid() && absorbed == old(absorbed) + input
    {
      hide Absorbs;
      var rest := input;
      while rest != []
        invariant absorbed + rest == old(absorbed) + input && Valid()
        decreases |rest|
      {
        var take := AbsorbSome(rest);
        assert rest[..take] + rest[take..] == rest;
        rest := rest[take..];
      }
    }

    function CurrentOutput(): (o: Output)
      requires Valid()
      reads this
      ensures o == ChunkOutput(mode, chunkCounter, absorbed)
    {
      Output(chainingValue, WordsOf(block), chunkCounter, blockLen,
        mode.flags | StartFlag(blocksCompressed) | CHUNK_END)
    }
  }

  lemma {:induction false} BufferBound(m: Mode, counter: nat, bytes: seq<byte>, cv: Words8, block: Block,
      blockLen: nat, blocks: nat)
    requires Absorbs(m, counter, bytes, cv, block, blockLen, blocks)
    ensures blockLen <= BLOCK_LEN
  {
    BlocksBound(|bytes|);
  }

  // ---------- The whole message ----------

  /** `n` chunks of the message are finished and merged into the stack; the rest sits in the current chunk. */
  ghost predicate Holds(m: Mode, message: seq<byte>, n: nat, live: seq<Words8>, current: seq<byte>) {
    && |message| == CHUNK_LEN * n + |current| && |message| <= MAX_MESSAGE
    && current == message[CHUNK_LEN * n..]
    && live == Stack(m, 0, message[..CHUNK_LEN * n], n)
  }

  lemma {:induction false} StackFits(m: Mode, message: seq<byte>, n: nat)
    requires CHUNK_LEN * n < MAX_MESSAGE && |message| == CHUNK_LEN * n
    ensures |Stack(m, 0, message, n)| == Ones(n) <= MAX_STACK
  {
    StackLength(m, 0, message, n);
    Pow2Adds(27, 27);
    Pow2Values();
    OnesBound(n, 54);
  }

  /** Bytes that go into the current chunk. */
  lemma {:induction false} HoldsMore(m: Mode, message: seq<byte>, n: nat, live: seq<Words8>, current: seq<byte>,
      more: seq<byte>)
    requires Holds(m, message, n, live, current) && |message| + |more| <= MAX_MESSAGE
    ensures Holds(m, message + more, n, live, current + more)
  {
    hide Stack;
    assert (message + more)[..CHUNK_LEN * n] == message[..CHUNK_LEN * n];
    assert (message + more)[CHUNK_LEN * n..] == current + more;
  }

  /** A full chunk that has been merged into the stack. */
  lemma {:induction false} HoldsNextChunk(m: Mode, message: seq<byte>, n: nat, live: seq<Words8>)
    requires |message| == CHUNK_LEN * (n + 1) && |message| <= MAX_MESSAGE && live == Stack(m, 0, message, n + 1)
    ensures Holds(m, message, n + 1, live, [])
  {
    hide Stack;
    assert message[..CHUNK_LEN * (n + 1)] == message;
  }

  class Hasher {
    const mode: Mode
    var chunk: ChunkState
    var cvStack: seq<Words8>
    var cvStackLen: nat
    ghost var message: seq<byte>

    ghost predicate StackInBounds()
      reads this
    {
      |cvStack| == MAX_STACK && cvStackLen <= MAX_STACK
    }

    /** `n` chunks are merged into the stack and the rest of the message is in the chunk buffer. */
    ghost predicate Consistent(n: nat)
      reads this, chunk
    {
      StackInBounds() && chunk.mode == mode && chunk.Valid() && chunk.chunkCounter == n &&
      Holds(mode, message, n, cvStack[..cvStackLen], chunk.absorbed)
    }

    ghost predicate Valid()
      reads this, chunk
    {
      Consistent(FullChunks(|message|))
    }

    constructor (mode: Mode)
      ensures Valid() && message == [] && this.mode == mode && fresh(chunk)
    {
      this.mode := mode;
      chunk := new ChunkState(mode, 0);
      cvStack := seq(MAX_STACK, _ => [0, 0, 0, 0, 0, 0, 0, 0]);
      cvStackLen := 0;
      message := [];
    }

    method PushStack(cv: Words8)
      requires StackInBounds() && cvStackLen < MAX_STACK
      modifies `cvStack, `cvStackLen
      ensures StackInBounds() && cvStack[..cvStackLen] == old(cvStack[..cvStackLen]) + [cv]
    {
      cvStack := cvStack[cvStackLen := cv];
      cvStackLen := cvStackLen + 1;
    }

    method PopStack() returns (cv: Words8)
      requires StackInBounds() && cvStackLen > 0
      modifies `cvStackLen
      ensures StackInBounds() && cvStackLen == old(cvStackLen) - 1
      ensures cv == cvStack[cvStackLen] && cvStack[..cvStackLen] == old(cvStack[..cvStackLen])[..cvStackLen]
    {
      cvStackLen := cvStackLen - 1;
      cv := cvStack[cvStackLen];
    }

    /** Merges the new chunk with every complete subtree on its left, one for each trailing zero bit of the count. */
    method AddChunkChainingValue(chunkCv: Words8, total: nat)
      requires StackInBounds() && total >= 1 && CHUNK_LEN * total < MAX_MESSAGE && |message| == CHUNK_LEN * total
      requires cvStack[..cvStackLen] == Stack(mode, 0, message[..CHUNK_LEN * (total - 1)], total - 1)
      requires chunkCv == ChainingValue(mode, ChunkOutput(mode, total - 1, message[CHUNK_LEN * (total - 1)..]))
      modifies `cvStack, `cvStackLen
      ensures StackInBounds() && cvStack[..cvStackLen] == Stack(mode, 0, message, total)
    {
      hide Stack, ChunkOutput, ChainingValue, ParentOutput, Merging;
      MergeBegins(mode, message, total, cvStack[..cvStackLen]);
      ghost var t: nat := 1;
      var newCv := chunkCv;
      var totalChunks := total;
      while totalChunks % 2 == 0
        invariant StackInBounds() && Merging(mode, message, total, t, cvStack[..cvStackLen], newCv)
        invariant t >= 1 && totalChunks == total / t && totalChunks >= 1
        decreases totalChunks
      {
        MergeStep(mode, message, total, t, cvStack[..cvStackLen], newCv);
        HalfOfCount(mode, message, total, t, cvStack[..cvStackLen], newCv);
        var left := PopStack();
        newCv := ChainingValue(mode, ParentOutput(mode, left, newCv));
        totalChunks := totalChunks / 2;
        t := 2 * t;
      }
      MergeEnds(mode, message, total, t, cvStack[..cvStackLen], newCv);
      StackFits(mode, message, total);
      PushStack(newCv);
    }

    /** The current chunk is full and more input is coming: merges it into the stack and starts the next. */
    method FinishChunk(ghost n: nat)
      requires Consistent(n) && |chunk.absorbed| == CHUNK_LEN && |message| < MAX_MESSAGE
      modifies this, chunk
      ensures Consistent(n + 1) && fresh(chunk) && chunk.absorbed == [] && message == old(message)
    {
      hide Stack, ChunkOutput, ChainingValue, Absorbs;
      var chunkCv := ChainingValue(mode, chunk.CurrentOutput());
      var total := chunk.chunkCounter + 1;
      AddChunkChainingValue(chunkCv, total);
      chunk := new ChunkState(mode, total);
      HoldsNextChunk(mode, message, n, cvStack[..cvStackLen]);
    }

    /** Finishes the chunk if it is full, then absorbs as much as fits. */
    method AbsorbSome(input: seq<byte>) returns (take: nat)
      requires Valid() && input != [] && |message| + |input| <= MAX_MESSAGE
      modifies this, chunk
      ensures 0 < take <= |input| && Valid() && message == old(message) + input[..take]
      ensures chunk == old(chunk) || fresh(chunk)
    {
      hide Holds, Absorbs;
      ghost var n := FullChunks(|message|);
      HoldsBounds(mode, message, n, cvStack[..cvStackLen], chunk.absorbed);
      if chunk.Len() == CHUNK_LEN {
        FinishChunk(n);
        n := n + 1;
      }
      var want := CHUNK_LEN - chunk.Len();
      take := if want < |input| then want else |input|;
      HoldsMore(mode, message, n, cvStack[..cvStackLen], chunk.absorbed, input[..take]);
      HoldsBounds(mode, message, n, cvStack[..cvStackLen], chunk.absorbed);
      FullChunksOf(n, |chunk.absorbed| + take);
      chunk.Update(input[..take]);
      message := message + input[..take];
    }

    /** Adds input. Only the concatenation of everything added matters. */
    method Update(input: seq<byte>)
      requires Valid() && |message| + |input| <= MAX_MESSAGE
      modifies this, chunk
      ensures Valid() && message == old(message) + input
      ensures chunk == old(chunk) || fresh(chunk)
    {
      hide Consistent;
      var rest := input;
      while rest != []
        invariant Valid() && message + rest == old(message) + input
        invariant chunk == old(chunk) || fresh(chunk)
        decreases |rest|
      {
        var take := AbsorbSome(rest);
        assert rest[..take] + rest[take..] == rest;
        rest := rest[take..];
      }
    }

    /** The root of the tree: the current chunk folded into the stack from the top down. */
    method RootOutput() returns (output: Output)
      requires Valid()
      ensures output == Subtree(mode, 0, message)
    {
      hide Stack, Absorbs, ChunkOutput, ChainingValue, ParentOutput, Subtree;
      ghost var n := FullChunks(|message|);
      ghost var live := cvStack[..cvStackLen];
      output := chunk.CurrentOutput();
      FoldMessage(mode, message, n, live, chunk.absorbed);
      var remaining := cvStackLen;
      assert live[..remaining] == live;
      while remaining > 0
        invariant 0 <= remaining <= cvStackLen
        invariant Fold(mode, live[..remaining], output) == Subtree(mode, 0, message)
      {
        remaining := remaining - 1;
        assert live[..remaining + 1][..remaining] == live[..remaining];
        output := ParentOutput(mode, cvStack[remaining], ChainingValue(mode, output));
      }
      assert live[..0] == [];
    }

    /** Writes the hash of everything added so far; the hasher is unchanged and can go on. */
    method Finalize(out: array<byte>)
      requires Valid()
      modifies out
      ensures out[..] == Hash(mode, message, out.Length)
    {
      var output := RootOutput();
      RootOutputBytes(mode, output, out);
    }
  }

  lemma {:induction false} HoldsBounds(m: Mode, message: seq<byte>, n: nat, live: seq<Words8>, current: seq<byte>)
    requires Holds(m, message, n, live, current)
    ensures |message| == CHUNK_LEN * n + |current| && |message| <= MAX_MESSAGE
  {
  }

  lemma {:induction false} FoldMessage(m: Mode, message: seq<byte>, n: nat, live: seq<Words8>, current: seq<byte>)
    requires Holds(m, message, n, live, current) && n == FullChunks(|message|) && |current| <= CHUNK_LEN
    ensures Fold(m, live, ChunkOutput(m, n, current)) == Subtree(m, 0, message)
  {
    hide Stack, ChunkOutput, Subtree, Fold;
    var done := message[..CHUNK_LEN * n];
    assert done + current == message;
    FoldIsSubtree(m, 0, done, n, current);
  }

  /** Writes the output of a root node, block after block. */
  method RootOutputBytes(m: Mode, o: Output, out: array<byte>)
    modifies out
    ensures out[..] == RootBytes(m, o, out.Length)
  {
    var start, counter := 0, 0;
    while start < out.Length
      invariant start == BLOCK_LEN * counter
      invariant forall j :: 0 <= j < start && j < out.Length ==> out[j] == RootByte(m, o, j)
      decreases out.Length - start
    {
      var words := m.compress(o.cv, o.block, counter, o.len, o.flags | ROOT);
      var i := 0;
      while i < BLOCK_LEN && start + i < out.Length
        invariant 0 <= i <= BLOCK_LEN
        invariant forall j :: 0 <= j < start + i && j < out.Length ==> out[j] == RootByte(m, o, j)
      {
        DivModUnique(start + i, BLOCK_LEN, counter, i);
        assert (start + i) % 4 == i % 4;
        out[start + i] := ByteOfWord(words[i / 4], i % 4);
        i := i + 1;
      }
      start := start + BLOCK_LEN;
      counter := counter + 1;
    }
  }

  /** Two hashers that were given the same bytes, however split, hold the same live state. */
  lemma {:induction false} SameMessageSameState(a: Hasher, b: Hasher)
    requires a.Valid() && b.Valid() && a.mode == b.mode && a.message == b.message
    ensures a.cvStackLen == b.cvStackLen && a.cvStack[..a.cvStackLen] == b.cvStack[..b.cvStackLen]
    ensures a.chunk.chunkCounter == b.chunk.chunkCounter && a.chunk.chainingValue == b.chunk.chainingValue
    ensures a.chunk.block == b.chunk.block && a.chunk.blockLen == b.chunk.blockLen
    ensures a.chunk.blocksCompressed == b.chunk.blocksCompressed
    ensures a.cvStackLen == Ones(FullChunks(|a.message|))
  {
    hide Stack, ChunkCv, Padded;
    var n := FullChunks(|a.message|);
    assert |a.cvStack[..a.cvStackLen]| == a.cvStackLen && |b.cvStack[..b.cvStackLen]| == b.cvStackLen;
    StackLength(a.mode, 0, a.message[..CHUNK_LEN * n], n);
  }

  lemma {:induction false} HalfOfCount(m: Mode, bytes: seq<byte>, total: nat, t: nat, stack: seq<Words8>, cv: Words8)
    requires Merging(m, bytes, total, t, stack, cv) && (total / t) % 2 == 0
    ensures total / (2 * t) == total / t / 2 >= 1
  {
    hide Stack, SubtreeCv;
    EvenMultiple(total, t);
  }
}
