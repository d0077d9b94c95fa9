/** BLAKE3 as a tree hash (section 2.1 of the BLAKE3 paper): chunks of 1024 bytes are the leaves of a
    binary tree whose left subtrees are complete and as large as possible. The compression function
    is a parameter, so everything here holds for any compression function. */
module Blake3 {
  import opened Bytes

  const BLOCK_LEN := 64
  const CHUNK_LEN := 1024

  const CHUNK_START: bv32 := 1
  const CHUNK_END: bv32 := 2
  const PARENT: bv32 := 4
  const ROOT: bv32 := 8

  type Words8 = s: seq<u32> | |s| == 8 witness [0, 0, 0, 0, 0, 0, 0, 0]
  type Words16 = s: seq<u32> | |s| == 16 witness [0, 0, 0, 0, 0, 0, 0, 0, 0, 0, 0, 0, 0, 0, 0, 0]
  type Block = s: seq<byte> | |s| == BLOCK_LEN witness seq(64, _ => 0)

  /** Chaining value, block, counter, block length and flags to sixteen words. */
  type Compression = (Words8, Words16, nat, nat, bv32) -> Words16

  /** What stays fixed for one hasher. */
  datatype Mode = Mode(key: Words8, flags: bv32, compress: Compression)

  function WordFromBytes(b0: byte, b1: byte, b2: byte, b3: byte): u32 {
    b0 + 0x100 * b1 + 0x1_0000 * b2 + 0x100_0000 * b3
  }

  function WordsOf(block: Block): Words16 {
    seq(16, i requires 0 <= i < 16 => WordFromBytes(block[4 * i], block[4 * i + 1], block[4 * i + 2], block[4 * i + 3]))
  }

  /** The bytes of a block, filled up with zeros. */
  function Padded(bytes: seq<byte>): Block
    requires |bytes| <= BLOCK_LEN
  {
    seq(BLOCK_LEN, i requires 0 <= i < BLOCK_LEN => if i < |bytes| then bytes[i] else 0)
  }

  // ---------- Nodes ----------

  /** A node just before it is decided whether it yields a chaining value or output bytes. */
  datatype Output = Output(cv: Words8, block: Words16, counter: nat, len: nat, flags: bv32)

  function ChainingValue(m: Mode, o: Output): Words8 {
    m.compress(o.cv, o.block, o.counter, o.len, o.flags)[..8]
  }

  function ParentOutput(m: Mode, left: Words8, right: Words8): Output {
    Output(m.key, left + right, 0, BLOCK_LEN, PARENT | m.flags)
  }

  function StartFlag(blocksBefore: nat): bv32 {
    if blocksBefore == 0 then CHUNK_START else 0
  }

  /** The chaining value after the first `k` blocks of a chunk, none of them its last. */
  function ChunkCv(m: Mode, counter: nat, bytes: seq<byte>, k: nat): Words8
    requires BLOCK_LEN * k <= |bytes|
  {
    if k == 0 then m.key
    else m.compress(ChunkCv(m, counter, bytes, k - 1), WordsOf(bytes[BLOCK_LEN * (k - 1)..BLOCK_LEN * k]),
                    counter, BLOCK_LEN, m.flags | StartFlag(k - 1))[..8]
  }

  /** How many blocks come before the last one; the last block is empty only in an empty chunk. */
  function BlocksBeforeLast(n: nat): nat {
    if n == 0 then 0 else (n - 1) / BLOCK_LEN
  }

  function ChunkOutput(m: Mode, counter: nat, bytes: seq<byte>): Output {
    var k := BlocksBeforeLast(|bytes|);
    Output(ChunkCv(m, counter, bytes, k), WordsOf(Padded(bytes[BLOCK_LEN * k..])), counter, |bytes| - BLOCK_LEN * k,
           m.flags | StartFlag(k) | CHUNK_END)
  }

  // ---------- The tree ----------

  /** The largest power of two that is at most `n`. */
  function HighBit(n: nat): (p: nat)
    requires n >= 1
    ensures 1 <= p <= n < 2 * p
  {
    if n == 1 then 1 else 2 * HighBit(n / 2)
  }

  /** How many chunks there are besides the last. */
  function FullChunks(n: nat): nat {
    if n == 0 then 0 else (n - 1) / CHUNK_LEN
  }

  /** The node over a stretch of input that starts at chunk `first`. */
  function Subtree(m: Mode, first: nat, bytes: seq<byte>): Output
    decreases |bytes|, 0
  {
    if |bytes| <= CHUNK_LEN then ChunkOutput(m, first, bytes)
    else
      var leftChunks := HighBit(FullChunks(|bytes|));
      ParentOutput(m, SubtreeCv(m, first, bytes[..CHUNK_LEN * leftChunks]),
                      SubtreeCv(m, first + leftChunks, bytes[CHUNK_LEN * leftChunks..]))
  }

  function SubtreeCv(m: Mode, first: nat, bytes: seq<byte>): Words8
    decreases |bytes|, 1
  {
    ChainingValue(m, Subtree(m, first, bytes))
  }

  /** byte `j` of the output of a root node. */
  function RootByte(m: Mode, o: Output, j: nat): byte {
    var words := m.compress(o.cv, o.block, j / BLOCK_LEN, o.len, o.flags | ROOT);
    ByteOfWord(words[(j % BLOCK_LEN) / 4], j % 4)
  }

  function ByteOfWord(w: u32, i: nat): byte
    requires i < 4
  {
    if i == 0 then w % 0x100
    else if i == 1 then (w / 0x100) % 0x100
    else if i == 2 then (w / 0x1_0000) % 0x100
    else (w / 0x100_0000) % 0x100
  }

  function RootBytes(m: Mode, o: Output, n: nat): seq<byte> {
    seq(n, j requires j >= 0 => RootByte(m, o, j))
  }

  /** The hash of a message, `n` bytes of it. */
  function Hash(m: Mode, message: seq<byte>, n: nat): seq<byte> {
    RootBytes(m, Subtree(m, 0, message), n)
  }

  // ---------- Output length and flags ----------

  /** A shorter hash is a prefix of a longer one. */
  lemma {:induction false} ShorterIsPrefix(m: Mode, message: seq<byte>, n: nat, longer: nat)
    requires n <= longer
    ensures Hash(m, message, n) == Hash(m, message, longer)[..n]
  {
  }

  /** The two modes differ at most in how they compress with the root flag set. */
  ghost predicate AgreeBelowRoot(m: Mode, other: Mode) {
    && m.key == other.key && m.flags == other.flags && m.flags & ROOT == 0
    && forall cv, block, counter, len, flags :: flags & ROOT == 0 ==>
         m.compress(cv, block, counter, len, flags) == other.compress(cv, block, counter, len, flags)
  }

  lemma {:induction false} ChunkBelowRoot(m: Mode, other: Mode, counter: nat, bytes: seq<byte>, k: nat)
    requires AgreeBelowRoot(m, other) && BLOCK_LEN * k <= |bytes|
    ensures ChunkCv(m, counter, bytes, k) == ChunkCv(other, counter, bytes, k)
  {
    if k == 0 {
    } else {
      ChunkBelowRoot(m, other, counter, bytes, k - 1);
      FlagsKeepRootClear(m.flags, StartFlag(k - 1));
    }
  }

  lemma {:induction false} ChunkOutputBelowRoot(m: Mode, other: Mode, counter: nat, bytes: seq<byte>)
    requires AgreeBelowRoot(m, other)
    ensures ChunkOutput(m, counter, bytes) == ChunkOutput(other, counter, bytes)
    ensures ChunkOutput(m, counter, bytes).flags & ROOT == 0
  {
    var k := BlocksBeforeLast(|bytes|);
    hide ChunkCv, AgreeBelowRoot;
    ChunkBelowRoot(m, other, counter, bytes, k);
    SameFlags(m, other);
    StartFlagsKeepRootClear(m.flags, k);
  }

  lemma {:induction false} SameFlags(m: Mode, other: Mode)
    requires AgreeBelowRoot(m, other)
    ensures m.flags == other.flags && m.key == other.key && m.flags & ROOT == 0
  {
  }

  lemma {:induction false} StartFlagsKeepRootClear(flags: bv32, k: nat)
    requires flags & ROOT == 0
    ensures (flags | StartFlag(k) | CHUNK_END) & ROOT == 0
  {
    FlagsKeepRootClear(flags, StartFlag(k));
    FlagsKeepRootClear(flags | StartFlag(k), CHUNK_END);
  }

  lemma {:induction false} SameChainingValue(m: Mode, other: Mode, o: Output)
    requires AgreeBelowRoot(m, other) && o.flags & ROOT == 0
    ensures ChainingValue(m, o) == ChainingValue(other, o)
  {
  }

  /** Every compression below the root, of blocks, chunks and parents, leaves the root flag clear: how the
      compression function treats that flag makes no difference to any node. */
  lemma {:induction false} RootFlagOnlyAtRoot(m: Mode, other: Mode, first: nat, bytes: seq<byte>)
    requires AgreeBelowRoot(m, other)
    ensures Subtree(m, first, bytes) == Subtree(other, first, bytes) && Subtree(m, first, bytes).flags & ROOT == 0
    decreases |bytes|
  {
    hide AgreeBelowRoot, ChunkOutput, ChainingValue, HighBit;
    if |bytes| <= CHUNK_LEN {
      ChunkOutputBelowRoot(m, other, first, bytes);
    } else {
      var leftChunks := HighBit(FullChunks(|bytes|));
      LeftIsProper(|bytes|);
      var left, right := bytes[..CHUNK_LEN * leftChunks], bytes[CHUNK_LEN * leftChunks..];
      RootFlagOnlyAtRoot(m, other, first, left);
      RootFlagOnlyAtRoot(m, other, first + leftChunks, right);
      SameChainingValue(m, other, Subtree(m, first, left));
      SameChainingValue(m, other, Subtree(m, first + leftChunks, right));
      SameFlags(m, other);
      FlagsKeepRootClear(m.flags, PARENT);
    }
  }

  /** Both parts of a message of more than one chunk are shorter than the whole. */
  lemma {:induction false} LeftIsProper(n: nat)
    requires n > CHUNK_LEN
    ensures 0 < CHUNK_LEN * HighBit(FullChunks(n)) < n
  {
  }

  lemma {:induction false} FlagsKeepRootClear(a: bv32, b: bv32)
    requires a & ROOT == 0 && (b == 0 || b == 1 || b == 2 || b == 4)
    ensures (a | b) & ROOT == 0 && (b | a) & ROOT == 0
  {
  }
}
