/** The jump table: how it is written and how it is read. */
module JumpTable {
  import opened Wrappers
  import opened Arith
  import opened Bytes

  /** How many bytes come before the first zero byte. */
  function LeadingRun(bytes: seq<byte>): (n: nat)
    ensures n <= |bytes|
  {
    if bytes == [] || bytes[0] == 0 then 0 else 1 + LeadingRun(bytes[1..])
  }

  /** The size of an entry: the longest run of non-zero low bytes of any position. */
  function EntrySize(positions: seq<u32>): (size: nat)
    ensures size <= 4
  {
    if positions == [] then 0
    else
      var rest := EntrySize(positions[..|positions| - 1]);
      var run := LeadingRun(LowBytes(positions[|positions| - 1], 4));
      if rest < run then run else rest
  }

  function Table(positions: seq<u32>, size: nat): (s: seq<byte>)
    requires size <= 4
    ensures |s| == |positions| * size
  {
    if positions == [] then []
    else Table(positions[..|positions| - 1], size) + LowBytes(positions[|positions| - 1], 4)[..size]
  }

  method WriteTable(positions: seq<u32>) returns (size: nat, table: seq<byte>)
    ensures size == EntrySize(positions) && table == Table(positions, size)
  {
    hide LowBytes, LeadingRun;
    size := 0;
    var slots := [];
    for i := 0 to |positions|
      invariant size == EntrySize(positions[..i]) && |slots| == i
      invariant forall j :: 0 <= j < i ==> slots[j] == LowBytes(positions[j], 4)
    {
      assert positions[..i + 1][..i] == positions[..i];
      var offset := LowBytes(positions[i], 4);
      slots := slots + [offset];
      var run := LeadingRun(offset);
      size := if size < run then run else size;
    }
    assert positions[..|positions|] == positions;
    table := [];
    for i := 0 to |positions|
      invariant table == Table(positions[..i], size)
    {
      assert positions[..i + 1][..i] == positions[..i];
      table := table + slots[i][..size];
    }
  }

  /** Entry `index` of a table, as the reader finds it; the index arithmetic is checked in 32 bits. */
  function GetByIndex(table: seq<byte>, size: nat, index: nat): Option<nat>
    requires size <= 4
  {
    if size == 0 || index * size >= U32 || index * size + size >= U32 || index * size + size > |table| then None
    else Some(FromLe(table[index * size..index * size + size]))
  }

  lemma {:induction false} TableSlot(positions: seq<u32>, size: nat, i: nat)
    requires size <= 4 && i < |positions|
    ensures i * size + size <= |Table(positions, size)|
    ensures Table(positions, size)[i * size..i * size + size] == LowBytes(positions[i], 4)[..size]
  {
    hide LowBytes;
    var last := |positions| - 1;
    if i < last {
      TableSlot(positions[..last], size, i);
      assert (i + 1) * size <= last * size;
    } else {
      assert (last + 1) * size == last * size + size;
    }
  }

  /** An entry reads back exactly when the size is not zero and covers its significant bytes. */
  lemma {:induction false} EntryReadsBackIff(positions: seq<u32>, size: nat, i: nat)
    requires size <= 4 && i < |positions|
    ensures GetByIndex(Table(positions, size), size, i) == Some(positions[i])
            <==> size != 0 && positions[i] < Pow256(size) && i * size + size < U32
  {
    hide LowBytes, FromLe, Pow256, Table;
    TableSlot(positions, size, i);
    LowBytesPrefix(positions[i], size, 4);
    FromLowBytesMod(positions[i], size);
    Remainder(positions[i], Pow256(size));
  }

  lemma {:induction false} Remainder(v: nat, m: nat)
    requires m >= 1
    ensures v % m == v <==> v < m
  {
    if v < m { DivModUnique(v, m, 0, v); }
  }

  // ---------- When an entry is lost ----------

  /** What a position adds to the entry size: the number of its low bytes before the first zero byte. */
  function RunOf(position: u32): (n: nat)
    ensures n <= 4
  {
    LeadingRun(LowBytes(position, 4))
  }

  /** The size is the longest run there is. */
  lemma {:induction false} SizeIsLongestRun(positions: seq<u32>)
    ensures forall j :: 0 <= j < |positions| ==> RunOf(positions[j]) <= EntrySize(positions)
    ensures EntrySize(positions) > 0 ==> exists j :: 0 <= j < |positions| && RunOf(positions[j]) == EntrySize(positions)
  {
    hide LowBytes, LeadingRun;
    if positions != [] {
      var last := |positions| - 1;
      SizeIsLongestRun(positions[..last]);
      if EntrySize(positions) == RunOf(positions[last]) {
      } else {
        var j :| 0 <= j < last && RunOf(positions[..last][j]) == EntrySize(positions);
        assert RunOf(positions[j]) == EntrySize(positions);
      }
    }
  }

  /** Some position has a run of non-zero low bytes as long as the significant bytes of position `i`. */
  ghost predicate Covered(positions: seq<u32>, i: nat)
    requires i < |positions|
  {
    exists j :: 0 <= j < |positions| && RunOf(positions[j]) > 0 && positions[i] < Pow256(RunOf(positions[j]))
  }

  /** The offset of the entry's end stays within 32 bits. */
  ghost predicate IndexFits(positions: seq<u32>, i: nat) {
    forall j :: 0 <= j < |positions| ==> (i + 1) * RunOf(positions[j]) < U32
  }

  lemma {:induction false} PowersGrow(a: nat, b: nat)
    requires a <= b
    ensures Pow256(a) <= Pow256(b)
  {
    if a < b { PowersGrow(a, b - 1); }
  }

  lemma {:induction false} CoveredIff(positions: seq<u32>, i: nat)
    requires i < |positions|
    ensures Covered(positions, i) <==> EntrySize(positions) != 0 && positions[i] < Pow256(EntrySize(positions))
  {
    hide RunOf, EntrySize, Pow256;
    SizeIsLongestRun(positions);
    forall j | 0 <= j < |positions| && RunOf(positions[j]) > 0 && positions[i] < Pow256(RunOf(positions[j]))
      ensures EntrySize(positions) != 0 && positions[i] < Pow256(EntrySize(positions))
    {
      PowersGrow(RunOf(positions[j]), EntrySize(positions));
    }
  }

  lemma {:induction false} IndexFitsIff(positions: seq<u32>, i: nat)
    requires i < |positions|
    ensures IndexFits(positions, i) <==> i * EntrySize(positions) + EntrySize(positions) < U32
  {
    hide RunOf, EntrySize;
    SizeIsLongestRun(positions);
    var size := EntrySize(positions);
    forall j | 0 <= j < |positions| ensures (i + 1) * RunOf(positions[j]) <= (i + 1) * size {
      MulMonotone(RunOf(positions[j]), size, i + 1);
    }
    if size == 0 {
    } else {
      var j :| 0 <= j < |positions| && RunOf(positions[j]) == size;
      assert (i + 1) * RunOf(positions[j]) == i * size + size;
    }
  }

  /** What the reader makes of entry `i` of a written table: the position's low bytes, or nothing if every
      position ends in a zero byte. */
  lemma {:induction false} EntryReadsAs(positions: seq<u32>, i: nat)
    requires i < |positions|
    ensures var size := EntrySize(positions);
            GetByIndex(Table(positions, size), size, i) ==
            if IndexFits(positions, i) && size != 0 then Some(positions[i] % Pow256(size)) else None
  {
    hide LowBytes, FromLe, Pow256, Table, EntrySize, IndexFits;
    var size := EntrySize(positions);
    TableSlot(positions, size, i);
    LowBytesPrefix(positions[i], size, 4);
    FromLowBytesMod(positions[i], size);
    IndexFitsIff(positions, i);
  }

  /** Whether an entry of a written table reads back, told from the positions alone. */
  lemma {:induction false} WrittenEntryReadsBackIff(positions: seq<u32>, i: nat)
    requires i < |positions|
    ensures var size := EntrySize(positions);
            GetByIndex(Table(positions, size), size, i) == Some(positions[i])
            <==> Covered(positions, i) && IndexFits(positions, i)
  {
    hide Table, EntrySize, GetByIndex, Covered, IndexFits, Pow256;
    EntryReadsBackIff(positions, EntrySize(positions), i);
    CoveredIff(positions, i);
    IndexFitsIff(positions, i);
  }

  /** Position 256 is lost: alone it cannot be read, and beside position 5 it reads as position 0. */
  lemma {:induction false} RoundPositionIsLost(positions: seq<u32>)
    requires positions == [256] || positions == [256, 5]
    ensures var size := EntrySize(positions);
            GetByIndex(Table(positions, size), size, 0) == if positions == [256] then None else Some(0)
  {
    hide Table, GetByIndex;
    EntryReadsAs(positions, 0);
    RunsOfSome();
    SizeIsLongestRun(positions);
    Pow256Values();
    assert positions[0] == 256;
    if positions == [256, 5] { assert positions[1] == 5; }
  }

  lemma {:induction false} RunsOfSome()
    ensures RunOf(256) == 0 && RunOf(5) == 1
  {
    assert LowBytes(256, 4)[0] == 0;
    assert LowBytes(5, 4)[0] == 5 && LowBytes(5, 4)[1..][0] == 0;
  }
}
