/** A serialized program whose jump table loses an entry. */
module LostEntry {
  import opened Wrappers
  import opened Codec
  import opened CodeWriter
  import opened JumpTable
  import opened CodeSerializer

  /** Nothing but traps, each a block of its own. */
  function Traps(isa: Isa, n: nat): Source {
    Source(isa, [], seq(n, _ => Op(TRAP, NoArgs)), [], true)
  }

  lemma {:induction false} TrapBlocks(entries: seq<Entry>, n: nat)
    requires n <= |entries| && forall k :: 0 <= k < |entries| ==> OpcodeOf(entries[k].instruction) == TRAP
    ensures BlockStarts(entries, n) == seq(n + 1, k => k)
  {
    if n == 0 {
    } else {
      TrapBlocks(entries, n - 1);
    }
  }

  lemma {:induction false} TrapLengths(isa: Isa, entries: seq<Entry>, n: nat)
    requires n <= |entries|
    requires forall k :: 0 <= k < |entries| ==> Encoded(isa, entries[k]) && entries[k].instruction == Op(TRAP, NoArgs)
    ensures LengthOf(entries, n) == n
  {
    if n == 0 {
    } else {
      TrapLengths(isa, entries, n - 1);
    }
  }

  /** In a program of 257 traps whose jump table names blocks 256 and 5, a jump through entry 0 goes to
      position 0, and not to its block at 256. */
  lemma {:induction false} JumpTableEntryLost(isa: Isa, entries: seq<Entry>, out: Serialized)
    requires BuiltFrom(Traps(isa, 257), [256, 5], Prepared(Traps(isa, 257)), entries, out)
    ensures TablePositions(Traps(isa, 257), [256, 5], Prepared(Traps(isa, 257)), entries, out) == [256, 5]
    ensures GetByIndex(out.jumpTable, out.entrySize, 0) == Some(0)
  {
    hide Table, EntrySize, GetByIndex;
    var s := Traps(isa, 257);
    var prepared := Prepared(s);
    TrapsPrepared(isa, 257);
    TrapBlocks(prepared, 257);
    TrapPositions(isa, 257, entries);
    var positions := TablePositions(s, [256, 5], prepared, entries, out);
    assert positions == [256, 5];
    RoundPositionIsLost(positions);
  }

  lemma {:induction false} TrapsPrepared(isa: Isa, n: nat)
    ensures var s := Traps(isa, n);
            BlocksFit(s) && Buildable(s) && Prepared(s) == seq(n, _ => Fresh(Op(TRAP, NoArgs), 0))
  {
  }

  lemma {:induction false} TrapPositions(isa: Isa, n: nat, entries: seq<Entry>)
    requires var prepared := Prepared(Traps(isa, n)); LaidOut(isa, BlockStarts(prepared, |prepared|), prepared, entries)
    ensures |entries| == n && forall k :: 0 <= k < n ==> entries[k].position == k
  {
    hide BlockStarts, LengthOf, EncodePadded;
    TrapsPrepared(isa, n);
    var prepared := Prepared(Traps(isa, n));
    forall k | 0 <= k < n ensures entries[k].instruction == Op(TRAP, NoArgs) {
      assert Resolved(BlockStarts(prepared, |prepared|), prepared[k], entries[k]);
    }
    forall k | 0 <= k < n ensures entries[k].position == k {
      TrapLengths(isa, entries, k);
      assert SettledAt(entries, k);
    }
  }
}
