/** Whole runs of the gas simulator: feeding a block of instructions, draining the buffer,
    and what the block costs. */
module PipelineRun {
  import opened Pipeline
  import opened PipelineInvariant
  import opened PipelineProgress

  /** How many instructions may stay in flight when a tick loop stops. */
  function Target(finished: bool): int {
    if finished then 0 else ROB - 1
  }

  lemma {:induction false} StartsKeepDecoding(s: State, attempts: nat)
    requires Shape(s)
    ensures var t := StartUpTo(s, attempts);
            t.decodeSlots == s.decodeSlots && t.inFlight == s.inFlight && t.instructions == s.instructions &&
              t.head == s.head
    decreases attempts
  {
    var age := FirstStartable(s, 0);
    if attempts > 0 && age < ROB {
      StartsKeepDecoding(StartSlot(s, SlotAt(s.head, age)), attempts - 1);
    }
  }

  /** Issuing decodes nothing. */
  lemma {:induction false} IssueKeepsDecoding(s: State)
    requires Shape(s)
    ensures var t := Issue(s); t.decodeSlots == s.decodeSlots && t.instructions == s.instructions
    ensures forall i :: IsSlot(i) && Issue(s).phase[i] == DECODING ==> s.phase[i] == DECODING
  {
    var retired := RetireFirst(s, RetireCount(s));
    StartsKeepDecoding(retired, START_ATTEMPTS);
    OnlyDecodingDecodes(retired, START_ATTEMPTS);
  }

  /** After a tick nothing is left decoding. */
  lemma {:induction false} TickSettles(s: State, finished: bool, pending: bool, enabled: bool)
    requires Shape(s) && (pending || Settled(s))
    ensures Settled(Tick(s, finished, pending, enabled))
    ensures Tick(s, finished, pending, enabled).instructions == s.instructions
  {
    hide Issue, Finishing, Released, PackedSum;
    IssueKeepsDecoding(s);
  }

  lemma {:induction false} OnlyDecodingDecodes(s: State, attempts: nat)
    requires Shape(s)
    ensures forall i :: IsSlot(i) && StartUpTo(s, attempts).phase[i] == DECODING ==> s.phase[i] == DECODING
    decreases attempts
  {
    var age := FirstStartable(s, 0);
    if attempts > 0 && age < ROB {
      OnlyDecodingDecodes(StartSlot(s, SlotAt(s.head, age)), attempts - 1);
    }
  }

  /** Ticks until few enough instructions are in flight. It ends because the work left falls,
      and it charges no more cycles than the work it does. */
  function Drain(s: State, finished: bool, enabled: bool): (r: State)
    requires Inv(s) && Settled(s)
    ensures Inv(r) && Settled(r) && r.inFlight <= Target(finished)
    ensures s.cycles <= r.cycles && r.cycles + Work(r, ROB) <= s.cycles + Work(s, ROB)
    decreases Work(s, ROB)
  {
    if s.inFlight <= Target(finished) then s else
      TickKeeps(s, finished, false, enabled);
      TickSettles(s, finished, false, enabled);
      TickLowersWork(s, finished, false, enabled);
      WorkNonNegative(Tick(s, finished, false, enabled), ROB);
      Drain(Tick(s, finished, false, enabled), finished, enabled)
  }

  /** The tick loop: one tick that also moves decoded instructions on, then ticks until there is room. */
  function TickLoop(s: State, finished: bool, enabled: bool): (r: State)
    requires Inv(s)
    ensures Inv(r) && Settled(r) && r.inFlight <= Target(finished)
  {
    TickKeeps(s, finished, true, enabled);
    TickSettles(s, finished, true, enabled);
    Drain(Tick(s, finished, true, enabled), finished, enabled)
  }

  /** Makes sure the next instruction can be decoded in this cycle. */
  function MakeRoom(s: State, decodeSlots: int, enabled: bool): (r: State)
    requires Inv(s) && decodeSlots <= MAX_DECODE_PER_CYCLE
    ensures Inv(r) && r.inFlight < ROB && decodeSlots <= r.decodeSlots
  {
    if s.decodeSlots < decodeSlots || s.inFlight == ROB then TickLoop(s, false, enabled) else s
  }

  /** There is room in the buffer and in this cycle's decode slots. */
  ghost predicate HasRoom(s: State, op: Op) {
    Inv(s) && ValidOp(op) && s.inFlight < ROB && DecodeSlotsOf(op) <= s.decodeSlots
  }

  function Place(s: State, op: Op): (r: State)
    requires HasRoom(s, op)
    ensures Inv(r)
  {
    if op.Exec? then
      AllocateKeeps(s, op);
      Allocate(s, op)
    else
      RenameKeeps(s, op);
      Rename(s, op)
  }

  /** Feeds one instruction. */
  function Feed(s: State, op: Op, enabled: bool): (r: State)
    requires Inv(s) && ValidOp(op)
    ensures Inv(r)
  {
    Place(MakeRoom(s, DecodeSlotsOf(op), enabled), op)
  }

  predicate ValidOps(ops: seq<Op>) {
    forall i :: 0 <= i < |ops| ==> ValidOp(ops[i])
  }

  /** Feeds the first `n` instructions to a cleared simulator. */
  function FeedFirst(start: State, ops: seq<Op>, n: nat, enabled: bool): (r: State)
    requires Cleared(start) && ValidOps(ops) && n <= |ops|
    ensures Inv(r)
  {
    if n == 0 then
      ClearedHolds(start);
      start
    else
      Feed(FeedFirst(start, ops, n - 1, enabled), ops[n - 1], enabled)
  }

  /** A basic block ends with an instruction that occupies a slot; after it the buffer is drained. */
  predicate ValidBlock(ops: seq<Op>) {
    ValidOps(ops) && |ops| > 0 && ops[|ops| - 1].Exec?
  }

  function BlockState(start: State, ops: seq<Op>, enabled: bool): (r: State)
    requires Cleared(start) && ValidBlock(ops)
    ensures Inv(r) && r.inFlight == 0
  {
    TickLoop(FeedFirst(start, ops, |ops|, enabled), true, enabled)
  }

  /** The cost charged for a finished block. */
  function CostOf(cycles: int): int {
    if cycles - GAS_COST_SLACK > 1 then cycles - GAS_COST_SLACK else 1
  }

  function BlockCost(start: State, ops: seq<Op>, enabled: bool): int
    requires Cleared(start) && ValidBlock(ops)
  {
    CostOf(BlockState(start, ops, enabled).cycles)
  }

  // ---------- Upper bound on the cycles of a block ----------

  /** What an instruction can add to the cycles of a block. */
  function Budget(op: Op): nat
    requires ValidOp(op)
  {
    if op.Exec? then op.cost.latency + 4 else 1
  }

  function TotalBudget(ops: seq<Op>, n: nat): nat
    requires ValidOps(ops) && n <= |ops|
  {
    if n == 0 then 0 else TotalBudget(ops, n - 1) + Budget(ops[n - 1])
  }

  /** Work left, plus the decode slots that moves have used up on an empty buffer. */
  function Potential(s: State): int
    requires Shape(s)
  {
    Work(s, ROB) + (if s.inFlight == 0 then MAX_DECODE_PER_CYCLE - s.decodeSlots else 0)
  }

  lemma {:induction false} EmptyHasNoWork(s: State, n: nat)
    requires Shape(s) && Window(s) && s.inFlight == 0 && n <= ROB
    ensures Work(s, n) == 0
  {
    if n > 0 {
      EmptyHasNoWork(s, n - 1);
      assert IsSlot(n - 1) && !Occupied(s, n - 1);
    }
  }

  lemma {:induction false} PendingTickChargesOne(s: State, finished: bool, enabled: bool)
    requires Shape(s)
    ensures Tick(s, finished, true, enabled).cycles == s.cycles + 1
  {
    CyclesOfIssue(s);
  }

  lemma {:induction false} WorkMonotone(s: State, t: State, n: nat)
    requires Shape(s) && Shape(t) && NoHeavier(s, t) && n <= ROB
    ensures Work(t, n) <= Work(s, n)
  {
    if n > 0 {
      WorkMonotone(s, t, n - 1);
      assert IsSlot(n - 1);
    }
  }

  lemma {:induction false} TickLoopWithinWork(s: State, finished: bool, enabled: bool)
    requires Inv(s)
    ensures var r := TickLoop(s, finished, enabled);
            r.cycles + Work(r, ROB) <= s.cycles + Work(s, ROB) + (if s.inFlight == 0 then 1 else 0)
  {
    PendingTickChargesOne(s, finished, enabled);
    if s.inFlight > 0 {
      TickLowersWork(s, finished, true, enabled);
    } else {
      IssueKeeps(s);
      ChargeIsSafe(Issue(s), false);
      TickNoHeavier(s, 1, true);
      WorkMonotone(s, Tick(s, finished, true, enabled), ROB);
    }
  }

  lemma {:induction false} MakeRoomWithinPotential(s: State, decodeSlots: int, enabled: bool)
    requires Inv(s) && decodeSlots <= MAX_DECODE_PER_CYCLE
    ensures var r := MakeRoom(s, decodeSlots, enabled); r.cycles + Potential(r) <= s.cycles + Potential(s)
  {
    hide TickLoop, Work;
    if s.decodeSlots < decodeSlots || s.inFlight == ROB {
      TickLoopWithinWork(s, false, enabled);
    }
  }

  lemma {:induction false} WorkAfterAllocate(s: State, op: Op, n: nat)
    requires Shape(s) && ValidOp(op) && op.Exec? && s.phase[s.tail] == FREE && n <= ROB
    ensures Work(Allocate(s, op), n) == Work(s, n) + (if s.tail < n then op.cost.latency + 4 else 0)
  {
    if n > 0 {
      WorkAfterAllocate(s, op, n - 1);
    }
  }

  lemma {:induction false} WorkSame(s: State, t: State, n: nat)
    requires Shape(s) && Shape(t) && n <= ROB && s.phase == t.phase && s.remaining == t.remaining
    ensures Work(t, n) == Work(s, n)
  {
    if n > 0 { WorkSame(s, t, n - 1); }
  }

  lemma {:induction false} PlaceWithinBudget(s: State, op: Op)
    requires HasRoom(s, op)
    ensures var r := Place(s, op); r.cycles == s.cycles && Potential(r) <= Potential(s) + Budget(op)
  {
    hide Work;
    if op.Exec? {
      TailIsFree(s);
      WorkAfterAllocate(s, op, ROB);
    } else {
      WorkSame(s, Rename(s, op), ROB);
    }
  }

  lemma {:induction false} FeedWithinBudget(s: State, op: Op, enabled: bool)
    requires Inv(s) && ValidOp(op)
    ensures var r := Feed(s, op, enabled); r.cycles + Potential(r) <= s.cycles + Potential(s) + Budget(op)
  {
    MakeRoomWithinPotential(s, DecodeSlotsOf(op), enabled);
    PlaceWithinBudget(MakeRoom(s, DecodeSlotsOf(op), enabled), op);
  }

  lemma {:induction false} FeedFirstWithinBudget(start: State, ops: seq<Op>, n: nat, enabled: bool)
    requires Cleared(start) && ValidOps(ops) && n <= |ops|
    ensures var r := FeedFirst(start, ops, n, enabled); r.cycles + Potential(r) <= TotalBudget(ops, n)
  {
    hide Feed, Inv, Potential;
    if n == 0 {
      ClearedWithinBudget(start);
    } else {
      FeedFirstWithinBudget(start, ops, n - 1, enabled);
      FeedWithinBudget(FeedFirst(start, ops, n - 1, enabled), ops[n - 1], enabled);
    }
  }

  lemma {:induction false} ClearedWithinBudget(start: State)
    requires Cleared(start)
    ensures start.cycles + Potential(start) == 0
  {
    ClearedHolds(start);
    EmptyHasNoWork(start, ROB);
  }

  /** The last instruction of a block is in flight when draining starts. */
  lemma {:induction false} BlockLeavesWork(start: State, ops: seq<Op>, enabled: bool)
    requires Cleared(start) && ValidBlock(ops)
    ensures FeedFirst(start, ops, |ops|, enabled).inFlight > 0
  {
    hide MakeRoom;
    var before := FeedFirst(start, ops, |ops| - 1, enabled);
    var last := ops[|ops| - 1];
    assert FeedFirst(start, ops, |ops|, enabled) == Feed(before, last, enabled);
    assert 0 <= MakeRoom(before, DecodeSlotsOf(last), enabled).inFlight;
  }

  /** The cycles of a block are at most the sum of (latency + 4) over its instructions
      plus the number of its moves. */
  lemma {:induction false} BlockWithinBudget(start: State, ops: seq<Op>, enabled: bool)
    requires Cleared(start) && ValidBlock(ops)
    ensures BlockState(start, ops, enabled).cycles <= TotalBudget(ops, |ops|)
  {
    BlockLeavesWork(start, ops, enabled);
    hide TickLoop, FeedFirst, Work;
    var s := FeedFirst(start, ops, |ops|, enabled);
    FeedFirstWithinBudget(start, ops, |ops|, enabled);
    TickLoopWithinWork(s, true, enabled);
    WorkNonNegative(BlockState(start, ops, enabled), ROB);
  }
}
