/** Fast-forwarding and block costs: whole runs. */
module PipelineExactRuns {
  import opened Resources
  import opened Pipeline
  import opened PipelineInvariant
  import opened PipelineProgress
  import opened PipelineRun
  import opened PipelineFastForward

  // ---------- Draining ----------

  /** What a tick of the drain loop guarantees, fast or slow. */
  lemma {:induction false} DrainTick(s: State, finished: bool, enabled: bool)
    requires Inv(s) && Settled(s) && s.inFlight > Target(finished)
    ensures var t := Tick(s, finished, false, enabled);
            Inv(t) && Settled(t) && 0 <= Work(t, ROB) < Work(s, ROB)
    ensures Drain(s, finished, enabled) == Drain(Tick(s, finished, false, enabled), finished, enabled)
  {
    TickKeeps(s, finished, false, enabled);
    TickSettles(s, finished, false, enabled);
    TickLowersWork(s, finished, false, enabled);
    WorkNonNegative(Tick(s, finished, false, enabled), ROB);
    hide Tick, Work;
  }

  /** No tick of the drain loop skips cycles and leaves something behind that could have started. */
  ghost predicate NeverCapped(s: State, finished: bool)
    requires Inv(s) && Settled(s)
    decreases Work(s, ROB)
  {
    s.inFlight > Target(finished) ==>
      (DrainTick(s, finished, true);
       (Skipped(s, finished) == 1 || NoneStartable(Issue(s))) && NeverCapped(Tick(s, finished, false, true), finished))
  }

  lemma {:induction false} SlowTickKeeps(s: State, finished: bool)
    requires Inv(s) && Settled(s)
    ensures var t := Tick(s, finished, false, false); Inv(t) && Settled(t)
  {
    TickKeeps(s, finished, false, false);
    TickSettles(s, finished, false, false);
    hide Tick, Inv, Settled;
  }

  lemma {:induction false} SlowTicksKeep(s: State, finished: bool, k: nat)
    requires Inv(s) && Settled(s)
    ensures Inv(SlowTicks(s, finished, k)) && Settled(SlowTicks(s, finished, k))
  {
    hide Tick, Inv, Settled;
    InvShape(s);
    if k > 0 {
      SlowTicksKeep(s, finished, k - 1);
      SlowTickKeeps(SlowTicks(s, finished, k - 1), finished);
    }
  }

  /** The slow drain loop passes through every slow tick. */
  lemma {:induction false} SlowDrainPassesThrough(s: State, finished: bool, k: nat)
    requires Inv(s) && Settled(s)
    requires forall j :: 0 <= j < k ==> SlowTicks(s, finished, j).inFlight > Target(finished)
    ensures Inv(SlowTicks(s, finished, k)) && Settled(SlowTicks(s, finished, k))
    ensures Drain(s, finished, false) == Drain(SlowTicks(s, finished, k), finished, false)
  {
    hide Tick, Inv, Settled, Drain;
    InvShape(s);
    SlowTicksKeep(s, finished, k);
    if k > 0 {
      SlowDrainPassesThrough(s, finished, k - 1);
      var t := SlowTicks(s, finished, k - 1);
      assert t.inFlight > Target(finished);
      DrainTick(t, finished, false);
    }
  }

  lemma {:induction false} IssueInFlight(s: State)
    requires Shape(s)
    ensures Issue(s).inFlight == s.inFlight - RetireCount(s)
  {
    StartsKeepDecoding(RetireFirst(s, RetireCount(s)), START_ATTEMPTS);
  }

  /** While a tick skips cycles, the drain loop would not have stopped. */
  lemma {:induction false} SkipStaysAbove(s: State, finished: bool)
    requires Inv(s) && s.inFlight > Target(finished) && Skipped(s, finished) > 1
    ensures Issue(s).inFlight > Target(finished)
  {
    IssueInFlight(s);
    if finished {
      IssueKeeps(s);
      LeastRemainingIsReal(Issue(s), ROB);
      var i :| IsSlot(i) && Issue(s).phase[i] == EXECUTING;
      assert Occupied(Issue(s), i);
    }
  }

  lemma {:induction false} SlowTicksStayAbove(s: State, finished: bool, j: nat)
    requires Inv(s) && s.inFlight > Target(finished) && j < Skipped(s, finished)
    requires Skipped(s, finished) == 1 || NoneStartable(Issue(s))
    ensures SlowTicks(s, finished, j).inFlight > Target(finished)
  {
    if j > 0 {
      SkipStaysAbove(s, finished);
      SkipRunsLonger(s, finished);
      RunLongerMonotone(Issue(s), Skipped(s, finished) - 1, j - 1);
      SlowTicksCountDown(s, finished, j);
      hide SlowTicks, Issue;
    }
  }

  /** If no tick is cut short, fast-forwarding does not change where draining ends. */
  lemma {:induction false} DrainIsExact(s: State, finished: bool)
    requires Inv(s) && Settled(s) && NeverCapped(s, finished)
    ensures Drain(s, finished, true) == Drain(s, finished, false)
    decreases Work(s, ROB)
  {
    if s.inFlight > Target(finished) {
      var t := Tick(s, finished, false, true);
      DrainTick(s, finished, true);
      assert (Skipped(s, finished) == 1 || NoneStartable(Issue(s))) && NeverCapped(t, finished);
      DrainIsExact(t, finished);
      var k := Skipped(s, finished);
      SkipRunsLonger(s, finished);
      FastForwardIsExact(s, finished);
      hide Tick, Issue, Inv, Settled, NoneStartable, Skipped, SlowTicks, Work;
      forall j | 0 <= j < k
        ensures SlowTicks(s, finished, j).inFlight > Target(finished)
      {
        SlowTicksStayAbove(s, finished, j);
      }
      SlowDrainPassesThrough(s, finished, k);
    }
  }

  // ---------- Blocks ----------

  lemma {:induction false} PendingTickSame(s: State, finished: bool)
    requires Shape(s)
    ensures Tick(s, finished, true, true) == Tick(s, finished, true, false)
  {
    hide Issue, Execute, Settle;
  }

  lemma {:induction false} PendingTickKeeps(s: State, finished: bool)
    requires Inv(s)
    ensures Inv(Tick(s, finished, true, true)) && Settled(Tick(s, finished, true, true))
  {
    TickKeeps(s, finished, true, true);
    TickSettles(s, finished, true, true);
    hide Tick, Inv;
  }

  ghost predicate LoopNeverCapped(s: State, finished: bool)
    requires Inv(s)
  {
    PendingTickKeeps(s, finished);
    NeverCapped(Tick(s, finished, true, true), finished)
  }

  lemma {:induction false} TickLoopIsExact(s: State, finished: bool)
    requires Inv(s) && LoopNeverCapped(s, finished)
    ensures TickLoop(s, finished, true) == TickLoop(s, finished, false)
  {
    PendingTickKeeps(s, finished);
    PendingTickSame(s, finished);
    hide Tick;
    DrainIsExact(Tick(s, finished, true, true), finished);
  }

  ghost predicate FeedNeverCapped(s: State, op: Op)
    requires Inv(s) && ValidOp(op)
  {
    s.decodeSlots < DecodeSlotsOf(op) || s.inFlight == ROB ==> LoopNeverCapped(s, false)
  }

  lemma {:induction false} FeedIsExact(s: State, op: Op)
    requires Inv(s) && ValidOp(op) && FeedNeverCapped(s, op)
    ensures Feed(s, op, true) == Feed(s, op, false)
  {
    hide TickLoop, Place, Inv;
    if s.decodeSlots < DecodeSlotsOf(op) || s.inFlight == ROB {
      TickLoopIsExact(s, false);
    }
  }

  /** No tick while the first `n` instructions are fed is cut short. */
  ghost predicate FeedingNeverCapped(start: State, ops: seq<Op>, n: nat)
    requires Cleared(start) && ValidOps(ops) && n <= |ops|
  {
    n > 0 ==> FeedingNeverCapped(start, ops, n - 1) && FeedNeverCapped(FeedFirst(start, ops, n - 1, true), ops[n - 1])
  }

  lemma {:induction false} FeedingIsExact(start: State, ops: seq<Op>, n: nat)
    requires Cleared(start) && ValidOps(ops) && n <= |ops| && FeedingNeverCapped(start, ops, n)
    ensures FeedFirst(start, ops, n, true) == FeedFirst(start, ops, n, false)
  {
    hide Feed, FeedNeverCapped, Inv;
    if n > 0 {
      FeedingIsExact(start, ops, n - 1);
      FeedIsExact(FeedFirst(start, ops, n - 1, true), ops[n - 1]);
    }
  }

  /** If no tick of a block is cut short, its cost is the same with and without fast-forwarding. */
  lemma {:induction false} CostIsExact(start: State, ops: seq<Op>)
    requires Cleared(start) && ValidBlock(ops)
    requires FeedingNeverCapped(start, ops, |ops|) && LoopNeverCapped(FeedFirst(start, ops, |ops|, true), true)
    ensures BlockCost(start, ops, true) == BlockCost(start, ops, false)
  {
    FeedingIsExact(start, ops, |ops|);
    hide TickLoop, FeedFirst, LoopNeverCapped;
    TickLoopIsExact(FeedFirst(start, ops, |ops|, true), true);
  }

  // ---------- Blocks that are never cut short ----------

  /** Of the instructions that have yet to start, all but instruction `m` either need an ALU slot
      or come before `m` and run for one cycle. */
  ghost predicate NeedAlu(s: State, m: int)
    requires Shape(s)
  {
    forall i :: IsSlot(i) && (s.phase[i] == DECODING || s.phase[i] == WAITING) ==>
                  s.required[i].alu >= 1 || s.id[i] == m || (s.remaining[i] == 1 && s.id[i] < m)
  }

  function FreeAlu(s: State): int
    requires Shape(s)
  {
    MAX_ALU_SLOTS - HeldBy(s).alu
  }

  ghost predicate IsWaiting(s: State, m: int)
    requires Shape(s)
  {
    exists i :: IsSlot(i) && s.phase[i] == WAITING && s.id[i] == m
  }

  /** How many more instructions the ALU slots and instruction `m` allow to start. */
  ghost function Tally(s: State, m: int): int
    requires Shape(s)
  {
    FreeAlu(s) + (if IsWaiting(s, m) then 1 else 0)
  }

  /** Some executing slot has one cycle left. */
  ghost predicate LastCycle(s: State)
    requires Shape(s)
  {
    exists i :: IsSlot(i) && s.phase[i] == EXECUTING && s.remaining[i] == 1
  }

  /** Nothing that comes before instruction `m` can start. */
  ghost predicate NoneBefore(s: State, m: int)
    requires Shape(s)
  {
    forall i :: IsSlot(i) && Startable(s, i) ==> s.id[i] >= m
  }

  /** Each start uses up an ALU slot, is the start of instruction `m`, or is over in one cycle. */
  lemma {:induction false} StartUsesAlu(s: State, i: int, m: int)
    requires Inv(s) && NeedAlu(s, m) && IsSlot(i) && Startable(s, i)
    ensures var t := StartSlot(s, i);
            Inv(t) && NeedAlu(t, m) && (LastCycle(t) || Tally(t, m) < Tally(s, m))
  {
    var t := StartSlot(s, i);
    StartKeeps(s, i);
    HeldAfterStart(s.phase, s.required, i, ROB);
    assert WithinCapacity(s.required[i]);
    if s.id[i] == m {
      StartedOnce(s, i, m);
    } else if s.required[i].alu < 1 {
      assert t.phase[i] == EXECUTING && t.remaining[i] == 1;
    }
  }

  lemma {:induction false} StartedOnce(s: State, i: int, m: int)
    requires Inv(s) && IsSlot(i) && Startable(s, i) && s.id[i] == m
    ensures !IsWaiting(StartSlot(s, i), m)
  {
    var t := StartSlot(s, i);
    forall j | IsSlot(j) && t.phase[j] == WAITING
      ensures t.id[j] != m
    {
      IdsDiffer(s, i, j);
    }
  }

  lemma {:induction false} IdsDiffer(s: State, i: int, j: int)
    requires Shape(s) && Window(s) && InOrder(s) && IsSlot(i) && IsSlot(j) && i != j && Occupied(s, i) && Occupied(s, j)
    ensures s.id[i] != s.id[j]
  {
    assert Age(s.head, i) != Age(s.head, j);
  }

  /** Starting one slot does not let another one start. */
  lemma {:induction false} StartableBefore(s: State, i: int, j: int)
    requires Inv(s) && IsSlot(i) && IsSlot(j) && Startable(s, i) && Startable(StartSlot(s, i), j)
    ensures Startable(s, j)
  {
    StartKeeps(s, i);
    HeldAfterStart(s.phase, s.required, i, ROB);
    HeldNonNegative(s, ROB);
    HeldNonNegative(StartSlot(s, i), ROB);
    assert WithinCapacity(s.required[i]) && WithinCapacity(s.required[j]);
    GuardTestIsExact(Minus(CAPACITY, HeldBy(s)), s.required[j]);
    GuardTestIsExact(Minus(CAPACITY, HeldBy(StartSlot(s, i))), s.required[j]);
    hide Window, Dependencies, Renaming, Requirements, InOrder, EnoughFor, Pack, Available, Held;
  }

  lemma {:induction false} StartKeepsNoneBefore(s: State, i: int, m: int)
    requires Inv(s) && IsSlot(i) && Startable(s, i) && NoneBefore(s, m)
    ensures Shape(StartSlot(s, i)) && NoneBefore(StartSlot(s, i), m)
  {
    var t := StartSlot(s, i);
    forall j | IsSlot(j) && Startable(t, j)
      ensures t.id[j] >= m
    {
      StartableBefore(s, i, j);
    }
  }

  /** Instruction `m` starts only if nothing that comes before it can. */
  lemma {:induction false} OldestFirst(s: State, m: int)
    requires Inv(s)
    ensures var age := FirstStartable(s, 0);
            age < ROB && s.id[SlotAt(s.head, age)] == m ==> NoneBefore(s, m)
  {
    var age := FirstStartable(s, 0);
    if age < ROB && s.id[SlotAt(s.head, age)] == m {
      var i := SlotAt(s.head, age);
      forall j | IsSlot(j) && Startable(s, j)
        ensures s.id[j] >= m
      {
        assert SlotAt(s.head, Age(s.head, j)) == j;
        assert Age(s.head, i) == age <= Age(s.head, j);
      }
    }
  }

  /** What the start loop has seen of instruction `m`: if it has started, nothing before it was left. */
  ghost predicate StartedLast(s: State, m: int)
    requires Shape(s)
  {
    IsWaiting(s, m) || NoneBefore(s, m)
  }

  lemma {:induction false} StartKeepsStartedLast(s: State, m: int)
    requires Inv(s) && FirstStartable(s, 0) < ROB && StartedLast(s, m)
    ensures var t := StartSlot(s, SlotAt(s.head, FirstStartable(s, 0))); Shape(t) && StartedLast(t, m)
  {
    var i := SlotAt(s.head, FirstStartable(s, 0));
    var t := StartSlot(s, i);
    OldestFirst(s, m);
    if NoneBefore(s, m) {
      StartKeepsNoneBefore(s, i, m);
    } else {
      var j :| IsSlot(j) && s.phase[j] == WAITING && s.id[j] == m;
      assert t.phase[j] == WAITING;
    }
  }

  lemma {:induction false} StartKeepsLastCycle(s: State, i: int)
    requires Shape(s) && IsSlot(i) && LastCycle(s)
    ensures Shape(StartSlot(s, i)) && LastCycle(StartSlot(s, i))
  {
    var j :| IsSlot(j) && s.phase[j] == EXECUTING && s.remaining[j] == 1;
    assert StartSlot(s, i).phase[j] == EXECUTING;
  }

  lemma {:induction false} StartsUseAlu(s: State, attempts: nat, m: int)
    requires Inv(s) && NeedAlu(s, m)
    ensures var t := StartUpTo(s, attempts);
            Inv(t) && NeedAlu(t, m) &&
            (NoneStartable(t) || LastCycle(t) || Tally(t, m) + attempts <= Tally(s, m)) &&
            (StartedLast(s, m) ==> StartedLast(t, m)) && (LastCycle(s) ==> LastCycle(t))
    decreases attempts
  {
    hide Inv, NeedAlu, Tally, NoneStartable, Startable, StartSlot, LastCycle, StartedLast;
    InvShape(s);
    var age := FirstStartable(s, 0);
    if age == ROB {
      NoneFromFirst(s);
    } else if attempts > 0 {
      var i := SlotAt(s.head, age);
      StartUsesAlu(s, i, m);
      if StartedLast(s, m) { StartKeepsStartedLast(s, m); }
      if LastCycle(s) { StartKeepsLastCycle(s, i); }
      StartsUseAlu(StartSlot(s, i), attempts - 1, m);
    }
  }

  lemma {:induction false} NoneFromFirst(s: State)
    requires Shape(s) && FirstStartable(s, 0) == ROB
    ensures NoneStartable(s)
  {
    forall i | IsSlot(i)
      ensures !Startable(s, i)
    {
      assert SlotAt(s.head, Age(s.head, i)) == i;
    }
  }

  /** With no ALU slot free, instruction `m` not waiting and nothing before it startable, nothing can start. */
  lemma {:induction false} NothingWithoutAlu(s: State, m: int)
    requires Inv(s) && NeedAlu(s, m) && FreeAlu(s) <= 0 && !IsWaiting(s, m) && NoneBefore(s, m)
    ensures NoneStartable(s)
  {
    forall i | IsSlot(i)
      ensures !Startable(s, i)
    {
      HeldNonNegative(s, ROB);
      assert WithinCapacity(s.required[i]);
      GuardTestIsExact(Minus(CAPACITY, HeldBy(s)), s.required[i]);
    }
  }

  lemma {:induction false} RetireKeepsAlu(s: State, m: int)
    requires Inv(s) && NeedAlu(s, m)
    ensures var t := RetireFirst(s, RetireCount(s)); Inv(t) && NeedAlu(t, m)
  {
    RetireKeeps(s);
  }

  lemma {:induction false} FreeAluBound(s: State)
    requires Inv(s)
    ensures 0 <= FreeAlu(s) <= MAX_ALU_SLOTS
  {
    HeldNonNegative(s, ROB);
  }

  /** Four ALU slots and five attempts: nothing that can start is left, or something runs for one cycle only. */
  lemma {:induction false} StartsAreComplete(s: State, m: int)
    requires Inv(s) && NeedAlu(s, m)
    ensures var t := StartUpTo(s, START_ATTEMPTS); NoneStartable(t) || LastCycle(t)
  {
    var t := StartUpTo(s, START_ATTEMPTS);
    StartsUseAlu(s, START_ATTEMPTS, m);
    FreeAluBound(s);
    FreeAluBound(t);
    hide Inv, NeedAlu, IsWaiting, FreeAlu, NoneStartable, LastCycle, NoneBefore, StartUpTo;
    if !NoneStartable(t) && !LastCycle(t) {
      assert Tally(t, m) + START_ATTEMPTS <= Tally(s, m);
      assert IsWaiting(s, m) && StartedLast(s, m) && StartedLast(t, m);
      NothingWithoutAlu(t, m);
    }
  }

  /** A slot in its last cycle leaves nothing to skip. */
  lemma {:induction false} LastCycleSkipsNothing(s: State, finished: bool)
    requires Inv(s) && LastCycle(Issue(s))
    ensures Skipped(s, finished) == 1
  {
    IssueKeeps(s);
    hide Issue;
    LeastRemainingIsLeast(Issue(s), ROB);
  }

  lemma {:induction false} IssueIsComplete(s: State, finished: bool, m: int)
    requires Inv(s) && NeedAlu(s, m)
    ensures NeedAlu(Issue(s), m) && (Skipped(s, finished) == 1 || NoneStartable(Issue(s)))
  {
    var retired := RetireFirst(s, RetireCount(s));
    RetireKeepsAlu(s, m);
    StartsUseAlu(retired, START_ATTEMPTS, m);
    StartsAreComplete(retired, m);
    hide Inv, NeedAlu, NoneStartable, LastCycle, Skipped, StartUpTo;
    if LastCycle(Issue(s)) {
      LastCycleSkipsNothing(s, finished);
    }
  }

  lemma {:induction false} TickKeepsAlu(s: State, finished: bool, pending: bool, m: int)
    requires Inv(s) && NeedAlu(s, m)
    ensures NeedAlu(Tick(s, finished, pending, true), m)
  {
    IssueIsComplete(s, finished, m);
    IssueKeeps(s);
    hide Issue, PackedSum, Window, Dependencies, Renaming, Conserved, InOrder, Skipped;
  }

  lemma {:induction false} DrainNeverCapped(s: State, finished: bool, m: int)
    requires Inv(s) && Settled(s) && NeedAlu(s, m)
    ensures NeverCapped(s, finished) && NeedAlu(Drain(s, finished, true), m)
    decreases Work(s, ROB)
  {
    InvShape(s);
    hide Tick, Inv, Settled, Work, NeedAlu, Issue, NoneStartable, Skipped;
    if s.inFlight > Target(finished) {
      DrainTick(s, finished, true);
      TickKeepsAlu(s, finished, false, m);
      IssueIsComplete(s, finished, m);
      DrainNeverCapped(Tick(s, finished, false, true), finished, m);
    }
  }

  lemma {:induction false} LoopNeverCappedByAlu(s: State, finished: bool, m: int)
    requires Inv(s) && NeedAlu(s, m)
    ensures LoopNeverCapped(s, finished) && NeedAlu(TickLoop(s, finished, true), m)
  {
    InvShape(s);
    hide Tick, Inv, Settled, NeedAlu;
    PendingTickKeeps(s, finished);
    TickKeepsAlu(s, finished, true, m);
    DrainNeverCapped(Tick(s, finished, true, true), finished, m);
  }

  /** Instruction `n` needs an ALU slot, is instruction `m`, or comes before `m` and takes one cycle. */
  predicate NeedsAlu(op: Op, n: int, m: int) {
    op.Exec? ==> op.cost.counts.alu >= 1 || n == m || (op.cost.latency == 1 && n < m)
  }

  ghost predicate OpsNeedAlu(ops: seq<Op>, m: int) {
    forall n :: 0 <= n < |ops| ==> NeedsAlu(ops[n], n, m)
  }

  lemma {:induction false} PlaceKeepsAlu(s: State, op: Op, m: int)
    requires HasRoom(s, op) && NeedAlu(s, m) && NeedsAlu(op, s.instructions, m)
    ensures NeedAlu(Place(s, op), m)
  {
    hide Window, Dependencies, Conserved, InOrder, Requirements;
  }

  lemma {:induction false} RoomNeverCappedByAlu(s: State, op: Op, m: int)
    requires Inv(s) && ValidOp(op) && NeedAlu(s, m)
    ensures var room := MakeRoom(s, DecodeSlotsOf(op), true);
            FeedNeverCapped(s, op) && NeedAlu(room, m) && room.instructions == s.instructions
  {
    hide TickLoop, Inv, NeedAlu, LoopNeverCapped;
    if s.decodeSlots < DecodeSlotsOf(op) || s.inFlight == ROB {
      LoopNeverCappedByAlu(s, false, m);
      TickLoopInstructions(s, false, true);
    }
  }

  lemma {:induction false} FeedNeverCappedByAlu(s: State, op: Op, m: int)
    requires Inv(s) && ValidOp(op) && NeedAlu(s, m) && NeedsAlu(op, s.instructions, m)
    ensures FeedNeverCapped(s, op) && NeedAlu(Feed(s, op, true), m) &&
            Feed(s, op, true).instructions == s.instructions + 1
  {
    hide MakeRoom, Inv, NeedAlu, FeedNeverCapped;
    RoomNeverCappedByAlu(s, op, m);
    PlaceKeepsAlu(MakeRoom(s, DecodeSlotsOf(op), true), op, m);
  }

  lemma {:induction false} DrainInstructions(s: State, finished: bool, enabled: bool)
    requires Inv(s) && Settled(s)
    ensures Drain(s, finished, enabled).instructions == s.instructions
    decreases Work(s, ROB)
  {
    InvShape(s);
    hide Tick, Work, Inv;
    if s.inFlight > Target(finished) {
      DrainTick(s, finished, enabled);
      TickSettles(s, finished, false, enabled);
      DrainInstructions(Tick(s, finished, false, enabled), finished, enabled);
    }
  }

  lemma {:induction false} TickLoopInstructions(s: State, finished: bool, enabled: bool)
    requires Inv(s)
    ensures TickLoop(s, finished, enabled).instructions == s.instructions
  {
    InvShape(s);
    hide Tick, Inv;
    TickKeeps(s, finished, true, enabled);
    TickSettles(s, finished, true, enabled);
    DrainInstructions(Tick(s, finished, true, enabled), finished, enabled);
  }

  lemma {:induction false} FeedingNeverCappedByAlu(start: State, ops: seq<Op>, n: nat, m: int)
    requires Cleared(start) && ValidOps(ops) && n <= |ops| && OpsNeedAlu(ops, m)
    ensures FeedingNeverCapped(start, ops, n)
    ensures NeedAlu(FeedFirst(start, ops, n, true), m) && FeedFirst(start, ops, n, true).instructions == n
  {
    hide Feed, FeedNeverCapped, Inv, NeedAlu;
    if n == 0 {
      ClearedNeedsAlu(start, m);
    } else {
      FeedingNeverCappedByAlu(start, ops, n - 1, m);
      FeedNeverCappedByAlu(FeedFirst(start, ops, n - 1, true), ops[n - 1], m);
    }
  }

  lemma {:induction false} ClearedNeedsAlu(s: State, m: int)
    requires Cleared(s)
    ensures NeedAlu(s, m)
  {
  }

  /** If all instructions of a block without an ALU slot run for one cycle, except the last one of them,
      the cost is the same with and without fast-forwarding. */
  lemma {:induction false} CostIsExactByAlu(start: State, ops: seq<Op>, m: int)
    requires Cleared(start) && ValidBlock(ops) && OpsNeedAlu(ops, m)
    ensures BlockCost(start, ops, true) == BlockCost(start, ops, false)
  {
    hide FeedFirst, LoopNeverCapped, Inv, NeedAlu, FeedingNeverCapped, BlockCost;
    FeedingNeverCappedByAlu(start, ops, |ops|, m);
    LoopNeverCappedByAlu(FeedFirst(start, ops, |ops|, true), true, m);
    CostIsExact(start, ops);
  }

  /** In particular if all but the block's last instruction need an ALU slot or run for one cycle. */
  lemma {:induction false} CostIsExactForQuickBlocks(start: State, ops: seq<Op>)
    requires Cleared(start) && ValidBlock(ops)
    requires forall n :: 0 <= n < |ops| - 1 && ops[n].Exec? ==> ops[n].cost.counts.alu >= 1 || ops[n].cost.latency == 1
    ensures BlockCost(start, ops, true) == BlockCost(start, ops, false)
  {
    hide BlockCost, Cleared;
    CostIsExactByAlu(start, ops, |ops| - 1);
  }
}
