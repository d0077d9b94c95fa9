/** A block of the instruction set whose cost fast-forwarding changes: count_trailing_zero_bits_32, four
    sign_extend_8 of its result, fourteen unlikely and a jump. When the result is there, the four take the
    start loop's attempts from the instructions decoded since. The jump is left behind by the loop's cap, and
    the tick then skips the cycles of the executing instructions before it starts. */
module PipelineUnlikely {
  import opened Wrappers
  import opened Resources
  import opened Pipeline
  import opened PipelineInvariant
  import opened PipelineProgress
  import opened PipelineRun
  import opened PipelineFastForward
  import opened PipelineExactRuns
  import opened PipelineDelay

  const LENGTH := 20

  /** The ALU slots of the first five instructions; the others have none. */
  function AluSlots(n: int): nat {
    if n == 0 then 2 else 1
  }

  function Alu(n: int): Counts {
    Counts(AluSlots(n), 0, 0, 0, 0)
  }

  predicate IsLatency(latency: int) { 1 <= latency <= 127 }

  /** What the instruction in slot `n` costs, `u` being the latency of unlikely and `j` that of the jump. */
  function LatencyOf(u: int, j: int, n: int): int {
    if n == 0 then 2 else if n <= 4 then 1 else if n < LENGTH - 1 then u else j
  }

  function OpAt(u: int, j: int, n: nat): Op {
    if n == 0 then Exec(Some(0), Some(5), None, InstCost(2, 1, Alu(n)))
    else if n <= 4 then Exec(Some(n), Some(0), None, InstCost(1, 1, Alu(n)))
    else Exec(None, None, None, InstCost(LatencyOf(u, j, n), 1, NONE))
  }

  function Block(u: int, j: int): (ops: seq<Op>)
    requires IsLatency(u) && IsLatency(j)
    ensures ValidBlock(ops) && |ops| == LENGTH
  {
    seq(LENGTH, n requires 0 <= n < LENGTH => OpAt(u, j, n))
  }

  // ---------- The simulator while it runs the block ----------

  /** Slot `n` holds instruction `n`; everything else follows from what the slots are doing. */
  datatype Crew = Crew(cycles: nat, head: nat, count: nat, slots: int, phase: seq<int>, left: seq<int>)

  predicate IsCrew(c: Crew) {
    |c.phase| == |c.left| == ROB && c.head <= c.count < ROB
  }

  /** The slot still has an ALU slot to use and a result to produce. */
  predicate Live(c: Crew, i: int)
    requires IsCrew(c)
  {
    0 <= i <= 4 && (c.phase[i] == DECODING || c.phase[i] == WAITING || (c.phase[i] == EXECUTING && c.left[i] > 0))
  }

  function Required(c: Crew): (v: seq<Counts>)
    requires IsCrew(c)
    ensures |v| == ROB
  {
    seq(ROB, i requires 0 <= i < ROB => if Live(c, i) then Alu(i) else NONE)
  }

  function StateOf(c: Crew): (s: State)
    requires IsCrew(c)
    ensures Shape(s) && s.head == c.head && s.inFlight == c.count - c.head && s.cycles == c.cycles &&
            s.decodeSlots == c.slots
    ensures s.phase == c.phase && s.remaining == c.left
  {
    State(c.cycles, c.count, c.slots, Available(Minus(CAPACITY, Held(c.phase, Required(c), ROB))), c.count - c.head,
      c.head, c.count,
          seq(ROB, i requires 0 <= i < ROB => if i < c.count then i else 0),
          c.phase,
          c.left,
          Required(c),
          seq(ROB, i requires 0 <= i < ROB => if 1 <= i <= 4 && i < c.count && Live(c, 0) then {0} else {}),
          seq(ROB, i requires 0 <= i < ROB => if Live(c, i) then {i} else {}),
          seq(REGS, r requires 0 <= r < REGS => if Live(c, r) then r else -1))
  }

  // ---------- One tick ----------

  function Retired(c: Crew, n: nat): (r: Crew)
    requires IsCrew(c) && c.head + n <= c.count
    ensures IsCrew(r)
  {
    c.(head := c.head + n,
       phase := seq(ROB, i requires 0 <= i < ROB => if c.head <= i < c.head + n then FREE else c.phase[i]))
  }

  lemma {:induction false} CountRetired(c: Crew, n: nat)
    requires IsCrew(c) && c.head + n < c.count
    requires forall i :: c.head <= i < c.head + n ==> c.phase[i] == EXECUTED
    requires c.phase[c.head + n] != EXECUTED
    ensures RetireCount(StateOf(c)) == n
  {
    hide StateOf;
    assert SlotAt(c.head, n) == c.head + n;
    assert forall a :: 0 <= a < n ==> c.phase[SlotAt(c.head, a)] == EXECUTED;
  }

  lemma {:induction false} RetiredLive(c: Crew, n: nat)
    requires IsCrew(c) && c.head + n <= c.count && forall i :: c.head <= i < c.head + n ==> c.phase[i] == EXECUTED
    ensures forall i :: 0 <= i < ROB ==> Live(Retired(c, n), i) == Live(c, i)
  {
  }

  lemma {:induction false} RetireLanes(c: Crew, n: nat)
    requires IsCrew(c) && c.head + n < c.count && forall i :: c.head <= i < c.head + n ==> c.phase[i] == EXECUTED
    ensures var t := RetireFirst(StateOf(c), n); var goal := StateOf(Retired(c, n));
            t.phase == goal.phase && t.required == goal.required && t.deps == goal.deps &&
            t.written == goal.written && t.entry == goal.entry
  {
    hide Available, Held, Live;
    var t := RetireFirst(StateOf(c), n);
    var goal := StateOf(Retired(c, n));
    RetiredLive(c, n);
    assert t.phase == goal.phase;
    assert t.required == goal.required;
    assert t.deps == goal.deps;
    assert t.written == goal.written;
    assert t.entry == goal.entry;
  }

  lemma {:induction false} RetireCrew(c: Crew, n: nat)
    requires IsCrew(c) && c.head + n < c.count && Inv(StateOf(c))
    requires forall i :: c.head <= i < c.head + n ==> c.phase[i] == EXECUTED
    requires c.phase[c.head + n] != EXECUTED
    ensures RetireCount(StateOf(c)) == n && RetireFirst(StateOf(c), n) == StateOf(Retired(c, n))
  {
    CountRetired(c, n);
    RetireKeeps(StateOf(c));
    assert Conserved(RetireFirst(StateOf(c), n));
    hide Inv, RetireCount, Available, Held, Required, Live;
    RetireLanes(c, n);
  }

  /** How many ALU slots the executing slots hold. */
  function Busy(c: Crew, n: nat): nat
    requires IsCrew(c)
  {
    if n == 0 then 0
    else Busy(c, n - 1) + (if n - 1 < ROB && c.phase[n - 1] == EXECUTING && Live(c, n - 1) then AluSlots(n - 1) else 0)
  }

  lemma {:induction false} HeldIsBusy(c: Crew, n: nat)
    requires IsCrew(c) && n <= ROB
    ensures Held(c.phase, Required(c), n) == Counts(Busy(c, n), 0, 0, 0, 0)
  {
    if n > 0 { HeldIsBusy(c, n - 1); }
  }

  /** Waits for a result that is still to come. */
  predicate Blocked(c: Crew, i: int)
    requires IsCrew(c)
  {
    1 <= i <= 4 && i < c.count && Live(c, 0)
  }

  lemma {:induction false} StartableInCrew(c: Crew, i: int)
    requires IsCrew(c) && IsSlot(i) && Inv(StateOf(c))
    requires i <= 4 && c.phase[i] == WAITING && !Blocked(c, i) ==> Busy(c, ROB) + AluSlots(i) <= MAX_ALU_SLOTS
    ensures Startable(StateOf(c), i) <==> c.phase[i] == WAITING && !Blocked(c, i)
  {
    var s := StateOf(c);
    HeldIsBusy(c, ROB);
    assert WithinCapacity(s.required[i]);
    GuardTestIsExact(Minus(CAPACITY, HeldBy(s)), s.required[i]);
    hide EnoughFor, Available, Pack, Window, Phases, Dependencies, Renaming, InOrder;
  }

  function Started(c: Crew, w: nat, n: nat): (r: Crew)
    requires IsCrew(c)
    ensures IsCrew(r)
  {
    c.(phase := seq(ROB, i requires 0 <= i < ROB => if w <= i < w + n then EXECUTING else c.phase[i]))
  }

  lemma {:induction false} StartCrew(c: Crew, i: nat)
    requires IsCrew(c) && IsSlot(i) && Inv(StateOf(c)) && Startable(StateOf(c), i) && c.left[i] > 0
    ensures StartSlot(StateOf(c), i) == StateOf(Started(c, i, 1)) && Inv(StateOf(Started(c, i, 1)))
  {
    var s := StateOf(c);
    var t := StartSlot(s, i);
    var goal := StateOf(Started(c, i, 1));
    StartKeeps(s, i);
    hide Inv, Startable;
    assert t.phase == goal.phase;
    assert forall k :: 0 <= k < ROB ==> Live(Started(c, i, 1), k) == Live(c, k);
    assert t.required == goal.required;
    assert t.deps == goal.deps;
    assert t.written == goal.written;
    assert t.entry == goal.entry;
    assert Conserved(t);
  }

  lemma {:induction false} OldestInCrew(c: Crew, w: nat)
    requires IsCrew(c) && Inv(StateOf(c)) && c.head <= w < c.count
    requires w <= 4 ==> Busy(c, ROB) + AluSlots(w) <= MAX_ALU_SLOTS
    requires forall i :: c.head <= i < w ==> c.phase[i] != WAITING || Blocked(c, i)
    requires c.phase[w] == WAITING && !Blocked(c, w)
    ensures Startable(StateOf(c), w) && FirstStartable(StateOf(c), 0) == w - c.head
  {
    hide StateOf, Startable, Inv, Blocked, Busy;
    StartableInCrew(c, w);
    assert SlotAt(c.head, w - c.head) == w;
    forall a | 0 <= a < w - c.head
      ensures !Startable(StateOf(c), SlotAt(c.head, a))
    {
      StartableInCrew(c, SlotAt(c.head, a));
    }
  }

  lemma {:induction false} BusierByOne(c: Crew, i: nat, n: nat)
    requires IsCrew(c) && IsSlot(i) && c.phase[i] == WAITING && c.left[i] > 0
    ensures Busy(Started(c, i, 1), n) == Busy(c, n) + (if i <= 4 && i < n then AluSlots(i) else 0)
  {
    if n > 0 { BusierByOne(c, i, n - 1); }
  }

  /** The start loop takes the `n` waiting slots from `w` on, nothing before them being ready. */
  ghost predicate NextInLine(c: Crew, w: nat, n: nat)
    requires IsCrew(c)
  {
    && c.head <= w && w + n <= c.count && (w <= 4 ==> Busy(c, ROB) + AluSlots(w) + n - 1 <= MAX_ALU_SLOTS)
    && (forall i :: c.head <= i < w ==> c.phase[i] != WAITING || Blocked(c, i))
    && (forall i :: w <= i < w + n ==> c.phase[i] == WAITING && c.left[i] > 0 && !Blocked(c, i))
  }

  lemma {:induction false} StaysInLine(c: Crew, w: nat, n: nat)
    requires IsCrew(c) && NextInLine(c, w, n) && n > 0
    ensures NextInLine(c, w, 1) && NextInLine(Started(c, w, 1), w + 1, n - 1)
  {
    hide Busy;
    BusierByOne(c, w, ROB);
    var next := Started(c, w, 1);
    assert Live(next, 0) == Live(c, 0) && forall i :: Blocked(next, i) == Blocked(c, i);
    assert forall i :: 0 <= i < ROB && i != w ==> next.phase[i] == c.phase[i];
  }

  lemma {:induction false} StartedOneByOne(c: Crew, w: nat, n: nat)
    requires IsCrew(c)
    ensures Started(c, w, 0) == c && (n > 0 ==> Started(Started(c, w, 1), w + 1, n - 1) == Started(c, w, n))
  {
    assert Started(c, w, 0).phase == c.phase;
    if n > 0 {
      assert Started(Started(c, w, 1), w + 1, n - 1).phase == Started(c, w, n).phase;
    }
  }

  lemma {:induction false} StartRun(c: Crew, w: nat, n: nat, attempts: nat)
    requires IsCrew(c) && Inv(StateOf(c)) && NextInLine(c, w, n) && n <= attempts
    ensures StartUpTo(StateOf(c), attempts) == StartUpTo(StateOf(Started(c, w, n)), attempts - n)
    ensures Inv(StateOf(Started(c, w, n)))
    decreases n
  {
    hide StateOf, Inv, Busy, NextInLine, StartUpTo, Started;
    StartedOneByOne(c, w, n);
    if n > 0 {
      StaysInLine(c, w, n);
      StartOldest(c, w, attempts);
      StartRun(Started(c, w, 1), w + 1, n - 1, attempts - 1);
    }
  }

  lemma {:induction false} StartOldest(c: Crew, w: nat, attempts: nat)
    requires IsCrew(c) && Inv(StateOf(c)) && NextInLine(c, w, 1) && attempts > 0
    ensures StartUpTo(StateOf(c), attempts) == StartUpTo(StateOf(Started(c, w, 1)), attempts - 1)
    ensures Inv(StateOf(Started(c, w, 1)))
  {
    hide StateOf, Inv, Busy, StartSlot, Startable, Blocked, Started;
    OldestInCrew(c, w);
    assert SlotAt(c.head, w - c.head) == w;
    StartCrew(c, w);
  }

  function Ran(c: Crew, k: int): (r: Crew)
    requires IsCrew(c)
    ensures IsCrew(r)
  {
    c.(left := seq(ROB, i requires 0 <= i < ROB => if c.phase[i] == EXECUTING then c.left[i] - k else c.left[i]),
       phase := seq(ROB, i requires 0 <= i < ROB =>
                      if c.phase[i] == EXECUTING && c.left[i] - k == -1 then EXECUTED else c.phase[i]))
  }

  /** What runs for `k` cycles stops being live by finishing. */
  lemma {:induction false} RanLive(c: Crew, k: int)
    requires IsCrew(c) && 1 <= k
    requires forall i :: IsSlot(i) && c.phase[i] == EXECUTING ==> 0 <= c.left[i] <= 127 && (k == 1 || k <= c.left[i])
    ensures forall i :: 0 <= i < ROB ==> (Live(Ran(c, k), i) <==> Live(c, i) && i !in Finishing(StateOf(c), k))
  {
    hide StateOf;
  }

  lemma {:induction false} RanWithin(c: Crew, k: int)
    requires IsCrew(c) && Inv(StateOf(c)) && SafeSkip(StateOf(c), k)
    ensures forall i :: IsSlot(i) && c.phase[i] == EXECUTING ==> 0 <= c.left[i] <= 127 && (k == 1 || k <= c.left[i])
  {
    hide StateOf, Window, Dependencies, Renaming, Requirements, InOrder, Conserved;
  }

  lemma {:induction false} RanLanes(c: Crew, k: int)
    requires IsCrew(c) && 1 <= k
    requires forall i :: IsSlot(i) && c.phase[i] == EXECUTING ==> 0 <= c.left[i] <= 127 && (k == 1 || k <= c.left[i])
    ensures var t := Execute(StateOf(c), k); var goal := StateOf(Ran(c, k));
            t.remaining == goal.remaining && t.phase == goal.phase
  {
    hide StateOf, Finishing, Released, PackedSum;
    assert Execute(StateOf(c), k).remaining == Ran(c, k).left;
    assert Execute(StateOf(c), k).phase == Ran(c, k).phase;
  }

  lemma {:induction false} ExecuteTables(c: Crew, k: int)
    requires IsCrew(c) && forall i :: 0 <= i < ROB ==>
             (Live(Ran(c, k), i) <==> Live(c, i) && i !in Finishing(StateOf(c), k))
    ensures var t := Execute(StateOf(c), k); var goal := StateOf(Ran(c, k));
            t.required == goal.required && t.written == goal.written && t.entry == goal.entry && t.deps == goal.deps
  {
    hide Finishing, Released, PackedSum, Held, Available, Ran, Live;
    var s := StateOf(c);
    var fin := Finishing(s, k);
    var t := Execute(s, k);
    var goal := StateOf(Ran(c, k));
    FinishedInCrew(c, k);
    assert t.required == goal.required;
    assert t.written == goal.written;
    assert t.entry == goal.entry;
    OnlyTheFirst(c, k);
    forall i | IsSlot(i)
      ensures t.deps[i] == goal.deps[i]
    {
      assert t.deps[i] == s.deps[i] - fin;
    }
  }

  lemma {:induction false} OnlyTheFirst(c: Crew, k: int)
    requires IsCrew(c)
    ensures Ran(c, k).count == c.count && forall i :: Live(c, i) ==> 0 <= i <= 4
  {
  }

  lemma {:induction false} ExecuteCrew(c: Crew, k: int)
    requires IsCrew(c) && Inv(StateOf(c)) && SafeSkip(StateOf(c), k) && 1 <= k
    ensures Execute(StateOf(c), k) == StateOf(Ran(c, k)) && Inv(StateOf(Ran(c, k)))
  {
    var s := StateOf(c);
    var t := Execute(s, k);
    var goal := StateOf(Ran(c, k));
    ExecuteKeeps(s, k);
    assert Conserved(t);
    RanWithin(c, k);
    hide Inv, Available, PackedSum, Held, Finishing, Released, Live, SafeSkip, Required, Ran;
    RanLive(c, k);
    RanLanes(c, k);
    ExecuteTables(c, k);
  }

  lemma {:induction false} FinishedInCrew(c: Crew, k: int)
    requires IsCrew(c)
    ensures var fin := Finishing(StateOf(c), k);
            forall r :: 0 <= r < REGS ==> (r in Released(StateOf(c), fin) <==> Live(c, r) && r in fin)
  {
    hide Available, Held;
    var s := StateOf(c);
    var fin := Finishing(s, k);
    forall r | 0 <= r < REGS
      ensures r in Released(s, fin) <==> Live(c, r) && r in fin
    {
      assert forall i :: IsSlot(i) ==> (r in s.written[i] <==> i == r && Live(c, r));
      assert Live(c, r) ==> r in s.written[r];
    }
  }

  function Moved(c: Crew, k: nat, pending: bool): (r: Crew)
    requires IsCrew(c)
    ensures IsCrew(r)
  {
    if pending then
      c.(cycles := c.cycles + k, slots := MAX_DECODE_PER_CYCLE,
         phase := seq(ROB, i requires 0 <= i < ROB => if c.phase[i] == DECODING then WAITING else c.phase[i]))
    else c.(cycles := c.cycles + k)
  }

  lemma {:induction false} SettleCrew(c: Crew, k: nat, pending: bool)
    requires IsCrew(c)
    ensures Settle(StateOf(c), k, pending) == StateOf(Moved(c, k, pending))
  {
    var t := Settle(StateOf(c), k, pending);
    var moved := Moved(c, k, pending);
    var goal := StateOf(moved);
    hide Available;
    assert t.phase == goal.phase;
    assert forall i :: 0 <= i < ROB ==> Live(moved, i) == Live(c, i);
    assert t.required == goal.required;
    HeldSame(c.phase, Required(c), moved.phase, Required(moved), ROB);
    assert t.deps == goal.deps;
    assert t.written == goal.written;
    assert t.entry == goal.entry;
  }

  /** A tick after whose start loop the slots are as in `issued`. */
  lemma {:induction false} TickCrew(c: Crew, issued: Crew, finished: bool, pending: bool, enabled: bool)
    requires IsCrew(c) && IsCrew(issued) && Inv(StateOf(c)) && Issue(StateOf(c)) == StateOf(issued)
    ensures var k := CyclesToCharge(StateOf(issued), MayFastForward(StateOf(c), finished, pending, enabled));
            Tick(StateOf(c), finished, pending, enabled) == StateOf(Moved(Ran(issued, k), k, pending))
  {
    var may := MayFastForward(StateOf(c), finished, pending, enabled);
    var k := CyclesToCharge(StateOf(issued), may);
    IssueKeeps(StateOf(c));
    ChargeIsSafe(StateOf(issued), may);
    hide StateOf, Issue, Execute, Settle, CyclesToCharge, Inv, SafeSkip, MayFastForward, Ran, Moved;
    ExecuteCrew(issued, k);
    SettleCrew(Ran(issued, k), k, pending);
  }

  /** None of the slots can start. */
  lemma {:induction false} NoneInLine(c: Crew, attempts: nat)
    requires IsCrew(c) && Inv(StateOf(c))
    requires forall i :: 0 <= i < ROB ==> c.phase[i] != WAITING || Blocked(c, i)
    ensures StartUpTo(StateOf(c), attempts) == StateOf(c)
  {
    forall i | IsSlot(i)
      ensures !Startable(StateOf(c), i)
    {
      hide Available, EnoughFor, Inv, Held;
    }
    hide StateOf, StartUpTo;
    NothingStarts(StateOf(c), attempts);
  }

  function Joined(c: Crew, latency: int): (r: Crew)
    requires IsCrew(c) && c.count < LENGTH
    ensures IsCrew(r)
  {
    c.(count := c.count + 1, slots := c.slots - 1, phase := c.phase[c.count := DECODING],
      left := c.left[c.count := latency])
  }

  lemma {:induction false} JoinedLive(c: Crew, latency: int)
    requires IsCrew(c) && c.count < LENGTH
    ensures forall i :: 0 <= i < ROB ==> Live(Joined(c, latency), i) == if i == c.count then i <= 4 else Live(c, i)
  {
  }

  ghost predicate CanJoin(c: Crew, u: int, j: int) {
    IsCrew(c) && IsLatency(u) && IsLatency(j) && c.count < LENGTH && c.phase[c.count] == FREE
  }

  lemma {:induction false} AllocateLanes(c: Crew, u: int, j: int)
    requires CanJoin(c, u, j)
    ensures var t := Allocate(StateOf(c), OpAt(u, j, c.count));
            var goal := StateOf(Joined(c, LatencyOf(u, j, c.count)));
            t.id == goal.id && t.phase == goal.phase && t.remaining == goal.remaining && t.required == goal.required
  {
    hide Available, Held, Live;
    JoinedLive(c, LatencyOf(u, j, c.count));
    var t := Allocate(StateOf(c), OpAt(u, j, c.count));
    var goal := StateOf(Joined(c, LatencyOf(u, j, c.count)));
    assert t.id == goal.id;
    assert t.phase == goal.phase;
    assert t.remaining == goal.remaining;
    assert t.required == goal.required;
  }

  lemma {:induction false} AllocateTables(c: Crew, u: int, j: int)
    requires CanJoin(c, u, j)
    ensures var t := Allocate(StateOf(c), OpAt(u, j, c.count));
            var goal := StateOf(Joined(c, LatencyOf(u, j, c.count)));
            t.written == goal.written && t.entry == goal.entry
  {
    hide Available, Held, Live;
    JoinedLive(c, LatencyOf(u, j, c.count));
    OnlyTheFirst(c, 1);
    assert !Live(c, c.count) by { NotLiveYet(c); }
    var t := Allocate(StateOf(c), OpAt(u, j, c.count));
    var goal := StateOf(Joined(c, LatencyOf(u, j, c.count)));
    assert t.entry == goal.entry;
    forall i | IsSlot(i)
      ensures t.written[i] == goal.written[i]
    {
      if c.count <= 4 && i == c.count {
        assert t.written[i] == {} + {i};
      } else if c.count <= 4 {
        assert t.written[i] == StateOf(c).written[i] - {c.count};
      }
    }
  }

  lemma {:induction false} NotLiveYet(c: Crew)
    requires IsCrew(c) && c.phase[c.count] == FREE
    ensures !Live(c, c.count)
  {
  }

  lemma {:induction false} AllocateDeps(c: Crew, u: int, j: int)
    requires CanJoin(c, u, j)
    ensures Allocate(StateOf(c), OpAt(u, j, c.count)).deps == StateOf(Joined(c, LatencyOf(u, j, c.count))).deps
  {
    hide Available, Held, Live;
    JoinedLive(c, LatencyOf(u, j, c.count));
    OnlyTheFirst(c, 1);
    var s := StateOf(c);
    var t := Allocate(s, OpAt(u, j, c.count));
    var goal := StateOf(Joined(c, LatencyOf(u, j, c.count)));
    var op := OpAt(u, j, c.count);
    assert c.count <= 4 ==> DependencyOn(s, op.src1) + DependencyOn(s, op.src2) == goal.deps[c.count];
    assert t.deps == goal.deps;
  }

  lemma {:induction false} PlaceCrew(c: Crew, u: int, j: int)
    requires CanJoin(c, u, j) && HasRoom(StateOf(c), OpAt(u, j, c.count))
    ensures Place(StateOf(c), OpAt(u, j, c.count)) == StateOf(Joined(c, LatencyOf(u, j, c.count)))
  {
    AllocateLanes(c, u, j);
    AllocateTables(c, u, j);
    AllocateDeps(c, u, j);
    assert Conserved(Place(StateOf(c), OpAt(u, j, c.count)));
    hide Inv, Available, Held, Required, Live, LatencyOf;
  }

  // ---------- Feeding the block ----------

  /** What slot `i` is doing when four times `g` instructions have been decoded in `g` ticks. */
  function PhaseAt(g: nat, i: int): int {
    if g == 4 && i == 0 then EXECUTED
    else if g >= 2 && i == 0 then EXECUTING
    else if g == 4 && i <= 8 then EXECUTING
    else if g == 3 && 5 <= i <= 7 then EXECUTING
    else WAITING
  }

  /** How many cycles it has run by then. */
  function RunAt(g: nat, i: int): int {
    if i == 0 then (if g >= 2 then g - 1 else 0)
    else if g == 4 && i <= 4 then 1
    else if g >= 3 && 5 <= i <= 7 then g - 2
    else if g == 4 && i == 8 then 1
    else 0
  }

  function Stage(u: int, j: int, g: nat, n: nat): (c: Crew)
    requires 4 * g <= n <= 4 * g + 4 <= LENGTH
    ensures IsCrew(c)
  {
    Crew(g, 0, n, 4 * g + 4 - n,
         seq(ROB, i requires 0 <= i < ROB => if i >= n then FREE else if i >= 4 * g then DECODING else PhaseAt(g, i)),
         seq(ROB, i requires 0 <= i < ROB =>
           if i >= n then 0 else LatencyOf(u, j, i) - if i >= 4 * g then 0 else RunAt(g, i)))
  }

  /** Only those from the first are decoded and can have started. */
  function StageIssued(u: int, j: int, g: nat): (c: Crew)
    requires g <= 4
    ensures IsCrew(c)
  {
    var stage := Stage(u, j, g, 4 * g + 4);
    if g == 0 then stage
    else if g == 1 then Started(stage, 0, 1)
    else if g == 2 then Started(stage, 5, 3)
    else if g == 3 then Started(Started(stage, 1, 4), 8, 1)
    else Started(Retired(stage, 1), 9, 5)
  }

  lemma {:induction false} NoneBusy(c: Crew, n: nat)
    requires IsCrew(c) && forall i :: 0 <= i <= 4 ==> !(c.phase[i] == EXECUTING && c.left[i] > 0)
    ensures Busy(c, n) == 0
  {
    if n > 0 { NoneBusy(c, n - 1); }
  }

  lemma {:induction false} NoneRetires(c: Crew)
    requires IsCrew(c) && c.head < c.count && c.phase[c.head] != EXECUTED && Inv(StateOf(c))
    ensures RetireCount(StateOf(c)) == 0 && Issue(StateOf(c)) == StartUpTo(StateOf(c), START_ATTEMPTS)
  {
    hide StateOf, StartUpTo, Inv;
    NothingRetires(StateOf(c));
  }

  lemma {:induction false} IssueStage0(u: int, j: int)
    requires IsLatency(u) && Inv(StateOf(Stage(u, j, 0, 4)))
    ensures Issue(StateOf(Stage(u, j, 0, 4))) == StateOf(StageIssued(u, j, 0))
  {
    hide StateOf, Inv, StartUpTo, Issue;
    NoneRetires(Stage(u, j, 0, 4));
    NoneInLine(Stage(u, j, 0, 4), START_ATTEMPTS);
  }

  lemma {:induction false} IssueStage1(u: int, j: int)
    requires IsLatency(u) && Inv(StateOf(Stage(u, j, 1, 8)))
    ensures Issue(StateOf(Stage(u, j, 1, 8))) == StateOf(StageIssued(u, j, 1))
  {
    hide StateOf, Inv, StartUpTo, Issue, Busy;
    var stage := Stage(u, j, 1, 8);
    NoneRetires(stage);
    NoneBusy(stage, ROB);
    StartRun(stage, 0, 1, START_ATTEMPTS);
    NoneInLine(Started(stage, 0, 1), START_ATTEMPTS - 1);
  }

  lemma {:induction false} IssueStage2(u: int, j: int)
    requires IsLatency(u) && Inv(StateOf(Stage(u, j, 2, 12)))
    ensures Issue(StateOf(Stage(u, j, 2, 12))) == StateOf(StageIssued(u, j, 2))
  {
    hide StateOf, Inv, StartUpTo, Issue, Busy;
    var stage := Stage(u, j, 2, 12);
    NoneRetires(stage);
    StartRun(stage, 5, 3, START_ATTEMPTS);
    NoneInLine(Started(stage, 5, 3), START_ATTEMPTS - 3);
  }

  lemma {:induction false} IssueStage3(u: int, j: int)
    requires IsLatency(u) && Inv(StateOf(Stage(u, j, 3, 16)))
    ensures Issue(StateOf(Stage(u, j, 3, 16))) == StateOf(StageIssued(u, j, 3))
  {
    hide StateOf, Inv, StartUpTo, Issue, Busy;
    var stage := Stage(u, j, 3, 16);
    NoneRetires(stage);
    NoneBusy(stage, ROB);
    StartRun(stage, 1, 4, START_ATTEMPTS);
    var four := Started(stage, 1, 4);
    StartRun(four, 8, 1, 1);
    StopsAtCap(StateOf(Started(four, 8, 1)));
  }

  lemma {:induction false} StopsAtCap(s: State)
    requires Shape(s)
    ensures StartUpTo(s, 0) == s
  {
  }

  lemma {:induction false} IssueStage4(u: int, j: int)
    requires IsLatency(u) && Inv(StateOf(Stage(u, j, 4, 20)))
    ensures Issue(StateOf(Stage(u, j, 4, 20))) == StateOf(StageIssued(u, j, 4))
  {
    hide StateOf, Inv, StartUpTo, Busy;
    var stage := Stage(u, j, 4, 20);
    RetireCrew(stage, 1);
    RetireKeeps(StateOf(stage));
    StartRun(Retired(stage, 1), 9, 5, START_ATTEMPTS);
    StopsAtCap(StateOf(StageIssued(u, j, 4)));
  }

  lemma {:induction false} IssueStage(u: int, j: int, g: nat)
    requires IsLatency(u) && g < 4 && Inv(StateOf(Stage(u, j, g, 4 * g + 4)))
    ensures Issue(StateOf(Stage(u, j, g, 4 * g + 4))) == StateOf(StageIssued(u, j, g))
  {
    hide StateOf, Inv, Issue, Stage, StageIssued;
    if g == 0 {
      IssueStage0(u, j);
    } else if g == 1 {
      IssueStage1(u, j);
    } else if g == 2 {
      IssueStage2(u, j);
    } else {
      IssueStage3(u, j);
    }
  }

  lemma {:induction false} NextStage(u: int, j: int, g: nat)
    requires 3 <= u && g < 4
    ensures Moved(Ran(StageIssued(u, j, g), 1), 1, true) == Stage(u, j, g + 1, 4 * g + 4)
  {
    var issued := StageIssued(u, j, g);
    var moved := Moved(Ran(issued, 1), 1, true);
    var goal := Stage(u, j, g + 1, 4 * g + 4);
    assert moved.phase == goal.phase;
    assert moved.left == goal.left;
  }

  lemma {:induction false} StageTick(u: int, j: int, g: nat, enabled: bool)
    requires IsLatency(u) && 3 <= u && g < 4 && Inv(StateOf(Stage(u, j, g, 4 * g + 4)))
    ensures Tick(StateOf(Stage(u, j, g, 4 * g + 4)), false, true, enabled) == StateOf(Stage(u, j, g + 1, 4 * g + 4))
  {
    hide StateOf, Inv, Tick, Issue, Stage, StageIssued, Moved, Ran;
    IssueStage(u, j, g);
    TickCrew(Stage(u, j, g, 4 * g + 4), StageIssued(u, j, g), false, true, enabled);
    NextStage(u, j, g);
  }

  lemma {:induction false} ClearedIsStage(start: State, u: int, j: int)
    requires Cleared(start)
    ensures start == StateOf(Stage(u, j, 0, 0))
  {
    ClearedHolds(start);
    assert Conserved(start);
    hide Inv, Available, Held;
    var goal := StateOf(Stage(u, j, 0, 0));
    assert start.id == goal.id;
    assert start.phase == goal.phase;
    assert start.remaining == goal.remaining;
    assert start.required == goal.required;
    assert start.deps == goal.deps;
    assert start.written == goal.written;
    assert start.entry == goal.entry;
  }

  lemma {:induction false} JoinStage(u: int, j: int, n: nat, g: nat)
    requires IsLatency(u) && IsLatency(j) && 4 * g <= n < 4 * g + 4 <= LENGTH
    ensures CanJoin(Stage(u, j, g, n), u, j) && Joined(Stage(u, j, g, n), LatencyOf(u, j, n)) == Stage(u, j, g, n + 1)
  {
    var joined := Joined(Stage(u, j, g, n), LatencyOf(u, j, n));
    assert joined.phase == Stage(u, j, g, n + 1).phase;
    assert joined.left == Stage(u, j, g, n + 1).left;
  }

  /** The next instruction, when there is room for it. */
  lemma {:induction false} PlaceInStage(u: int, j: int, n: nat, g: nat)
    requires IsLatency(u) && IsLatency(j) && 4 * g <= n < 4 * g + 4 <= LENGTH
    requires HasRoom(StateOf(Stage(u, j, g, n)), OpAt(u, j, n))
    ensures Place(StateOf(Stage(u, j, g, n)), OpAt(u, j, n)) == StateOf(Stage(u, j, g, n + 1))
  {
    JoinStage(u, j, n, g);
    assert Stage(u, j, g, n).count == n;
    hide StateOf, Place, HasRoom, Stage, OpAt, LatencyOf, CanJoin, Joined;
    PlaceCrew(Stage(u, j, g, n), u, j);
  }

  lemma {:induction false} RoomInStage(u: int, j: int, n: nat, g: nat, enabled: bool)
    requires 4 * g <= n < 4 * g + 4 <= LENGTH && Inv(StateOf(Stage(u, j, g, n)))
    ensures MakeRoom(StateOf(Stage(u, j, g, n)), 1, enabled) == StateOf(Stage(u, j, g, n))
  {
    hide StateOf, Inv, TickLoop;
  }

  lemma {:induction false} MakesRoom(u: int, j: int, g: nat, enabled: bool)
    requires IsLatency(u) && 3 <= u && g < 4 && Inv(StateOf(Stage(u, j, g, 4 * g + 4)))
    ensures MakeRoom(StateOf(Stage(u, j, g, 4 * g + 4)), 1, enabled) == StateOf(Stage(u, j, g + 1, 4 * g + 4))
  {
    var s := StateOf(Stage(u, j, g, 4 * g + 4));
    StageTick(u, j, g, enabled);
    OneTickIsEnough(s, enabled);
    hide StateOf, Inv, TickLoop;
  }

  /** With room in the buffer a tick loop is one tick. */
  lemma {:induction false} OneTickIsEnough(s: State, enabled: bool)
    requires Inv(s) && Tick(s, false, true, enabled).inFlight < ROB
    ensures TickLoop(s, false, enabled) == Tick(s, false, true, enabled)
  {
    hide Tick, Inv;
  }

  lemma {:induction false} FedStage(start: State, u: int, j: int, n: nat, g: nat, enabled: bool)
    requires Cleared(start) && IsLatency(u) && IsLatency(j) && 3 <= u && 4 * g < n <= 4 * g + 4 <= LENGTH
    ensures FeedFirst(start, Block(u, j), n, enabled) == StateOf(Stage(u, j, g, n))
  {
    hide StateOf, Inv, MakeRoom, Place, Stage, Cleared;
    var ops := Block(u, j);
    var before := FeedFirst(start, ops, n - 1, enabled);
    assert FeedFirst(start, ops, n, enabled) == Place(MakeRoom(before, 1, enabled), OpAt(u, j, n - 1));
    if n == 1 {
      ClearedIsStage(start, u, j);
      RoomInStage(u, j, 0, 0, enabled);
    } else if n == 4 * g + 1 {
      FedStage(start, u, j, n - 1, g - 1, enabled);
      MakesRoom(u, j, g - 1, enabled);
    } else {
      FedStage(start, u, j, n - 1, g, enabled);
      RoomInStage(u, j, n - 1, g, enabled);
    }
    hide OpAt;
    PlaceInStage(u, j, n - 1, g);
  }

  // ---------- Draining the buffer ----------

  /** All instructions are decoded and the last six of them wait. */
  function Woken(u: int, j: int): (c: Crew)
    ensures IsCrew(c)
  {
    Crew(5, 1, LENGTH, MAX_DECODE_PER_CYCLE,
         seq(ROB, i requires 0 <= i < ROB =>
               if i == 0 || i >= LENGTH then FREE else if i <= 4 then EXECUTED else if i <= 13 then EXECUTING
                 else WAITING),
         seq(ROB, i requires 0 <= i < ROB =>
               if i >= LENGTH then 0 else if i <= 4 then -1 else
                 LatencyOf(u, j, i) - if i <= 7 then 3 else if i == 8 then 2 else if i <= 13 then 1 else 0))
  }

  lemma {:induction false} WakingTick(u: int, j: int, enabled: bool)
    requires IsLatency(u) && 5 <= u && Inv(StateOf(Stage(u, j, 4, 20)))
    ensures Tick(StateOf(Stage(u, j, 4, 20)), true, true, enabled) == StateOf(Woken(u, j))
  {
    hide StateOf, Inv, Tick, Issue;
    IssueStage4(u, j);
    TickCrew(Stage(u, j, 4, 20), StageIssued(u, j, 4), true, true, enabled);
    var moved := Moved(Ran(StageIssued(u, j, 4), 1), 1, true);
    assert moved.phase == Woken(u, j).phase;
    assert moved.left == Woken(u, j).left;
  }

  /** After the start loop five of the six execute; the jump still waits. */
  function Capped(u: int, j: int): (c: Crew)
    ensures IsCrew(c)
  {
    Started(Retired(Woken(u, j), 4), 14, 5)
  }

  lemma {:induction false} IssueWoken(u: int, j: int)
    requires IsLatency(u) && Inv(StateOf(Woken(u, j)))
    ensures Issue(StateOf(Woken(u, j))) == StateOf(Capped(u, j))
  {
    hide StateOf, Inv, StartUpTo, Busy;
    RetireCrew(Woken(u, j), 4);
    RetireKeeps(StateOf(Woken(u, j)));
    StartRun(Retired(Woken(u, j), 4), 14, 5, START_ATTEMPTS);
    StopsAtCap(StateOf(Capped(u, j)));
  }

  lemma {:induction false} LeastInCrew(c: Crew, w: nat, n: nat)
    requires IsCrew(c) && w < ROB && c.phase[w] == EXECUTING && 0 <= c.left[w] && n <= ROB
    requires forall i :: 0 <= i < ROB && c.phase[i] == EXECUTING ==> c.left[w] <= c.left[i] <= 127
    ensures c.left[w] <= LeastRemaining(StateOf(c), n)
    ensures w < n ==> LeastRemaining(StateOf(c), n) == c.left[w]
  {
    hide StateOf;
    if n > 0 { LeastInCrew(c, w, n - 1); }
  }

  lemma {:induction false} CappedCharge(u: int, j: int)
    requires IsLatency(u) && 5 <= u
    ensures CyclesToCharge(StateOf(Capped(u, j)), true) == u - 3 && CyclesToCharge(StateOf(Capped(u, j)), false) == 1
  {
    hide StateOf, LeastRemaining;
    LeastInCrew(Capped(u, j), 5, ROB);
  }

  /** The tick after which the jump still waits, with and without skipping. */
  lemma {:induction false} CappedTick(u: int, j: int, enabled: bool)
    requires IsLatency(u) && 5 <= u && Inv(StateOf(Woken(u, j)))
    ensures var k := if enabled then u - 3 else 1;
            Tick(StateOf(Woken(u, j)), true, false, enabled) == StateOf(Moved(Ran(Capped(u, j), k), k, false))
  {
    hide StateOf, Inv, Tick, CyclesToCharge, Issue, MayFastForward, Ran, Moved, Capped, Woken;
    IssueWoken(u, j);
    CappedCharge(u, j);
    MayWhenFinished(StateOf(Woken(u, j)), enabled);
    TickCrew(Woken(u, j), Capped(u, j), true, false, enabled);
  }

  lemma {:induction false} MayWhenFinished(s: State, enabled: bool)
    requires Shape(s)
    ensures MayFastForward(s, true, false, enabled) == enabled
  {
  }

  ghost predicate Drains(s: State) {
    Inv(s) && Settled(s)
  }

  lemma {:induction false} DrainStep(s: State, enabled: bool)
    requires Drains(s) && s.inFlight > 0
    ensures var t := Tick(s, true, false, enabled);
            Drains(t) && Drain(s, true, enabled) == Drain(t, true, enabled)
  {
    hide Tick, Inv, Settled, Drain;
    DrainTick(s, true, enabled);
  }

  /** Fast: the jump starts only after the first executing instruction has run out. */
  lemma {:induction false} FastDrain(u: int, j: int)
    requires IsLatency(u) && IsLatency(j) && 5 <= u && Drains(StateOf(Woken(u, j)))
    ensures Drain(StateOf(Woken(u, j)), true, true).cycles >= u + j + 4
  {
    hide StateOf, Inv, Settled, Tick, Drain;
    var c := Moved(Ran(Capped(u, j), u - 3), u - 3, false);
    DrainStep(StateOf(Woken(u, j)), true);
    CappedTick(u, j, true);
    DrainTakesAtLeast(StateOf(c), true, LENGTH - 1);
  }

  function Max(a: int, b: int): int {
    if a > b then a else b
  }

  /** Slow: the jump starts in the next cycle, and then everything has started. */
  lemma {:induction false} SlowDrain(u: int, j: int)
    requires IsLatency(u) && IsLatency(j) && 5 <= u && Drains(StateOf(Woken(u, j)))
    ensures Drain(StateOf(Woken(u, j)), true, false).cycles <= Max(u + 7, j + 8)
  {
    hide StateOf, Inv, Settled, Tick, Drain, Moved, Ran;
    var six := Moved(Ran(Capped(u, j), 1), 1, false);
    DrainStep(StateOf(Woken(u, j)), false);
    CappedTick(u, j, false);
    SixthIssues(u, j);
    TickCrew(six, Started(six, LENGTH - 1, 1), true, false, false);
    var seven := Moved(Ran(Started(six, LENGTH - 1, 1), 1), 1, false);
    SixthCrew(u, j);
    DrainStep(StateOf(six), false);
    SeventhCrew(u, j);
    DrainTakesAtMost(StateOf(seven), Max(u - 2, j - 1));
  }

  lemma {:induction false} SixthCrew(u: int, j: int)
    ensures var six := Moved(Ran(Capped(u, j), 1), 1, false); six.cycles == 6 && six.head == 5 && six.count == LENGTH
  {
  }

  lemma {:induction false} SixthIssues(u: int, j: int)
    requires IsLatency(u) && IsLatency(j) && 5 <= u
    requires Inv(StateOf(Moved(Ran(Capped(u, j), 1), 1, false)))
    ensures var six := Moved(Ran(Capped(u, j), 1), 1, false);
            Issue(StateOf(six)) == StateOf(Started(six, LENGTH - 1, 1))
  {
    hide StateOf, Inv, StartUpTo, Issue, Busy;
    var six := Moved(Ran(Capped(u, j), 1), 1, false);
    NoneRetires(six);
    StartRun(six, LENGTH - 1, 1, START_ATTEMPTS);
    NoneInLine(Started(six, LENGTH - 1, 1), START_ATTEMPTS - 1);
  }

  lemma {:induction false} SeventhCrew(u: int, j: int)
    requires IsLatency(u) && IsLatency(j) && 5 <= u
    ensures var six := Moved(Ran(Capped(u, j), 1), 1, false);
            var seven := Moved(Ran(Started(six, LENGTH - 1, 1), 1), 1, false);
            seven.cycles == 7 && AllStarted(StateOf(seven), Max(u - 2, j - 1))
  {
    hide StateOf;
  }

  lemma {:induction false} BlockDrains(start: State, u: int, j: int, enabled: bool)
    requires Cleared(start) && IsLatency(u) && IsLatency(j) && 5 <= u
    ensures Drains(StateOf(Woken(u, j)))
    ensures BlockState(start, Block(u, j), enabled) == Drain(StateOf(Woken(u, j)), true, enabled)
  {
    hide StateOf, Inv, Settled, FeedFirst, Cleared, Tick, Drain;
    var fed := FeedFirst(start, Block(u, j), LENGTH, enabled);
    FedStage(start, u, j, LENGTH, 4, enabled);
    TickKeeps(fed, true, true, enabled);
    InvShape(fed);
    TickSettles(fed, true, true, enabled);
    WakingTick(u, j, enabled);
  }

  /** The block costs more with fast-forward than without. In the instruction set unlikely has latency 40
      and the jump 15: at least 56 against at most 44. */
  lemma {:induction false} FastForwardCostsMore(start: State, u: int, j: int)
    requires Cleared(start) && IsLatency(u) && IsLatency(j) && 5 <= u && 4 <= j
    ensures BlockCost(start, Block(u, j), true) >= u + j + 1
    ensures BlockCost(start, Block(u, j), false) <= Max(u + 4, j + 5) < u + j + 1
  {
    hide BlockState, Cleared, StateOf, Drain, Block, Drains;
    BlockDrains(start, u, j, true);
    BlockDrains(start, u, j, false);
    FastDrain(u, j);
    SlowDrain(u, j);
  }
}
