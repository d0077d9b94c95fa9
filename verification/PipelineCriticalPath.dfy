/** The cost of a block is at least the sum of latencies along any register-dependence chain. */
module PipelineCriticalPath {
  import opened Wrappers
  import opened Pipeline
  import opened PipelineInvariant
  import opened PipelineProgress
  import opened PipelineRun

  // ---------- Dataflow of a block, independent of the pipeline ----------

  /** The instruction that produced the value register `r` holds before instruction `n`, followed through moves. */
  function LastWriter(ops: seq<Op>, n: int, r: int): (w: Option<int>)
    requires 0 <= n <= |ops|
    ensures w.Some? ==> 0 <= w.value < n && ops[w.value].Exec?
  {
    if n == 0 then None
    else match ops[n - 1]
      case Exec(dst, _, _, _) => if dst == Some(r) then Some(n - 1) else LastWriter(ops, n - 1, r)
      case Move(to, from) => if to == r then LastWriter(ops, n - 1, from) else LastWriter(ops, n - 1, r)
  }

  /** Instruction `n` reads a value that instruction `m` produced. */
  predicate DependsOn(ops: seq<Op>, n: int, m: int) {
    0 <= n < |ops| && ops[n].Exec? &&
    ((ops[n].src1.Some? && LastWriter(ops, n, ops[n].src1.value) == Some(m)) ||
     (ops[n].src2.Some? && LastWriter(ops, n, ops[n].src2.value) == Some(m)))
  }

  /** Each instruction of the chain reads a value produced by the one before it. */
  ghost predicate IsChain(ops: seq<Op>, chain: seq<int>) {
    && (forall k :: 0 <= k < |chain| ==> 0 <= chain[k] < |ops| && ops[chain[k]].Exec?)
    && (forall k :: 0 < k < |chain| ==> DependsOn(ops, chain[k], chain[k - 1]))
  }

  function ChainLatency(ops: seq<Op>, chain: seq<int>): int
    requires forall k :: 0 <= k < |chain| ==> 0 <= chain[k] < |ops| && ops[chain[k]].Exec?
  {
    if chain == [] then 0 else ChainLatency(ops, chain[..|chain| - 1]) + ops[chain[|chain| - 1]].cost.latency
  }

  /** Length of the longest chain ending at instruction `n`. */
  function Depth(ops: seq<Op>, n: int): int
    requires 0 <= n < |ops| && ops[n].Exec?
    decreases n, 1
  {
    ops[n].cost.latency + InputDepth(ops, n)
  }

  function InputDepth(ops: seq<Op>, n: int): int
    requires 0 <= n < |ops| && ops[n].Exec?
    decreases n, 0
  {
    var d1 := if ops[n].src1.Some? then RegisterDepth(ops, n, ops[n].src1.value) else 0;
    var d2 := if ops[n].src2.Some? then RegisterDepth(ops, n, ops[n].src2.value) else 0;
    if d1 >= d2 then d1 else d2
  }

  function RegisterDepth(ops: seq<Op>, n: int, r: int): int
    requires 0 <= n <= |ops|
    decreases n, -1
  {
    var w := LastWriter(ops, n, r);
    if w.Some? then Depth(ops, w.value) else 0
  }

  lemma {:induction false} DepthPositive(ops: seq<Op>, n: int)
    requires ValidOps(ops) && 0 <= n < |ops| && ops[n].Exec?
    ensures Depth(ops, n) >= ops[n].cost.latency >= 1
    decreases n, 1
  {
    assert ValidOp(ops[n]);
    if ops[n].src1.Some? { RegisterDepthNonNegative(ops, n, ops[n].src1.value); }
  }

  lemma {:induction false} RegisterDepthNonNegative(ops: seq<Op>, n: int, r: int)
    requires ValidOps(ops) && 0 <= n <= |ops|
    ensures RegisterDepth(ops, n, r) >= 0
    decreases n, 0
  {
    var w := LastWriter(ops, n, r);
    if w.Some? { DepthPositive(ops, w.value); }
  }

  /** No chain ending at `n` is longer than `Depth(ops, n)`. */
  lemma {:induction false} ChainWithinDepth(ops: seq<Op>, chain: seq<int>)
    requires ValidOps(ops) && IsChain(ops, chain) && chain != []
    ensures ChainLatency(ops, chain) <= Depth(ops, chain[|chain| - 1])
    decreases |chain|
  {
    var n := chain[|chain| - 1];
    var shorter := chain[..|chain| - 1];
    DepthPositive(ops, n);
    if shorter != [] {
      assert IsChain(ops, shorter);
      ChainWithinDepth(ops, shorter);
      var m := shorter[|shorter| - 1];
      assert m == chain[|chain| - 2];
      assert DependsOn(ops, n, m);
      InputAtLeast(ops, n, m);
    }
  }

  lemma {:induction false} InputAtLeast(ops: seq<Op>, n: int, m: int)
    requires ValidOps(ops) && DependsOn(ops, n, m)
    ensures InputDepth(ops, n) >= Depth(ops, m)
  {
  }

  /** The producer of the input that is ready last, if any input has one. */
  lemma {:induction false} DeepestInput(ops: seq<Op>, n: int) returns (m: Option<int>)
    requires ValidOps(ops) && 0 <= n < |ops| && ops[n].Exec?
    ensures m.None? ==> InputDepth(ops, n) == 0
    ensures m.Some? ==> 0 <= m.value < n && ops[m.value].Exec? && DependsOn(ops, n, m.value)
                        && Depth(ops, m.value) == InputDepth(ops, n)
  {
    hide LastWriter, Depth, ValidOps;
    var op := ops[n];
    var d1 := if op.src1.Some? then RegisterDepth(ops, n, op.src1.value) else 0;
    var d2 := if op.src2.Some? then RegisterDepth(ops, n, op.src2.value) else 0;
    var src := if d1 >= d2 then op.src1 else op.src2;
    m := if src.Some? then LastWriter(ops, n, src.value) else None;
  }

  lemma {:induction false} ChainExtended(ops: seq<Op>, rest: seq<int>, n: int)
    requires IsChain(ops, rest) && 0 <= n < |ops| && ops[n].Exec?
    requires rest != [] ==> DependsOn(ops, n, rest[|rest| - 1])
    ensures IsChain(ops, rest + [n]) && ChainLatency(ops, rest + [n]) == ChainLatency(ops, rest) + ops[n].cost.latency
  {
    hide DependsOn;
    var chain := rest + [n];
    assert chain[..|chain| - 1] == rest;
  }

  /** Some chain ending at `n` is exactly `Depth(ops, n)` long. */
  lemma {:induction false} DepthIsAttained(ops: seq<Op>, n: int) returns (chain: seq<int>)
    requires ValidOps(ops) && 0 <= n < |ops| && ops[n].Exec?
    ensures IsChain(ops, chain) && chain != [] && chain[|chain| - 1] == n
    ensures ChainLatency(ops, chain) == Depth(ops, n)
    decreases n
  {
    hide DependsOn, IsChain, ValidOps, InputDepth;
    var m := DeepestInput(ops, n);
    NoChain(ops);
    var rest := [];
    if m.Some? { rest := DepthIsAttained(ops, m.value); }
    ChainExtended(ops, rest, n);
    chain := rest + [n];
  }

  lemma {:induction false} NoChain(ops: seq<Op>)
    ensures IsChain(ops, [])
  {
  }

  // ---------- What holds between the pipeline and the dataflow ----------

  /** Slot `i` still waits for a slot whose value is ready no earlier than `base`. */
  ghost predicate WaitsFor(ops: seq<Op>, s: State, i: int, base: int)
    requires Shape(s) && IsSlot(i) && HoldsOps(ops, s)
  {
    exists j :: j in s.deps[i] && IsSlot(j) && Occupied(s, j) && Depth(ops, s.id[j]) >= base
  }

  /** Occupied slots hold instructions of the block. */
  ghost predicate HoldsOps(ops: seq<Op>, s: State)
    requires Shape(s)
  {
    s.instructions <= |ops| &&
    forall i :: IsSlot(i) && Occupied(s, i) ==> s.id[i] < s.instructions && ops[s.id[i]].Exec?
  }

  /** No slot is further than its inputs and the cycle count allow. */
  ghost predicate SlotOnTime(ops: seq<Op>, s: State, i: int)
    requires Shape(s) && IsSlot(i) && HoldsOps(ops, s) && Occupied(s, i)
  {
    var m := s.id[i];
    && ((s.phase[i] == DECODING || s.phase[i] == WAITING) ==> s.remaining[i] == ops[m].cost.latency)
    && (s.phase[i] == DECODING ==> s.cycles >= InputDepth(ops, m) || WaitsFor(ops, s, i, InputDepth(ops, m)))
    && (s.phase[i] == WAITING ==> s.cycles >= InputDepth(ops, m) + 1 || WaitsFor(ops, s, i, InputDepth(ops, m)))
    && (s.phase[i] == EXECUTING ==> s.cycles + s.remaining[i] >= Depth(ops, m) + 1)
    && (s.phase[i] == EXECUTED ==> s.cycles >= Depth(ops, m) + 2)
  }

  /** A renamed register names the producer of its value; any other register's value is ready. */
  ghost predicate RegisterOnTime(ops: seq<Op>, s: State, r: int)
    requires Shape(s) && s.instructions <= |ops| && IsReg(r) && -1 <= s.entry[r] < ROB
  {
    if s.entry[r] != -1 then LastWriter(ops, s.instructions, r) == Some(s.id[s.entry[r]])
    else RegisterDepth(ops, s.instructions, r) == 0 || s.cycles >= RegisterDepth(ops, s.instructions, r) + 1
  }

  ghost predicate InBuffer(s: State, m: int)
    requires Shape(s)
  {
    exists i :: IsSlot(i) && Occupied(s, i) && s.id[i] == m
  }

  /** Every instruction fed so far is still in the buffer, or its value has been ready for `since` cycles less one. */
  ghost predicate GoneOnTime(ops: seq<Op>, s: State, since: int)
    requires Shape(s) && s.instructions <= |ops|
  {
    forall m :: 0 <= m < s.instructions && ops[m].Exec? ==> InBuffer(s, m) || s.cycles >= Depth(ops, m) + since
  }

  ghost predicate SlotsOnTime(ops: seq<Op>, s: State)
    requires Shape(s) && HoldsOps(ops, s)
  {
    forall i :: IsSlot(i) && Occupied(s, i) ==> SlotOnTime(ops, s, i)
  }

  ghost predicate RegistersOnTime(ops: seq<Op>, s: State)
    requires Shape(s) && s.instructions <= |ops| && Renaming(s)
  {
    forall r :: IsReg(r) ==> RegisterOnTime(ops, s, r)
  }

  ghost predicate OnTime(ops: seq<Op>, s: State, since: int) {
    ValidOps(ops) && Inv(s) && HoldsOps(ops, s) && SlotsOnTime(ops, s) && RegistersOnTime(ops, s) &&
      GoneOnTime(ops, s, since)
  }

  // ---------- Issuing ----------

  lemma {:induction false} RetireOnTime(ops: seq<Op>, s: State)
    requires OnTime(ops, s, 3)
    ensures OnTime(ops, RetireFirst(s, RetireCount(s)), 2)
  {
    var t := RetireFirst(s, RetireCount(s));
    RetireKeeps(s);
    RetireSlotsOnTime(ops, s);
    RetireGoneOnTime(ops, s);
  }

  lemma {:induction false} RetireSlotsOnTime(ops: seq<Op>, s: State)
    requires Shape(s) && Window(s) && Dependencies(s) && HoldsOps(ops, s) && SlotsOnTime(ops, s)
    ensures var t := RetireFirst(s, RetireCount(s)); Shape(t) && HoldsOps(ops, t) && SlotsOnTime(ops, t)
  {
    var n := RetireCount(s);
    var t := RetireFirst(s, n);
    forall i | IsSlot(i)
      ensures Occupied(t, i) ==> Occupied(s, i) && t.phase[i] == s.phase[i]
      ensures Occupied(s, i) && Unfinished(s, i) ==> Occupied(t, i)
    {
      if Age(s.head, i) < n { RetiredHaveExecuted(s, i); }
    }
    forall i | IsSlot(i) && Occupied(t, i)
      ensures SlotOnTime(ops, t, i)
    {
      var base := InputDepth(ops, s.id[i]);
      assert SlotOnTime(ops, s, i);
      if WaitsFor(ops, s, i, base) {
        var j :| j in s.deps[i] && IsSlot(j) && Occupied(s, j) && Depth(ops, s.id[j]) >= base;
        assert Occupied(t, j);
        assert WaitsFor(ops, t, i, base);
      }
    }
  }

  lemma {:induction false} RetireGoneOnTime(ops: seq<Op>, s: State)
    requires Shape(s) && HoldsOps(ops, s) && SlotsOnTime(ops, s) && GoneOnTime(ops, s, 3)
    ensures var t := RetireFirst(s, RetireCount(s)); Shape(t) && GoneOnTime(ops, t, 2)
  {
    var t := RetireFirst(s, RetireCount(s));
    forall m | 0 <= m < s.instructions && ops[m].Exec?
      ensures InBuffer(t, m) || s.cycles >= Depth(ops, m) + 2
    {
      if InBuffer(s, m) {
        var i :| IsSlot(i) && Occupied(s, i) && s.id[i] == m;
        if Age(s.head, i) < RetireCount(s) {
          RetiredHaveExecuted(s, i);
          assert SlotOnTime(ops, s, i);
        } else {
          assert Occupied(t, i);
        }
      }
    }
  }

  lemma {:induction false} StartOnTime(ops: seq<Op>, s: State, i: int)
    requires OnTime(ops, s, 2) && IsSlot(i) && Startable(s, i)
    ensures OnTime(ops, StartSlot(s, i), 2)
  {
    var t := StartSlot(s, i);
    StartKeeps(s, i);
    assert forall j :: IsSlot(j) ==> Occupied(t, j) == Occupied(s, j);
    StartSlotsOnTime(ops, s, i);
    forall m | 0 <= m < s.instructions && ops[m].Exec?
      ensures InBuffer(t, m) || s.cycles >= Depth(ops, m) + 2
    {
      if InBuffer(s, m) {
        var j :| IsSlot(j) && Occupied(s, j) && s.id[j] == m;
        assert Occupied(t, j);
      }
    }
  }

  lemma {:induction false} StartSlotsOnTime(ops: seq<Op>, s: State, i: int)
    requires Shape(s) && HoldsOps(ops, s) && SlotsOnTime(ops, s) && IsSlot(i) && Startable(s, i)
    ensures var t := StartSlot(s, i); Shape(t) && HoldsOps(ops, t) && SlotsOnTime(ops, t)
  {
    var t := StartSlot(s, i);
    forall k | IsSlot(k) && Occupied(t, k)
      ensures SlotOnTime(ops, t, k)
    {
      assert Occupied(s, k) && SlotOnTime(ops, s, k);
      var base := InputDepth(ops, s.id[k]);
      if WaitsFor(ops, s, k, base) {
        var j :| j in s.deps[k] && IsSlot(j) && Occupied(s, j) && Depth(ops, s.id[j]) >= base;
        assert Occupied(t, j);
        assert WaitsFor(ops, t, k, base);
      }
    }
  }

  lemma {:induction false} StartsOnTime(ops: seq<Op>, s: State, attempts: nat)
    requires OnTime(ops, s, 2)
    ensures OnTime(ops, StartUpTo(s, attempts), 2)
    decreases attempts
  {
    hide Window, Phases, Dependencies, Renaming, Requirements, Conserved, InOrder, HoldsOps, SlotsOnTime,
        RegistersOnTime, GoneOnTime;
    var age := FirstStartable(s, 0);
    if attempts > 0 && age < ROB {
      StartOnTime(ops, s, SlotAt(s.head, age));
      StartsOnTime(ops, StartSlot(s, SlotAt(s.head, age)), attempts - 1);
    }
  }

  // ---------- Executing ----------

  /** Whatever finishes has its value ready. */
  lemma {:induction false} FinishedIsReady(ops: seq<Op>, s: State, k: nat, j: int)
    requires Shape(s) && Phases(s) && SafeSkip(s, k) && HoldsOps(ops, s) && SlotsOnTime(ops, s) && IsSlot(j) &&
             j in Finishing(s, k)
    ensures s.cycles + k >= Depth(ops, s.id[j]) + 1
  {
    assert Occupied(s, j) && SlotOnTime(ops, s, j);
  }

  lemma {:induction false} ExecuteSlotOnTime(ops: seq<Op>, s: State, k: nat, pending: bool, i: int)
    requires Shape(s) && Phases(s) && SafeSkip(s, k) && HoldsOps(ops, s) && SlotsOnTime(ops, s)
    requires pending || Settled(s)
    requires IsSlot(i) && Occupied(s, i)
    ensures var t := Settle(Execute(s, k), k, pending);
            Shape(t) && HoldsOps(ops, t) && Occupied(t, i) && SlotOnTime(ops, t, i)
  {
    var t := Settle(Execute(s, k), k, pending);
    assert forall j :: IsSlot(j) ==> Occupied(t, j) == Occupied(s, j);
    assert SlotOnTime(ops, s, i);
    var base := InputDepth(ops, s.id[i]);
    if WaitsFor(ops, s, i, base) {
      var j :| j in s.deps[i] && IsSlot(j) && Occupied(s, j) && Depth(ops, s.id[j]) >= base;
      if j in Finishing(s, k) {
        FinishedIsReady(ops, s, k, j);
      } else {
        assert j in t.deps[i] && Occupied(t, j);
        assert WaitsFor(ops, t, i, base);
      }
    }
  }

  lemma {:induction false} ExecuteRegisterOnTime(ops: seq<Op>, s: State, k: nat, r: int)
    requires Shape(s) && Phases(s) && SafeSkip(s, k) && HoldsOps(ops, s) && SlotsOnTime(ops, s) && Renaming(s)
    requires IsReg(r) && RegisterOnTime(ops, s, r)
    ensures var t := Execute(s, k); var e := t.entry[r];
            if e != -1 then e == s.entry[r]
            else RegisterDepth(ops, s.instructions, r) == 0 || s.cycles + k >= RegisterDepth(ops, s.instructions, r) + 1
  {
    var fin := Finishing(s, k);
    if r in Released(s, fin) {
      var i :| i in fin && 0 <= i < ROB && r in s.written[i];
      assert IsSlot(i) && s.entry[r] == i;
      FinishedIsReady(ops, s, k, i);
    }
  }

  lemma {:induction false} SettleOnTime(ops: seq<Op>, s: State, k: nat, pending: bool)
    requires OnTime(ops, s, 2) && SafeSkip(s, k) && (pending || Settled(s))
    ensures OnTime(ops, Settle(Execute(s, k), k, pending), 3)
  {
    var t := Settle(Execute(s, k), k, pending);
    ExecuteKeeps(s, k);
    SettleKeeps(Execute(s, k), k, pending);
    assert forall j :: IsSlot(j) ==> Occupied(t, j) == Occupied(s, j);
    forall i | IsSlot(i) && Occupied(t, i)
      ensures SlotOnTime(ops, t, i)
    {
      ExecuteSlotOnTime(ops, s, k, pending, i);
    }
    forall r | IsReg(r)
      ensures RegisterOnTime(ops, t, r)
    {
      ExecuteRegisterOnTime(ops, s, k, r);
    }
    SettleGoneOnTime(ops, s, k, pending);
  }

  lemma {:induction false} SettleGoneOnTime(ops: seq<Op>, s: State, k: nat, pending: bool)
    requires Shape(s) && s.instructions <= |ops| && GoneOnTime(ops, s, 2) && k >= 1
    ensures var t := Settle(Execute(s, k), k, pending); Shape(t) && GoneOnTime(ops, t, 3)
  {
    var t := Settle(Execute(s, k), k, pending);
    forall m | 0 <= m < s.instructions && ops[m].Exec?
      ensures InBuffer(t, m) || t.cycles >= Depth(ops, m) + 3
    {
      if InBuffer(s, m) {
        var i :| IsSlot(i) && Occupied(s, i) && s.id[i] == m;
        assert Occupied(t, i);
      }
    }
  }

  lemma {:induction false} TickOnTime(ops: seq<Op>, s: State, finished: bool, pending: bool, enabled: bool)
    requires OnTime(ops, s, 3) && (pending || Settled(s))
    ensures OnTime(ops, Tick(s, finished, pending, enabled), 3)
  {
    var retired := RetireFirst(s, RetireCount(s));
    RetireOnTime(ops, s);
    StartsOnTime(ops, retired, START_ATTEMPTS);
    var issued := Issue(s);
    var may := MayFastForward(s, finished, pending, enabled);
    ChargeIsSafe(issued, may);
    if !pending { IssueStaysSettled(s); }
    SettleOnTime(ops, issued, CyclesToCharge(issued, may), pending);
  }

  lemma {:induction false} IssueStaysSettled(s: State)
    requires Shape(s) && Settled(s)
    ensures Settled(Issue(s))
  {
    hide Issue;
    IssueKeepsDecoding(s);
  }

  // ---------- Feeding ----------

  lemma {:induction false} AllocateOnTime(ops: seq<Op>, s: State)
    requires OnTime(ops, s, 3) && s.instructions < |ops| && ops[s.instructions].Exec?
    requires s.inFlight < ROB && ops[s.instructions].cost.decodeSlots <= s.decodeSlots
    ensures OnTime(ops, Allocate(s, ops[s.instructions]), 3)
  {
    var op := ops[s.instructions];
    var t := Allocate(s, op);
    AllocateKeeps(s, op);
    AllocateSlotsOnTime(ops, s);
    forall r | IsReg(r)
      ensures RegisterOnTime(ops, t, r)
    {
      AllocateRegisterOnTime(ops, s, r);
    }
    AllocateGoneOnTime(ops, s);
  }

  lemma {:induction false} AllocateRegisterOnTime(ops: seq<Op>, s: State, r: int)
    requires Shape(s) && Window(s) && Renaming(s) && s.instructions < |ops| && ops[s.instructions].Exec? &&
             ValidOp(ops[s.instructions])
    requires s.inFlight < ROB && IsReg(r) && RegisterOnTime(ops, s, r)
    ensures var t := Allocate(s, ops[s.instructions]); Shape(t) && -1 <= t.entry[r] < ROB && RegisterOnTime(ops, t, r)
  {
    TailIsNotRenamed(s, r);
  }

  lemma {:induction false} TailIsNotRenamed(s: State, r: int)
    requires Shape(s) && Window(s) && Renaming(s) && s.inFlight < ROB && IsReg(r)
    ensures s.entry[r] != s.tail
  {
    TailIsFree(s);
  }

  /** The new slot waits for its inputs, or they are ready. */
  lemma {:induction false} NewSlotOnTime(ops: seq<Op>, s: State)
    requires ValidOps(ops) && Inv(s) && HoldsOps(ops, s) && RegistersOnTime(ops, s) && s.instructions < |ops| &&
             ops[s.instructions].Exec?
    requires s.inFlight < ROB && ops[s.instructions].cost.decodeSlots <= s.decodeSlots
    ensures var t := Allocate(s, ops[s.instructions]);
            Shape(t) && HoldsOps(ops, t) && Occupied(t, s.tail) && SlotOnTime(ops, t, s.tail)
  {
    var n := s.instructions;
    var op := ops[n];
    var t := Allocate(s, op);
    TailIsFree(s);
    assert ValidOp(op);
    var d1 := if op.src1.Some? then RegisterDepth(ops, n, op.src1.value) else 0;
    var d2 := if op.src2.Some? then RegisterDepth(ops, n, op.src2.value) else 0;
    var src := if d1 >= d2 then op.src1 else op.src2;
    if src.Some? {
      var r := src.value;
      assert RegisterOnTime(ops, s, r);
      if s.entry[r] != -1 {
        var j := s.entry[r];
        assert Unfinished(s, j) && Occupied(s, j) && j != s.tail;
        assert j in t.deps[s.tail] && Occupied(t, j);
        assert WaitsFor(ops, t, s.tail, InputDepth(ops, n));
      }
    }
  }

  lemma {:induction false} AllocateSlotsOnTime(ops: seq<Op>, s: State)
    requires OnTime(ops, s, 3) && s.instructions < |ops| && ops[s.instructions].Exec?
    requires s.inFlight < ROB && ops[s.instructions].cost.decodeSlots <= s.decodeSlots
    ensures var t := Allocate(s, ops[s.instructions]); Shape(t) && HoldsOps(ops, t) && SlotsOnTime(ops, t)
  {
    var t := Allocate(s, ops[s.instructions]);
    NewSlotOnTime(ops, s);
    TailIsFree(s);
    forall i | IsSlot(i) && Occupied(t, i)
      ensures SlotOnTime(ops, t, i)
    {
      if i != s.tail {
        OldSlotOnTime(ops, s, i);
      }
    }
  }

  lemma {:induction false} OldSlotOnTime(ops: seq<Op>, s: State, i: int)
    requires Shape(s) && Window(s) && HoldsOps(ops, s) && SlotsOnTime(ops, s) && s.instructions < |ops| &&
             ops[s.instructions].Exec?
    requires ValidOp(ops[s.instructions]) && s.inFlight < ROB && IsSlot(i) && i != s.tail && Occupied(s, i)
    ensures var t := Allocate(s, ops[s.instructions]);
            Shape(t) && HoldsOps(ops, t) && Occupied(t, i) && SlotOnTime(ops, t, i)
  {
    var t := Allocate(s, ops[s.instructions]);
    TailIsFree(s);
    assert SlotOnTime(ops, s, i);
    var base := InputDepth(ops, s.id[i]);
    if WaitsFor(ops, s, i, base) {
      var j :| j in s.deps[i] && IsSlot(j) && Occupied(s, j) && Depth(ops, s.id[j]) >= base;
      assert Occupied(t, j) && t.id[j] == s.id[j];
      assert WaitsFor(ops, t, i, base);
    }
  }

  lemma {:induction false} AllocateGoneOnTime(ops: seq<Op>, s: State)
    requires Shape(s) && Window(s) && s.instructions < |ops| && ops[s.instructions].Exec? &&
             ValidOp(ops[s.instructions])
    requires GoneOnTime(ops, s, 3) && s.inFlight < ROB
    ensures var t := Allocate(s, ops[s.instructions]); Shape(t) && GoneOnTime(ops, t, 3)
  {
    var t := Allocate(s, ops[s.instructions]);
    TailIsFree(s);
    assert Occupied(t, s.tail) && t.id[s.tail] == s.instructions;
    forall m | 0 <= m < s.instructions && ops[m].Exec?
      ensures InBuffer(t, m) || t.cycles >= Depth(ops, m) + 3
    {
      if InBuffer(s, m) {
        var i :| IsSlot(i) && Occupied(s, i) && s.id[i] == m;
        assert Occupied(t, i) && t.id[i] == m;
      }
    }
  }

  lemma {:induction false} RenameOnTime(ops: seq<Op>, s: State)
    requires OnTime(ops, s, 3) && s.instructions < |ops| && ops[s.instructions].Move? && s.decodeSlots >= 1
    ensures ValidOp(ops[s.instructions]) && OnTime(ops, Rename(s, ops[s.instructions]), 3)
  {
    var op := ops[s.instructions];
    var t := Rename(s, op);
    RenameKeeps(s, op);
    RenameSlotsOnTime(ops, s);
    RenameRegistersOnTime(ops, s);
    RenameGoneOnTime(ops, s);
  }

  lemma {:induction false} RenameRegistersOnTime(ops: seq<Op>, s: State)
    requires s.instructions < |ops| && ops[s.instructions].Move? && ValidOp(ops[s.instructions])
    requires Shape(s) && Renaming(s) && RegistersOnTime(ops, s)
    ensures var t := Rename(s, ops[s.instructions]); Shape(t) && Renaming(t) && RegistersOnTime(ops, t)
  {
    var op := ops[s.instructions];
    var t := Rename(s, op);
    RenameKeepsRenaming(s, op);
    forall r | IsReg(r)
      ensures RegisterOnTime(ops, t, r)
    {
      assert RegisterOnTime(ops, s, if r == op.to then op.from else r);
    }
  }

  lemma {:induction false} RenameSlotsOnTime(ops: seq<Op>, s: State)
    requires Shape(s) && Renaming(s) && HoldsOps(ops, s) && SlotsOnTime(ops, s)
    requires s.instructions < |ops| && ops[s.instructions].Move? && ValidOp(ops[s.instructions])
    ensures var t := Rename(s, ops[s.instructions]); Shape(t) && HoldsOps(ops, t) && SlotsOnTime(ops, t)
  {
    var t := Rename(s, ops[s.instructions]);
    assert forall j :: IsSlot(j) ==> Occupied(t, j) == Occupied(s, j);
    forall i | IsSlot(i) && Occupied(t, i)
      ensures SlotOnTime(ops, t, i)
    {
      assert SlotOnTime(ops, s, i);
      var base := InputDepth(ops, s.id[i]);
      if WaitsFor(ops, s, i, base) {
        var j :| j in s.deps[i] && IsSlot(j) && Occupied(s, j) && Depth(ops, s.id[j]) >= base;
        assert Occupied(t, j);
        assert WaitsFor(ops, t, i, base);
      }
    }
  }

  lemma {:induction false} RenameGoneOnTime(ops: seq<Op>, s: State)
    requires s.instructions < |ops| && ops[s.instructions].Move? && ValidOp(ops[s.instructions])
    requires Shape(s) && Renaming(s) && GoneOnTime(ops, s, 3)
    ensures var t := Rename(s, ops[s.instructions]); Shape(t) && GoneOnTime(ops, t, 3)
  {
    var t := Rename(s, ops[s.instructions]);
    forall m | 0 <= m < t.instructions && ops[m].Exec?
      ensures InBuffer(t, m) || t.cycles >= Depth(ops, m) + 3
    {
      if InBuffer(s, m) {
        var i :| IsSlot(i) && Occupied(s, i) && s.id[i] == m;
        assert Occupied(t, i);
      }
    }
  }

  // ---------- Whole blocks ----------

  lemma {:induction false} DrainOnTime(ops: seq<Op>, s: State, finished: bool, enabled: bool)
    requires OnTime(ops, s, 3) && Settled(s)
    ensures OnTime(ops, Drain(s, finished, enabled), 3)
    ensures Drain(s, finished, enabled).instructions == s.instructions
    decreases Work(s, ROB)
  {
    hide Tick, SlotsOnTime, RegistersOnTime, GoneOnTime, HoldsOps, Window, Dependencies, Renaming, Requirements,
        Conserved, InOrder, Work;
    if s.inFlight > Target(finished) {
      var t := Tick(s, finished, false, enabled);
      TickKeeps(s, finished, false, enabled);
      TickOnTime(ops, s, finished, false, enabled);
      TickSettles(s, finished, false, enabled);
      TickLowersWork(s, finished, false, enabled);
      WorkNonNegative(t, ROB);
      DrainOnTime(ops, t, finished, enabled);
    }
  }

  lemma {:induction false} TickLoopOnTime(ops: seq<Op>, s: State, finished: bool, enabled: bool)
    requires OnTime(ops, s, 3)
    ensures OnTime(ops, TickLoop(s, finished, enabled), 3)
    ensures TickLoop(s, finished, enabled).instructions == s.instructions
  {
    TickKeeps(s, finished, true, enabled);
    TickOnTime(ops, s, finished, true, enabled);
    TickSettles(s, finished, true, enabled);
    DrainOnTime(ops, Tick(s, finished, true, enabled), finished, enabled);
  }

  lemma {:induction false} PlaceOnTime(ops: seq<Op>, s: State)
    requires OnTime(ops, s, 3) && s.instructions < |ops| && HasRoom(s, ops[s.instructions])
    ensures OnTime(ops, Place(s, ops[s.instructions]), 3)
    ensures Place(s, ops[s.instructions]).instructions == s.instructions + 1
  {
    if ops[s.instructions].Exec? {
      AllocateOnTime(ops, s);
    } else {
      RenameOnTime(ops, s);
    }
  }

  lemma {:induction false} MakeRoomOnTime(ops: seq<Op>, s: State, decodeSlots: int, enabled: bool)
    requires OnTime(ops, s, 3) && decodeSlots <= MAX_DECODE_PER_CYCLE
    ensures OnTime(ops, MakeRoom(s, decodeSlots, enabled), 3)
    ensures MakeRoom(s, decodeSlots, enabled).instructions == s.instructions
  {
    hide TickLoop, OnTime, Inv;
    if s.decodeSlots < decodeSlots || s.inFlight == ROB {
      TickLoopOnTime(ops, s, false, enabled);
    }
  }

  lemma {:induction false} FeedOnTime(ops: seq<Op>, s: State, enabled: bool)
    requires OnTime(ops, s, 3) && s.instructions < |ops| && ValidOp(ops[s.instructions])
    ensures OnTime(ops, Feed(s, ops[s.instructions], enabled), 3)
    ensures Feed(s, ops[s.instructions], enabled).instructions == s.instructions + 1
  {
    var op := ops[s.instructions];
    MakeRoomOnTime(ops, s, DecodeSlotsOf(op), enabled);
    PlaceOnTime(ops, MakeRoom(s, DecodeSlotsOf(op), enabled));
  }

  /** The state after any prefix of the block is on time. */
  lemma {:induction false} FeedFirstOnTime(start: State, ops: seq<Op>, n: nat, enabled: bool)
    requires Cleared(start) && ValidOps(ops) && n <= |ops|
    ensures OnTime(ops, FeedFirst(start, ops, n, enabled), 3) && FeedFirst(start, ops, n, enabled).instructions == n
  {
    hide Feed, Inv, OnTime;
    if n == 0 {
      ClearedHolds(start);
      ClearedOnTime(ops, start);
    } else {
      FeedFirstOnTime(start, ops, n - 1, enabled);
      FeedOnTime(ops, FeedFirst(start, ops, n - 1, enabled), enabled);
    }
  }

  lemma {:induction false} ClearedOnTime(ops: seq<Op>, s: State)
    requires ValidOps(ops) && Inv(s) && Cleared(s)
    ensures OnTime(ops, s, 3)
  {
    assert forall i :: IsSlot(i) ==> !Occupied(s, i);
  }

  /** When a block is done, every instruction's value has been ready for two cycles. */
  lemma {:induction false} DoneAfterDepth(start: State, ops: seq<Op>, enabled: bool, m: int)
    requires Cleared(start) && ValidBlock(ops) && 0 <= m < |ops| && ops[m].Exec?
    ensures BlockState(start, ops, enabled).cycles >= Depth(ops, m) + 3
  {
    FeedFirstOnTime(start, ops, |ops|, enabled);
    TickLoopOnTime(ops, FeedFirst(start, ops, |ops|, enabled), true, enabled);
    EmptyIsDone(ops, BlockState(start, ops, enabled), m);
  }

  lemma {:induction false} EmptyIsDone(ops: seq<Op>, s: State, m: int)
    requires OnTime(ops, s, 3) && s.inFlight == 0 && 0 <= m < s.instructions && ops[m].Exec?
    ensures s.cycles >= Depth(ops, m) + 3
  {
    assert forall i :: IsSlot(i) ==> !Occupied(s, i);
    assert !InBuffer(s, m);
  }

  /** The cost of a block is at least the sum of latencies along any register-dependence chain,
      dependences carried through moves included. */
  lemma {:induction false} CostCoversEveryChain(start: State, ops: seq<Op>, enabled: bool, chain: seq<int>)
    requires Cleared(start) && ValidBlock(ops) && IsChain(ops, chain)
    ensures BlockCost(start, ops, enabled) >= ChainLatency(ops, chain)
  {
    hide BlockState, Depth;
    if chain != [] {
      ChainWithinDepth(ops, chain);
      DoneAfterDepth(start, ops, enabled, chain[|chain| - 1]);
    }
  }
}
