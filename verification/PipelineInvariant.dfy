/** What every step of the gas simulator keeps. */
module PipelineInvariant {
  import opened Resources
  import opened Pipeline

  predicate Occupied(s: State, i: int)
    requires Shape(s) && IsSlot(i)
  {
    s.phase[i] != FREE
  }

  /** The slot has cycles left to run, so others may still have to wait for it. */
  predicate Unfinished(s: State, i: int)
    requires Shape(s) && IsSlot(i)
  {
    s.phase[i] == DECODING || s.phase[i] == WAITING || (s.phase[i] == EXECUTING && s.remaining[i] > 0)
  }

  /** The occupied slots are exactly the `inFlight` slots from the head to the tail. */
  ghost predicate Window(s: State)
    requires Shape(s)
  {
    && 0 <= s.inFlight <= ROB
    && s.tail == SlotAt(s.head, s.inFlight)
    && (forall i :: IsSlot(i) ==> (Occupied(s, i) <==> Age(s.head, i) < s.inFlight))
  }

  ghost predicate Phases(s: State)
    requires Shape(s)
  {
    && 0 <= s.decodeSlots <= MAX_DECODE_PER_CYCLE
    && (forall i :: IsSlot(i) ==>
          && FREE <= s.phase[i] <= EXECUTED
          && (s.phase[i] == DECODING || s.phase[i] == WAITING ==> 1 <= s.remaining[i] <= 127)
          && (s.phase[i] == EXECUTING ==> 0 <= s.remaining[i] <= 127))
  }

  /** Dependency bits name only unfinished, strictly older slots, and only waiting slots have any. */
  ghost predicate Dependencies(s: State)
    requires Shape(s)
  {
    && (forall i, j :: IsSlot(i) && j in s.deps[i] ==>
          IsSlot(j) && Unfinished(s, j) && Age(s.head, j) < Age(s.head, i))
    && (forall i :: IsSlot(i) && s.phase[i] != DECODING && s.phase[i] != WAITING ==> s.deps[i] == {})
  }

  /** The two renaming tables are inverse to each other and name only unfinished slots. */
  ghost predicate Renaming(s: State)
    requires Shape(s)
  {
    && (forall r :: IsReg(r) ==> -1 <= s.entry[r] < ROB && (s.entry[r] != -1 ==> Unfinished(s, s.entry[r])))
    && (forall i, r :: IsSlot(i) ==> (r in s.written[i] <==> IsReg(r) && s.entry[r] == i))
  }

  ghost predicate Requirements(s: State)
    requires Shape(s)
  {
    forall i :: IsSlot(i) ==> WithinCapacity(s.required[i]) && (Unfinished(s, i) || s.required[i] == NONE)
  }

  /** Sum of the requirements of the executing slots below `n`. */
  function Held(phase: seq<int>, required: seq<Counts>, n: nat): Counts
    requires n <= |phase| == |required|
  {
    if n == 0 then NONE
    else Plus(Held(phase, required, n - 1), if phase[n - 1] == EXECUTING then required[n - 1] else NONE)
  }

  function HeldBy(s: State): Counts
    requires Shape(s)
  {
    Held(s.phase, s.required, ROB)
  }

  /** Free resources are full capacity minus what the executing slots hold. */
  predicate Conserved(s: State)
    requires Shape(s)
  {
    WithinCapacity(HeldBy(s)) && s.available == Available(Minus(CAPACITY, HeldBy(s)))
  }

  /** Older slots hold earlier instructions. */
  ghost predicate InOrder(s: State)
    requires Shape(s)
  {
    && (forall i :: IsSlot(i) && Occupied(s, i) ==> s.id[i] < s.instructions)
    && (forall i, j :: IsSlot(i) && IsSlot(j) && Occupied(s, i) && Occupied(s, j) && Age(s.head, i) < Age(s.head, j)
                       ==> s.id[i] < s.id[j])
  }

  ghost predicate Inv(s: State) {
    Shape(s) && Window(s) && Phases(s) && Dependencies(s) && Renaming(s) && Requirements(s) && Conserved(s) &&
      InOrder(s)
  }

  lemma {:induction false} InvShape(s: State)
    requires Inv(s)
    ensures Shape(s) && 0 <= s.inFlight <= ROB
  {
  }

  // ---------- Sums ----------

  lemma {:induction false} HeldSame(phase: seq<int>, required: seq<Counts>, phase': seq<int>, required': seq<Counts>,
      n: nat)
    requires n <= |phase| == |required| == |phase'| == |required'|
    requires forall i :: 0 <= i < n ==> (phase[i] == EXECUTING <==> phase'[i] == EXECUTING)
    requires forall i :: 0 <= i < n && phase[i] == EXECUTING ==> required[i] == required'[i]
    ensures Held(phase, required, n) == Held(phase', required', n)
  {
    if n > 0 {
      HeldSame(phase, required, phase', required', n - 1);
    }
  }

  /** Starting a slot adds its requirement to what is held. */
  lemma {:induction false} HeldAfterStart(phase: seq<int>, required: seq<Counts>, i: int, n: nat)
    requires n <= |phase| == |required| && 0 <= i < |phase| && phase[i] != EXECUTING
    ensures Held(phase[i := EXECUTING], required, n) ==
            (if i < n then Plus(Held(phase, required, n), required[i]) else Held(phase, required, n))
  {
    if n > 0 {
      HeldAfterStart(phase, required, i, n - 1);
      var lane := if phase[n - 1] == EXECUTING then required[n - 1] else NONE;
      if i < n - 1 {
        assert phase[i := EXECUTING][n - 1] == phase[n - 1];
        PlusSwaps(Held(phase, required, n - 1), required[i], lane);
      }
    }
  }

  lemma {:induction false} PlusSwaps(a: Counts, b: Counts, c: Counts)
    ensures Plus(Plus(a, b), c) == Plus(Plus(a, c), b)
  {
  }

  /** What finishing slots give back. */
  function Freed(s: State, fin: set<int>, n: nat): Counts
    requires Shape(s) && n <= ROB
  {
    if n == 0 then NONE else Plus(Freed(s, fin, n - 1), if n - 1 in fin then s.required[n - 1] else NONE)
  }

  lemma {:induction false} FreedIsPackedSum(s: State, fin: set<int>, n: nat)
    requires Shape(s) && n <= ROB
    ensures PackedSum(s.required, fin, n) == Pack(Freed(s, fin, n))
  {
    if n > 0 {
      FreedIsPackedSum(s, fin, n - 1);
    }
  }

  lemma {:induction false} HeldNonNegative(s: State, n: nat)
    requires Shape(s) && Requirements(s) && n <= ROB
    ensures Covers(Held(s.phase, s.required, n), NONE)
  {
    if n > 0 {
      HeldNonNegative(s, n - 1);
      assert IsSlot(n - 1);
    }
  }

  lemma {:induction false} FreedNonNegative(s: State, fin: set<int>, n: nat)
    requires Shape(s) && Requirements(s) && n <= ROB
    ensures Covers(Freed(s, fin, n), NONE)
  {
    if n > 0 {
      FreedNonNegative(s, fin, n - 1);
      assert IsSlot(n - 1);
    }
  }

  // ---------- Retiring ----------

  lemma {:induction false} RetireWithinWindow(s: State)
    requires Shape(s) && Window(s)
    ensures RetireCount(s) <= s.inFlight
  {
    if s.inFlight < ROB {
      var i := SlotAt(s.head, s.inFlight);
      assert IsSlot(i) && Age(s.head, i) == s.inFlight;
      assert !Occupied(s, i);
    }
  }

  /** Whatever retires has executed. */
  lemma {:induction false} RetiredHaveExecuted(s: State, i: int)
    requires Shape(s) && IsSlot(i) && Age(s.head, i) < RetireCount(s)
    ensures s.phase[i] == EXECUTED
  {
    assert SlotAt(s.head, Age(s.head, i)) == i;
  }

  lemma {:induction false} AgeAfterRetire(head: int, n: int, i: int)
    requires IsSlot(head) && IsSlot(i) && 0 <= n <= ROB
    ensures Age(SlotAt(head, n), i) == (if Age(head, i) >= n then Age(head, i) - n else Age(head, i) - n + ROB)
  {
  }

  lemma {:induction false} RetireKeeps(s: State)
    requires Inv(s)
    ensures Inv(RetireFirst(s, RetireCount(s)))
  {
    RetireKeepsWindow(s);
    RetireKeepsTables(s);
    var t := RetireFirst(s, RetireCount(s));
    forall i | IsSlot(i)
      ensures t.phase[i] == EXECUTING <==> s.phase[i] == EXECUTING
    {
      if Age(s.head, i) < RetireCount(s) { RetiredHaveExecuted(s, i); }
    }
    HeldSame(s.phase, s.required, t.phase, t.required, ROB);
  }

  lemma {:induction false} RetireKeepsWindow(s: State)
    requires Shape(s) && Window(s) && Phases(s) && InOrder(s)
    ensures var t := RetireFirst(s, RetireCount(s)); Shape(t) && Window(t) && Phases(t) && InOrder(t)
  {
    RetireWithinWindow(s);
    var n := RetireCount(s);
    forall i | IsSlot(i)
      ensures Age(SlotAt(s.head, n), i) ==
                (if Age(s.head, i) >= n then Age(s.head, i) - n else Age(s.head, i) - n + ROB)
    {
      AgeAfterRetire(s.head, n, i);
    }
  }

  lemma {:induction false} RetireKeepsTables(s: State)
    requires Shape(s) && Window(s) && Dependencies(s) && Renaming(s) && Requirements(s)
    ensures var t := RetireFirst(s, RetireCount(s)); Shape(t) && Dependencies(t) && Renaming(t) && Requirements(t)
  {
    var n := RetireCount(s);
    var t := RetireFirst(s, n);
    forall i | IsSlot(i)
      ensures Unfinished(t, i) == Unfinished(s, i)
      ensures Unfinished(s, i) ==> Age(s.head, i) >= n
      ensures s.phase[i] == DECODING || s.phase[i] == WAITING ==> t.phase[i] == s.phase[i]
      ensures Age(t.head, i) == (if Age(s.head, i) >= n then Age(s.head, i) - n else Age(s.head, i) - n + ROB)
    {
      AgeAfterRetire(s.head, n, i);
      if Age(s.head, i) < n { RetiredHaveExecuted(s, i); }
    }
  }

  // ---------- Starting ----------

  lemma {:induction false} StartKeeps(s: State, i: int)
    requires Inv(s) && IsSlot(i) && Startable(s, i)
    ensures Inv(StartSlot(s, i))
  {
    StartKeepsWindow(s, i);
    StartKeepsTables(s, i);
    StartConserves(s, i);
  }

  lemma {:induction false} StartKeepsWindow(s: State, i: int)
    requires Shape(s) && Window(s) && Phases(s) && InOrder(s) && IsSlot(i) && Startable(s, i)
    ensures var t := StartSlot(s, i); Shape(t) && Window(t) && Phases(t) && InOrder(t)
  {
    var t := StartSlot(s, i);
    assert forall j :: IsSlot(j) ==> Occupied(t, j) == Occupied(s, j);
  }

  lemma {:induction false} StartKeepsTables(s: State, i: int)
    requires Shape(s) && Phases(s) && Dependencies(s) && Renaming(s) && Requirements(s) && IsSlot(i) && Startable(s, i)
    ensures var t := StartSlot(s, i); Shape(t) && Dependencies(t) && Renaming(t) && Requirements(t)
  {
    var t := StartSlot(s, i);
    assert forall j :: IsSlot(j) ==> Unfinished(t, j) == Unfinished(s, j);
  }

  lemma {:induction false} StartConserves(s: State, i: int)
    requires Shape(s) && Requirements(s) && Conserved(s) && IsSlot(i) && Startable(s, i)
    ensures Shape(StartSlot(s, i)) && Conserved(StartSlot(s, i))
  {
    var free := Minus(CAPACITY, HeldBy(s));
    HeldNonNegative(s, ROB);
    GuardTestIsExact(free, s.required[i]);
    HeldAfterStart(s.phase, s.required, i, ROB);
  }

  lemma {:induction false} StartsKeep(s: State, attempts: nat)
    requires Inv(s)
    ensures Inv(StartUpTo(s, attempts))
    decreases attempts
  {
    hide Inv, StartSlot;
    InvShape(s);
    var age := FirstStartable(s, 0);
    if attempts > 0 && age < ROB {
      StartKeeps(s, SlotAt(s.head, age));
      StartsKeep(StartSlot(s, SlotAt(s.head, age)), attempts - 1);
    }
  }

  // ---------- Executing ----------

  /** No executing slot is driven past its last cycle. */
  ghost predicate SafeSkip(s: State, k: int)
    requires Shape(s)
  {
    k == 1 || (1 < k <= 127 && forall i :: IsSlot(i) && s.phase[i] == EXECUTING ==> k <= s.remaining[i])
  }

  lemma {:induction false} LeastRemainingIsLeast(s: State, n: nat)
    requires Shape(s) && Phases(s) && n <= ROB
    ensures 0 <= LeastRemaining(s, n) <= 255
    ensures forall i :: 0 <= i < n && s.phase[i] == EXECUTING ==> LeastRemaining(s, n) <= s.remaining[i]
  {
    if n > 0 {
      LeastRemainingIsLeast(s, n - 1);
      assert IsSlot(n - 1);
    }
  }

  lemma {:induction false} ChargeIsSafe(s: State, mayFastForward: bool)
    requires Shape(s) && Phases(s)
    ensures SafeSkip(s, CyclesToCharge(s, mayFastForward))
  {
    LeastRemainingIsLeast(s, ROB);
  }

  lemma {:induction false} ExecuteKeeps(s: State, k: int)
    requires Inv(s) && SafeSkip(s, k)
    ensures Inv(Execute(s, k))
  {
    ExecuteKeepsWindow(s, k);
    ExecuteKeepsRequirements(s, k);
    ExecuteKeepsTables(s, k);
    ExecuteConserves(s, k);
  }

  lemma {:induction false} ExecuteKeepsWindow(s: State, k: int)
    requires Shape(s) && Window(s) && Phases(s) && InOrder(s) && SafeSkip(s, k)
    ensures var t := Execute(s, k); Shape(t) && Window(t) && Phases(t) && InOrder(t)
  {
    var t := Execute(s, k);
    assert forall i :: IsSlot(i) ==> Occupied(t, i) == Occupied(s, i);
  }

  lemma {:induction false} ExecuteKeepsRequirements(s: State, k: int)
    requires Shape(s) && Phases(s) && Requirements(s) && SafeSkip(s, k)
    ensures var t := Execute(s, k); Shape(t) && Requirements(t)
  {
    var t := Execute(s, k);
    forall i | IsSlot(i)
      ensures WithinCapacity(t.required[i]) && (Unfinished(t, i) || t.required[i] == NONE)
    {
      StillUnfinished(s, k, i);
    }
  }

  /** A slot that was unfinished is unfinished still, unless it is one of those that just finished. */
  lemma {:induction false} StillUnfinished(s: State, k: int, i: int)
    requires Shape(s) && Phases(s) && SafeSkip(s, k) && IsSlot(i)
    ensures Unfinished(s, i) && i !in Finishing(s, k) <==> Unfinished(Execute(s, k), i)
  {
  }

  lemma {:induction false} ExecuteKeepsTables(s: State, k: int)
    requires Shape(s) && Phases(s) && Dependencies(s) && Renaming(s) && SafeSkip(s, k)
    ensures var t := Execute(s, k); Shape(t) && Dependencies(t) && Renaming(t)
  {
    var t := Execute(s, k);
    var fin := Finishing(s, k);
    forall i | IsSlot(i)
      ensures Unfinished(s, i) && i !in fin <==> Unfinished(t, i)
    {
      StillUnfinished(s, k, i);
    }
    forall r | IsReg(r)
      ensures r in Released(s, fin) <==> s.entry[r] in fin
    {
      if s.entry[r] in fin {
        assert r in s.written[s.entry[r]];
      }
    }
  }

  lemma {:induction false} HeldAfterExecute(s: State, k: int, n: nat)
    requires Shape(s) && Phases(s) && Requirements(s) && SafeSkip(s, k) && n <= ROB
    ensures var t := Execute(s, k);
            Shape(t) && Held(s.phase, s.required, n) == Plus(Held(t.phase, t.required, n), Freed(s, Finishing(s, k), n))
  {
    hide Execute, Phases, Requirements, SafeSkip;
    assert Shape(Execute(s, k)) by { ExecuteShape(s, k); }
    if n > 0 {
      HeldAfterExecute(s, k, n - 1);
      OneLaneAfterExecute(s, k, n - 1);
    }
  }

  lemma {:induction false} ExecuteShape(s: State, k: int)
    requires Shape(s)
    ensures Shape(Execute(s, k))
  {
  }

  lemma {:induction false} OneLaneAfterExecute(s: State, k: int, i: int)
    requires Shape(s) && Phases(s) && Requirements(s) && SafeSkip(s, k) && IsSlot(i)
    ensures var t := Execute(s, k);
            Shape(t) &&
            (if s.phase[i] == EXECUTING then s.required[i] else NONE) ==
            Plus(if t.phase[i] == EXECUTING then t.required[i] else NONE,
                 if i in Finishing(s, k) then s.required[i] else NONE)
  {
  }

  lemma {:induction false} ExecuteConserves(s: State, k: int)
    requires Shape(s) && Phases(s) && Requirements(s) && Conserved(s) && SafeSkip(s, k)
    ensures Shape(Execute(s, k)) && Conserved(Execute(s, k))
  {
    var t := Execute(s, k);
    var fin := Finishing(s, k);
    ExecuteKeepsRequirements(s, k);
    HeldAfterExecute(s, k, ROB);
    HeldNonNegative(t, ROB);
    FreedNonNegative(s, fin, ROB);
    FreedIsPackedSum(s, fin, ROB);
    GiveBack(HeldBy(s), HeldBy(t), Freed(s, fin, ROB));
  }

  /** The sixteen-bit sum of what is given back does not wrap around. */
  lemma {:induction false} GiveBack(held: Counts, held': Counts, freed: Counts)
    requires WithinCapacity(held) && Covers(held', NONE) && Covers(freed, NONE) && held == Plus(held', freed)
    ensures WithinCapacity(held')
    ensures Available(Minus(CAPACITY, held)) + Pack(freed) % WORD16 == Available(Minus(CAPACITY, held'))
  {
    assert 0 <= Pack(freed) < WORD16;
  }

  // ---------- A whole tick ----------

  lemma {:induction false} FinishDecodingKeeps(s: State)
    requires Inv(s)
    ensures Inv(FinishDecoding(s))
  {
    var t := FinishDecoding(s);
    HeldSame(s.phase, s.required, t.phase, t.required, ROB);
    assert forall i :: IsSlot(i) ==> Occupied(t, i) == Occupied(s, i) && Unfinished(t, i) == Unfinished(s, i);
    hide Occupied, Unfinished, WithinCapacity, Available, Held;
  }

  lemma {:induction false} IssueKeeps(s: State)
    requires Inv(s)
    ensures Inv(Issue(s))
  {
    RetireKeeps(s);
    StartsKeep(RetireFirst(s, RetireCount(s)), START_ATTEMPTS);
  }

  lemma {:induction false} CyclesDoNotMatter(s: State, k: int)
    requires Inv(s) && k >= 0
    ensures Inv(s.(cycles := s.cycles + k))
  {
    var t := s.(cycles := s.cycles + k);
    assert forall i :: IsSlot(i) ==> Occupied(t, i) == Occupied(s, i) && Unfinished(t, i) == Unfinished(s, i);
    hide Occupied, Unfinished, WithinCapacity, Available, Held;
  }

  /** Every tick keeps the invariant. */
  lemma {:induction false} TickKeeps(s: State, finished: bool, pending: bool, enabled: bool)
    requires Inv(s)
    ensures Inv(Tick(s, finished, pending, enabled))
  {
    IssueKeeps(s);
    var issued := Issue(s);
    var may := MayFastForward(s, finished, pending, enabled);
    var k := CyclesToCharge(issued, may);
    ChargeIsSafe(issued, may);
    ExecuteKeeps(issued, k);
    SettleKeeps(Execute(issued, k), k, pending);
  }

  lemma {:induction false} DecodingShape(s: State)
    requires Inv(s)
    ensures Shape(s) && Shape(FinishDecoding(s)) && FinishDecoding(s).cycles == s.cycles
  {
  }

  lemma {:induction false} SettleKeeps(s: State, k: nat, pending: bool)
    requires Inv(s)
    ensures Inv(Settle(s, k, pending))
  {
    hide Inv, FinishDecoding;
    DecodingShape(s);
    if pending {
      FinishDecodingKeeps(s);
      CyclesDoNotMatter(FinishDecoding(s), k);
    } else {
      CyclesDoNotMatter(s, k);
    }
  }

  // ---------- Dispatch ----------

  ghost predicate CanAllocate(s: State, op: Op) {
    Inv(s) && ValidOp(op) && op.Exec? && s.inFlight < ROB && op.cost.decodeSlots <= s.decodeSlots
  }

  lemma {:induction false} AllocateKeeps(s: State, op: Op)
    requires CanAllocate(s, op)
    ensures Inv(Allocate(s, op))
  {
    AllocateKeepsWindow(s, op);
    AllocateKeepsRequirements(s, op);
    AllocateKeepsDependencies(s, op);
    AllocateKeepsRenaming(s, op);
    AllocateConserves(s, op);
  }

  lemma {:induction false} TailIsFree(s: State)
    requires Shape(s) && Window(s) && s.inFlight < ROB
    ensures s.phase[s.tail] == FREE && !Unfinished(s, s.tail)
    ensures Age(s.head, s.tail) == s.inFlight
    ensures forall i :: IsSlot(i) && Age(s.head, i) == s.inFlight ==> i == s.tail
  {
    assert !Occupied(s, s.tail);
  }

  lemma {:induction false} TailIsClean(s: State)
    requires Shape(s) && Window(s) && Dependencies(s) && Renaming(s) && s.inFlight < ROB
    ensures s.deps[s.tail] == {} && s.written[s.tail] == {}
  {
    TailIsFree(s);
    forall r
      ensures r !in s.written[s.tail]
    {
      if IsReg(r) { assert s.entry[r] != s.tail; }
    }
  }

  lemma {:induction false} AllocateKeepsWindow(s: State, op: Op)
    requires Shape(s) && Window(s) && Phases(s) && InOrder(s) && ValidOp(op) && op.Exec?
    requires s.inFlight < ROB && op.cost.decodeSlots <= s.decodeSlots
    ensures var t := Allocate(s, op); Shape(t) && Window(t) && Phases(t) && InOrder(t)
  {
    TailIsFree(s);
    var t := Allocate(s, op);
    assert forall i :: IsSlot(i) ==> (Occupied(t, i) <==> Occupied(s, i) || i == s.tail);
  }

  lemma {:induction false} UnfinishedAfterAllocate(s: State, op: Op, i: int)
    requires Shape(s) && Window(s) && ValidOp(op) && op.Exec? && s.inFlight < ROB && IsSlot(i)
    ensures Unfinished(Allocate(s, op), i) <==> Unfinished(s, i) || i == s.tail
    ensures Unfinished(s, i) ==> Age(s.head, i) < s.inFlight
  {
    TailIsFree(s);
    assert Unfinished(s, i) ==> Occupied(s, i);
  }

  lemma {:induction false} AllocateKeepsRequirements(s: State, op: Op)
    requires Shape(s) && Window(s) && Requirements(s) && ValidOp(op) && op.Exec? && s.inFlight < ROB
    ensures var t := Allocate(s, op); Shape(t) && Requirements(t)
  {
    var t := Allocate(s, op);
    forall i | IsSlot(i)
      ensures WithinCapacity(t.required[i]) && (Unfinished(t, i) || t.required[i] == NONE)
    {
      UnfinishedAfterAllocate(s, op, i);
    }
  }

  lemma {:induction false} AllocateKeepsDependencies(s: State, op: Op)
    requires Shape(s) && Window(s) && Dependencies(s) && Renaming(s) && ValidOp(op) && op.Exec? && s.inFlight < ROB
    ensures var t := Allocate(s, op); Shape(t) && Dependencies(t)
  {
    TailIsFree(s);
    TailIsClean(s);
    var t := Allocate(s, op);
    forall i | IsSlot(i)
      ensures Unfinished(t, i) <==> Unfinished(s, i) || i == s.tail
      ensures Unfinished(s, i) ==> Age(s.head, i) < s.inFlight
    {
      UnfinishedAfterAllocate(s, op, i);
    }
  }

  lemma {:induction false} AllocateKeepsRenaming(s: State, op: Op)
    requires Shape(s) && Window(s) && Dependencies(s) && Renaming(s) && ValidOp(op) && op.Exec? && s.inFlight < ROB
    ensures var t := Allocate(s, op); Shape(t) && Renaming(t)
  {
    TailIsClean(s);
    var t := Allocate(s, op);
    forall i | IsSlot(i)
      ensures Unfinished(t, i) <==> Unfinished(s, i) || i == s.tail
    {
      UnfinishedAfterAllocate(s, op, i);
    }
  }

  lemma {:induction false} AllocateConserves(s: State, op: Op)
    requires Shape(s) && Window(s) && Conserved(s) && ValidOp(op) && op.Exec? && s.inFlight < ROB
    ensures Shape(Allocate(s, op)) && Conserved(Allocate(s, op))
  {
    TailIsFree(s);
    var t := Allocate(s, op);
    HeldSame(s.phase, s.required, t.phase, t.required, ROB);
  }

  lemma {:induction false} RenameKeeps(s: State, op: Op)
    requires Inv(s) && ValidOp(op) && op.Move? && s.decodeSlots >= 1
    ensures Inv(Rename(s, op))
  {
    var t := Rename(s, op);
    RenameKeepsRenaming(s, op);
    assert forall i :: IsSlot(i) ==> Occupied(t, i) == Occupied(s, i) && Unfinished(t, i) == Unfinished(s, i);
    hide Occupied, Unfinished, WithinCapacity, Available, Held, Renaming, ValidOp;
  }

  lemma {:induction false} RenameKeepsRenaming(s: State, op: Op)
    requires Shape(s) && Renaming(s) && ValidOp(op) && op.Move?
    ensures Shape(Rename(s, op)) && Renaming(Rename(s, op))
  {
    var t := Rename(s, op);
    assert forall i :: IsSlot(i) ==> Unfinished(t, i) == Unfinished(s, i);
  }

  lemma {:induction false} ClearedHolds(s: State)
    requires Cleared(s)
    ensures Inv(s)
  {
    ClearedConserved(s);
    ClearedTables(s);
    hide Window, Phases, Dependencies, Renaming, Requirements, Conserved, InOrder;
  }

  lemma {:induction false} ClearedConserved(s: State)
    requires Shape(s) && s.available == Available(CAPACITY) && forall i :: 0 <= i < ROB ==> s.phase[i] == FREE
    ensures Conserved(s)
  {
    NothingHeld(s.phase, s.required, ROB);
  }

  lemma {:induction false} ClearedTables(s: State)
    requires Cleared(s)
    ensures Window(s) && Phases(s) && Dependencies(s) && Renaming(s) && Requirements(s) && InOrder(s)
  {
    hide Available;
    assert forall i :: IsSlot(i) ==> !Occupied(s, i) && !Unfinished(s, i);
  }

  lemma {:induction false} NothingHeld(phase: seq<int>, required: seq<Counts>, n: nat)
    requires n <= |phase| == |required| && forall i :: 0 <= i < n ==> phase[i] != EXECUTING
    ensures Held(phase, required, n) == NONE
  {
    if n > 0 {
      NothingHeld(phase, required, n - 1);
    }
  }
}
