/** Draining the reorder buffer terminates: a measure over the slots falls, at every tick on a
    buffer that is not empty, by at least the cycles charged. */
module PipelineProgress {
  import opened Resources
  import opened Pipeline
  import opened PipelineInvariant

  /** An upper bound on the cycles a slot can still keep the buffer busy. */
  function Weight(s: State, i: int): int
    requires Shape(s) && IsSlot(i)
  {
    if s.phase[i] == DECODING then s.remaining[i] + 4
    else if s.phase[i] == WAITING then s.remaining[i] + 3
    else if s.phase[i] == EXECUTING then s.remaining[i] + 2
    else if s.phase[i] == EXECUTED then 1
    else 0
  }

  function Work(s: State, n: nat): int
    requires Shape(s) && n <= ROB
  {
    if n == 0 then 0 else Work(s, n - 1) + Weight(s, n - 1)
  }

  lemma {:induction false} WorkNonNegative(s: State, n: nat)
    requires Shape(s) && Phases(s) && n <= ROB
    ensures Work(s, n) >= 0
  {
    if n > 0 {
      WorkNonNegative(s, n - 1);
      assert IsSlot(n - 1);
    }
  }

  ghost predicate NoHeavier(s: State, t: State)
    requires Shape(s) && Shape(t)
  {
    forall i :: IsSlot(i) ==> Weight(t, i) <= Weight(s, i)
  }

  /** Lane by lane no heavier, and one lane lighter by `d`. */
  lemma {:induction false} WorkDrops(s: State, t: State, n: nat, i: int, d: int)
    requires Shape(s) && Shape(t) && n <= ROB && IsSlot(i)
    requires NoHeavier(s, t) && Weight(t, i) + d <= Weight(s, i)
    ensures Work(t, n) + (if i < n then d else 0) <= Work(s, n)
  {
    if n > 0 {
      WorkDrops(s, t, n - 1, i, d);
      assert IsSlot(n - 1);
    }
  }

  // ---------- Each step of a tick ----------

  lemma {:induction false} RetireWeight(s: State)
    requires Shape(s) && Phases(s)
    ensures NoHeavier(s, RetireFirst(s, RetireCount(s)))
    ensures RetireCount(s) > 0 ==> Weight(RetireFirst(s, RetireCount(s)), s.head) + 1 <= Weight(s, s.head)
  {
    var n := RetireCount(s);
    forall i | IsSlot(i) && Age(s.head, i) < n
      ensures s.phase[i] == EXECUTED
    {
      RetiredHaveExecuted(s, i);
    }
  }

  lemma {:induction false} StartsWeight(s: State, attempts: nat)
    requires Shape(s)
    ensures NoHeavier(s, StartUpTo(s, attempts))
    ensures forall i :: IsSlot(i) && s.phase[i] != WAITING ==> StartUpTo(s, attempts).phase[i] == s.phase[i]
    ensures forall i :: IsSlot(i) ==> StartUpTo(s, attempts).remaining[i] == s.remaining[i]
    decreases attempts
  {
    var age := FirstStartable(s, 0);
    if attempts > 0 && age < ROB {
      StartsWeight(StartSlot(s, SlotAt(s.head, age)), attempts - 1);
    }
  }

  lemma {:induction false} ExecuteWeight(s: State, k: int)
    requires Shape(s) && Phases(s) && SafeSkip(s, k)
    ensures NoHeavier(s, Execute(s, k))
    ensures forall i :: IsSlot(i) && s.phase[i] == EXECUTING ==> Weight(Execute(s, k), i) + k <= Weight(s, i)
  {
  }

  lemma {:induction false} SettleWeight(s: State, k: nat, pending: bool)
    requires Shape(s) && Phases(s)
    ensures Shape(Settle(s, k, pending)) && NoHeavier(s, Settle(s, k, pending))
    ensures forall i :: IsSlot(i) && pending && s.phase[i] == DECODING ==>
            Weight(Settle(s, k, pending), i) + 1 <= Weight(s, i)
  {
  }

  // ---------- Some slot makes progress ----------

  /** A tick that has something to move on: decoded instructions are dealt with by the pending tick. */
  ghost predicate Settled(s: State)
    requires Shape(s)
  {
    s.decodeSlots == MAX_DECODE_PER_CYCLE && forall i :: IsSlot(i) ==> s.phase[i] != DECODING
  }

  ghost predicate SomeExecuting(s: State)
    requires Shape(s)
  {
    exists i :: IsSlot(i) && s.phase[i] == EXECUTING
  }

  lemma {:induction false} OldestWaitsForNobody(s: State)
    requires Shape(s) && Dependencies(s)
    ensures s.deps[s.head] == {}
  {
    forall j
      ensures j !in s.deps[s.head]
    {
      if IsSlot(j) { assert Age(s.head, j) >= 0 == Age(s.head, s.head); }
    }
  }

  /** With nothing executing, the oldest slot, if waiting, can start. */
  lemma {:induction false} OldestCanStart(s: State)
    requires Shape(s) && Dependencies(s) && Requirements(s) && Conserved(s)
    requires s.phase[s.head] == WAITING && !SomeExecuting(s)
    ensures Startable(s, s.head)
  {
    NothingHeld(s.phase, s.required, ROB);
    assert WithinCapacity(s.required[s.head]);
    GuardTestIsExact(CAPACITY, s.required[s.head]);
    OldestWaitsForNobody(s);
  }

  lemma {:induction false} OldestStartsFirst(s: State, attempts: nat)
    requires Shape(s) && attempts > 0 && Startable(s, s.head)
    ensures StartUpTo(s, attempts) == StartUpTo(StartSlot(s, s.head), attempts - 1)
  {
    assert SlotAt(s.head, 0) == s.head;
    assert FirstStartable(s, 0) == 0;
  }

  /** Once something runs, it runs to the end of the start loop. */
  lemma {:induction false} StaysRunning(s: State, attempts: nat, i: int)
    requires Shape(s) && IsSlot(i) && s.phase[i] == EXECUTING
    ensures SomeExecuting(StartUpTo(s, attempts))
  {
    StartsWeight(s, attempts);
    assert StartUpTo(s, attempts).phase[i] == EXECUTING;
  }

  /** If something runs or the oldest slot can start, then after the start loop something runs. */
  lemma {:induction false} SomethingRuns(s: State, attempts: nat)
    requires Shape(s) && attempts > 0 && (SomeExecuting(s) || Startable(s, s.head))
    ensures SomeExecuting(StartUpTo(s, attempts))
  {
    if SomeExecuting(s) {
      var i :| IsSlot(i) && s.phase[i] == EXECUTING;
      StaysRunning(s, attempts, i);
    } else {
      OldestStartsFirst(s, attempts);
      StaysRunning(StartSlot(s, s.head), attempts - 1, s.head);
    }
  }

  lemma {:induction false} LeastRemainingIsReal(s: State, n: nat)
    requires Shape(s) && n <= ROB && LeastRemaining(s, n) < 255
    ensures SomeExecuting(s)
  {
    if n > 0 && s.phase[n - 1] == EXECUTING {
      assert IsSlot(n - 1);
    } else if n > 0 {
      LeastRemainingIsReal(s, n - 1);
    }
  }

  /** Every tick on a non-empty buffer lowers the work left by at least the cycles it charges. */
  lemma {:induction false} TickLowersWork(s: State, finished: bool, pending: bool, enabled: bool)
    requires Inv(s) && s.inFlight > 0 && (pending || Settled(s))
    ensures var t := Tick(s, finished, pending, enabled);
            Work(t, ROB) + (t.cycles - s.cycles) <= Work(s, ROB) && t.cycles > s.cycles
  {
    var may := MayFastForward(s, finished, pending, enabled);
    var issued := Issue(s);
    var k := CyclesToCharge(issued, may);
    var t := Tick(s, finished, pending, enabled);
    IssueKeeps(s);
    ChargeIsSafe(issued, may);
    TickNoHeavier(s, k, pending);
    if SomeExecuting(issued) {
      var i :| IsSlot(i) && issued.phase[i] == EXECUTING;
      ExecutingProgress(s, k, pending, i);
      WorkDrops(s, t, ROB, i, k);
    } else {
      if k > 1 { LeastRemainingIsReal(issued, ROB); }
      HeadProgress(s, k, pending);
      WorkDrops(s, t, ROB, s.head, 1);
    }
    CyclesOfIssue(s);
  }

  lemma {:induction false} CyclesOfIssue(s: State)
    requires Shape(s)
    ensures Issue(s).cycles == s.cycles
  {
    CyclesOfStarts(RetireFirst(s, RetireCount(s)), START_ATTEMPTS);
  }

  lemma {:induction false} CyclesOfStarts(s: State, attempts: nat)
    requires Shape(s)
    ensures StartUpTo(s, attempts).cycles == s.cycles
    decreases attempts
  {
    var age := FirstStartable(s, 0);
    if attempts > 0 && age < ROB {
      CyclesOfStarts(StartSlot(s, SlotAt(s.head, age)), attempts - 1);
    }
  }

  lemma {:induction false} IssueNoHeavier(s: State)
    requires Inv(s)
    ensures NoHeavier(s, Issue(s))
    ensures RetireCount(s) > 0 ==> Weight(Issue(s), s.head) + 1 <= Weight(s, s.head)
  {
    RetireWeight(s);
    StartsWeight(RetireFirst(s, RetireCount(s)), START_ATTEMPTS);
  }

  lemma {:induction false} TickNoHeavier(s: State, k: nat, pending: bool)
    requires Inv(s) && Inv(Issue(s)) && SafeSkip(Issue(s), k)
    ensures NoHeavier(s, Settle(Execute(Issue(s), k), k, pending))
  {
    IssueNoHeavier(s);
    ExecuteWeight(Issue(s), k);
    ExecuteKeeps(Issue(s), k);
    SettleWeight(Execute(Issue(s), k), k, pending);
  }

  lemma {:induction false} ExecutingProgress(s: State, k: nat, pending: bool, i: int)
    requires Inv(s) && Inv(Issue(s)) && SafeSkip(Issue(s), k) && IsSlot(i) && Issue(s).phase[i] == EXECUTING
    ensures Weight(Settle(Execute(Issue(s), k), k, pending), i) + k <= Weight(s, i)
  {
    IssueNoHeavier(s);
    ExecuteWeight(Issue(s), k);
    ExecuteKeeps(Issue(s), k);
    SettleWeight(Execute(Issue(s), k), k, pending);
  }

  /** With nothing executing after the start loop, the oldest slot was retired or was still decoding. */
  lemma {:induction false} HeadProgress(s: State, k: nat, pending: bool)
    requires Inv(s) && Inv(Issue(s)) && SafeSkip(Issue(s), k) && s.inFlight > 0 && !SomeExecuting(Issue(s))
    requires pending || Settled(s)
    ensures Weight(Settle(Execute(Issue(s), k), k, pending), s.head) + 1 <= Weight(s, s.head)
  {
    var issued := Issue(s);
    IssueNoHeavier(s);
    ExecuteWeight(issued, k);
    ExecuteKeeps(issued, k);
    SettleWeight(Execute(issued, k), k, pending);
    if RetireCount(s) == 0 {
      RetireNothing(s);
      assert Age(s.head, s.head) == 0 && Occupied(s, s.head);
      StartsWeight(s, START_ATTEMPTS);
      if s.phase[s.head] == WAITING {
        if !SomeExecuting(s) { OldestCanStart(s); }
        SomethingRuns(s, START_ATTEMPTS);
      }
      assert SlotAt(s.head, 0) == s.head;
      assert s.phase[s.head] == DECODING;
    }
  }

  lemma {:induction false} RetireNothing(s: State)
    requires Shape(s)
    ensures RetireFirst(s, 0) == s
  {
    assert RetireFirst(s, 0).phase == s.phase;
  }
}
