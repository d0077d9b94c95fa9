/** When a tick that skips several cycles is the same as that many ticks of one cycle. */
module PipelineFastForward {
  import opened Resources
  import opened Pipeline
  import opened PipelineInvariant
  import opened PipelineProgress

  /** `k` ticks of one cycle each. */
  function SlowTicks(s: State, finished: bool, k: nat): (r: State)
    requires Shape(s)
    ensures Shape(r)
  {
    if k == 0 then s else Tick(SlowTicks(s, finished, k - 1), finished, false, false)
  }

  /** The start loop left nothing behind that could have started. */
  ghost predicate NoneStartable(s: State)
    requires Shape(s)
  {
    forall i :: IsSlot(i) ==> !Startable(s, i)
  }

  /** Every executing slot has run for `j` cycles, and nothing else has changed. */
  function Delayed(s: State, j: nat): (r: State)
    requires Shape(s)
    ensures Shape(r)
  {
    s.(remaining := seq(ROB, i requires 0 <= i < ROB =>
      if s.phase[i] == EXECUTING then s.remaining[i] - j else s.remaining[i]),
       cycles := s.cycles + j)
  }

  /** Every executing slot has more than `j` cycles left. */
  ghost predicate AllRunLonger(s: State, j: int)
    requires Shape(s)
  {
    forall i :: IsSlot(i) && s.phase[i] == EXECUTING ==> j < s.remaining[i] <= 127
  }

  lemma {:induction false} EmptySum(v: seq<Counts>, n: nat)
    requires n <= |v|
    ensures PackedSum(v, {}, n) == 0
  {
    if n > 0 { EmptySum(v, n - 1); }
  }

  /** As long as nothing finishes, running for `j` cycles only counts down. */
  lemma {:induction false} ExecuteOnlyCountsDown(s: State, j: nat)
    requires Shape(s) && AllRunLonger(s, j)
    ensures Finishing(s, j) == {} && Execute(s, j).(cycles := s.cycles + j) == Delayed(s, j)
  {
    var fin := Finishing(s, j);
    assert fin == {};
    EmptySum(s.required, ROB);
    assert Released(s, fin) == {};
    var t := Execute(s, j);
    assert t.remaining == Delayed(s, j).remaining;
    assert forall i :: IsSlot(i) ==> t.deps[i] == s.deps[i];
    assert t.deps == s.deps;
    assert t.written == s.written;
    assert t.entry == s.entry;
    assert t.required == s.required;
    assert t.phase == s.phase;
  }

  /** Counting down and then running one more cycle is running that much longer at once. */
  lemma {:induction false} RunsAddUp(s: State, j: nat)
    requires Shape(s) && AllRunLonger(s, j)
    ensures Execute(Delayed(s, j), 1).(cycles := s.cycles + j + 1) == Execute(s, j + 1).(cycles := s.cycles + j + 1)
  {
    var d := Delayed(s, j);
    assert Finishing(d, 1) == Finishing(s, j + 1);
    var fin := Finishing(d, 1);
    assert Released(d, fin) == Released(s, fin);
    var t := Execute(d, 1);
    var u := Execute(s, j + 1);
    assert t.remaining == u.remaining;
    assert t.deps == u.deps;
    assert t.written == u.written;
    assert t.entry == u.entry;
    assert t.required == u.required;
    assert t.phase == u.phase;
  }

  // ---------- A state on which issuing does nothing ----------

  ghost predicate OldestNotExecuted(s: State)
    requires Shape(s)
  {
    s.phase[s.head] != EXECUTED
  }

  lemma {:induction false} NothingStarts(s: State, attempts: nat)
    requires Shape(s) && NoneStartable(s)
    ensures StartUpTo(s, attempts) == s
  {
    assert FirstStartable(s, 0) == ROB;
  }

  lemma {:induction false} NothingRetires(s: State)
    requires Shape(s) && OldestNotExecuted(s)
    ensures RetireCount(s) == 0 && RetireFirst(s, RetireCount(s)) == s
  {
    assert SlotAt(s.head, 0) == s.head;
    RetireNothing(s);
  }

  lemma {:induction false} DelayedIssuesTheSame(s: State, j: nat)
    requires Shape(s) && OldestNotExecuted(s)
    ensures RetireCount(Delayed(s, j)) == 0
    ensures Issue(Delayed(s, j)) == StartUpTo(Delayed(s, j), START_ATTEMPTS)
  {
    NothingRetires(Delayed(s, j));
  }

  lemma {:induction false} DelayedHasNoneStartable(s: State, j: nat)
    requires Shape(s) && NoneStartable(s)
    ensures NoneStartable(Delayed(s, j))
  {
    forall i | IsSlot(i)
      ensures !Startable(Delayed(s, j), i)
    {
      assert !Startable(s, i);
    }
  }

  /** One more slow tick on a state that only counts down. */
  lemma {:induction false} SlowTickOnDelayed(s: State, finished: bool, j: nat)
    requires Shape(s) && AllRunLonger(s, j) && OldestNotExecuted(s) && NoneStartable(s)
    ensures Tick(Delayed(s, j), finished, false, false) == Execute(s, j + 1).(cycles := s.cycles + j + 1)
  {
    DelayedIssuesTheSame(s, j);
    DelayedHasNoneStartable(s, j);
    NothingStarts(Delayed(s, j), START_ATTEMPTS);
    RunsAddUp(s, j);
    hide Execute, Delayed, StartUpTo, NoneStartable;
  }

  lemma {:induction false} StartsKeepHeadPhase(s: State, attempts: nat)
    requires Shape(s) && OldestNotExecuted(s)
    ensures StartUpTo(s, attempts).head == s.head && OldestNotExecuted(StartUpTo(s, attempts))
    decreases attempts
  {
    var age := FirstStartable(s, 0);
    if attempts > 0 && age < ROB {
      StartsKeepHeadPhase(StartSlot(s, SlotAt(s.head, age)), attempts - 1);
    }
  }

  /** After issuing, the oldest slot is not one that should have retired. */
  lemma {:induction false} IssueLeavesOldest(s: State)
    requires Shape(s)
    ensures OldestNotExecuted(Issue(s))
  {
    var n := RetireCount(s);
    var t := RetireFirst(s, n);
    assert t.head == SlotAt(s.head, n);
    if n == ROB {
      assert Age(s.head, t.head) < n;
    } else {
      assert Age(s.head, t.head) == n;
    }
    StartsKeepHeadPhase(t, START_ATTEMPTS);
  }

  // ---------- Exactness ----------

  /** The state after `j` slow ticks, as long as nothing finishes and nothing more can start. */
  lemma {:induction false} SlowTicksCountDown(s: State, finished: bool, j: nat)
    requires Shape(s) && j >= 1 && AllRunLonger(Issue(s), j - 1) && NoneStartable(Issue(s))
    ensures SlowTicks(s, finished, j) == Execute(Issue(s), j).(cycles := s.cycles + j)
  {
    hide AllRunLonger, NoneStartable, Issue, Execute, Tick, Delayed;
    var issued := Issue(s);
    IssueCycles(s);
    if j == 1 {
      OneSlowTick(s, finished);
      assert SlowTicks(s, finished, 0) == s;
    } else {
      RunLongerMonotone(issued, j - 1, j - 2);
      SlowTicksCountDown(s, finished, j - 1);
      ExecuteOnlyCountsDown(issued, j - 1);
      IssueLeavesOldest(s);
      SlowTickOnDelayed(issued, finished, j - 1);
    }
  }

  lemma {:induction false} IssueCycles(s: State)
    requires Shape(s)
    ensures Issue(s).cycles == s.cycles
  {
    CyclesOfIssue(s);
  }

  lemma {:induction false} OneSlowTick(s: State, finished: bool)
    requires Shape(s)
    ensures Tick(s, finished, false, false) == Execute(Issue(s), 1).(cycles := s.cycles + 1)
  {
    CyclesOfIssue(s);
    hide Execute, Issue;
  }

  lemma {:induction false} RunLongerMonotone(s: State, j: int, i: int)
    requires Shape(s) && AllRunLonger(s, j) && i <= j
    ensures AllRunLonger(s, i)
  {
  }

  /** How many cycles a fast tick stands for. */
  function Skipped(s: State, finished: bool): int
    requires Shape(s)
  {
    CyclesToCharge(Issue(s), MayFastForward(s, finished, false, true))
  }

  lemma {:induction false} FastTickIs(s: State, finished: bool)
    requires Shape(s)
    ensures Tick(s, finished, false, true) ==
              Execute(Issue(s), Skipped(s, finished)).(cycles := s.cycles + Skipped(s, finished))
  {
    CyclesOfIssue(s);
    hide Execute, Issue, CyclesToCharge;
  }

  /** A tick that skips `k` cycles is exactly `k` ticks of one cycle if the start loop,
      which gives up after five instructions, left nothing that could have started. */
  lemma {:induction false} FastForwardIsExact(s: State, finished: bool)
    requires Inv(s)
    requires Skipped(s, finished) == 1 || NoneStartable(Issue(s))
    ensures Tick(s, finished, false, true) == SlowTicks(s, finished, Skipped(s, finished))
  {
    var k := Skipped(s, finished);
    FastTickIs(s, finished);
    if k == 1 {
      OneSlowTick(s, finished);
      assert SlowTicks(s, finished, 1) == Tick(SlowTicks(s, finished, 0), finished, false, false);
    } else {
      SkipRunsLonger(s, finished);
      SlowTicksCountDown(s, finished, k);
    }
  }

  lemma {:induction false} SkipRunsLonger(s: State, finished: bool)
    requires Inv(s)
    ensures Skipped(s, finished) >= 1
    ensures Skipped(s, finished) > 1 ==> AllRunLonger(Issue(s), Skipped(s, finished) - 1)
  {
    IssueKeeps(s);
    ChargeIsSafe(Issue(s), MayFastForward(s, finished, false, true));
  }

  // ---------- Only then ----------

  /** Ticking never makes a slot wait. */
  lemma {:induction false} NeverWaitsAgain(s: State, finished: bool, i: int)
    requires Shape(s) && IsSlot(i) && s.phase[i] != WAITING
    ensures Tick(s, finished, false, false).phase[i] != WAITING
  {
    var retired := RetireFirst(s, RetireCount(s));
    StartsWeight(retired, START_ATTEMPTS);
    hide StartUpTo, PackedSum;
  }

  lemma {:induction false} NeverWaitsAfter(s: State, finished: bool, k: nat, i: int)
    requires Shape(s) && IsSlot(i) && s.phase[i] != WAITING
    ensures SlowTicks(s, finished, k).phase[i] != WAITING
  {
    hide Tick;
    if k > 0 {
      NeverWaitsAfter(s, finished, k - 1, i);
      NeverWaitsAgain(SlowTicks(s, finished, k - 1), finished, i);
    }
  }

  lemma {:induction false} SlowTicksCompose(s: State, finished: bool, j: nat, k: nat)
    requires Shape(s)
    ensures SlowTicks(SlowTicks(s, finished, j), finished, k) == SlowTicks(s, finished, j + k)
  {
    hide Tick;
    if k > 0 { SlowTicksCompose(s, finished, j, k - 1); }
  }

  /** If the start loop left a slot that could have started, the second slow tick starts one. */
  lemma {:induction false} LeftoverStarts(s: State, finished: bool) returns (i: int)
    requires Shape(s) && AllRunLonger(Issue(s), 1) && !NoneStartable(Issue(s))
    ensures IsSlot(i) && Issue(s).phase[i] == WAITING && SlowTicks(s, finished, 2).phase[i] != WAITING
  {
    var issued := Issue(s);
    var d := Delayed(issued, 1);
    IssueCycles(s);
    OneSlowTick(s, finished);
    ExecuteOnlyCountsDown(issued, 1);
    assert SlowTicks(s, finished, 1) == d by {
      assert SlowTicks(s, finished, 0) == s;
      hide Tick, Execute, Issue, Delayed;
    }
    IssueLeavesOldest(s);
    i := FirstStarts(issued);
    TickKeepsStarted(d, finished, i);
    assert SlowTicks(s, finished, 2) == Tick(SlowTicks(s, finished, 1), finished, false, false);
  }

  lemma {:induction false} FirstStarts(s: State) returns (i: int)
    requires Shape(s) && OldestNotExecuted(s) && !NoneStartable(s)
    ensures IsSlot(i) && s.phase[i] == WAITING && Issue(Delayed(s, 1)).phase[i] == EXECUTING
  {
    var d := Delayed(s, 1);
    DelayedIssuesTheSame(s, 1);
    var j :| IsSlot(j) && Startable(s, j);
    assert Startable(d, j);
    assert SlotAt(d.head, Age(d.head, j)) == j;
    var age := FirstStartable(d, 0);
    i := SlotAt(d.head, age);
    StartsWeight(StartSlot(d, i), START_ATTEMPTS - 1);
    assert StartUpTo(d, START_ATTEMPTS) == StartUpTo(StartSlot(d, i), START_ATTEMPTS - 1);
  }

  lemma {:induction false} TickKeepsStarted(s: State, finished: bool, i: int)
    requires Shape(s) && IsSlot(i) && Issue(s).phase[i] == EXECUTING
    ensures Tick(s, finished, false, false).phase[i] != WAITING
  {
    hide Issue, PackedSum;
  }

  lemma {:induction false} FastTickKeepsWaiting(s: State, finished: bool, i: int)
    requires Shape(s) && IsSlot(i) && Issue(s).phase[i] == WAITING
    ensures Tick(s, finished, false, true).phase[i] == WAITING
  {
    hide Issue, PackedSum;
  }

  /** If something was left that could have started, several slow ticks end up elsewhere. */
  lemma {:induction false} LeftoverMakesADifference(s: State, finished: bool)
    requires Shape(s) && Skipped(s, finished) > 1 && AllRunLonger(Issue(s), Skipped(s, finished) - 1) &&
             !NoneStartable(Issue(s))
    ensures Tick(s, finished, false, true) != SlowTicks(s, finished, Skipped(s, finished))
  {
    hide Tick, Issue, Skipped, AllRunLonger, NoneStartable, SlowTicks;
    var k := Skipped(s, finished);
    RunLongerMonotone(Issue(s), k - 1, 1);
    var i := LeftoverStarts(s, finished);
    NeverWaitsAfter(SlowTicks(s, finished, 2), finished, k - 2, i);
    SlowTicksCompose(s, finished, 2, k - 2);
    FastTickKeepsWaiting(s, finished, i);
  }

  /** The fast tick agrees with the slow ticks exactly when it skips nothing or the start loop
      left nothing that could have started. */
  lemma {:induction false} FastForwardIsExactIff(s: State, finished: bool)
    requires Inv(s)
    ensures Tick(s, finished, false, true) == SlowTicks(s, finished, Skipped(s, finished))
       <==> Skipped(s, finished) == 1 || NoneStartable(Issue(s))
  {
    if Skipped(s, finished) == 1 || NoneStartable(Issue(s)) {
      FastForwardIsExact(s, finished);
    } else {
      SkipRunsLonger(s, finished);
      LeftoverMakesADifference(s, finished);
    }
  }
}
