/** How long draining the reorder buffer takes: what one instruction adds at least, and what instructions
    that have all started take at most. */
module PipelineDelay {
  import opened Pipeline
  import opened PipelineInvariant
  import opened PipelineProgress
  import opened PipelineRun
  import opened PipelineFastForward
  import opened PipelineExactRuns

  // ---------- At least ----------

  /** How many cycles a slot keeps the buffer from being empty, at least. */
  function Keeps(s: State, i: int): int
    requires Shape(s) && IsSlot(i)
  {
    if s.phase[i] == FREE then 0 else if s.phase[i] == EXECUTED then 1 else s.remaining[i] + 2
  }

  lemma {:induction false} RetireLeaves(s: State, i: int)
    requires Shape(s) && IsSlot(i)
    ensures var t := RetireFirst(s, RetireCount(s));
            Keeps(t, i) == Keeps(s, i) || (Keeps(t, i) == 0 && Keeps(s, i) == 1)
  {
    if Age(s.head, i) < RetireCount(s) { RetiredHaveExecuted(s, i); }
  }

  lemma {:induction false} IssueLeaves(s: State, i: int)
    requires Inv(s) && IsSlot(i)
    ensures Issue(s).phase[i] == FREE ==> Keeps(s, i) <= 1
    ensures Issue(s).phase[i] != FREE ==> Keeps(Issue(s), i) == Keeps(s, i)
  {
    var retired := RetireFirst(s, RetireCount(s));
    RetireLeaves(s, i);
    StartsLeave(retired, START_ATTEMPTS, i);
  }

  lemma {:induction false} StartsLeave(s: State, attempts: nat, i: int)
    requires Shape(s) && IsSlot(i)
    ensures Keeps(StartUpTo(s, attempts), i) == Keeps(s, i)
    ensures StartUpTo(s, attempts).phase[i] == FREE <==> s.phase[i] == FREE
    decreases attempts
  {
    var age := FirstStartable(s, 0);
    if attempts > 0 && age < ROB {
      StartsLeave(StartSlot(s, SlotAt(s.head, age)), attempts - 1, i);
    }
  }

  /** No slot gets ahead by more cycles than are charged. */
  lemma {:induction false} TickLeaves(s: State, finished: bool, enabled: bool, i: int)
    requires Inv(s) && Settled(s) && IsSlot(i)
    ensures var t := Tick(s, finished, false, enabled); Keeps(t, i) + t.cycles >= Keeps(s, i) + s.cycles
  {
    var issued := Issue(s);
    var may := MayFastForward(s, finished, false, enabled);
    IssueKeeps(s);
    IssueLeaves(s, i);
    IssueCycles(s);
    IssueKeepsDecoding(s);
    ChargeIsSafe(issued, may);
    hide Issue, PackedSum, Window, Dependencies, Renaming, Conserved, InOrder, Requirements, CyclesToCharge;
  }

  /** Draining takes at least as long as any slot needs. */
  lemma {:induction false} DrainTakesAtLeast(s: State, enabled: bool, i: int)
    requires Inv(s) && Settled(s) && IsSlot(i)
    ensures Drain(s, true, enabled).cycles >= s.cycles + Keeps(s, i)
    decreases Work(s, ROB)
  {
    InvShape(s);
    if s.inFlight > 0 {
      hide Tick, Inv, Settled, Work, Keeps;
      DrainTick(s, true, enabled);
      TickLeaves(s, true, enabled, i);
      DrainTakesAtLeast(Tick(s, true, false, enabled), enabled, i);
    } else {
      assert !Occupied(s, i);
      hide Inv, Work;
    }
  }

  // ---------- At most ----------

  /** Everything in the buffer has started and has at most `r` cycles left. */
  ghost predicate AllStarted(s: State, r: int)
    requires Shape(s)
  {
    forall i :: IsSlot(i) && s.phase[i] != FREE && s.phase[i] != EXECUTED ==>
      s.phase[i] == EXECUTING && s.remaining[i] <= r
  }

  lemma {:induction false} StartedTick(s: State, r: int)
    requires Inv(s) && AllStarted(s, r)
    ensures var t := Tick(s, true, false, false);
            t.cycles == s.cycles + 1 && AllStarted(t, r - 1) && (r < 0 ==> t.inFlight == 0)
  {
    var retired := RetireFirst(s, RetireCount(s));
    RetireKeeps(s);
    NothingStarts(retired, START_ATTEMPTS);
    if r < 0 { AllRetire(s, r); }
    hide PackedSum, Window, Dependencies, Renaming, Conserved, InOrder, Requirements, StartUpTo, RetireCount;
  }

  /** Slots that have all executed retire together. */
  lemma {:induction false} AllRetire(s: State, r: int)
    requires Inv(s) && AllStarted(s, r) && r < 0
    ensures RetireCount(s) == s.inFlight
  {
    RetireWithinWindow(s);
    forall a | 0 <= a < s.inFlight
      ensures s.phase[SlotAt(s.head, a)] == EXECUTED
    {
      var i := SlotAt(s.head, a);
      assert Age(s.head, i) == a && Occupied(s, i);
    }
  }

  /** Without fast-forward, draining takes at most two cycles more than the longest instruction has left. */
  lemma {:induction false} DrainTakesAtMost(s: State, r: int)
    requires Inv(s) && Settled(s) && AllStarted(s, r) && r >= -1
    ensures Drain(s, true, false).cycles <= s.cycles + r + 2
    decreases r
  {
    InvShape(s);
    hide Tick, Inv, Settled, AllStarted, Work;
    if s.inFlight > 0 {
      var t := Tick(s, true, false, false);
      DrainTick(s, true, false);
      StartedTick(s, r);
      if r >= 0 {
        DrainTakesAtMost(t, r - 1);
      } else {
        assert t.inFlight == 0;
        assert Drain(t, true, false) == t;
      }
    }
  }
}
