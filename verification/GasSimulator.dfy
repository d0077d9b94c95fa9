/** The gas simulator as the object the source has: lane vectors and counters updated in place. */
module GasSimulator {
  import opened Wrappers
  import opened Arith
  import opened Resources
  import opened Pipeline
  import opened PipelineInvariant
  import opened PipelineProgress
  import opened PipelineRun
  import opened PipelineCriticalPath

  /** The state in which the slots of `started`, all waiting before, have started. */
  function WithStarted(s: State, started: set<int>): (r: State)
    requires Shape(s)
    ensures Shape(r)
  {
    s.(phase := seq(ROB, i requires 0 <= i < ROB => if i in started then EXECUTING else s.phase[i]))
  }

  /** The least age, from `age` on, of a slot in `waiting` whose requirement fits, or `ROB`. */
  function FirstThatFits(s: State, waiting: set<int>, age: int): (first: int)
    requires Shape(s) && 0 <= age <= ROB
    ensures age <= first <= ROB
    decreases ROB - age
  {
    var slot := SlotAt(s.head, age);
    if age == ROB || (slot in waiting && EnoughFor(s.available, Pack(s.required[slot]))) then age
    else FirstThatFits(s, waiting, age + 1)
  }

  /** `waiting` is the set of slots that wait for nothing but resources. */
  ghost predicate IsReadySet(s: State, waiting: set<int>)
    requires Shape(s)
  {
    forall i :: i in waiting <==> IsSlot(i) && s.phase[i] == WAITING && s.deps[i] == {}
  }

  lemma {:induction false} FitsIsStartable(s: State, waiting: set<int>, age: int)
    requires Shape(s) && 0 <= age <= ROB && IsReadySet(s, waiting)
    ensures FirstThatFits(s, waiting, age) == FirstStartable(s, age)
    decreases ROB - age
  {
    if age < ROB {
      assert IsSlot(SlotAt(s.head, age));
      if FirstThatFits(s, waiting, age) != age { FitsIsStartable(s, waiting, age + 1); }
    }
  }

  /** The state after the slots of `started` took their resources out of what was available. */
  function After(s: State, available: int, started: set<int>): (r: State)
    requires Shape(s)
    ensures Shape(r) && r.head == s.head
  {
    WithStarted(s.(available := available), started)
  }

  lemma {:induction false} StartOneMore(s: State, available: int, started: set<int>, i: int)
    requires Shape(s) && IsSlot(i)
    ensures After(s, available - Pack(s.required[i]), started + {i}) == StartSlot(After(s, available, started), i)
  {
    assert After(s, available - Pack(s.required[i]), started + {i}).phase ==
        StartSlot(After(s, available, started), i).phase;
  }

  lemma {:induction false} ReadySetAfterStart(s: State, waiting: set<int>, i: int)
    requires Shape(s) && IsSlot(i) && IsReadySet(s, waiting)
    ensures IsReadySet(StartSlot(s, i), waiting - {i})
  {
  }

  /** Part of the start loop is done: what is left of it ends where the whole loop ends. */
  ghost predicate StartLoop(s: State, available: int, started: set<int>, waiting: set<int>, left: nat) {
    && Shape(s)
    && (forall i :: i in started ==> IsSlot(i) && s.phase[i] == WAITING)
    && IsReadySet(After(s, available, started), waiting)
    && StartUpTo(After(s, available, started), left) == StartUpTo(s, START_ATTEMPTS)
  }

  lemma {:induction false} StartLoopStep(s: State, available: int, started: set<int>, waiting: set<int>, left: nat)
    requires StartLoop(s, available, started, waiting, left) && left > 0
    ensures var age := FirstThatFits(s.(available := available), waiting, 0);
            if age == ROB then StartUpTo(s, START_ATTEMPTS) == After(s, available, started)
            else var i := SlotAt(s.head, age);
                 StartLoop(s, available - Pack(s.required[i]), started + {i}, waiting - {i}, left - 1)
  {
    hide StartSlot, Startable, Pack, FirstThatFits, FirstStartable;
    var now := After(s, available, started);
    var age := FirstThatFits(s.(available := available), waiting, 0);
    FitsIgnoresPhase(s, available, started, waiting, 0);
    FitsIsStartable(now, waiting, 0);
    if age == ROB {
      StopsHere(now, left);
    } else {
      var i := SlotAt(s.head, age);
      FitsIsReady(s.(available := available), waiting, 0);
      assert s.phase[i] == WAITING;
      hide After, StartUpTo;
      StartOneMore(s, available, started, i);
      ReadySetAfterStart(now, waiting, i);
      StartsNext(now, left);
    }
  }

  /** Chooses the slots to start: oldest first, at most five, as long as resources suffice. */
  method ChooseStarts(s: State) returns (started: set<int>, available: int)
    requires Shape(s)
    ensures forall i :: i in started ==> IsSlot(i) && s.phase[i] == WAITING
    ensures After(s, available, started) == StartUpTo(s, START_ATTEMPTS)
  {
    hide Pack, StartUpTo, After, FirstThatFits, StartLoop;
    var isWaitingToStart := set i | 0 <= i < ROB && s.phase[i] == WAITING && s.deps[i] == {};
    started := {};
    available := s.available;
    StartLoopBegins(s, isWaitingToStart);
    var attempt := 0;
    while attempt < START_ATTEMPTS
      invariant 0 <= attempt <= START_ATTEMPTS
      invariant StartLoop(s, available, started, isWaitingToStart, START_ATTEMPTS - attempt)
    {
      StartLoopStep(s, available, started, isWaitingToStart, START_ATTEMPTS - attempt);
      var age := FirstThatFits(s.(available := available), isWaitingToStart, 0);
      if age == ROB {
        StartLoopChoice(s, available, started, isWaitingToStart, START_ATTEMPTS - attempt);
        return;
      }
      var position := SlotAt(s.head, age);
      available := available - Pack(s.required[position]);
      started := started + {position};
      isWaitingToStart := isWaitingToStart - {position};
      attempt := attempt + 1;
    }
    StartLoopChoice(s, available, started, isWaitingToStart, 0);
    StartLoopEnds(s, available, started, isWaitingToStart);
  }

  lemma {:induction false} StartLoopBegins(s: State, waiting: set<int>)
    requires Shape(s) && waiting == set i | 0 <= i < ROB && s.phase[i] == WAITING && s.deps[i] == {}
    ensures StartLoop(s, s.available, {}, waiting, START_ATTEMPTS)
  {
    hide StartUpTo;
    NoneStartedYet(s);
  }

  lemma {:induction false} StartLoopChoice(s: State, available: int, started: set<int>, waiting: set<int>, left: nat)
    requires StartLoop(s, available, started, waiting, left)
    ensures forall i :: i in started ==> IsSlot(i) && s.phase[i] == WAITING
  {
  }

  lemma {:induction false} StartLoopEnds(s: State, available: int, started: set<int>, waiting: set<int>)
    requires StartLoop(s, available, started, waiting, 0)
    ensures After(s, available, started) == StartUpTo(s, START_ATTEMPTS)
  {
    hide After;
    StopsHere(After(s, available, started), 0);
  }

  lemma {:induction false} NoneStartedYet(s: State)
    requires Shape(s)
    ensures After(s, s.available, {}) == s
  {
    assert After(s, s.available, {}).phase == s.phase;
  }

  lemma {:induction false} FitsIgnoresPhase(s: State, available: int, started: set<int>, waiting: set<int>, age: int)
    requires Shape(s) && 0 <= age <= ROB
    ensures FirstThatFits(s.(available := available), waiting, age) ==
              FirstThatFits(After(s, available, started), waiting, age)
    decreases ROB - age
  {
    hide EnoughFor, Pack;
    if age < ROB { FitsIgnoresPhase(s, available, started, waiting, age + 1); }
  }

  lemma {:induction false} FitsIsReady(s: State, waiting: set<int>, age: int)
    requires Shape(s) && 0 <= age <= ROB
    ensures FirstThatFits(s, waiting, age) < ROB ==> SlotAt(s.head, FirstThatFits(s, waiting, age)) in waiting
    decreases ROB - age
  {
    hide EnoughFor, Pack;
    if age < ROB { FitsIsReady(s, waiting, age + 1); }
  }

  lemma {:induction false} StartsNext(s: State, attempts: nat)
    requires Shape(s) && attempts > 0 && FirstStartable(s, 0) < ROB
    ensures StartUpTo(s, attempts) == StartUpTo(StartSlot(s, SlotAt(s.head, FirstStartable(s, 0))), attempts - 1)
  {
  }

  lemma {:induction false} StopsHere(s: State, attempts: nat)
    requires Shape(s) && (attempts == 0 || FirstStartable(s, 0) == ROB)
    ensures StartUpTo(s, attempts) == s
  {
  }

  lemma {:induction false} RunWithin(s: State)
    requires Shape(s)
    ensures 0 <= RetireCount(s) <= ROB
  {
  }

  lemma {:induction false} ReleasedIs(s: State, mask: set<int>, writes: set<int>)
    requires Shape(s) && forall r :: r in writes <==> exists j :: 0 <= j < ROB && j in mask && r in s.written[j]
    ensures writes == Released(s, mask)
  {
    forall r ensures r in writes <==> r in Released(s, mask) {
      if r in writes {
        var j :| 0 <= j < ROB && j in mask && r in s.written[j];
      }
    }
  }

  lemma {:induction false} WrappingAdd(a: int, b: int)
    ensures (a % WORD16 + b) % WORD16 == (a + b) % WORD16
  {
    DivModUnique(a % WORD16 + b, WORD16, (a + b) / WORD16 - a / WORD16, (a + b) % WORD16);
  }

  class Simulator {
    var cycles: nat
    var instructions: nat
    var finished: bool
    var decodeSlotsRemainingThisCycle: int
    var resourcesAvailable: int
    var instructionsInFlight: int
    var reorderBufferHead: int
    var reorderBufferTail: int
    var robInstruction: seq<nat>
    var robState: seq<int>
    var robCyclesRemaining: seq<int>
    var robRequiredResources: seq<Counts>
    var robDependencies: seq<set<int>>
    var registersWrittenByRobEntry: seq<set<int>>
    var robEntryByRegister: seq<int>
    const fastForward: bool

    function View(): State
      reads this
    {
      State(cycles, instructions, decodeSlotsRemainingThisCycle, resourcesAvailable, instructionsInFlight,
            reorderBufferHead, reorderBufferTail, robInstruction, robState, robCyclesRemaining,
            robRequiredResources, robDependencies, registersWrittenByRobEntry, robEntryByRegister)
    }

    constructor (enableFastForward: bool)
      ensures Cleared(View()) && !finished && fastForward == enableFastForward
    {
      fastForward := enableFastForward;
      new;
      Clear();
    }

    method Clear()
      modifies this
      ensures Cleared(View()) && !finished
    {
      hide Available;
      ClearLanes();
      cycles, instructions, finished := 0, 0, false;
      instructionsInFlight := 0;
      decodeSlotsRemainingThisCycle := MAX_DECODE_PER_CYCLE;
      resourcesAvailable := Available(CAPACITY);
      reorderBufferTail, reorderBufferHead := 0, 0;
    }

    method ClearLanes()
      modifies `robEntryByRegister, `robState, `robCyclesRemaining, `robRequiredResources, `robDependencies,
               `registersWrittenByRobEntry, `robInstruction
      ensures robEntryByRegister == Splat(REGS, -1) && robState == Splat(ROB, FREE) &&
              robCyclesRemaining == Splat(ROB, 0)
      ensures robRequiredResources == Splat(ROB, NONE) && robDependencies == Splat(ROB, {})
      ensures registersWrittenByRobEntry == Splat(ROB, {}) && robInstruction == Splat(ROB, 0)
    {
      robEntryByRegister := Splat(REGS, -1);
      robState := Splat(ROB, FREE);
      robCyclesRemaining := Splat(ROB, 0);
      robRequiredResources := Splat(ROB, NONE);
      robDependencies := Splat(ROB, {});
      registersWrittenByRobEntry := Splat(ROB, {});
      robInstruction := Splat(ROB, 0);
    }

    /** Counts the executed slots from the head on. */
    method CountRetirable() returns (n: int)
      requires Shape(View())
      ensures n == RetireCount(View())
    {
      n := 0;
      while n < ROB && robState[SlotAt(reorderBufferHead, n)] == EXECUTED
        invariant 0 <= n <= ROB && n + ExecutedRun(View(), n) == RetireCount(View())
      {
        n := n + 1;
      }
    }

    /** Frees the leading run of executed slots. */
    method Retire() returns (n: int)
      requires Shape(View())
      modifies `robState, `instructionsInFlight, `reorderBufferHead
      ensures n == RetireCount(old(View())) && Shape(View()) && View() == RetireFirst(old(View()), n)
    {
      hide ExecutedRun, RetireCount;
      n := CountRetirable();
      RunWithin(View());
      var head := reorderBufferHead;
      var a := 0;
      while a < n
        invariant 0 <= a <= n && |robState| == ROB
        invariant forall i :: IsSlot(i) ==> robState[i] == if Age(head, i) < a then FREE else old(robState)[i]
        invariant reorderBufferHead == head && instructionsInFlight == old(instructionsInFlight)
      {
        robState := robState[SlotAt(head, a) := FREE];
        a := a + 1;
      }
      instructionsInFlight := instructionsInFlight - n;
      reorderBufferHead := SlotAt(head, n);
      assert robState == RetireFirst(old(View()), n).phase;
    }

    /** Starts waiting slots, oldest first, at most five, as long as resources suffice. */
    method StartReady()
      requires Shape(View())
      modifies `robState, `resourcesAvailable
      ensures Shape(View()) && View() == StartUpTo(old(View()), START_ATTEMPTS)
    {
      var before := View();
      var started, available := ChooseStarts(before);
      hide StartUpTo;
      resourcesAvailable := available;
      robState := seq(ROB, i requires 0 <= i < ROB => if i in started then before.phase[i] + 1 else before.phase[i]);
      assert robState == After(before, available, started).phase;
    }

    /** The fewest cycles an executing slot has left, the lanes of the other slots reading as all ones. */
    method LeastCyclesRemaining() returns (least: int)
      requires Shape(View())
      ensures least == LeastRemaining(View(), ROB) <= 255
    {
      least := 255;
      for i := 0 to ROB
        invariant least == LeastRemaining(View(), i) <= 255
      {
        var lane := if robState[i] == EXECUTING then robCyclesRemaining[i] % 256 else 255;
        if lane < least {
          least := lane;
        }
      }
    }

    /** How many cycles this tick stands for. */
    method ChooseCycles(mayFastForward: bool) returns (count: int)
      requires Shape(View())
      ensures count == CyclesToCharge(View(), mayFastForward)
    {
      hide LeastRemaining;
      count := 1;
      if mayFastForward {
        var least := LeastCyclesRemaining();
        var max := if least >= 128 then least - 256 else least;
        if max > 0 {
          count := max;
        }
      }
    }

    /** Executing slots count down by `k`; those that go below zero have executed. */
    method CountDown(k: int) returns (finished: set<int>)
      requires Shape(View())
      modifies `robState, `robCyclesRemaining
      ensures finished == Finishing(old(View()), k)
      ensures var goal := Execute(old(View()), k);
              View() == old(View()).(phase := goal.phase, remaining := goal.remaining)
    {
      ghost var was := View();
      finished := {};
      for i := 0 to ROB
        invariant |robState| == |robCyclesRemaining| == ROB
        invariant forall j :: IsSlot(j) ==>
                    if j < i && was.phase[j] == EXECUTING then
                      && robCyclesRemaining[j] == SaturatingSub(was.remaining[j], k)
                      && robState[j] == (if robCyclesRemaining[j] == -1 then EXECUTED else EXECUTING)
                    else robCyclesRemaining[j] == was.remaining[j] && robState[j] == was.phase[j]
        invariant finished == set j | 0 <= j < i && was.phase[j] == EXECUTING && SaturatingSub(was.remaining[j], k) == 0
      {
        if robState[i] == EXECUTING {
          robCyclesRemaining := robCyclesRemaining[i := SaturatingSub(robCyclesRemaining[i], k)];
          if robCyclesRemaining[i] == 0 {
            finished := finished + {i};
          }
          if robCyclesRemaining[i] == -1 {
            robState := robState[i := robState[i] + 1];
          }
        }
      }
      hide PackedSum, Released;
      assert robCyclesRemaining == Execute(was, k).remaining;
      assert robState == Execute(was, k).phase;
    }

    /** Nobody depends on the finished slots any more. */
    method ReleaseDependencies(finished: set<int>)
      requires Shape(View())
      modifies `robDependencies
      ensures |robDependencies| == ROB && forall i :: IsSlot(i) ==>
              robDependencies[i] == old(robDependencies)[i] - finished
    {
      for i := 0 to ROB
        invariant |robDependencies| == ROB
        invariant forall j :: IsSlot(j) ==>
                    robDependencies[j] == if j < i then old(robDependencies)[j] - finished else old(robDependencies)[j]
      {
        robDependencies := robDependencies[i := robDependencies[i] - finished];
      }
    }

    /** The registers the finished slots were to write have their values. */
    method ReleaseRegisters(finished: set<int>)
      requires Shape(View())
      modifies `registersWrittenByRobEntry, `robEntryByRegister
      ensures |registersWrittenByRobEntry| == ROB && |robEntryByRegister| == REGS
      ensures forall i :: IsSlot(i) ==>
              registersWrittenByRobEntry[i] == if i in finished then {} else old(registersWrittenByRobEntry)[i]
      ensures forall r :: IsReg(r) ==> robEntryByRegister[r] == if r in Released(old(View()), finished) then -1
                else old(robEntryByRegister)[r]
    {
      ghost var was := View();
      var writes: set<int> := {};
      for i := 0 to ROB
        invariant |registersWrittenByRobEntry| == ROB && robEntryByRegister == was.entry
        invariant forall j :: IsSlot(j) ==>
                  registersWrittenByRobEntry[j] == if j < i && j in finished then {} else was.written[j]
        invariant forall r :: r in writes <==> exists j :: 0 <= j < i && j in finished && r in was.written[j]
      {
        if i in finished {
          writes := writes + registersWrittenByRobEntry[i];
          registersWrittenByRobEntry := registersWrittenByRobEntry[i := {}];
        }
      }
      ReleasedIs(was, finished, writes);
      for r := 0 to REGS
        invariant |registersWrittenByRobEntry| == ROB && |robEntryByRegister| == REGS
        invariant forall j :: IsSlot(j) ==>
                  registersWrittenByRobEntry[j] == if j in finished then {} else was.written[j]
        invariant forall q :: IsReg(q) ==> robEntryByRegister[q] == if q < r && q in writes then -1 else was.entry[q]
      {
        if r in writes {
          robEntryByRegister := robEntryByRegister[r := -1];
        }
      }
    }

    /** The finished slots give back what they held, summed up in sixteen bits. */
    method ReleaseResources(finished: set<int>)
      requires Shape(View())
      modifies `resourcesAvailable, `robRequiredResources
      ensures resourcesAvailable ==
                old(resourcesAvailable) + PackedSum(old(robRequiredResources), finished, ROB) % WORD16
      ensures |robRequiredResources| == ROB
      ensures forall i :: IsSlot(i) ==>
              robRequiredResources[i] == if i in finished then NONE else old(robRequiredResources)[i]
    {
      hide Pack;
      var released := 0;
      for i := 0 to ROB
        invariant |robRequiredResources| == ROB && resourcesAvailable == old(resourcesAvailable)
        invariant released == PackedSum(old(robRequiredResources), finished, i) % WORD16
        invariant forall j :: IsSlot(j) ==>
                    robRequiredResources[j] == if j < i && j in finished then NONE else old(robRequiredResources)[j]
      {
        if i in finished {
          WrappingAdd(PackedSum(old(robRequiredResources), finished, i), Pack(robRequiredResources[i]));
          released := (released + Pack(robRequiredResources[i])) % WORD16;
          robRequiredResources := robRequiredResources[i := NONE];
        }
      }
      resourcesAvailable := resourcesAvailable + released;
    }

    /** `k` cycles pass: executing slots count down, and those that run out release what they hold. */
    method Progress(k: int)
      requires Shape(View())
      modifies `robState, `robCyclesRemaining, `robDependencies, `registersWrittenByRobEntry,
               `robEntryByRegister, `resourcesAvailable, `robRequiredResources
      ensures Shape(View()) && View() == Execute(old(View()), k)
    {
      ghost var was := View();
      ghost var goal := Execute(was, k);
      var finished := CountDown(k);
      ghost var counted := View();
      ReleaseDependencies(finished);
      ReleaseRegisters(finished);
      assert Released(counted, finished) == Released(was, finished);
      ReleaseResources(finished);
      hide Finishing, PackedSum, Released;
      assert robDependencies == goal.deps;
      assert registersWrittenByRobEntry == goal.written;
      assert robEntryByRegister == goal.entry;
      assert robRequiredResources == goal.required;
    }

    /** What has been decoded starts to wait. Afterwards nothing decodes, and the invariant still holds. */
    method FinishDecode()
      requires Shape(View())
      modifies `robState, `decodeSlotsRemainingThisCycle
      ensures Shape(View()) && View() == FinishDecoding(old(View())) && Settled(View())
      ensures forall i :: IsSlot(i) ==>
              (robState[i] == WAITING <==> old(robState)[i] == WAITING || old(robState)[i] == DECODING)
      ensures old(Inv(View())) ==> Inv(View())
    {
      ghost var was := View();
      for i := 0 to ROB
        invariant |robState| == ROB && decodeSlotsRemainingThisCycle == was.decodeSlots
        invariant forall j :: IsSlot(j) ==>
                    robState[j] == if j < i && was.phase[j] == DECODING then WAITING else was.phase[j]
      {
        if robState[i] == DECODING {
          robState := robState[i := robState[i] + 1];
        }
      }
      decodeSlotsRemainingThisCycle := MAX_DECODE_PER_CYCLE;
      assert robState == FinishDecoding(was).phase;
      hide Inv;
      if Inv(was) {
        FinishDecodingKeeps(was);
      }
    }

    /** The end of a tick: what has been decoded moves on and the cycles are charged. */
    method EndTick(k: nat, hasDecodedPending: bool)
      requires Shape(View())
      modifies `robState, `decodeSlotsRemainingThisCycle, `cycles
      ensures View() == Settle(old(View()), k, hasDecodedPending)
    {
      hide FinishDecoding, Inv, Settled;
      if hasDecodedPending {
        FinishDecode();
      }
      cycles := cycles + k;
    }

    method TickCycle(isFinished: bool, hasDecodedPending: bool)
      requires Shape(View())
      modifies this
      ensures finished == old(finished)
      ensures View() == Tick(old(View()), isFinished, hasDecodedPending, fastForward)
    {
      hide StartUpTo, Execute, RetireFirst, CyclesToCharge, Settle, RetireCount;
      var retired := Retire();
      StartReady();
      var k := ChooseCycles(!hasDecodedPending && fastForward && (isFinished || retired == 0));
      Progress(k);
      EndTick(k, hasDecodedPending);
    }

    /** Ticks once for what has just been decoded, then until few enough instructions are in flight. */
    method TickCycleLoop(isFinished: bool)
      requires Inv(View())
      modifies this
      ensures Inv(View()) && finished == old(finished)
      ensures View() == TickLoop(old(View()), isFinished, fastForward)
    {
      hide Tick, Inv, Settled, Work;
      ghost var before := View();
      InvShape(before);
      FirstTick(before, isFinished, fastForward);
      TickCycle(isFinished, true);
      ghost var first := View();
      while instructionsInFlight > Target(isFinished)
        invariant Inv(View()) && ReadyToDrain(View()) && finished == old(finished)
        invariant Drain(View(), isFinished, fastForward) == Drain(first, isFinished, fastForward)
        decreases WorkLeft(View())
      {
        InvShape(View());
        NextTick(View(), isFinished, fastForward);
        TickCycle(isFinished, false);
      }
    }

    method TickCycleIfCannotDecode(decodeSlots: int)
      requires Inv(View()) && decodeSlots <= MAX_DECODE_PER_CYCLE
      modifies this
      ensures Inv(View()) && finished == old(finished)
      ensures View() == MakeRoom(old(View()), decodeSlots, fastForward)
    {
      hide TickLoop, Inv;
      if decodeSlotsRemainingThisCycle < decodeSlots || instructionsInFlight == ROB {
        TickCycleLoop(false);
      }
    }

    method WaitUntilEmpty()
      requires Inv(View())
      modifies this
      ensures Inv(View()) && finished
      ensures View() == TickLoop(old(View()), true, fastForward) && instructionsInFlight == 0
    {
      hide Inv;
      finished := true;
      TickCycleLoop(true);
      InvShape(View());
    }

    /** The slots whose results the sources still wait for: none for a register that has its value. */
    method DependencyMask(src1: Option<int>, src2: Option<int>) returns (mask: set<int>)
      requires Shape(View()) && IsOptReg(src1) && IsOptReg(src2)
      ensures mask == DependencyOn(View(), src1) + DependencyOn(View(), src2)
    {
      mask := {};
      if src1.Some? {
        var producer := robEntryByRegister[src1.value];
        if producer != -1 {
          mask := mask + {producer};
        }
      }
      if src2.Some? {
        var producer := robEntryByRegister[src2.value];
        if producer != -1 {
          mask := mask + {producer};
        }
      }
    }

    /** Writes the lanes of the slot at the tail. */
    method FillSlot(op: Op)
      requires Shape(View()) && ValidOp(op) && op.Exec?
      modifies `robCyclesRemaining, `robRequiredResources, `robDependencies, `robState, `robInstruction
      ensures var was := old(View()); var goal := Allocate(was, op);
              View() == was.(remaining := goal.remaining, required := goal.required, deps := goal.deps,
                             phase := goal.phase, id := goal.id)
    {
      hide DependencyOn;
      var slot := reorderBufferTail;
      if op.src1.Some? {
        var mask := DependencyMask(op.src1, op.src2);
        robDependencies := robDependencies[slot := mask];
      }
      robCyclesRemaining := robCyclesRemaining[slot := op.cost.latency];
      robRequiredResources := robRequiredResources[slot := op.cost.counts];
      robState := robState[slot := robState[slot] + 1];
      robInstruction := robInstruction[slot := instructions];
    }

    /** Makes the slot at the tail the only producer of the destination register. */
    method RenameDestination(op: Op)
      requires Shape(View()) && ValidOp(op) && op.Exec?
      modifies `registersWrittenByRobEntry, `robEntryByRegister
      ensures var was := old(View()); var goal := Allocate(was, op);
              View() == was.(written := goal.written, entry := goal.entry)
    {
      if op.dst.Some? {
        var slot, dst := reorderBufferTail, op.dst.value;
        ghost var written := registersWrittenByRobEntry;
        for i := 0 to ROB
          invariant |registersWrittenByRobEntry| == ROB && robEntryByRegister == old(robEntryByRegister)
          invariant forall j :: IsSlot(j) ==>
                    registersWrittenByRobEntry[j] == if j < i then written[j] - {dst} else written[j]
        {
          registersWrittenByRobEntry := registersWrittenByRobEntry[i := registersWrittenByRobEntry[i] - {dst}];
        }
        registersWrittenByRobEntry := registersWrittenByRobEntry[slot := registersWrittenByRobEntry[slot] + {dst}];
        robEntryByRegister := robEntryByRegister[dst := slot];
        assert written[slot] - {dst} + {dst} == written[slot] + {dst};
        assert registersWrittenByRobEntry == Allocate(old(View()), op).written;
      }
    }

    /** Puts a decoded instruction into the slot at the tail and renames its destination. */
    method Occupy(op: Op)
      requires Shape(View()) && ValidOp(op) && op.Exec?
      modifies this
      ensures finished == old(finished) && View() == Allocate(old(View()), op)
    {
      ghost var was := View();
      FillSlot(op);
      RenameDestination(op);
      reorderBufferTail := SlotAt(reorderBufferTail, 1);
      instructionsInFlight := instructionsInFlight + 1;
      instructions := instructions + 1;
      decodeSlotsRemainingThisCycle := decodeSlotsRemainingThisCycle - op.cost.decodeSlots;
    }

    method DispatchGeneric(op: Op)
      requires Inv(View()) && ValidOp(op) && op.Exec?
      modifies this
      ensures Inv(View()) && finished == old(finished)
      ensures View() == Feed(old(View()), op, fastForward)
    {
      hide MakeRoom, Inv, Allocate;
      TickCycleIfCannotDecode(op.cost.decodeSlots);
      InvShape(View());
      Occupy(op);
      assert View() == Feed(old(View()), op, fastForward);
    }

    /** Makes `to` name the producer of `from`. */
    method Redirect(to: int, from: int)
      requires Shape(View()) && IsReg(to) && IsReg(from)
      requires -1 <= robEntryByRegister[to] < ROB && -1 <= robEntryByRegister[from] < ROB
      modifies this
      ensures finished == old(finished) && View() == Rename(old(View()), Move(to, from))
    {
      var oldSlot := robEntryByRegister[to];
      if oldSlot != -1 {
        registersWrittenByRobEntry := registersWrittenByRobEntry[oldSlot := registersWrittenByRobEntry[oldSlot] - {to}];
      }
      var newSlot := robEntryByRegister[from];
      if newSlot != -1 {
        registersWrittenByRobEntry := registersWrittenByRobEntry[newSlot := registersWrittenByRobEntry[newSlot] + {to}];
      }
      robEntryByRegister := robEntryByRegister[to := newSlot];
      decodeSlotsRemainingThisCycle := decodeSlotsRemainingThisCycle - 1;
      instructions := instructions + 1;
    }

    method DispatchMoveReg(to: int, from: int)
      requires Inv(View()) && IsReg(to) && IsReg(from)
      modifies this
      ensures Inv(View()) && finished == old(finished)
      ensures View() == Feed(old(View()), Move(to, from), fastForward)
    {
      hide MakeRoom, Inv, Rename;
      ghost var op := Move(to, from);
      TickCycleIfCannotDecode(1);
      EntriesInRange(View(), to);
      EntriesInRange(View(), from);
      Redirect(to, from);
      assert View() == Feed(old(View()), op, fastForward);
    }

    /** The cost of the block if it is done, and a cleared simulator; otherwise nothing. */
    method TakeBlockCost() returns (cost: Option<int>)
      requires Inv(View())
      modifies this
      ensures old(finished && instructionsInFlight == 0) ==>
              cost == Some(CostOf(old(cycles))) && Cleared(View()) && !finished
      ensures !old(finished && instructionsInFlight == 0) ==>
              cost == None && View() == old(View()) && finished == old(finished)
      ensures Inv(View())
    {
      if instructionsInFlight == 0 && finished {
        var total := cycles;
        Clear();
        ClearedHolds(View());
        hide Cleared, Inv;
        cost := Some(CostOf(total));
      } else {
        cost := None;
      }
    }

    /** Feeds the instructions of a block one by one; until it ends there is no cost to take. */
    method FeedBlock(ops: seq<Op>)
      requires Cleared(View()) && !finished && ValidBlock(ops)
      modifies this
      ensures Inv(View()) && !finished && View() == FeedFirst(old(View()), ops, |ops|, fastForward)
    {
      ghost var start := View();
      hide Cleared, Inv, Feed, FeedFirst;
      ClearedHolds(start);
      FeedNone(start, ops, fastForward);
      var n := 0;
      while n < |ops|
        invariant 0 <= n <= |ops| && !finished && Inv(View())
        invariant View() == FeedFirst(start, ops, n, fastForward)
      {
        var none := TakeBlockCost();
        match ops[n] {
          case Exec(_, _, _, _) => DispatchGeneric(ops[n]);
          case Move(to, from) => DispatchMoveReg(to, from);
        }
        FeedNext(start, ops, n, fastForward);
        n := n + 1;
      }
    }

    /** Feeds a block and takes its cost, which lies between its longest dependence chain and its budget. */
    method CostOfBlock(ops: seq<Op>) returns (cost: int)
      requires Cleared(View()) && !finished && ValidBlock(ops)
      modifies this
      ensures cost == BlockCost(old(View()), ops, fastForward)
      ensures Cleared(View()) && !finished
      ensures forall chain :: IsChain(ops, chain) ==> ChainLatency(ops, chain) <= cost
      ensures 1 <= cost <= CostOf(TotalBudget(ops, |ops|))
    {
      ghost var start := View();
      hide Cleared, Inv, BlockState, FeedFirst, TickLoop, IsChain;
      FeedBlock(ops);
      WaitUntilEmpty();
      BlockStateIs(start, ops, fastForward);
      var taken := TakeBlockCost();
      cost := taken.value;
      CostBounds(start, ops, fastForward);
    }
  }

  lemma {:induction false} CostBounds(start: State, ops: seq<Op>, enabled: bool)
    requires Cleared(start) && ValidBlock(ops)
    ensures forall chain :: IsChain(ops, chain) ==> ChainLatency(ops, chain) <= BlockCost(start, ops, enabled)
    ensures 1 <= BlockCost(start, ops, enabled) <= CostOf(TotalBudget(ops, |ops|))
  {
    hide BlockState, Cleared, ChainLatency, TotalBudget;
    forall chain | IsChain(ops, chain)
      ensures ChainLatency(ops, chain) <= BlockCost(start, ops, enabled)
    {
      CostCoversEveryChain(start, ops, enabled, chain);
    }
    BlockWithinBudget(start, ops, enabled);
  }

  lemma {:induction false} FirstTick(s: State, finished: bool, enabled: bool)
    requires Inv(s)
    ensures var t := Tick(s, finished, true, enabled); Inv(t) && ReadyToDrain(t)
    ensures TickLoop(s, finished, enabled) == Drain(Tick(s, finished, true, enabled), finished, enabled)
  {
    TickKeeps(s, finished, true, enabled);
    TickSettles(s, finished, true, enabled);
    hide Tick, Inv;
  }

  ghost predicate ReadyToDrain(s: State) {
    Shape(s) && Settled(s)
  }

  ghost function WorkLeft(s: State): int {
    if Shape(s) then Work(s, ROB) else 0
  }

  lemma {:induction false} NextTick(s: State, finished: bool, enabled: bool)
    requires Inv(s) && ReadyToDrain(s) && s.inFlight > Target(finished)
    ensures var t := Tick(s, finished, false, enabled); Inv(t) && ReadyToDrain(t) && 0 <= WorkLeft(t) < WorkLeft(s)
    ensures Drain(s, finished, enabled) == Drain(Tick(s, finished, false, enabled), finished, enabled)
  {
    TickKeeps(s, finished, false, enabled);
    TickSettles(s, finished, false, enabled);
    TickLowersWork(s, finished, false, enabled);
    WorkNonNegative(Tick(s, finished, false, enabled), ROB);
    hide Tick, Work;
  }

  lemma {:induction false} EntriesInRange(s: State, r: int)
    requires Inv(s) && IsReg(r)
    ensures Shape(s) && -1 <= s.entry[r] < ROB
  {
  }

  lemma {:induction false} FeedNone(start: State, ops: seq<Op>, enabled: bool)
    requires Cleared(start) && ValidOps(ops)
    ensures FeedFirst(start, ops, 0, enabled) == start
  {
  }

  lemma {:induction false} FeedNext(start: State, ops: seq<Op>, n: nat, enabled: bool)
    requires Cleared(start) && ValidOps(ops) && n < |ops|
    ensures FeedFirst(start, ops, n + 1, enabled) == Feed(FeedFirst(start, ops, n, enabled), ops[n], enabled)
  {
    hide Feed;
  }

  lemma {:induction false} BlockStateIs(start: State, ops: seq<Op>, enabled: bool)
    requires Cleared(start) && ValidBlock(ops)
    ensures BlockState(start, ops, enabled) == TickLoop(FeedFirst(start, ops, |ops|, enabled), true, enabled)
  {
    hide TickLoop, FeedFirst;
  }
}
