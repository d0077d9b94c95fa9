/** Instructions leave the reorder buffer in program order, each exactly once. */
module PipelineOrder {
  import opened Pipeline
  import opened PipelineInvariant
  import opened PipelineProgress
  import opened PipelineRun

  /** The instructions in the buffer, oldest first. */
  function Buffered(s: State): (ids: seq<nat>)
    requires Shape(s) && 0 <= s.inFlight <= ROB
    ensures |ids| == s.inFlight
  {
    seq(s.inFlight, a requires 0 <= a < s.inFlight => s.id[SlotAt(s.head, a)])
  }

  /** The instructions among the first `n` that need a slot, in program order. */
  function Dispatched(ops: seq<Op>, n: nat): seq<nat>
    requires n <= |ops|
  {
    if n == 0 then [] else Dispatched(ops, n - 1) + (if ops[n - 1].Exec? then [n - 1] else [])
  }

  lemma {:induction false} StartsKeepIds(s: State, attempts: nat)
    requires Shape(s)
    ensures var t := StartUpTo(s, attempts); t.id == s.id && t.head == s.head && t.inFlight == s.inFlight
    decreases attempts
  {
    var age := FirstStartable(s, 0);
    if attempts > 0 && age < ROB {
      StartsKeepIds(StartSlot(s, SlotAt(s.head, age)), attempts - 1);
    }
  }

  lemma {:induction false} SlotAtAdds(head: int, n: int, a: int)
    requires IsSlot(head) && 0 <= n && 0 <= a && n + a <= ROB
    ensures SlotAt(SlotAt(head, n), a) == SlotAt(head, n + a) || (n + a == ROB && SlotAt(SlotAt(head, n), a) == head)
  {
  }

  predicate Sized(s: State) {
    Shape(s) && 0 <= s.inFlight <= ROB
  }

  /** From `s` to `t` only the oldest instructions have left. */
  ghost predicate RetiresInOrder(s: State, t: State) {
    Sized(s) && Sized(t) && t.instructions == s.instructions && t.inFlight <= s.inFlight &&
    Buffered(t) == Buffered(s)[s.inFlight - t.inFlight..]
  }

  lemma {:induction false} InOrderTransitive(s: State, t: State, u: State)
    requires RetiresInOrder(s, t) && RetiresInOrder(t, u)
    ensures RetiresInOrder(s, u)
  {
    var b := Buffered(s);
    var n := s.inFlight - t.inFlight;
    assert b[n..][t.inFlight - u.inFlight..] == b[s.inFlight - u.inFlight..];
  }

  lemma {:induction false} InOrderReflexive(s: State)
    requires Sized(s)
    ensures RetiresInOrder(s, s)
  {
  }

  /** What a tick does to the window. */
  lemma {:induction false} TickMovesWindow(s: State, finished: bool, pending: bool, enabled: bool)
    requires Shape(s)
    ensures var t := Tick(s, finished, pending, enabled);
            t.id == s.id && t.head == SlotAt(s.head, RetireCount(s)) && t.inFlight == s.inFlight - RetireCount(s) &&
            t.instructions == s.instructions
  {
    var retired := RetireFirst(s, RetireCount(s));
    StartsKeepIds(retired, START_ATTEMPTS);
    IssueKeepsDecoding(s);
    hide StartUpTo, PackedSum, Finishing, Released;
  }

  lemma {:induction false} WindowShrinks(s: State, t: State, n: nat)
    requires Sized(s) && Shape(t) && n <= s.inFlight
    requires t.id == s.id && t.head == SlotAt(s.head, n) && t.inFlight == s.inFlight - n &&
             t.instructions == s.instructions
    ensures RetiresInOrder(s, t)
  {
    forall a | 0 <= a < t.inFlight
      ensures SlotAt(t.head, a) == SlotAt(s.head, n + a)
    {
      SlotAtAdds(s.head, n, a);
    }
  }

  /** A tick retires the oldest instructions, in order, and nothing else leaves or enters. */
  lemma {:induction false} TickRetiresInOrder(s: State, finished: bool, pending: bool, enabled: bool)
    requires Inv(s)
    ensures RetiresInOrder(s, Tick(s, finished, pending, enabled))
  {
    RetireWithinWindow(s);
    TickMovesWindow(s, finished, pending, enabled);
    hide Tick;
    WindowShrinks(s, Tick(s, finished, pending, enabled), RetireCount(s));
  }

  lemma {:induction false} DrainRetiresInOrder(s: State, finished: bool, enabled: bool)
    requires Inv(s) && Settled(s)
    ensures RetiresInOrder(s, Drain(s, finished, enabled))
    decreases Work(s, ROB)
  {
    hide Tick, RetiresInOrder, Work, Inv, Settled;
    InvShape(s);
    if s.inFlight > Target(finished) {
      var t := Tick(s, finished, false, enabled);
      DrainStep(s, finished, enabled);
      DrainRetiresInOrder(t, finished, enabled);
      InOrderTransitive(s, t, Drain(t, finished, enabled));
    } else {
      InOrderReflexive(s);
    }
  }

  /** What one round of the drain loop guarantees. */
  lemma {:induction false} DrainStep(s: State, finished: bool, enabled: bool)
    requires Inv(s) && Settled(s) && s.inFlight > Target(finished)
    ensures var t := Tick(s, finished, false, enabled);
            Inv(t) && Settled(t) && 0 <= Work(t, ROB) < Work(s, ROB) && RetiresInOrder(s, t)
    ensures Drain(s, finished, enabled) == Drain(Tick(s, finished, false, enabled), finished, enabled)
  {
    TickKeeps(s, finished, false, enabled);
    TickSettles(s, finished, false, enabled);
    TickLowersWork(s, finished, false, enabled);
    WorkNonNegative(Tick(s, finished, false, enabled), ROB);
    TickRetiresInOrder(s, finished, false, enabled);
    hide Tick, Work, RetiresInOrder;
  }

  lemma {:induction false} TickLoopRetiresInOrder(s: State, finished: bool, enabled: bool)
    requires Inv(s)
    ensures RetiresInOrder(s, TickLoop(s, finished, enabled))
  {
    hide Tick, RetiresInOrder, Inv, Settled;
    InvShape(s);
    var t := Tick(s, finished, true, enabled);
    TickKeeps(s, finished, true, enabled);
    TickSettlesFromInv(s, finished, enabled);
    TickRetiresInOrder(s, finished, true, enabled);
    DrainRetiresInOrder(t, finished, enabled);
    InOrderTransitive(s, t, Drain(t, finished, enabled));
  }

  lemma {:induction false} TickSettlesFromInv(s: State, finished: bool, enabled: bool)
    requires Inv(s)
    ensures Settled(Tick(s, finished, true, enabled))
  {
    TickSettles(s, finished, true, enabled);
  }

  lemma {:induction false} MakeRoomRetiresInOrder(s: State, decodeSlots: int, enabled: bool)
    requires Inv(s) && decodeSlots <= MAX_DECODE_PER_CYCLE
    ensures RetiresInOrder(s, MakeRoom(s, decodeSlots, enabled))
  {
    hide TickLoop, RetiresInOrder, Inv;
    if s.decodeSlots < decodeSlots || s.inFlight == ROB {
      TickLoopRetiresInOrder(s, false, enabled);
    } else {
      InvShape(s);
      InOrderReflexive(s);
    }
  }

  /** A fed instruction goes to the young end; a move takes no slot. */
  lemma {:induction false} PlaceAppends(s: State, op: Op)
    requires HasRoom(s, op)
    ensures Sized(Place(s, op)) && Place(s, op).instructions == s.instructions + 1
    ensures Buffered(Place(s, op)) == Buffered(s) + (if op.Exec? then [s.instructions] else [])
  {
    if op.Exec? {
      var t := Allocate(s, op);
      assert Place(s, op) == t;
      assert forall a :: 0 <= a < s.inFlight ==> SlotAt(s.head, a) != s.tail;
      hide Inv;
      assert Buffered(t) == Buffered(s) + [s.instructions];
    } else {
      assert Place(s, op) == Rename(s, op);
      assert Buffered(Rename(s, op)) == Buffered(s);
    }
  }

  ghost predicate IsSuffix(whole: seq<nat>, part: seq<nat>) {
    |part| <= |whole| && whole[|whole| - |part|..] == part
  }

  lemma {:induction false} SuffixShrinks(whole: seq<nat>, part: seq<nat>, n: nat)
    requires IsSuffix(whole, part) && n <= |part|
    ensures IsSuffix(whole, part[n..])
  {
    assert whole[|whole| - |part|..][n..] == whole[|whole| - |part| + n..];
  }

  lemma {:induction false} SuffixAppends(whole: seq<nat>, part: seq<nat>, more: seq<nat>)
    requires IsSuffix(whole, part)
    ensures IsSuffix(whole + more, part + more)
  {
    assert (whole + more)[|whole| - |part|..] == whole[|whole| - |part|..] + more;
  }

  /** The buffer holds the youngest of the first `n` instructions, in program order. */
  ghost predicate HoldsYoungest(ops: seq<Op>, n: nat, s: State) {
    n <= |ops| && Sized(s) && s.instructions == n && IsSuffix(Dispatched(ops, n), Buffered(s))
  }

  lemma {:induction false} YoungestAfterRetiring(ops: seq<Op>, n: nat, s: State, t: State)
    requires HoldsYoungest(ops, n, s) && RetiresInOrder(s, t)
    ensures HoldsYoungest(ops, n, t)
  {
    SuffixShrinks(Dispatched(ops, n), Buffered(s), s.inFlight - t.inFlight);
  }

  lemma {:induction false} YoungestAfterPlacing(ops: seq<Op>, n: nat, s: State)
    requires HoldsYoungest(ops, n, s) && n < |ops| && HasRoom(s, ops[n])
    ensures HoldsYoungest(ops, n + 1, Place(s, ops[n]))
  {
    PlaceAppends(s, ops[n]);
    hide Place, Inv;
    SuffixAppends(Dispatched(ops, n), Buffered(s), if ops[n].Exec? then [n] else []);
  }

  /** At every point of a block, the buffer holds the youngest dispatched instructions in program order;
      so those that have retired are the oldest ones, in program order, each exactly once. */
  lemma {:induction false} BufferIsYoungestPart(start: State, ops: seq<Op>, n: nat, enabled: bool)
    requires Cleared(start) && ValidOps(ops) && n <= |ops|
    ensures HoldsYoungest(ops, n, FeedFirst(start, ops, n, enabled))
  {
    hide MakeRoom, Place, HoldsYoungest, Inv;
    if n == 0 {
      ClearedHoldsNone(start, ops);
    } else {
      BufferIsYoungestPart(start, ops, n - 1, enabled);
      var before := FeedFirst(start, ops, n - 1, enabled);
      var op := ops[n - 1];
      var room := MakeRoom(before, DecodeSlotsOf(op), enabled);
      MakeRoomRetiresInOrder(before, DecodeSlotsOf(op), enabled);
      YoungestAfterRetiring(ops, n - 1, before, room);
      YoungestAfterPlacing(ops, n - 1, room);
    }
  }

  lemma {:induction false} ClearedHoldsNone(start: State, ops: seq<Op>)
    requires Cleared(start)
    ensures HoldsYoungest(ops, 0, start)
  {
  }
}
