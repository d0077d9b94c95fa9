/** The pipeline gas simulator as a state machine: a circular reorder buffer with register
    renaming. A lane vector is a sequence with one element per lane, and a bit mask
    is the set of the positions of its one-bits. */
module Pipeline {
  import opened Wrappers
  import opened Resources

  const ROB := 32
  const REGS := 16
  const MAX_DECODE_PER_CYCLE := 4
  const GAS_COST_SLACK := 3
  const START_ATTEMPTS := 5

  // What a reorder buffer slot is doing.
  const FREE := 0
  const DECODING := 1
  const WAITING := 2
  const EXECUTING := 3
  const EXECUTED := 4

  datatype State = State(
    cycles: nat,
    instructions: nat,
    decodeSlots: int,
    available: int,          // packed, guard bits set
    inFlight: int,
    head: int,
    tail: int,
    id: seq<nat>,            // which instruction a slot holds
    phase: seq<int>,
    remaining: seq<int>,     // cycles left to execute
    required: seq<Counts>,   // the counts packed into the lane
    deps: seq<set<int>>,     // slots this slot still waits for
    written: seq<set<int>>,  // registers whose latest value this slot will produce
    entry: seq<int>          // per register, the slot that will produce it, or -1
  )

  predicate IsSlot(i: int) { 0 <= i < ROB }

  /** Distance from the oldest slot, going round the buffer. */
  function Age(head: int, i: int): int {
    if i >= head then i - head else i + ROB - head
  }

  /** The slot at a given age. */
  function SlotAt(head: int, age: int): int {
    if head + age >= ROB then head + age - ROB else head + age
  }

  predicate Shape(s: State) {
    && |s.id| == |s.phase| == |s.remaining| == |s.required| == |s.deps| == |s.written| == ROB
    && |s.entry| == REGS
    && IsSlot(s.head) && IsSlot(s.tail)
  }

  /** The same value in every lane. */
  function Splat<T>(n: nat, value: T): (v: seq<T>)
    ensures |v| == n && forall i :: 0 <= i < n ==> v[i] == value
  {
    seq(n, _ => value)
  }

  // ---------- One cycle, step by step ----------

  /** How many slots in a row, from age `age` on, have executed. */
  function ExecutedRun(s: State, age: int): (n: int)
    requires Shape(s) && 0 <= age <= ROB
    ensures 0 <= n <= ROB - age
    ensures forall a :: age <= a < age + n ==> s.phase[SlotAt(s.head, a)] == EXECUTED
    ensures age + n < ROB ==> s.phase[SlotAt(s.head, age + n)] != EXECUTED
    decreases ROB - age
  {
    if age < ROB && s.phase[SlotAt(s.head, age)] == EXECUTED then 1 + ExecutedRun(s, age + 1) else 0
  }

  function RetireCount(s: State): (n: int)
    requires Shape(s)
  {
    ExecutedRun(s, 0)
  }

  /** Frees the `n` oldest slots. */
  function RetireFirst(s: State, n: int): State
    requires Shape(s) && 0 <= n <= ROB
  {
    s.(phase := seq(ROB, i requires 0 <= i < ROB => if Age(s.head, i) < n then FREE else s.phase[i]),
       inFlight := s.inFlight - n,
       head := SlotAt(s.head, n))
  }

  predicate Startable(s: State, i: int)
    requires Shape(s) && IsSlot(i)
  {
    s.phase[i] == WAITING && s.deps[i] == {} && EnoughFor(s.available, Pack(s.required[i]))
  }

  /** The least age, from `age` on, at which a slot can start, or `ROB`. */
  function FirstStartable(s: State, age: int): (first: int)
    requires Shape(s) && 0 <= age <= ROB
    ensures age <= first <= ROB
    ensures first < ROB ==> Startable(s, SlotAt(s.head, first))
    ensures forall a :: age <= a < first ==> !Startable(s, SlotAt(s.head, a))
    decreases ROB - age
  {
    if age == ROB || Startable(s, SlotAt(s.head, age)) then age else FirstStartable(s, age + 1)
  }

  function StartSlot(s: State, i: int): State
    requires Shape(s) && IsSlot(i)
  {
    s.(available := s.available - Pack(s.required[i]), phase := s.phase[i := EXECUTING])
  }

  /** Starts the oldest slot that can start, at most `attempts` times in a row. */
  function StartUpTo(s: State, attempts: nat): (r: State)
    requires Shape(s)
    ensures Shape(r)
    decreases attempts
  {
    var age := FirstStartable(s, 0);
    if attempts == 0 || age == ROB then s
    else StartUpTo(StartSlot(s, SlotAt(s.head, age)), attempts - 1)
  }

  /** Least number of cycles left among the executing slots below `n`, read as unsigned bytes; 255 if none. */
  function LeastRemaining(s: State, n: nat): int
    requires Shape(s) && n <= ROB
  {
    if n == 0 then 255 else
      var rest := LeastRemaining(s, n - 1);
      var lane := if s.phase[n - 1] == EXECUTING then s.remaining[n - 1] % 256 else 255;
      if lane < rest then lane else rest
  }

  /** How many cycles this tick stands for. The minimum is read back as a signed byte,
      so anything above 127 counts as negative. */
  function CyclesToCharge(s: State, mayFastForward: bool): (k: int)
    requires Shape(s)
    ensures 1 <= k < 128
  {
    var most := LeastRemaining(s, ROB);
    if mayFastForward && 0 < most < 128 then most else 1
  }

  function SaturatingSub(a: int, b: int): int {
    if a - b < -128 then -128 else a - b
  }

  /** Slots that run out of cycles when `k` cycles pass. */
  function Finishing(s: State, k: int): set<int>
    requires Shape(s)
  {
    set i | 0 <= i < ROB && s.phase[i] == EXECUTING && SaturatingSub(s.remaining[i], k) == 0
  }

  /** Sum of the packed lanes below `n` that lie in `mask`. */
  function PackedSum(v: seq<Counts>, mask: set<int>, n: nat): int
    requires n <= |v|
  {
    if n == 0 then 0 else PackedSum(v, mask, n - 1) + (if n - 1 in mask then Pack(v[n - 1]) else 0)
  }

  /** Registers released by the slots in `mask`. */
  function Released(s: State, mask: set<int>): set<int>
    requires Shape(s)
  {
    set i, r | i in mask && 0 <= i < ROB && r in s.written[i] :: r
  }

  /** `k` cycles pass for everything that is executing. */
  function Execute(s: State, k: int): State
    requires Shape(s)
  {
    var fin := Finishing(s, k);
    s.(remaining := seq(ROB, i requires 0 <= i < ROB =>
                          if s.phase[i] == EXECUTING then SaturatingSub(s.remaining[i], k) else s.remaining[i]),
       deps := seq(ROB, i requires 0 <= i < ROB => s.deps[i] - fin),
       written := seq(ROB, i requires 0 <= i < ROB => if i in fin then {} else s.written[i]),
       entry := seq(REGS, r requires 0 <= r < REGS => if r in Released(s, fin) then -1 else s.entry[r]),
       available := s.available + PackedSum(s.required, fin, ROB) % WORD16,
       required := seq(ROB, i requires 0 <= i < ROB => if i in fin then NONE else s.required[i]),
       phase := seq(ROB, i requires 0 <= i < ROB =>
                      if s.phase[i] == EXECUTING && SaturatingSub(s.remaining[i], k) == -1 then EXECUTED
                      else s.phase[i]))
  }

  function FinishDecoding(s: State): State
    requires Shape(s)
  {
    s.(phase := seq(ROB, i requires 0 <= i < ROB => if s.phase[i] == DECODING then WAITING else s.phase[i]),
       decodeSlots := MAX_DECODE_PER_CYCLE)
  }

  /** The end of a tick: decoded instructions move on and the cycles are charged. */
  function Settle(s: State, k: nat, pending: bool): State
    requires Shape(s)
  {
    var moved := if pending then FinishDecoding(s) else s;
    moved.(cycles := s.cycles + k)
  }

  /** The state after the first two steps of a tick: what is done retires, what can start starts. */
  function Issue(s: State): (r: State)
    requires Shape(s)
    ensures Shape(r)
  {
    StartUpTo(RetireFirst(s, RetireCount(s)), START_ATTEMPTS)
  }

  /** Whether a tick is allowed to stand for more than one cycle. */
  predicate MayFastForward(s: State, finished: bool, pending: bool, enabled: bool)
    requires Shape(s)
  {
    !pending && enabled && (finished || RetireCount(s) == 0)
  }

  /** One tick: retire, start, execute, move decoded instructions on. */
  function Tick(s: State, finished: bool, pending: bool, enabled: bool): (r: State)
    requires Shape(s)
    ensures Shape(r)
  {
    var issued := Issue(s);
    var k := CyclesToCharge(issued, MayFastForward(s, finished, pending, enabled));
    Settle(Execute(issued, k), k, pending)
  }

  // ---------- Feeding instructions ----------

  datatype InstCost = InstCost(latency: int, decodeSlots: int, counts: Counts)

  datatype Op =
    | Exec(dst: Option<int>, src1: Option<int>, src2: Option<int>, cost: InstCost)
    | Move(to: int, from: int)

  predicate IsReg(r: int) { 0 <= r < REGS }

  predicate IsOptReg(r: Option<int>) { r.Some? ==> IsReg(r.value) }

  /** What the dispatcher relies on. A latency is a signed byte and at least one. */
  predicate ValidOp(op: Op) {
    match op
    case Exec(dst, src1, src2, cost) =>
      IsOptReg(dst) && IsOptReg(src1) && IsOptReg(src2) && (src2.Some? ==> src1.Some?) &&
      1 <= cost.latency <= 127 && 1 <= cost.decodeSlots <= MAX_DECODE_PER_CYCLE && WithinCapacity(cost.counts)
    case Move(to, from) => IsReg(to) && IsReg(from)
  }

  function DecodeSlotsOf(op: Op): int {
    if op.Exec? then op.cost.decodeSlots else 1
  }

  /** The slot that a source register waits for. */
  function DependencyOn(s: State, src: Option<int>): set<int>
    requires Shape(s) && IsOptReg(src)
  {
    if src.Some? && s.entry[src.value] != -1 then {s.entry[src.value]} else {}
  }

  /** Puts an instruction into the slot at the tail. */
  function Allocate(s: State, op: Op): State
    requires Shape(s) && ValidOp(op) && op.Exec?
  {
    var slot := s.tail;
    s.(tail := SlotAt(s.tail, 1),
       remaining := s.remaining[slot := op.cost.latency],
       required := s.required[slot := op.cost.counts],
       deps := if op.src1.None? then s.deps
               else s.deps[slot := DependencyOn(s, op.src1) + DependencyOn(s, op.src2)],
       written := if op.dst.None? then s.written
                  else seq(ROB, i requires 0 <= i < ROB =>
                             if i == slot then s.written[i] + {op.dst.value} else s.written[i] - {op.dst.value}),
       entry := if op.dst.None? then s.entry else s.entry[op.dst.value := slot],
       phase := s.phase[slot := s.phase[slot] + 1],
       id := s.id[slot := s.instructions],
       inFlight := s.inFlight + 1,
       instructions := s.instructions + 1,
       decodeSlots := s.decodeSlots - op.cost.decodeSlots)
  }

  /** A register move only renames: the destination is produced by whoever produces the source. */
  function Rename(s: State, op: Op): State
    requires Shape(s) && ValidOp(op) && op.Move?
    requires -1 <= s.entry[op.to] < ROB && -1 <= s.entry[op.from] < ROB
  {
    var previous := s.entry[op.to];
    var producer := s.entry[op.from];
    var cleared := if previous != -1 then s.written[previous := s.written[previous] - {op.to}] else s.written;
    s.(written := if producer != -1 then cleared[producer := cleared[producer] + {op.to}] else cleared,
       entry := s.entry[op.to := producer],
       instructions := s.instructions + 1,
       decodeSlots := s.decodeSlots - 1)
  }

  /** The state in which a block starts. */
  predicate Cleared(s: State) {
    && Shape(s) && s.cycles == 0 && s.instructions == 0 && s.decodeSlots == MAX_DECODE_PER_CYCLE
    && s.available == Available(CAPACITY) && s.inFlight == 0 && s.head == 0 && s.tail == 0
    && (forall i :: 0 <= i < ROB ==>
          s.id[i] == 0 && s.phase[i] == FREE && s.remaining[i] == 0 && s.required[i] == NONE && s.deps[i] == {} &&
            s.written[i] == {})
    && (forall r :: 0 <= r < REGS ==> s.entry[r] == -1)
  }
}
