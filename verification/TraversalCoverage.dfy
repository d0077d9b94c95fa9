/** Both traversals deliver every marked instruction exactly once, in order. */
module TraversalCoverage {
  import opened Wrappers
  import opened Bytes
  import opened Codec
  import opened Bitmask
  import opened Traversal

  /** Who is walking: the iterator, the visitor loop, or nobody in particular. */
  datatype Walker = Iterating | Visiting | Silent

  /** Whether the walker adds an `Invalid` after the instruction at `o`. The visitor does not ask the fast step
      whether the instruction can fall through. */
  predicate Traps(w: Walker, p: Program, o: nat)
    requires o < |p.code| && |p.isa.fromRaw| == 256
  {
    match w
    case Iterating => StepInvalid(p, o) && CanFallThrough(p, o)
    case Visiting => StepInvalid(p, o)
    case Silent => false
  }

  /** The marked instructions from `o` on, each followed by the walker's `Invalid`, if any. */
  function Visits(p: Program, o: nat, w: Walker): seq<Event>
    requires |p.code| < U32 && |p.isa.fromRaw| == 256
    decreases |p.code| - o
  {
    if o >= |p.code| then []
    else
      [Event(o, InstructionAt(p, o))]
      + (if Traps(w, p, o) then [Event(NextAfter(p, o), Invalid)] else [])
      + Visits(p, NextMarked(p, o + 1), w)
  }

  /** The `Invalid` in front of code that does not start with an instruction. */
  function Lead(p: Program): seq<Event> {
    if GetBit(p.bitmask, |p.code|, 0) then [] else [Event(0, Invalid)]
  }

  /** Everything an iterator delivers. */
  function Collect(p: Program, bounded: bool, it: Iter): seq<Event>
    requires |p.code| < U32 && |p.isa.fromRaw| == 256
    decreases if it.offset <= |p.code| then |p.code| + 1 - it.offset else 0, it.invalidAt.Some?
  {
    var (item, rest) := Advance(p, bounded, it);
    if item == None then [] else [Event(item.value.offset, item.value.kind)] + Collect(p, bounded, rest)
  }

  lemma {:induction false} DecodedFallsThrough(p: Program, o: nat)
    requires o < |p.code| < U32 && |p.isa.fromRaw| == 256
    ensures OpcodeOf(InstructionAt(p, o)).canFallthrough == CanFallThrough(p, o)
  {
    hide DecodeArgs, FromLe, SlowChunk;
  }

  /** A step that reports a following instruction ends at the next mark or at the end of the code. */
  lemma {:induction false} NextWhenValid(p: Program, o: nat)
    requires ValidProgram(p) && o < |p.code| && !StepInvalid(p, o)
    ensures NextAfter(p, o) == NextMarked(p, o + 1)
  {
    hide Mark;
    var t := NextMark(p.bitmask, o + 1);
    assert t > o + 25 ==> !Mark(p.bitmask, o + 25);
  }

  /** A step that reports none ends before the next mark, so looking from there finds it. */
  lemma {:induction false} NextWhenInvalid(p: Program, o: nat)
    requires ValidProgram(p) && o < |p.code|
    ensures NextMarked(p, NextAfter(p, o)) == NextMarked(p, o + 1)
  {
    hide Mark;
    var t, n := NextMark(p.bitmask, o + 1), NextAfter(p, o);
    NextMarkFrom(p.bitmask, o + 1, n);
  }

  /** After the instruction at `o` the iterator holds the `Invalid` due there and goes on with the next mark. */
  lemma {:induction false} IteratorStep(p: Program, o: nat)
    requires ValidProgram(p) && o < |p.code|
    ensures var next := After(p, o, false);
            && !next.done && o < next.offset
            && next.invalidAt == (if Traps(Iterating, p, o) then Some(NextAfter(p, o)) else None)
            && Visits(p, next.offset, Iterating) == Visits(p, NextMarked(p, o + 1), Iterating)
  {
    hide InstructionAt, StepInvalid, CanFallThrough, NextMark, Skip, Visits;
    DecodedFallsThrough(p, o);
    AfterEnd(p, |p.code|, Iterating);
    AfterEnd(p, |p.code| + 1, Iterating);
    if StepInvalid(p, o) {
      NextWhenInvalid(p, o);
    } else {
      NextWhenValid(p, o);
    }
  }

  /** The iterator delivers the marked instructions, with an `Invalid` after exactly those it can fall out of. */
  lemma {:induction false} IteratorVisits(p: Program, it: Iter)
    requires ValidProgram(p) && it.invalidAt == None && !it.done
    ensures Collect(p, false, it) == Visits(p, it.offset, Iterating)
    decreases if it.offset <= |p.code| then |p.code| + 1 - it.offset else 0
  {
    hide InstructionAt, Traps, NextMarked, NextAfter, After;
    var o := it.offset;
    if o < |p.code| {
      var next := After(p, o, false);
      IteratorStep(p, o);
      IteratorVisits(p, next.(invalidAt := None));
      assert Collect(p, false, it) == [Event(o, InstructionAt(p, o))] + Collect(p, false, next);
    }
  }

  lemma {:induction false} AfterEnd(p: Program, o: nat, w: Walker)
    requires |p.code| < U32 && |p.isa.fromRaw| == 256
    ensures o >= |p.code| ==> Visits(p, o, w) == [] && Visits(p, NextMarked(p, o), w) == []
  {
  }

  /** The whole run of the unbounded iterator. */
  lemma {:induction false} IteratorCoversAll(p: Program)
    requires ValidProgram(p)
    ensures Collect(p, false, Start(p, 0, false)) == Lead(p) + Visits(p, NextMarked(p, 0), Iterating)
  {
    hide NextMark, Visits, Mark;
    var it := Start(p, 0, false);
    IteratorVisits(p, it.(invalidAt := None));
    if GetBit(p.bitmask, |p.code|, 0) { FirstMark(p); }
  }

  lemma {:induction false} FirstMark(p: Program)
    requires ValidProgram(p) && GetBit(p.bitmask, |p.code|, 0)
    ensures NextMarked(p, 0) == 0
  {
  }

  /** The visitor loop. */
  method VisitorRun(p: Program) returns (trace: seq<Event>)
    requires ValidProgram(p)
    ensures trace == Lead(p) + Visits(p, NextMarked(p, 0), Visiting)
  {
    hide NextMark, Mark, Visits, StepInvalid, InstructionAt;
    trace := [];
    var offset := 0;
    if !GetBit(p.bitmask, |p.code|, 0) {
      trace := trace + [Event(0, Invalid)];
      offset := FindNextOffset(p.bitmask, |p.code|, 0);
    } else {
      FirstMark(p);
    }
    ghost var all := Lead(p) + Visits(p, NextMarked(p, 0), Visiting);
    while offset + 32 <= |p.code|
      invariant offset <= |p.code| && trace + Visits(p, offset, Visiting) == all
    {
      offset, trace := VisitorStep(p, offset, trace);
    }
    while offset < |p.code|
      invariant offset <= |p.code| && trace + Visits(p, offset, Visiting) == all
    {
      offset, trace := VisitorStep(p, offset, trace);
    }
    AfterEnd(p, offset, Visiting);
  }

  /** One turn of the visitor loop: the instruction, and an `Invalid` if the step reports one. */
  method VisitorStep(p: Program, o: nat, seen: seq<Event>) returns (offset: nat, trace: seq<Event>)
    requires ValidProgram(p) && o < |p.code|
    ensures o < offset <= |p.code|
    ensures trace + Visits(p, offset, Visiting) == seen + Visits(p, o, Visiting)
  {
    hide NextMark, Mark, StepInvalid, InstructionAt, Skip;
    var next, kind, invalid := ParseInstruction(p, o);
    trace := seen + [Event(o, kind)];
    offset := next;
    if invalid {
      NextWhenInvalid(p, o);
      trace := trace + [Event(offset, Invalid)];
      if offset < |p.code| {
        offset := FindNextOffset(p.bitmask, |p.code|, offset);
      } else {
        AfterEnd(p, offset, Visiting);
      }
    } else {
      NextWhenValid(p, o);
    }
  }

  // ---------- What a visit list means ----------

  /** `full` is `core` with some `Invalid` events put in. */
  predicate AddsOnlyInvalid(full: seq<Event>, core: seq<Event>) {
    if full == [] then core == []
    else
      || (core != [] && full[0] == core[0] && AddsOnlyInvalid(full[1..], core[1..]))
      || (full[0].kind.Invalid? && AddsOnlyInvalid(full[1..], core))
  }

  /** Both walkers deliver the same instructions, once their own `Invalid` events are erased. */
  lemma {:induction false} WalkersAgree(p: Program, o: nat, w: Walker)
    requires ValidProgram(p)
    ensures AddsOnlyInvalid(Visits(p, o, w), Visits(p, o, Silent))
    decreases |p.code| - o
  {
    hide InstructionAt, NextMark, Traps, Skip;
    if o < |p.code| {
      var n := NextMarked(p, o + 1);
      WalkersAgree(p, n, w);
      var core := Visits(p, o, Silent);
      assert !Traps(Silent, p, o) by { SilentNever(p, o); }
      assert core[1..] == Visits(p, n, Silent);
      var full := Visits(p, o, w);
      if Traps(w, p, o) {
        var trap := Event(NextAfter(p, o), Invalid);
        assert full[1..] == [trap] + Visits(p, n, w);
        assert full[1..][1..] == Visits(p, n, w);
        assert AddsOnlyInvalid(full[1..], core[1..]);
      } else {
        assert full[1..] == Visits(p, n, w);
      }
    }
  }

  lemma {:induction false} SilentNever(p: Program, o: nat)
    requires o < |p.code| && |p.isa.fromRaw| == 256
    ensures !Traps(Silent, p, o)
  {
  }

  ghost predicate StrictlyIncreasing(s: seq<Event>) {
    forall i, j :: 0 <= i < j < |s| ==> s[i].offset < s[j].offset
  }

  /** Every event is a marked instruction from `o` on. */
  ghost predicate OnlyMarked(p: Program, o: nat, s: seq<Event>)
    requires |p.code| < U32 && |p.isa.fromRaw| == 256
  {
    forall k :: 0 <= k < |s| ==>
      o <= s[k].offset < |p.code| && Mark(p.bitmask, s[k].offset) && s[k].kind == InstructionAt(p, s[k].offset)
  }

  /** Every marked position from `o` on has its event. */
  ghost predicate AllMarked(p: Program, o: nat, s: seq<Event>) {
    forall i :: o <= i < |p.code| && Mark(p.bitmask, i) ==> exists k :: 0 <= k < |s| && s[k].offset == i
  }

  /** The instructions delivered from a mark on are exactly the marked ones, each once, in order. */
  lemma {:induction false} VisitsAreTheMarks(p: Program, o: nat)
    requires ValidProgram(p) && (o < |p.code| ==> Mark(p.bitmask, o))
    ensures var s := Visits(p, o, Silent); StrictlyIncreasing(s) && OnlyMarked(p, o, s) && AllMarked(p, o, s)
    decreases |p.code| - o
  {
    hide InstructionAt, Mark, Skip, Traps, NextMark, AllMarked;
    if o < |p.code| {
      SilentNever(p, o);
      var n := NextMarked(p, o + 1);
      VisitsAreTheMarks(p, n);
      assert Visits(p, o, Silent) == [Event(o, InstructionAt(p, o))] + Visits(p, n, Silent);
      MarkedFrom(p, o, InstructionAt(p, o), Visits(p, n, Silent));
    } else {
      NothingMarked(p, o);
    }
  }

  lemma {:induction false} MarkedFrom(p: Program, o: nat, kind: Instruction, rest: seq<Event>)
    requires AllMarked(p, NextMarked(p, o + 1), rest)
    ensures AllMarked(p, o, [Event(o, kind)] + rest)
  {
    hide Mark;
    var s := [Event(o, kind)] + rest;
    forall i | o <= i < |p.code| && Mark(p.bitmask, i) ensures exists k :: 0 <= k < |s| && s[k].offset == i {
      if i == o {
        assert s[0].offset == i;
      } else {
        var k :| 0 <= k < |rest| && rest[k].offset == i;
        assert s[k + 1].offset == i;
      }
    }
  }

  lemma {:induction false} NothingMarked(p: Program, o: nat)
    requires o >= |p.code|
    ensures AllMarked(p, o, [])
  {
  }

  /** What the iterator and the visitor loop deliver, less the `Invalid` events they put in, are the marked
      instructions, each once and in order. */
  lemma {:induction false} BothDeliverTheMarks(p: Program)
    requires ValidProgram(p)
    ensures var marked := Visits(p, NextMarked(p, 0), Silent);
            && AddsOnlyInvalid(Collect(p, false, Start(p, 0, false)), marked)
            && AddsOnlyInvalid(Lead(p) + Visits(p, NextMarked(p, 0), Visiting), marked)
            && StrictlyIncreasing(marked) && OnlyMarked(p, 0, marked) && AllMarked(p, 0, marked)
  {
    hide Visits, AddsOnlyInvalid, Collect, OnlyMarked, AllMarked, NextMark, Mark;
    var o := NextMarked(p, 0);
    var marked := Visits(p, o, Silent);
    IteratorCoversAll(p);
    WalkersAgree(p, o, Iterating);
    WalkersAgree(p, o, Visiting);
    LeadAddsInvalid(p, Visits(p, o, Iterating), marked);
    LeadAddsInvalid(p, Visits(p, o, Visiting), marked);
    VisitsAreTheMarks(p, o);
    FromTheFirst(p, marked);
  }

  lemma {:induction false} LeadAddsInvalid(p: Program, full: seq<Event>, core: seq<Event>)
    requires AddsOnlyInvalid(full, core)
    ensures AddsOnlyInvalid(Lead(p) + full, core)
  {
    hide Mark;
    if GetBit(p.bitmask, |p.code|, 0) {
      assert Lead(p) + full == full;
    } else {
      assert (Lead(p) + full)[1..] == full;
    }
  }

  lemma {:induction false} FromTheFirst(p: Program, s: seq<Event>)
    requires ValidProgram(p) && OnlyMarked(p, NextMarked(p, 0), s) && AllMarked(p, NextMarked(p, 0), s)
    ensures OnlyMarked(p, 0, s) && AllMarked(p, 0, s)
  {
    hide Mark, InstructionAt;
  }
}
