/** When a walker reports an invalid instruction where an instruction starts. */
module TraversalBoundary {
  import opened Arith
  import opened Bytes
  import opened Bits
  import opened Codec
  import opened Bitmask
  import opened Traversal
  import opened TraversalCoverage

  /** Close to the end of the code, the next instruction starts 25 bytes on, at a byte boundary of the mask. */
  predicate AtBoundary(p: Program, o: nat) {
    o + 32 > |p.code| && NextMark(p.bitmask, o + 1) == o + 25 < |p.code| && (o + 25) % 8 == 0
  }

  /** Exactly there a step reports that no instruction follows and ends where one starts. */
  lemma {:induction false} FalseReportIffBoundary(p: Program, o: nat)
    requires ValidProgram(p) && o < |p.code|
    ensures StepInvalid(p, o) && NextAfter(p, o) < |p.code| && Mark(p.bitmask, NextAfter(p, o)) <==> AtBoundary(p, o)
  {
    hide Mark;
    var t := NextMark(p.bitmask, o + 1);
    assert t > o + 25 ==> !Mark(p.bitmask, o + 25);
  }

  /** The walker puts an `Invalid` in front of an instruction, at that instruction's own offset. */
  predicate FalseTrap(p: Program, o: nat, w: Walker)
    requires o < |p.code| && |p.isa.fromRaw| == 256
  {
    AtBoundary(p, o) && (w.Iterating? ==> CanFallThrough(p, o))
  }

  lemma {:induction false} TrapBeforeNext(p: Program, o: nat, w: Walker)
    requires ValidProgram(p) && o < |p.code| && w != Silent
    ensures o < NextAfter(p, o) <= NextMarked(p, o + 1)
    ensures FalseTrap(p, o, w) <==>
            Traps(w, p, o) && NextMarked(p, o + 1) < |p.code| && NextAfter(p, o) == NextMarked(p, o + 1)
  {
    hide Mark, StepInvalid, CanFallThrough;
    FalseReportIffBoundary(p, o);
  }

  /** No instruction from `o` on has a false trap after it. */
  ghost predicate NoFalseTraps(p: Program, o: nat, w: Walker)
    requires |p.isa.fromRaw| == 256
  {
    forall i :: o <= i < |p.code| && Mark(p.bitmask, i) ==> !FalseTrap(p, i, w)
  }

  ghost predicate StartsAt(s: seq<Event>, o: nat) {
    (s != [] ==> s[0].offset == o) && forall k :: 0 <= k < |s| ==> o <= s[k].offset
  }

  lemma {:induction false} Prepend(e: Event, s: seq<Event>, o: nat)
    requires StartsAt(s, o) && e.offset <= o
    ensures StartsAt([e] + s, e.offset)
    ensures StrictlyIncreasing([e] + s) <==> StrictlyIncreasing(s) && (s != [] ==> e.offset < o)
  {
    var t := [e] + s;
    if StrictlyIncreasing(t) {
      forall i, j | 0 <= i < j < |s| ensures s[i].offset < s[j].offset {
        assert t[i + 1].offset < t[j + 1].offset;
      }
      if s != [] { assert t[0].offset < t[1].offset; }
    }
  }

  lemma {:induction false} NoFalseTrapsFrom(p: Program, o: nat, w: Walker)
    requires ValidProgram(p) && o < |p.code| && Mark(p.bitmask, o)
    ensures NoFalseTraps(p, o, w) <==> !FalseTrap(p, o, w) && NoFalseTraps(p, NextMarked(p, o + 1), w)
  {
    hide FalseTrap, Mark;
  }

  /** The offsets a walker reports strictly increase exactly when no instruction has a false trap after it. */
  lemma {:induction false} IncreasingIff(p: Program, o: nat, w: Walker)
    requires ValidProgram(p) && w != Silent && (o < |p.code| ==> Mark(p.bitmask, o))
    ensures StartsAt(Visits(p, o, w), o) && (o < |p.code| ==> Visits(p, o, w) != [])
    ensures StrictlyIncreasing(Visits(p, o, w)) <==> NoFalseTraps(p, o, w)
    decreases |p.code| - o
  {
    hide Mark, NextAfter, InstructionAt, Traps, FalseTrap, StartsAt, StrictlyIncreasing, NoFalseTraps, NextMark;
    if o < |p.code| {
      var n := NextMarked(p, o + 1);
      IncreasingIff(p, n, w);
      TrapBeforeNext(p, o, w);
      NoFalseTrapsFrom(p, o, w);
      var rest := Visits(p, n, w);
      var first, trap := Event(o, InstructionAt(p, o)), Event(NextAfter(p, o), Invalid);
      if Traps(w, p, o) {
        Prepend(trap, rest, n);
        Prepend(first, [trap] + rest, trap.offset);
        assert Visits(p, o, w) == [first] + ([trap] + rest);
      } else {
        Prepend(first, rest, n);
        assert Visits(p, o, w) == [first] + rest;
      }
    } else {
      NothingFrom(p, o, w);
    }
  }

  lemma {:induction false} NothingFrom(p: Program, o: nat, w: Walker)
    requires ValidProgram(p) && o >= |p.code|
    ensures Visits(p, o, w) == [] && StartsAt([], o) && StrictlyIncreasing([]) && NoFalseTraps(p, o, w)
  {
  }

  /** The `Invalid` in front of the first instruction repeats no offset. */
  lemma {:induction false} LeadKeepsOrder(p: Program, w: Walker)
    requires ValidProgram(p) && w != Silent
    ensures StrictlyIncreasing(Lead(p) + Visits(p, NextMarked(p, 0), w)) <==> NoFalseTraps(p, 0, w)
  {
    hide NextMark, Visits, FalseTrap, StrictlyIncreasing, Mark;
    var n := NextMarked(p, 0);
    var rest := Visits(p, n, w);
    IncreasingIff(p, n, w);
    if GetBit(p.bitmask, |p.code|, 0) {
      FirstMark(p);
      assert Lead(p) + rest == rest;
    } else {
      if n >= |p.code| { NothingFrom(p, n, w); }
      Prepend(Event(0, Invalid), rest, n);
    }
  }

  /** Over a whole run, the iterator and the visitor loop report each offset once exactly when no instruction
      is followed by a false trap: the visitor after any instruction at the boundary, the iterator only if
      that instruction can fall through. */
  lemma {:induction false} BothReportOnceIff(p: Program)
    requires ValidProgram(p)
    ensures StrictlyIncreasing(Collect(p, false, Start(p, 0, false))) <==> NoFalseTraps(p, 0, Iterating)
    ensures StrictlyIncreasing(Lead(p) + Visits(p, NextMarked(p, 0), Visiting)) <==> NoFalseTraps(p, 0, Visiting)
  {
    hide Collect, Visits, StrictlyIncreasing, NoFalseTraps, NextMark;
    IteratorCoversAll(p);
    LeadKeepsOrder(p, Iterating);
    LeadKeepsOrder(p, Visiting);
  }

  // ---------- Thirty-three bytes of code ----------

  /** Instructions start at 7 and at 32. */
  function TwoMarks(isa: Isa, code: seq<byte>): Program {
    Program(isa, code, [128, 0, 0, 0, 1])
  }

  lemma {:induction false} TwoMarksAre(isa: Isa, code: seq<byte>, i: nat)
    requires |code| == 33
    ensures Mark(TwoMarks(isa, code).bitmask, i) <==> i == 7 || i == 32
  {
    hide BitAt;
    Pow2Values();
    if i / 8 == 0 {
      PowerBits(7, i % 8);
    } else if i / 8 < 4 {
      ZeroHasNoBits(i % 8);
    } else if i / 8 == 4 {
      PowerBits(0, i % 8);
    }
  }

  /** Whatever the code, the visitor loop reports offset 32 twice, and so does the iterator if the
      instruction at 7 can fall through. */
  lemma {:induction false} OffsetReportedTwice(isa: Isa, code: seq<byte>)
    requires |isa.fromRaw| == 256 && |code| == 33
    ensures var p := TwoMarks(isa, code);
            && ValidProgram(p) && StepInvalid(p, 7) && NextAfter(p, 7) == 32 && Mark(p.bitmask, 32)
            && !StrictlyIncreasing(Lead(p) + Visits(p, NextMarked(p, 0), Visiting))
            && (CanFallThrough(p, 7) <==> !StrictlyIncreasing(Collect(p, false, Start(p, 0, false))))
  {
    hide Mark, Collect, Visits, StrictlyIncreasing, CanFallThrough, StepInvalid;
    var p := TwoMarks(isa, code);
    forall i: nat ensures Mark(p.bitmask, i) <==> i == 7 || i == 32 {
      TwoMarksAre(isa, code, i);
    }
    NextMarkIs(p.bitmask, 8, 32);
    FalseReportIffBoundary(p, 7);
    BothReportOnceIff(p);
    assert FalseTrap(p, 7, Visiting) && (FalseTrap(p, 7, Iterating) <==> CanFallThrough(p, 7));
    assert !AtBoundary(p, 32);
  }
}
