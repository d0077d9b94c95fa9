/** Execution resources of the gas simulator, packed into one machine word.
    Each count sits in its own bit field with one guard bit above it, so that a
    single subtraction followed by a mask test compares all five counts at once. */
module Resources {
  import opened Arith

  const MAX_ALU_SLOTS := 4
  const MAX_LOAD_SLOTS := 4
  const MAX_STORE_SLOTS := 4
  const MAX_MUL_SLOTS := 1
  const MAX_DIV_SLOTS := 1

  // Field widths 3, 3, 3, 1, 1, each followed by a guard bit: offsets 0, 4, 8, 12, 14.
  const LOAD_UNIT := 0x10
  const STORE_UNIT := 0x100
  const MUL_UNIT := 0x1000
  const DIV_UNIT := 0x4000

  /** Guard bits 3, 7, 11, 13 and 15. */
  const UNDERFLOW_MASK := 0xA888

  const WORD16 := 0x1_0000

  datatype Counts = Counts(alu: int, load: int, store: int, mul: int, div: int)

  const NONE := Counts(0, 0, 0, 0, 0)
  const CAPACITY := Counts(MAX_ALU_SLOTS, MAX_LOAD_SLOTS, MAX_STORE_SLOTS, MAX_MUL_SLOTS, MAX_DIV_SLOTS)

  function Plus(a: Counts, b: Counts): Counts {
    Counts(a.alu + b.alu, a.load + b.load, a.store + b.store, a.mul + b.mul, a.div + b.div)
  }

  function Minus(a: Counts, b: Counts): Counts {
    Counts(a.alu - b.alu, a.load - b.load, a.store - b.store, a.mul - b.mul, a.div - b.div)
  }

  /** Every count of `a` suffices for the same count of `b`. */
  predicate Covers(a: Counts, b: Counts) {
    b.alu <= a.alu && b.load <= a.load && b.store <= a.store && b.mul <= a.mul && b.div <= a.div
  }

  predicate WithinCapacity(c: Counts) {
    Covers(c, NONE) && Covers(CAPACITY, c)
  }

  /** The counts shifted to their fields. The fields do not overlap within capacity,
      so the bitwise or of the shifted counts is their sum. */
  function Pack(c: Counts): int {
    c.alu + LOAD_UNIT * c.load + STORE_UNIT * c.store + MUL_UNIT * c.mul + DIV_UNIT * c.div
  }

  /** Bit `unit` (a power of two) of the sixteen-bit pattern `w`. */
  predicate BitSet(w: int, unit: int)
    requires unit > 0
  {
    (w / unit) % 2 == 1
  }

  /** `w & UNDERFLOW_MASK == UNDERFLOW_MASK`. */
  predicate GuardsIntact(w: int) {
    BitSet(w, 0x8) && BitSet(w, 0x80) && BitSet(w, 0x800) && BitSet(w, 0x2000) && BitSet(w, 0x8000)
  }

  /** The simulator's test: subtract in sixteen bits, wrapping around, then look at the guard bits. */
  predicate EnoughFor(available: int, required: int) {
    GuardsIntact((available - required) % WORD16)
  }

  /** `UNDERFLOW_MASK | Pack(free)`. */
  function Available(free: Counts): int {
    UNDERFLOW_MASK + Pack(free)
  }

  /** The guard-bit test after one packed subtraction holds exactly when each of the
      five free counts separately suffices, and the difference packs the counts left. */
  lemma {:induction false} GuardTestIsExact(free: Counts, r: Counts)
    requires WithinCapacity(free) && WithinCapacity(r)
    ensures EnoughFor(Available(free), Pack(r)) <==> Covers(free, r)
    ensures Available(free) - Pack(r) == Available(Minus(free, r))
  {
    hide GuardsIntact;
    FieldsWithGuards(free.alu + 8 - r.alu, free.load + 8 - r.load, free.store + 8 - r.store,
                     free.mul + 2 - r.mul, free.div + 2 - r.div, Available(free) - Pack(r));
  }

  /** The bit worth `unit` in a word whose part below the next bit is `low`. */
  lemma {:induction false} BitBelow(w: int, low: int, high: int, unit: int)
    requires unit > 0 && 0 <= low < 2 * unit
    requires w == low + 2 * unit * high
    ensures BitSet(w, unit) <==> low >= unit
  {
    if low < unit {
      assert w == unit * (2 * high) + low;
      DivModUnique(w, unit, 2 * high, low);
    } else {
      assert w == unit * (2 * high + 1) + (low - unit);
      DivModUnique(w, unit, 2 * high + 1, low - unit);
    }
  }

  lemma {:induction false} FieldsWithGuards(a: int, l: int, s: int, m: int, d: int, w: int)
    requires 0 <= a < 16 && 0 <= l < 16 && 0 <= s < 16 && 0 <= m < 4 && 0 <= d < 4
    requires w == a + LOAD_UNIT * l + STORE_UNIT * s + MUL_UNIT * m + DIV_UNIT * d
    ensures 0 <= w < WORD16
    ensures GuardsIntact(w) <==> a >= 8 && l >= 8 && s >= 8 && m >= 2 && d >= 2
  {
    BitBelow(w, a, l + 0x10 * s + 0x100 * m + 0x400 * d, 0x8);
    BitBelow(w, a + LOAD_UNIT * l, s + 0x10 * m + 0x40 * d, 0x80);
    BitBelow(w, a + LOAD_UNIT * l + STORE_UNIT * s, m + 4 * d, 0x800);
    BitBelow(w, a + LOAD_UNIT * l + STORE_UNIT * s + MUL_UNIT * m, d, 0x2000);
    BitBelow(w, w, 0, 0x8000);
  }

  /** The packed word determines the counts, so it loses nothing. */
  lemma {:induction false} PackIsInjective(a: Counts, b: Counts)
    requires WithinCapacity(a) && WithinCapacity(b) && Pack(a) == Pack(b)
    ensures a == b
  {
    assert a.div == b.div;
    assert a.mul == b.mul;
    assert a.store == b.store;
    assert a.load == b.load;
  }
}
