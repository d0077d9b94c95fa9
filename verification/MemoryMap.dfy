/** The guest's memory map: where each region lies and when a layout exists at all. */
module MemoryMap {
  import opened Arith
  import opened Wrappers
  import opened Bytes

  const ADDRESS_SPACE := 0x1_0000_0000
  const MIN_PAGE := 0x1000
  const MAX_PAGE := 0x1_0000
  const BOTTOM := MAX_PAGE
  const TOP := ADDRESS_SPACE - MAX_PAGE

  // ---------- Alignment ----------

  /** Bitwise and, bit by bit. */
  function And(a: nat, b: nat): nat
    decreases a
  {
    if a == 0 || b == 0 then 0
    else (if a % 2 == 1 && b % 2 == 1 then 1 else 0) + 2 * And(a / 2, b / 2)
  }

  lemma {:induction false} AndOdd(v: nat, m: nat)
    ensures And(v, 2 * m + 1) == v % 2 + 2 * And(v / 2, m)
  {
    if v > 0 { assert (2 * m + 1) % 2 == 1 && (2 * m + 1) / 2 == m; }
  }

  lemma {:induction false} AndZero(v: nat)
    ensures And(v, 0) == 0
  {
  }

  /** Masking with a power of two less one is a remainder. */
  lemma {:induction false} MaskIsRemainder(v: nat, p: nat)
    requires IsPow2(p)
    ensures p >= 1 && And(v, p - 1) == v % p
    decreases p
  {
    hide And;
    if p == 1 {
      AndZero(v);
    } else {
      var h := p / 2;
      MaskIsRemainder(v / 2, h);
      AndOdd(v, h - 1);
      var q, r := v / 2 / h, v / 2 % h;
      assert v / 2 == h * q + r;
      assert 2 * (h * q) == p * q;
      DivModUnique(v, p, q, 2 * r + v % 2);
    }
  }

  /** Rounds up to a multiple of the page size, or gives up at the end of the type's range. */
  function AlignToNextPage(limit: nat, page: nat, value: nat): Option<int>
    requires page >= 1
  {
    if And(value, page - 1) == 0 then Some(value)
    else if value <= limit - page then Some(value + page - And(value + page, page - 1))
    else None
  }

  const U32_MAX := 0xFFFF_FFFF
  const U64_MAX := 0xFFFF_FFFF_FFFF_FFFF

  /** The least multiple of `page` from `value` on. */
  function RoundUp(page: nat, value: nat): nat
    requires page >= 1
  {
    (value + page - 1) / page * page
  }

  lemma {:induction false} RoundUpIs(page: nat, value: nat)
    requires page >= 1
    ensures RoundUp(page, value) == if value % page == 0 then value else value + page - (value + page) % page
    ensures value <= RoundUp(page, value) < value + page && RoundUp(page, value) % page == 0
  {
    var q, r := value / page, value % page;
    assert value == page * q + r;
    if r == 0 {
      DivModUnique(value + page - 1, page, q, page - 1);
      assert q * page == page * q;
      DivModUnique(page * q, page, q, 0);
    } else {
      assert page * (q + 1) == page * q + page;
      DivModUnique(value + page - 1, page, q + 1, r - 1);
      DivModUnique(value + page, page, q + 1, r);
      assert (q + 1) * page == page * (q + 1);
      DivModUnique(page * (q + 1), page, q + 1, 0);
    }
  }

  /** Alignment rounds up exactly, and fails exactly when the rounded value is out of range. */
  lemma {:induction false} AlignIsRoundUp(limit: nat, page: nat, value: nat)
    requires IsPow2(page) && value <= limit && (limit + 1) % page == 0
    ensures page >= 1
    ensures AlignToNextPage(limit, page, value) == if RoundUp(page, value) <= limit then Some(RoundUp(page, value))
              else None
  {
    hide And, IsPow2;
    MaskIsRemainder(value, page);
    MaskIsRemainder(value + page, page);
    RoundUpIs(page, value);
    hide RoundUp;
    var up := RoundUp(page, value);
    LimitIsMultiple(limit, page, up);
  }

  lemma {:induction false} LimitIsMultiple(limit: nat, page: nat, up: nat)
    requires page >= 1 && (limit + 1) % page == 0 && up % page == 0
    ensures up > limit - page && up <= limit ==> up == limit + 1 - page
    ensures up > limit ==> up >= limit + 1
  {
    var a := (limit + 1) / page;
    var r := up - (limit + 1 - page);
    assert limit + 1 == page * a && page * (a - 1) == page * a - page;
    if 0 <= r < page { DivModUnique(up, page, a - 1, r); }
  }

  // ---------- The map ----------

  datatype Map = Map(
    pageSize: u32,
    roSize: u32,
    rwAddress: u32, rwSize: u32,
    stackHigh: u32, stackSize: u32,
    auxAddress: u32, auxSize: u32,
    heapBase: u32, maxHeapSize: u32)

  datatype Sizes = Sizes(page: u32, ro: u32, rw: u32, stack: u32, aux: u32)

  predicate ValidPage(page: nat) {
    MIN_PAGE <= page <= MAX_PAGE && IsPow2(page)
  }

  /** The address space the four regions take up. */
  function Total(s: Sizes): nat {
    RoundUp(MAX_PAGE, s.ro) + RoundUp(MAX_PAGE, s.rw) + RoundUp(MAX_PAGE, s.stack) + RoundUp(MAX_PAGE, s.aux)
  }

  // ---------- What a map promises ----------

  /** Addresses and sizes are whole pages, and each region covers what was asked for, to the page. */
  predicate PageAligned(s: Sizes, m: Map)
    requires s.page >= 1
  {
    && m.pageSize == s.page
    && m.roSize == RoundUp(s.page, s.ro) && m.rwSize == RoundUp(s.page, s.rw)
    && m.stackSize == RoundUp(s.page, s.stack) && m.auxSize == RoundUp(s.page, s.aux)
    && BOTTOM % s.page == 0 && m.rwAddress % s.page == 0 && m.stackHigh % s.page == 0 && m.auxAddress % s.page == 0
  }

  /** From low to high: guard, read-only data, guard, read-write data and heap, guard, stack, guard, aux data, guard.
      Every guard is at least 64 KiB. */
  predicate Separated(s: Sizes, m: Map) {
    && BOTTOM + m.roSize + MAX_PAGE <= m.rwAddress
    && m.heapBase == m.rwAddress + s.rw
    && m.rwAddress + m.rwSize <= m.heapBase + m.maxHeapSize
    && m.heapBase + m.maxHeapSize + MAX_PAGE <= m.stackHigh - m.stackSize
    && m.stackHigh + MAX_PAGE == m.auxAddress
    && m.auxAddress + m.auxSize + MAX_PAGE <= ADDRESS_SPACE
  }

  /** A full heap ends exactly 64 KiB below the address space set aside for the stack. */
  predicate HeapIsMaximal(s: Sizes, m: Map) {
    m.heapBase + m.maxHeapSize + MAX_PAGE == m.stackHigh - RoundUp(MAX_PAGE, s.stack)
  }

  // ---------- Building ----------

  /** A power of two that is at least another one is a multiple of it. */
  lemma {:induction false} PowersAbove(p: nat, q: nat)
    requires IsPow2(p) && IsPow2(q) && p >= q
    ensures p % q == 0
    decreases q
  {
    if q > 1 {
      PowersAbove(p / 2, q / 2);
      var k := p / 2 / (q / 2);
      assert p / 2 == q / 2 * k;
      assert p == q * k by { assert 2 * (q / 2 * k) == q * k; }
      DivModUnique(p, q, k, 0);
    }
  }

  lemma {:induction false} MultipleOfMultiple(x: nat, big: nat, small: nat)
    requires big >= 1 && small >= 1 && x % big == 0 && big % small == 0
    ensures x % small == 0
  {
    var a, b := x / big, big / small;
    assert x == big * a && big == small * b;
    assert small * b * a == small * (b * a);
    DivModUnique(x, small, b * a, 0);
  }

  /** Page size against the largest page and the ends of the integer types. */
  lemma {:induction false} PageDivides(page: nat)
    requires ValidPage(page)
    ensures page >= 1 && MAX_PAGE % page == 0 && (U32_MAX + 1) % page == 0 && (U64_MAX + 1) % MAX_PAGE == 0
  {
    hide IsPow2, Pow2;
    Pow2Values();
    Pow2IsPow2(16);
    Pow2IsPow2(32);
    PowersAbove(MAX_PAGE, page);
    PowersAbove(U32_MAX + 1, page);
  }

  /** The two roundings of one size, and what their failure means. */
  lemma {:induction false} SizeRounds(page: nat, value: u32)
    requires ValidPage(page)
    ensures page >= 1
    ensures AlignToNextPage(U64_MAX, MAX_PAGE, value) == Some(RoundUp(MAX_PAGE, value))
    ensures AlignToNextPage(U32_MAX, page, value) ==
              if RoundUp(page, value) <= U32_MAX then Some(RoundUp(page, value)) else None
    ensures value <= RoundUp(page, value) <= RoundUp(MAX_PAGE, value) < value + MAX_PAGE
    ensures RoundUp(MAX_PAGE, value) % MAX_PAGE == 0 && RoundUp(page, value) % page == 0
    ensures RoundUp(page, value) > U32_MAX ==> RoundUp(MAX_PAGE, value) > U32_MAX
  {
    hide AlignToNextPage, RoundUp, IsPow2;
    PageDivides(page);
    MaxPageIsPow2();
    RoundUpIs(page, value);
    RoundUpIs(MAX_PAGE, value);
    AlignIsRoundUp(U64_MAX, MAX_PAGE, value);
    AlignIsRoundUp(U32_MAX, page, value);
    CoarserIsLarger(page, value);
  }

  lemma {:induction false} MaxPageIsPow2()
    ensures IsPow2(MAX_PAGE)
  {
    hide IsPow2, Pow2;
    Pow2Values();
    Pow2IsPow2(16);
  }

  lemma {:induction false} CoarserIsLarger(page: nat, value: nat)
    requires page >= 1 && MAX_PAGE % page == 0
    ensures RoundUp(page, value) <= RoundUp(MAX_PAGE, value)
  {
    RoundUpIs(MAX_PAGE, value);
    var most := RoundUp(MAX_PAGE, value);
    MultipleOfMultiple(most, MAX_PAGE, page);
    var a := most / page;
    assert most == page * a && page * (a + 1) == page * a + page;
    DivAtMost(value + page - 1, page, a);
    MulMonotone((value + page - 1) / page, a, page);
  }

  /** Read-write data follows the read-only data from below, the stack ends below the auxiliary data from above,
      with one largest page in between; all these addresses are multiples of the largest page. */
  predicate PlacedFromBothEnds(sizes: Sizes, m: Map) {
    AddressesPlaced(sizes, m.rwAddress, m.stackHigh, m.auxAddress)
  }

  predicate AddressesPlaced(sizes: Sizes, rwAddress: int, stackHigh: int, auxAddress: int) {
    && rwAddress == BOTTOM + RoundUp(MAX_PAGE, sizes.ro) + MAX_PAGE
    && auxAddress == TOP - RoundUp(MAX_PAGE, sizes.aux)
    && stackHigh == auxAddress - MAX_PAGE
    && rwAddress % MAX_PAGE == 0 && auxAddress % MAX_PAGE == 0 && stackHigh % MAX_PAGE == 0
  }

  lemma {:induction false} Placed(sizes: Sizes, rwAddress: int, stackHigh: int, auxAddress: int)
    requires rwAddress == BOTTOM + RoundUp(MAX_PAGE, sizes.ro) + MAX_PAGE
    requires auxAddress == TOP - RoundUp(MAX_PAGE, sizes.aux) && stackHigh == auxAddress - MAX_PAGE
    ensures AddressesPlaced(sizes, rwAddress, stackHigh, auxAddress)
  {
    RoundUpIs(MAX_PAGE, sizes.ro);
    RoundUpIs(MAX_PAGE, sizes.aux);
    hide RoundUp;
  }

  class MemoryMapBuilder {
    var sizes: Sizes

    constructor (page: u32)
      ensures sizes == Sizes(page, 0, 0, 0, 0)
    {
      sizes := Sizes(page, 0, 0, 0, 0);
    }

    method SetRoDataSize(value: u32)
      modifies this
      ensures sizes == old(sizes).(ro := value)
    {
      sizes := sizes.(ro := value);
    }

    method SetRwDataSize(value: u32)
      modifies this
      ensures sizes == old(sizes).(rw := value)
    {
      sizes := sizes.(rw := value);
    }

    method SetStackSize(value: u32)
      modifies this
      ensures sizes == old(sizes).(stack := value)
    {
      sizes := sizes.(stack := value);
    }

    method SetAuxDataSize(value: u32)
      modifies this
      ensures sizes == old(sizes).(aux := value)
    {
      sizes := sizes.(aux := value);
    }

    /** Builds the map, exactly when the page size is valid and the rounded sizes leave room for five guards. */
    method Build() returns (r: Option<Map>)
      ensures r.Some? <==> ValidPage(sizes.page) && Total(sizes) <= ADDRESS_SPACE - 5 * MAX_PAGE
      ensures r.Some? ==> PageAligned(sizes, r.value) && Separated(sizes, r.value) && HeapIsMaximal(sizes, r.value)
      ensures r.Some? ==> PlacedFromBothEnds(sizes, r.value)
    {
      hide AlignToNextPage, RoundUp, IsPow2, AddressesPlaced;
      var page := sizes.page;
      if page < MIN_PAGE || page > MAX_PAGE || !IsPow2(page) {
        return None;
      }
      PageDivides(page);
      SizeRounds(page, sizes.ro);
      SizeRounds(page, sizes.rw);
      SizeRounds(page, sizes.stack);
      SizeRounds(page, sizes.aux);
      // Rounding a 32-bit size in 64 bits never fails.
      var roSpace := AlignToNextPage(U64_MAX, MAX_PAGE, sizes.ro).value;
      var roSize :- AlignToNextPage(U32_MAX, page, sizes.ro);
      var rwSpace := AlignToNextPage(U64_MAX, MAX_PAGE, sizes.rw).value;
      var rwSize :- AlignToNextPage(U32_MAX, page, sizes.rw);
      var stackSpace := AlignToNextPage(U64_MAX, MAX_PAGE, sizes.stack).value;
      var stackSize :- AlignToNextPage(U32_MAX, page, sizes.stack);
      var auxSpace := AlignToNextPage(U64_MAX, MAX_PAGE, sizes.aux).value;
      var auxSize :- AlignToNextPage(U32_MAX, page, sizes.aux);

      var low := 0;
      low := low + BOTTOM;
      low := low + roSpace;
      low := low + MAX_PAGE;
      var rwAddress := low;
      var heapBase := low + sizes.rw;
      low := low + rwSpace;
      var heapSlack := low - heapBase;
      low := low + MAX_PAGE;

      var high := TOP;
      high := high - auxSpace;
      var auxAddress := high;
      high := high - MAX_PAGE;
      var stackHigh := high;
      high := high - stackSpace;

      if low > high {
        return None;
      }
      AlignedAddresses(page, roSpace, auxSpace);
      Placed(sizes, rwAddress, stackHigh, auxAddress);
      r := Some(Map(page, roSize, rwAddress, rwSize, stackHigh, stackSize, auxAddress, auxSize, heapBase,
        high - low + heapSlack));
    }
  }

  lemma {:induction false} AlignedAddresses(page: nat, roSpace: nat, auxSpace: nat)
    requires page >= 1 && MAX_PAGE % page == 0 && roSpace % MAX_PAGE == 0 && auxSpace % MAX_PAGE == 0
    requires auxSpace <= TOP - MAX_PAGE
    ensures (BOTTOM + roSpace + MAX_PAGE) % page == 0
    ensures (TOP - auxSpace) % page == 0 && (TOP - auxSpace - MAX_PAGE) % page == 0
  {
    MultipleOfMultiple(BOTTOM + roSpace + MAX_PAGE, MAX_PAGE, page);
    MultipleOfMultiple(TOP - auxSpace, MAX_PAGE, page);
    MultipleOfMultiple(TOP - auxSpace - MAX_PAGE, MAX_PAGE, page);
  }
}
