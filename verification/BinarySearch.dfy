/** Binary search over fixed-size chunks, and the debug range lookup built on it. */
module BinarySearch {
  import opened Arith
  import opened Bytes

  /** How an item compares to what is looked for. */
  datatype Ordering = Less | Equal | Greater

  datatype Found = Ok(at: nat) | Err(at: nat)

  function Rank(o: Ordering): int {
    match o case Less => 0 case Equal => 1 case Greater => 2
  }

  lemma {:induction false} ChunkWithin(length: nat, chunk: nat, i: nat)
    requires chunk > 0 && i < length / chunk
    ensures 0 <= i * chunk <= (i + 1) * chunk <= length
  {
    MulMonotone(0, i, chunk);
    MulMonotone(i, i + 1, chunk);
    MulMonotone(i + 1, length / chunk, chunk);
  }

  function Item(slice: seq<byte>, chunk: nat, i: nat): (item: seq<byte>)
    requires chunk > 0 && i < |slice| / chunk
    ensures |item| == chunk
  {
    ChunkWithin(|slice|, chunk, i);
    slice[i * chunk..(i + 1) * chunk]
  }

  function Compare(slice: seq<byte>, chunk: nat, compare: seq<byte> -> Ordering, i: nat): Ordering
    requires chunk > 0 && i < |slice| / chunk
  {
    compare(Item(slice, chunk, i))
  }

  /** Items come in order: first the lesser ones, then the equal ones, then the greater ones. */
  ghost predicate Monotone(slice: seq<byte>, chunk: nat, compare: seq<byte> -> Ordering)
    requires chunk > 0
  {
    forall i, j :: 0 <= i <= j < |slice| / chunk ==>
      Rank(Compare(slice, chunk, compare, i)) <= Rank(Compare(slice, chunk, compare, j))
  }

  /** The first item, from `i` on, that is not less. */
  function FirstNotLess(slice: seq<byte>, chunk: nat, compare: seq<byte> -> Ordering, i: nat): (r: nat)
    requires chunk > 0 && i <= |slice| / chunk
    ensures i <= r <= |slice| / chunk
    ensures forall j :: i <= j < r ==> Compare(slice, chunk, compare, j) == Less
    ensures r < |slice| / chunk ==> Compare(slice, chunk, compare, r) != Less
    decreases |slice| / chunk - i
  {
    if i == |slice| / chunk || Compare(slice, chunk, compare, i) != Less then i
    else FirstNotLess(slice, chunk, compare, i + 1)
  }

  /** What a search from the front would answer: the first equal item, or where it would have to be put in. */
  function LinearSearch(slice: seq<byte>, chunk: nat, compare: seq<byte> -> Ordering): Found
    requires chunk > 0
  {
    var first := FirstNotLess(slice, chunk, compare, 0);
    if first < |slice| / chunk && Compare(slice, chunk, compare, first) == Equal then Ok(first * chunk)
    else Err(first * chunk)
  }

  method Search(slice: seq<byte>, chunk: nat, compare: seq<byte> -> Ordering) returns (r: Found)
    requires chunk > 0
    ensures Monotone(slice, chunk, compare) ==> r == LinearSearch(slice, chunk, compare)
    ensures r.Ok? ==> exists i ::
              0 <= i < |slice| / chunk && r.at == i * chunk && Compare(slice, chunk, compare, i) == Equal
  {
    hide Item, Compare;
    var size := |slice| / chunk;
    ghost var count := size;
    ghost var ordered := Monotone(slice, chunk, compare);
    ghost var first := FirstNotLess(slice, chunk, compare, 0);
    if size == 0 {
      return Err(0);
    }
    var base := 0;
    while size > 1
      invariant 0 <= base && 1 <= size && base + size <= count
      invariant ordered ==> base <= first <= base + size && (base == 0 || base < first)
      invariant ordered && first == base + size < count ==> Compare(slice, chunk, compare, first) == Greater
    {
      var half := size / 2;
      var mid := base + half;
      match Compare(slice, chunk, compare, mid) {
        case Greater =>
          size := size - half;
        case Less =>
          size := size - half;
          base := mid;
        case Equal =>
          if Compare(slice, chunk, compare, mid - 1) != Equal {
            return Ok(mid * chunk);
          }
          size := size - half;
      }
    }
    match Compare(slice, chunk, compare, base) {
      case Equal => r := Ok(base * chunk);
      case Less => r := Err((base + 1) * chunk);
      case Greater => r := Err(base * chunk);
    }
  }

  // ---------- Looking up a debug range ----------

  const ENTRY_SIZE := 12

  function Begin(entry: seq<byte>): nat
    requires |entry| == ENTRY_SIZE
  {
    FromLe(entry[..4])
  }

  function End(entry: seq<byte>): nat
    requires |entry| == ENTRY_SIZE
  {
    FromLe(entry[4..8])
  }

  predicate Covers(ranges: seq<byte>, i: nat, counter: nat)
    requires i < |ranges| / ENTRY_SIZE
  {
    var entry := Item(ranges, ENTRY_SIZE, i);
    Begin(entry) <= counter < End(entry)
  }

  function CompareRange(counter: nat): seq<byte> -> Ordering {
    entry =>
      if |entry| != ENTRY_SIZE then Less
      else if counter < Begin(entry) then Greater
      else if counter >= End(entry) then Less
      else Equal
  }

  /** Ranges are in order and do not overlap. */
  ghost predicate SortedRanges(ranges: seq<byte>) {
    && (forall i :: 0 <= i < |ranges| / ENTRY_SIZE ==>
          Begin(Item(ranges, ENTRY_SIZE, i)) <= End(Item(ranges, ENTRY_SIZE, i)))
    && (forall i, j :: 0 <= i < j < |ranges| / ENTRY_SIZE ==>
          End(Item(ranges, ENTRY_SIZE, i)) <= Begin(Item(ranges, ENTRY_SIZE, j)))
  }

  lemma {:induction false} RangesAreMonotone(ranges: seq<byte>, counter: nat)
    requires SortedRanges(ranges)
    ensures Monotone(ranges, ENTRY_SIZE, CompareRange(counter))
  {
    hide Item, FromLe;
  }

  datatype Lookup = Malformed | NotFound | Range(index: nat)

  /** Finds a range that holds the counter; over sorted ranges, exactly when there is one. */
  method FindRange(ranges: seq<byte>, counter: nat) returns (r: Lookup)
    ensures r.Malformed? <==> |ranges| % ENTRY_SIZE != 0
    ensures r.Range? ==> r.index < |ranges| / ENTRY_SIZE && Covers(ranges, r.index, counter)
    ensures SortedRanges(ranges) && r.NotFound? ==> forall i :: 0 <= i < |ranges| / ENTRY_SIZE ==>
            !Covers(ranges, i, counter)
    ensures SortedRanges(ranges) && r.Range? ==>
              forall i :: 0 <= i < |ranges| / ENTRY_SIZE && Covers(ranges, i, counter) ==> i == r.index
  {
    hide Item, FromLe, SortedRanges;
    if |ranges| % ENTRY_SIZE != 0 {
      return Malformed;
    }
    var found := Search(ranges, ENTRY_SIZE, CompareRange(counter));
    if SortedRanges(ranges) {
      RangesAreMonotone(ranges, counter);
      OnlyFirstCovers(ranges, counter);
    }
    match found {
      case Ok(at) => r := Range(at / ENTRY_SIZE);
      case Err(_) => r := NotFound;
    }
  }

  lemma {:induction false} OnlyFirstCovers(ranges: seq<byte>, counter: nat)
    requires SortedRanges(ranges)
    ensures var first := FirstNotLess(ranges, ENTRY_SIZE, CompareRange(counter), 0);
            forall i :: 0 <= i < |ranges| / ENTRY_SIZE && Covers(ranges, i, counter) ==>
              i == first && Compare(ranges, ENTRY_SIZE, CompareRange(counter), i) == Equal
  {
    hide Item, FromLe;
    var compare := CompareRange(counter);
    forall i | 0 <= i < |ranges| / ENTRY_SIZE && Covers(ranges, i, counter)
      ensures i == FirstNotLess(ranges, ENTRY_SIZE, compare, 0) && Compare(ranges, ENTRY_SIZE, compare, i) == Equal
    {
      assert Compare(ranges, ENTRY_SIZE, compare, i) == Equal;
    }
  }
}
