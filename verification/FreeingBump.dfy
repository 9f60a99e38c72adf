/** The freeing-bump heap allocator: orders, free lists, the bump pointer and the two public
    operations, as functions of the allocator's fields and of the memory.

    Arithmetic the program does on u32 wraps here exactly where it can wrap in a release
    build. Whether the host agrees to a growth request is the parameter `hostGrows`. */
module FreeingBump {
  import opened Types
  import opened WasmMemory

  const ALIGNMENT := 8
  const MIN_POSSIBLE_ALLOCATION := 8
  const MAX_POSSIBLE_ALLOCATION := 0x200_0000
  const U128_RANGE := 0x1_0000_0000_0000_0000_0000_0000_0000_0000

  function Wrap32(x: int): u32 {
    x % U32_RANGE
  }

  // ---- orders ----

  /** `next_power_of_two`: doubles `p` until it reaches `n`. */
  function NextPowerOfTwo(n: nat, p: nat): (r: nat)
    requires p > 0
    ensures r > 0
    decreases n - p
  {
    if p >= n then p else NextPowerOfTwo(n, 2 * p)
  }

  function TrailingZeros(n: nat): nat
    requires n > 0
  {
    if n % 2 == 1 then 0 else 1 + TrailingZeros(n / 2)
  }

  /** The least exponent, from `k` upwards, whose power of two reaches `n`. */
  function CeilLog2(n: nat, k: nat): (r: nat)
    ensures k <= r && n <= Pow2(r) && (forall j: nat :: k <= j < r ==> Pow2(j) < n)
    decreases n - Pow2(k)
  {
    if n <= Pow2(k) then k else CeilLog2(n, k + 1)
  }

  lemma {:induction false} NextPowerIsCeilLog2(n: nat, k: nat)
    ensures NextPowerOfTwo(n, Pow2(k)) == Pow2(CeilLog2(n, k))
    decreases n - Pow2(k)
  {
    if n > Pow2(k) {
      NextPowerIsCeilLog2(n, k + 1);
    }
  }

  lemma {:induction false} TrailingZerosOfPower(k: nat)
    ensures TrailingZeros(Pow2(k)) == k
  {
    if k > 0 {
      TrailingZerosOfPower(k - 1);
    }
  }

  function OrderSize(k: Order): nat {
    MIN_POSSIBLE_ALLOCATION * Pow2(k)
  }

  function ChunkSize(k: Order): nat {
    OrderSize(k) + HEADER_SIZE
  }

  function ClampedSize(size: u32): nat {
    if size < MIN_POSSIBLE_ALLOCATION then MIN_POSSIBLE_ALLOCATION else size
  }

  /** The order of a request: the least one whose capacity covers it. */
  function OrderFromSize(size: u32): (r: Result<Order, Error>)
    ensures r.Err? <==> size > MAX_POSSIBLE_ALLOCATION
    ensures r.Err? ==> r.error == RequestedAllocationTooLarge
    ensures r.Ok? ==> size <= OrderSize(r.value) && (r.value > 0 ==> OrderSize(r.value - 1) < size)
  {
    if size > MAX_POSSIBLE_ALLOCATION then
      Err(RequestedAllocationTooLarge)
    else
      OrderIsLeast(size);
      Ok(TrailingZeros(NextPowerOfTwo(ClampedSize(size), 1)) - TrailingZeros(MIN_POSSIBLE_ALLOCATION))
  }

  lemma OrderIsLeast(size: u32)
    requires size <= MAX_POSSIBLE_ALLOCATION
    ensures TrailingZeros(MIN_POSSIBLE_ALLOCATION) == 3
    ensures var k := TrailingZeros(NextPowerOfTwo(ClampedSize(size), 1)) - 3;
            && 0 <= k < N_ORDERS && size <= OrderSize(k) && (k > 0 ==> OrderSize(k - 1) < size)
  {
    var n := ClampedSize(size);
    var e := CeilLog2(n, 0);
    NextPowerIsCeilLog2(n, 0);
    TrailingZerosOfPower(e);
    assert Pow2(3) == 8 by { assert Pow2(1) == 2; }
    TrailingZerosOfPower(3);
    assert Pow2(25) == MAX_POSSIBLE_ALLOCATION by { Pow2Of25(); }
    assert Pow2(2) == 4;
    if e < 3 { Pow2Monotone(e, 2); assert false; }
    if e > 25 { assert false; }
    Pow2Shift(e - 3);
    if e > 3 { Pow2Shift(e - 4); }
  }

  lemma Pow2Of25()
    ensures Pow2(25) == MAX_POSSIBLE_ALLOCATION
  {
    assert Pow2(5) == 32;
    assert Pow2(10) == 1024;
    assert Pow2(15) == 32768;
    assert Pow2(20) == 1048576;
  }

  lemma Pow2Shift(k: nat)
    ensures Pow2(k + 3) == 8 * Pow2(k)
  {
    assert Pow2(k + 2) == 4 * Pow2(k);
  }

  /** Chunks have between 16 and 2^25 + 8 bytes, a multiple of 8. */
  lemma ChunkSizeBounds(k: Order)
    ensures 16 <= ChunkSize(k) <= MAX_POSSIBLE_ALLOCATION + HEADER_SIZE
    ensures ChunkSize(k) % 8 == 0
  {
    Pow2Monotone(0, k);
    Pow2Monotone(k, 22);
    Pow2Shift(22);
    Pow2Of25();
  }

  // ---- state ----

  datatype Stats = Stats(inUse: u32, peak: u32, sum: nat, addressSpace: u32)

  datatype Heap = Heap(
    base: u32,
    bumper: u32,
    heads: seq<Link>,
    poisoned: bool,
    observed: nat,
    stats: Stats)

  datatype Outcome<T> = Outcome(heap: Heap, mem: Memory, result: Result<T, Error>)

  /** `new`. The original adds before it divides, so it needs `heapBase + 8` to fit in u32. */
  function NewHeap(heapBase: u32): (h: Heap)
    requires heapBase + ALIGNMENT < U32_RANGE
    ensures h.base % ALIGNMENT == 0 && heapBase <= h.base < heapBase + ALIGNMENT
    ensures h.bumper == h.base && |h.heads| == N_ORDERS && (forall k: Order :: h.heads[k] == Nil)
    ensures !h.poisoned && h.observed == 0 && h.stats == Stats(0, 0, 0, 0)
  {
    var aligned := (heapBase + ALIGNMENT - 1) / ALIGNMENT * ALIGNMENT;
    Heap(aligned, aligned, seq(N_ORDERS, _ => Nil), false, 0, Stats(0, 0, 0, 0))
  }

  // ---- bump ----

  /** `None` when the number of pages does not fit in u32. */
  function PagesFromSize(size: nat): (r: Option<u32>)
    ensures r.Some? <==> size <= (U32_RANGE - 1) * PAGE_SIZE
    ensures r.Some? ==> size <= r.value * PAGE_SIZE < size + PAGE_SIZE
  {
    var pages := (size + PAGE_SIZE - 1) / PAGE_SIZE;
    if pages < U32_RANGE then Some(pages) else None
  }

  /** How many pages a growth asks for: double the current number if the maximum allows it,
      more if the request needs more. */
  function NextPages(current: nat, required: nat, max: nat): nat {
    Max(Min(current * 2, max), required)
  }

  datatype Bumped = Bumped(res: u32, bumper: u32, mem: Memory)

  function Bump(bumper: u32, size: u32, mem: Memory, hostGrows: bool): (r: Result<Bumped, Error>)
    requires mem.Valid()
    ensures r.Err? ==> r.error == AllocatorOutOfSpace
    ensures r.Ok? ==> r.value.mem.Valid() && r.value.mem.max == mem.max
  {
    var required := bumper + size;
    if required > |mem.data| then
      match PagesFromSize(required)
      case None => Err(AllocatorOutOfSpace)
      case Some(requiredPages) =>
        var current := mem.Pages();
        if current >= mem.Limit() || requiredPages > mem.Limit() then
          Err(AllocatorOutOfSpace)
        else
          var next := NextPages(current, requiredPages, mem.Limit());
          if !hostGrows then Err(AllocatorOutOfSpace)
          else Ok(Bumped(bumper, Wrap32(bumper + size), mem.Grow(next - current)))
    else
      Ok(Bumped(bumper, Wrap32(bumper + size), mem))
  }

  // ---- allocate and deallocate ----

  datatype Taken = Taken(header: u32, heap: Heap, mem: Memory)

  /** Finds the header of the chunk to hand out: the head of the order's free list, or a new
      chunk from the bump pointer when that list is empty. */
  function Take(h: Heap, m: Memory, k: Order, hostGrows: bool): (r: Result<Taken, Error>)
    requires m.Valid() && |h.heads| == N_ORDERS
    ensures r.Ok? ==> r.value.mem.Valid() && |r.value.heap.heads| == N_ORDERS
  {
    match h.heads[k]
    case Ptr(p) =>
      if p + OrderSize(k) + HEADER_SIZE > |m.data| then Err(InvalidHeaderPointer)
      else (
        match ReadHeader(m.data, p)
        case Err(e) => Err(e)
        case Ok(Occupied(_)) => Err(OccupiedInFreeList)
        case Ok(Free(next)) => Ok(Taken(p, h.(heads := h.heads[k := next]), m))
      )
    case Nil =>
      ChunkSizeBounds(k);
      match Bump(h.bumper, ChunkSize(k), m, hostGrows)
      case Err(e) => Err(e)
      case Ok(b) => Ok(Taken(b.res, h.(bumper := b.bumper), b.mem))
  }

  function StatsAfterAllocate(s: Stats, k: Order, addressSpace: u32): Stats {
    var inUse := Wrap32(s.inUse + ChunkSize(k));
    Stats(inUse, Max(s.peak, inUse), (s.sum + ChunkSize(k)) % U128_RANGE, addressSpace)
  }

  /** Any error raises the poison flag; a poisoned allocator only reports that it is. */
  function Allocate(h: Heap, m: Memory, size: u32, hostGrows: bool): (o: Outcome<u32>)
    requires m.Valid() && |h.heads| == N_ORDERS
    ensures o.mem.Valid() && |o.heap.heads| == N_ORDERS
    ensures o.result.Err? <==> o.heap.poisoned
    ensures h.poisoned ==> o == Outcome(h, m, Err(Poisoned))
  {
    if h.poisoned then Outcome(h, m, Err(Poisoned))
    else if |m.data| < h.observed then Outcome(h.(poisoned := true), m, Err(MemoryShrinked))
    else
      var h1 := h.(observed := |m.data|);
      match OrderFromSize(size)
      case Err(e) => Outcome(h1.(poisoned := true), m, Err(e))
      case Ok(k) =>
        match Take(h1, m, k, hostGrows)
        case Err(e) => Outcome(h1.(poisoned := true), m, Err(e))
        case Ok(t) =>
          match WriteHeader(t.mem.data, t.header, Occupied(k))
          case Err(e) => Outcome(t.heap.(poisoned := true), t.mem, Err(e))
          case Ok(data) =>
            var stats := StatsAfterAllocate(h.stats, k, Wrap32(t.heap.bumper - h.base));
            Outcome(t.heap.(stats := stats), t.mem.(data := data), Ok(Wrap32(t.header + HEADER_SIZE)))
  }

  function Deallocate(h: Heap, m: Memory, ptr: u32): (o: Outcome<()>)
    requires m.Valid() && |h.heads| == N_ORDERS
    ensures o.mem.Valid() && |o.heap.heads| == N_ORDERS
    ensures o.result.Err? <==> o.heap.poisoned
    ensures h.poisoned ==> o == Outcome(h, m, Err(Poisoned))
  {
    if h.poisoned then Outcome(h, m, Err(Poisoned))
    else if |m.data| < h.observed then Outcome(h.(poisoned := true), m, Err(MemoryShrinked))
    else
      var h1 := h.(observed := |m.data|);
      if ptr < HEADER_SIZE then Outcome(h1.(poisoned := true), m, Err(InvalidPointer))
      else
        var header := ptr - HEADER_SIZE;
        match ReadHeader(m.data, header)
        case Err(e) => Outcome(h1.(poisoned := true), m, Err(e))
        case Ok(Free(_)) => Outcome(h1.(poisoned := true), m, Err(EmptyHeader))
        case Ok(Occupied(k)) =>
          var h2 := h1.(heads := h1.heads[k := Ptr(header)]);
          match WriteHeader(m.data, header, Free(h1.heads[k]))
          case Err(e) => Outcome(h2.(poisoned := true), m, Err(e))
          case Ok(data) =>
            var m1 := m.(data := data);
            if h.stats.inUse < ChunkSize(k) then Outcome(h2.(poisoned := true), m1, Err(CountUnderflow))
            else Outcome(h2.(stats := h.stats.(inUse := h.stats.inUse - ChunkSize(k))), m1, Ok(()))
  }
}
