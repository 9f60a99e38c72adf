/** Whole runs of the allocator: any sequence of allocations, frees, guest writes and memory
    growth, from any start. */
module HeapRuns {
  import opened Types
  import opened WasmMemory
  import opened FreeingBump
  import opened HeapLayout
  import opened HeapSteps

  datatype Op =
    | Alloc(size: u32, hostGrows: bool)
    | Dealloc(ptr: u32)
    | GuestWrite(addr: nat, val: byte)
    | HostGrow(pages: nat)

  datatype World = World(heap: Heap, mem: Memory, layout: Layout)

  ghost predicate Typed(w: World) {
    w.mem.Valid() && |w.heap.heads| == |w.layout.free| == N_ORDERS
  }

  /** The chunk whose occupied header lies in front of `ptr`. */
  function ChunkOf(data: seq<byte>, ptr: u32): Chunk {
    if ptr < HEADER_SIZE then Chunk(0, 0)
    else
      match ReadHeader(data, ptr - HEADER_SIZE)
      case Ok(Occupied(k)) => Chunk(ptr - HEADER_SIZE, k)
      case _ => Chunk(ptr - HEADER_SIZE, 0)
  }

  ghost function Step(w: World, op: Op): (w': World)
    requires Typed(w)
    requires op.HostGrow? ==> w.mem.Pages() + op.pages <= w.mem.Limit()
    ensures Typed(w')
  {
    match op
    case Alloc(size, hostGrows) =>
      var o := Allocate(w.heap, w.mem, size, hostGrows);
      var l := if o.result.Ok? then AllocLayout(w.layout, w.heap.bumper, OrderOf(w, size)) else w.layout;
      World(o.heap, o.mem, l)
    case Dealloc(ptr) =>
      var o := Deallocate(w.heap, w.mem, ptr);
      var l := if o.result.Ok? then FreeLayout(w.layout, ChunkOf(w.mem.data, ptr)) else w.layout;
      World(o.heap, o.mem, l)
    case GuestWrite(a, v) =>
      if a < |w.mem.data| then w.(mem := w.mem.(data := w.mem.data[a := v])) else w
    case HostGrow(pages) =>
      w.(mem := w.mem.Grow(pages))
  }

  function OrderOf(w: World, size: u32): Order {
    match OrderFromSize(size)
    case Ok(k) => k
    case Err(_) => 0
  }

  /** The rules for the callers of a good heap: free only live pointers, write no header word,
      and do not ask for the one chunk that would end at exactly 2^32. There are none for the
      callers of a poisoned one. The host never passes the maximum. */
  ghost predicate Legal(w: World, op: Op)
    requires Typed(w)
  {
    match op
    case Alloc(size, hostGrows) =>
      !w.heap.poisoned && CanAllocate(w.heap, w.mem, w.layout, size, hostGrows) ==>
        !Wraps(w.layout, w.heap.bumper, OrderOf(w, size))
    case Dealloc(ptr) => w.heap.poisoned || exists c :: c in w.layout.live && c.Pointer() == ptr
    case GuestWrite(a, _) =>
      w.heap.poisoned || forall c :: c in w.layout.chunks ==> !(c.header <= a < c.header + HEADER_SIZE)
    case HostGrow(pages) => w.mem.Pages() + pages <= w.mem.Limit()
  }

  ghost predicate LegalRun(w: World, ops: seq<Op>)
    requires Typed(w)
    decreases |ops|
  {
    ops == [] || (Legal(w, ops[0]) && LegalRun(Step(w, ops[0]), ops[1..]))
  }

  ghost function Run(w: World, ops: seq<Op>): (w': World)
    requires Typed(w) && LegalRun(w, ops)
    ensures Typed(w')
    decreases |ops|
  {
    if ops == [] then w else Run(Step(w, ops[0]), ops[1..])
  }

  /** A heap is good, or an error poisoned it. */
  ghost predicate Good(w: World) {
    Typed(w) && (w.heap.poisoned || Inv(w.heap, w.mem, w.layout))
  }

  // ---- every step keeps the invariant ----

  lemma LiveIsChunkOf(w: World, c: Chunk)
    requires Inv(w.heap, w.mem, w.layout) && c in w.layout.live
    ensures c.Pointer() < U32_RANGE && ChunkOf(w.mem.data, c.Pointer()) == c
  {
    hide ReadHeader;
    Within(w.layout.chunks, w.heap.base, w.heap.bumper, c);
  }

  /** Replacing memory keeps the invariant when every header word is kept. */
  lemma HeadersKept(h: Heap, m: Memory, m': Memory, l: Layout)
    requires Inv(h, m, l) && m'.Valid() && |m.data| <= |m'.data|
    requires forall c :: c in l.chunks ==>
               forall i :: c.header <= i < c.header + 8 && i < |m.data| ==> m'.data[i] == m.data[i]
    ensures Inv(h, m', l)
  {
    forall c | c in l.chunks
      ensures ReadHeader(m'.data, c.header) == ReadHeader(m.data, c.header)
    {
      Within(l.chunks, h.base, h.bumper, c);
      assert m'.data[c.header..c.header + 8] == m.data[c.header..c.header + 8];
      HeaderFrame(m.data, m'.data, c.header);
    }
    hide ReadHeader, Tiles, Accounts;
    forall k: Order
      ensures ReadsAs(m'.data, h.heads[k], l.free[k])
    {
      ListIsChunks(l, k);
      ReadsAsFrame(m.data, m'.data, h.heads[k], l.free[k]);
    }
  }

  lemma StepKeepsGood(w: World, op: Op)
    requires Good(w) && Legal(w, op)
    ensures Good(Step(w, op))
  {
    hide Inv, CanAllocate, Wraps;
    if !w.heap.poisoned {
      match op
      case Alloc(size, hostGrows) => AllocateCorrect(w.heap, w.mem, w.layout, size, hostGrows);
      case Dealloc(ptr) =>
        var c :| c in w.layout.live && c.Pointer() == ptr;
        LiveIsChunkOf(w, c);
        DeallocateCorrect(w.heap, w.mem, w.layout, c);
      case GuestWrite(a, v) => HeadersKept(w.heap, w.mem, Step(w, op).mem, w.layout);
      case HostGrow(pages) =>
        var m' := w.mem.Grow(pages);
        assert forall i :: 0 <= i < |w.mem.data| ==> m'.data[i] == m'.data[..|w.mem.data|][i];
        HeadersKept(w.heap, w.mem, m', w.layout);
    }
  }

  lemma {:induction false} RunKeepsGood(w: World, ops: seq<Op>)
    requires Good(w) && LegalRun(w, ops)
    ensures Good(Run(w, ops))
    decreases |ops|
  {
    if ops != [] {
      StepKeepsGood(w, ops[0]);
      RunKeepsGood(Step(w, ops[0]), ops[1..]);
    }
  }

  /** Safety of every run from a fresh allocator: whatever the guest and the host do within
      the rules, the heap stays tiled and readable until an error poisons it. */
  lemma RunFromNewIsGood(heapBase: u32, m: Memory, ops: seq<Op>)
    requires heapBase + ALIGNMENT < U32_RANGE && m.Valid()
    requires LegalRun(World(NewHeap(heapBase), m, EMPTY_LAYOUT), ops)
    ensures Good(Run(World(NewHeap(heapBase), m, EMPTY_LAYOUT), ops))
  {
    NewHeapInv(heapBase, m);
    RunKeepsGood(World(NewHeap(heapBase), m, EMPTY_LAYOUT), ops);
  }

  // ---- what the guest owns ----

  /** Live allocations are aligned, inside memory and pairwise disjoint. */
  lemma LiveDisjoint(h: Heap, m: Memory, l: Layout, c: Chunk, d: Chunk)
    requires Inv(h, m, l) && c in l.live && d in l.live
    ensures c.Pointer() % ALIGNMENT == 0 && h.base <= c.header && c.End() <= h.bumper <= |m.data|
    ensures c.End() == c.Pointer() + OrderSize(c.order)
    ensures c != d ==> c.End() <= d.header || d.End() <= c.header
  {
    hide Tiles, Stored, Accounts;
    Within(l.chunks, h.base, h.bumper, c);
    if c != d { Separate(l.chunks, h.base, h.bumper, c, d); }
  }

  /** `op` neither frees `c` nor writes into its payload. */
  predicate Spares(op: Op, c: Chunk) {
    match op
    case Alloc(_, _) => true
    case Dealloc(ptr) => ptr != c.Pointer()
    case GuestWrite(a, _) => !(c.Pointer() <= a < c.End())
    case HostGrow(_) => true
  }

  lemma StepKeepsPayload(w: World, op: Op, c: Chunk)
    requires Good(w) && !w.heap.poisoned && Legal(w, op) && c in w.layout.live && Spares(op, c)
    ensures var w' := Step(w, op);
            && c in w'.layout.live && c in w.layout.chunks
            && c.Pointer() <= c.End() <= |w.mem.data| <= |w'.mem.data|
            && Payload(w'.mem.data, c) == Payload(w.mem.data, c)
  {
    hide CanAllocate, Wraps, Stored, Partition, Accounts, Tiles, ReadHeader;
    var l := w.layout;
    assert c in l.chunks by { PartitionLive(l, c); }
    Within(l.chunks, w.heap.base, w.heap.bumper, c);
    match op
    case Alloc(size, hostGrows) =>
      AllocKeepsPayload(w, size, hostGrows, c);
    case Dealloc(ptr) =>
      var d :| d in l.live && d.Pointer() == ptr;
      LiveIsChunkOf(w, d);
      PartitionLive(l, d);
      DeallocateCorrect(w.heap, w.mem, l, d);
      PayloadKept(l.chunks, w.heap.base, w.heap.bumper, w.mem.data, Step(w, op).mem.data, d, c);
    case GuestWrite(a, v) =>
    case HostGrow(pages) =>
      var m' := w.mem.Grow(pages);
      assert Payload(m'.data, c) == m'.data[..|w.mem.data|][c.Pointer()..c.End()];
  }

  lemma AllocKeepsPayload(w: World, size: u32, hostGrows: bool, c: Chunk)
    requires Good(w) && !w.heap.poisoned && Legal(w, Alloc(size, hostGrows)) && c in w.layout.live
    requires c in w.layout.chunks && c.Pointer() <= c.End() <= |w.mem.data|
    ensures var w' := Step(w, Alloc(size, hostGrows));
            && c in w'.layout.live && c.End() <= |w.mem.data| <= |w'.mem.data|
            && Payload(w'.mem.data, c) == Payload(w.mem.data, c)
  {
    hide CanAllocate, Wraps, Stored, Partition, Accounts, Tiles, ReadHeader;
    var l := w.layout;
    AllocateCorrect(w.heap, w.mem, l, size, hostGrows);
    var o := Allocate(w.heap, w.mem, size, hostGrows);
    if o.result.Ok? {
      var k := OrderFromSize(size).value;
      var n := AllocLayout(l, w.heap.bumper, k);
      AllocPartition(l, w.heap.base, w.heap.bumper, k);
      ChosenIsChunk(l, w.heap.bumper, k);
      PayloadKept(n.chunks, w.heap.base, o.heap.bumper, w.mem.data, o.mem.data, Chosen(l, w.heap.bumper, k), c);
    }
  }

  lemma PartitionLive(l: Layout, c: Chunk)
    requires Partition(l) && c in l.live
    ensures c in l.chunks
  {
  }

  ghost predicate SparesAll(ops: seq<Op>, c: Chunk) {
    forall i :: 0 <= i < |ops| ==> Spares(ops[i], c)
  }

  /** A poisoned allocator leaves the layout and every byte alone. */
  lemma PoisonedKeepsPayload(w: World, op: Op, c: Chunk)
    requires Typed(w) && w.heap.poisoned && Legal(w, op) && Spares(op, c)
    requires c.Pointer() <= c.End() <= |w.mem.data|
    ensures var w' := Step(w, op);
            && w'.heap == w.heap && w'.layout == w.layout && |w.mem.data| <= |w'.mem.data|
            && Payload(w'.mem.data, c) == Payload(w.mem.data, c)
  {
    hide ReadHeader;
    if op.HostGrow? {
      var m' := w.mem.Grow(op.pages);
      assert Payload(m'.data, c) == m'.data[..|w.mem.data|][c.Pointer()..c.End()];
    }
  }

  lemma {:induction false} PoisonedRunKeepsPayload(w: World, ops: seq<Op>, c: Chunk)
    requires Typed(w) && w.heap.poisoned && LegalRun(w, ops) && c in w.layout.live && SparesAll(ops, c)
    requires c.Pointer() <= c.End() <= |w.mem.data|
    ensures var w' := Run(w, ops);
            && c in w'.layout.live && |w.mem.data| <= |w'.mem.data|
            && Payload(w'.mem.data, c) == Payload(w.mem.data, c)
    decreases |ops|
  {
    hide Payload, Step;
    if ops != [] {
      assert Spares(ops[0], c);
      PoisonedKeepsPayload(w, ops[0], c);
      PoisonedRunKeepsPayload(Step(w, ops[0]), ops[1..], c);
    }
  }

  /** Until it is freed, an allocation keeps its bytes through any run of other operations,
      except for what the guest writes there itself; also through and after the call that
      poisons the allocator. */
  lemma {:induction false} RunKeepsPayload(w: World, ops: seq<Op>, c: Chunk)
    requires Good(w) && !w.heap.poisoned && LegalRun(w, ops) && c in w.layout.live && SparesAll(ops, c)
    ensures var w' := Run(w, ops);
            && c in w'.layout.live
            && c.Pointer() <= c.End() <= |w.mem.data| <= |w'.mem.data|
            && Payload(w'.mem.data, c) == Payload(w.mem.data, c)
    decreases |ops|
  {
    hide Inv, Payload;
    if ops == [] {
      LiveDisjoint(w.heap, w.mem, w.layout, c, c);
    } else {
      var w1 := Step(w, ops[0]);
      assert Spares(ops[0], c);
      StepKeepsPayload(w, ops[0], c);
      StepKeepsGood(w, ops[0]);
      if w1.heap.poisoned { PoisonedRunKeepsPayload(w1, ops[1..], c); } else { RunKeepsPayload(w1, ops[1..], c); }
    }
  }

  /** Once poisoned, always poisoned: no run, whatever is allocated, freed or written, changes
      any field of the allocator again. */
  lemma {:induction false} PoisonedForever(w: World, ops: seq<Op>)
    requires Typed(w) && w.heap.poisoned && LegalRun(w, ops)
    ensures Run(w, ops).heap == w.heap && Run(w, ops).layout == w.layout
    decreases |ops|
  {
    if ops != [] {
      PoisonedForever(Step(w, ops[0]), ops[1..]);
    }
  }

  // ---- the end of the address space ----

  /** With at most 65535 pages no request can end at 2^32, so every allocation is legal. */
  lemma BelowTopIsLegal(w: World, size: u32, hostGrows: bool)
    requires Good(w) && !w.heap.poisoned && w.mem.Limit() < MAX_WASM_PAGES
    ensures Legal(w, Alloc(size, hostGrows))
  {
    hide Inv;
    if OrderFromSize(size).Ok? {
      ChunkSizeBounds(OrderFromSize(size).value);
      assert |w.mem.data| == w.mem.Pages() * PAGE_SIZE <= w.mem.Limit() * PAGE_SIZE < U32_RANGE;
    }
  }

  /** At the full 65536 pages it can happen: the bump pointer of this heap wraps to zero, and
      no layout describes the result. */
  lemma WrapExample(m: Memory)
    requires m.Valid() && |m.data| == U32_RANGE
    ensures var h := NewHeap(0xffff_fff0);
            var o := Allocate(h, m, 8, false);
            && o.result == Ok(0xffff_fff8)
            && o.heap.bumper == 0
            && (forall l :: !Inv(o.heap, o.mem, l))
  {
    hide ReadHeader, WriteHeader, Stored, Partition, Accounts;
    var h := NewHeap(0xffff_fff0);
    NewHeapInv(0xffff_fff0, m);
    assert OrderSize(0) == 8;
    assert OrderFromSize(8) == Ok(0) by {
      if OrderFromSize(8).value > 0 { assert false; }
    }
    AllocateCorrect(h, m, EMPTY_LAYOUT, 8, false);
    var o := Allocate(h, m, 8, false);
    forall l
      ensures !Inv(o.heap, o.mem, l)
    {
      NotTiledToZero(l.chunks, o.heap.base);
    }
  }

  lemma NotTiledToZero(chunks: seq<Chunk>, base: nat)
    requires base > 0
    ensures !Tiles(chunks, base, 0)
  {
    if chunks != [] { ChunkSizeBounds(chunks[|chunks| - 1].order); }
  }

  // ---- growth ----

  ghost function Growths(w: World, ops: seq<Op>): nat
    requires Typed(w) && LegalRun(w, ops)
    decreases |ops|
  {
    if ops == [] then 0
    else
      var w' := Step(w, ops[0]);
      (if ops[0].Alloc? && w'.mem.Pages() > w.mem.Pages() then 1 else 0) + Growths(w', ops[1..])
  }

  /** A call that grows memory at least doubles it or fills it. */
  lemma AllocateGrowth(h: Heap, m: Memory, size: u32, hostGrows: bool)
    requires m.Valid() && |h.heads| == N_ORDERS
    ensures var m' := Allocate(h, m, size, hostGrows).mem;
            && m'.max == m.max && m.Pages() <= m'.Pages() <= m.Limit()
            && (m'.Pages() > m.Pages() ==> m'.Pages() >= 2 * m.Pages() || m'.Pages() == m.Limit())
            && (m'.Pages() > m.Pages() ==> OrderFromSize(size).Ok?)
            && (m'.Pages() > m.Pages() ==>
                  LeastGrowth(h.bumper + ChunkSize(OrderFromSize(size).value), m, m'.Pages()))
  {
    hide ReadHeader, WriteHeader, OrderFromSize;
    if OrderFromSize(size).Ok? {
      var k := OrderFromSize(size).value;
      ChunkSizeBounds(k);
      BumpSpec(h.bumper, ChunkSize(k), m, hostGrows);
      WriteKeepsLength(Take(h.(observed := |m.data|), m, k, hostGrows), k);
    }
  }

  lemma WriteKeepsLength(t: Result<Taken, Error>, k: Order)
    ensures t.Ok? ==>
              var r := WriteHeader(t.value.mem.data, t.value.header, Occupied(k));
              r.Ok? ==> t.value.mem.(data := r.value).Pages() == t.value.mem.Pages()
  {
  }

  lemma StepPages(w: World, op: Op)
    requires Typed(w) && Legal(w, op)
    ensures var m' := Step(w, op).mem;
            && m'.max == w.mem.max && w.mem.Pages() <= m'.Pages() <= w.mem.Limit()
            && (op.Alloc? && m'.Pages() > w.mem.Pages() ==>
                  m'.Pages() >= 2 * w.mem.Pages() || m'.Pages() == w.mem.Limit())
  {
    hide ReadHeader, WriteHeader;
    match op
    case Alloc(size, hostGrows) => AllocateGrowth(w.heap, w.mem, size, hostGrows);
    case Dealloc(ptr) =>
    case GuestWrite(a, v) =>
    case HostGrow(pages) =>
  }

  /** After `g` growths the memory has at least 2^(g-1) pages, or is full. */
  ghost predicate GrewTo(g: nat, m: Memory) {
    && g <= CeilLog2(m.Limit(), 0) + 1
    && (g == 0 || Pow2(g - 1) <= m.Pages() || m.Pages() == m.Limit())
  }

  lemma {:induction false} GrowthsFrom(w: World, ops: seq<Op>, g: nat)
    requires Typed(w) && LegalRun(w, ops) && GrewTo(g, w.mem)
    ensures g + Growths(w, ops) <= CeilLog2(w.mem.Limit(), 0) + 1
    decreases |ops|
  {
    hide Step;
    if ops != [] {
      StepPages(w, ops[0]);
      var w' := Step(w, ops[0]);
      if ops[0].Alloc? && w'.mem.Pages() > w.mem.Pages() {
        if g > 0 {
          assert Pow2(g - 1) < w.mem.Limit();
          if g - 1 >= CeilLog2(w.mem.Limit(), 0) { Pow2Monotone(CeilLog2(w.mem.Limit(), 0), g - 1); assert false; }
        }
        GrowthsFrom(w', ops[1..], g + 1);
      } else {
        GrowthsFrom(w', ops[1..], g);
      }
    }
  }

  /** However long a run is, the allocator grows the memory at most ceil(log2(limit)) + 1
      times. */
  lemma GrowthsAreLogarithmic(w: World, ops: seq<Op>)
    requires Typed(w) && LegalRun(w, ops)
    ensures Growths(w, ops) <= CeilLog2(w.mem.Limit(), 0) + 1
  {
    GrowthsFrom(w, ops, 0);
  }

  // ---- statistics over a run ----

  /** The most bytes in use at any moment of the run. */
  ghost function MostInUse(w: World, ops: seq<Op>): nat
    requires Typed(w) && LegalRun(w, ops)
    decreases |ops|
  {
    if ops == [] then w.heap.stats.inUse
    else Max(w.heap.stats.inUse, MostInUse(Step(w, ops[0]), ops[1..]))
  }

  /** Header and capacity of the chunk that the operation hands out. */
  function HandedOutBy(w: World, op: Op): nat
    requires w.mem.Valid() && |w.heap.heads| == N_ORDERS
  {
    match op
    case Alloc(size, hostGrows) =>
      if Allocate(w.heap, w.mem, size, hostGrows).result.Ok? then ChunkSize(OrderOf(w, size)) else 0
    case _ => 0
  }

  ghost function HandedOut(w: World, ops: seq<Op>): nat
    requires Typed(w) && LegalRun(w, ops)
    decreases |ops|
  {
    if ops == [] then 0 else HandedOutBy(w, ops[0]) + HandedOut(Step(w, ops[0]), ops[1..])
  }

  lemma StepStats(w: World, op: Op)
    requires Typed(w) && Legal(w, op) && w.heap.stats.inUse <= w.heap.stats.peak && w.heap.stats.sum < U128_RANGE
    ensures var s, s' := w.heap.stats, Step(w, op).heap.stats;
            && s'.inUse <= s'.peak == Max(s.peak, s'.inUse)
            && s'.sum == (s.sum + HandedOutBy(w, op)) % U128_RANGE
  {
    hide ReadHeader, WriteHeader, OrderSize, CanAllocate, Wraps, AllocLayout, FreeLayout, ChunkOf;
  }

  /** Whatever the run, the peak is the maximum that was ever in use and the sum counts every
      chunk ever handed out, modulo 2^128. */
  lemma {:induction false} StatsOfRun(w: World, ops: seq<Op>)
    requires Typed(w) && LegalRun(w, ops) && w.heap.stats.inUse <= w.heap.stats.peak && w.heap.stats.sum < U128_RANGE
    ensures var s, s' := w.heap.stats, Run(w, ops).heap.stats;
            && s'.peak == Max(s.peak, MostInUse(w, ops))
            && s'.sum == (s.sum + HandedOut(w, ops)) % U128_RANGE
    decreases |ops|
  {
    hide Step, HandedOutBy;
    if ops != [] {
      StepStats(w, ops[0]);
      StatsOfRun(Step(w, ops[0]), ops[1..]);
      SumModulo(w.heap.stats.sum, HandedOutBy(w, ops[0]), HandedOut(Step(w, ops[0]), ops[1..]));
    }
  }

  lemma SumModulo(a: nat, b: nat, c: nat)
    requires a < U128_RANGE
    ensures ((a + b) % U128_RANGE + c) % U128_RANGE == (a + b + c) % U128_RANGE
  {
    var q := (a + b) / U128_RANGE;
    assert a + b + c == q * U128_RANGE + ((a + b) % U128_RANGE + c);
  }

  /** After a successful call, a memory smaller than the one it was given is refused by either
      operation. */
  lemma ShrunkMemoryIsRefused(h: Heap, m: Memory, size: u32, ptr: u32, m': Memory, size': u32, ptr': u32,
                              hostGrows: bool)
    requires m.Valid() && m'.Valid() && |h.heads| == N_ORDERS && |m'.data| < |m.data|
    ensures var o := Allocate(h, m, size, hostGrows);
            o.result.Ok? ==>
              && Allocate(o.heap, m', size', hostGrows).result == Err(MemoryShrinked)
              && Deallocate(o.heap, m', ptr').result == Err(MemoryShrinked)
    ensures var o := Deallocate(h, m, ptr);
            o.result.Ok? ==>
              && Allocate(o.heap, m', size', hostGrows).result == Err(MemoryShrinked)
              && Deallocate(o.heap, m', ptr').result == Err(MemoryShrinked)
  {
    hide ReadHeader, WriteHeader, OrderFromSize, Bump;
  }

  // ---- last freed, first allocated ----

  /** Frees the given chunks one after the other. */
  function FreeAll(h: Heap, m: Memory, cs: seq<Chunk>): (o: (Heap, Memory))
    requires m.Valid() && |h.heads| == N_ORDERS
    requires forall c :: c in cs ==> c.Pointer() < U32_RANGE
    ensures o.1.Valid() && |o.0.heads| == N_ORDERS
    decreases |cs|
  {
    if cs == [] then (h, m)
    else
      var o := Deallocate(h, m, cs[0].Pointer());
      FreeAll(o.heap, o.mem, cs[1..])
  }

  datatype Allocations = Allocations(heap: Heap, mem: Memory, results: seq<Result<u32, Error>>)

  /** Makes the same request `n` times. */
  function AllocTimes(h: Heap, m: Memory, size: u32, n: nat): (a: Allocations)
    requires m.Valid() && |h.heads| == N_ORDERS
    ensures a.mem.Valid() && |a.heap.heads| == N_ORDERS && |a.results| == n
  {
    if n == 0 then Allocations(h, m, [])
    else
      var a := AllocTimes(h, m, size, n - 1);
      var o := Allocate(a.heap, a.mem, size, false);
      Allocations(o.heap, o.mem, a.results + [o.result])
  }

  /** Allocating right after a free of the same order gives the chunk back and restores the
      layout. */
  lemma FreeThenAllocate(h: Heap, m: Memory, l: Layout, c: Chunk)
    requires Partition(l) && c in l.live
    ensures |FreeLayout(l, c).free| == N_ORDERS
    ensures Chosen(FreeLayout(l, c), h.bumper, c.order) == c
    ensures AllocLayout(FreeLayout(l, c), h.bumper, c.order) == l
    ensures FreeLayout(l, c).free[c.order] != []
  {
    var n := FreeLayout(l, c);
    assert n.free[c.order][1..] == l.free[c.order];
    assert n.free[c.order := l.free[c.order]] == l.free;
    assert (l.live - {c}) + {c} == l.live;
  }

  ghost predicate AllLive(l: Layout, cs: seq<Chunk>, k: Order) {
    && (forall i :: 0 <= i < |cs| ==> cs[i] in l.live && cs[i].order == k)
    && (forall i, j :: 0 <= i < j < |cs| ==> cs[i] != cs[j])
  }

  /** Pointers of the chunks, last one first. */
  function ReversePointers(cs: seq<Chunk>): seq<Result<u32, Error>>
    requires forall c :: c in cs ==> c.Pointer() < U32_RANGE
  {
    if cs == [] then [] else ReversePointers(cs[1..]) + [Ok(cs[0].Pointer())]
  }

  /** Freeing any live chunks of one order and then allocating that order as often returns
      them in reverse, without moving the bump pointer or growing memory, and brings back the
      whole layout: lists, live set and, by the invariant, list heads, occupied headers and
      the bytes in use. */
  lemma {:induction false} LastFreedFirstAllocated(h: Heap, m: Memory, l: Layout, cs: seq<Chunk>, k: Order, size: u32)
    requires Inv(h, m, l) && AllLive(l, cs, k) && OrderFromSize(size) == Ok(k)
    ensures forall c :: c in cs ==> c.Pointer() < U32_RANGE
    ensures var f := FreeAll(h, m, cs);
            var a := AllocTimes(f.0, f.1, size, |cs|);
            && a.results == ReversePointers(cs)
            && Inv(a.heap, a.mem, l)
            && a.heap.bumper == h.bumper && |a.mem.data| == |m.data|
    decreases |cs|
  {
    hide Inv, Partition, OrderFromSize, OnlyHeader, Wraps, Allocate, Deallocate;
    forall c | c in cs ensures c.Pointer() < U32_RANGE { LivePointer(h, m, l, c); }
    if cs != [] {
      var c := cs[0];
      InvParts(h, m, l);
      DeallocateCorrect(h, m, l, c);
      FreeThenAllocate(h, m, l, c);
      var o := Deallocate(h, m, c.Pointer());
      var n := FreeLayout(l, c);
      assert AllLive(n, cs[1..], k);
      LastFreedFirstAllocated(o.heap, o.mem, n, cs[1..], k, size);
      var f := FreeAll(h, m, cs);
      var a := AllocTimes(f.0, f.1, size, |cs| - 1);
      AllocateCorrect(a.heap, a.mem, n, size, false);
      NonEmptyNeverWraps(n, a.heap.bumper, k);
    }
  }

  lemma LivePointer(h: Heap, m: Memory, l: Layout, c: Chunk)
    requires Inv(h, m, l) && c in l.live
    ensures c.Pointer() < U32_RANGE
  {
    hide Stored, Accounts, Tiles;
    PartitionLive(l, c);
    Within(l.chunks, h.base, h.bumper, c);
  }

  lemma InvParts(h: Heap, m: Memory, l: Layout)
    requires Inv(h, m, l)
    ensures Partition(l) && m.Valid() && |h.heads| == N_ORDERS && |l.free| == N_ORDERS
  {
  }

  lemma NonEmptyNeverWraps(l: Layout, bumper: u32, k: Order)
    requires |l.free| == N_ORDERS && l.free[k] != []
    ensures !Wraps(l, bumper, k)
  {
  }

  /** Two memories in which a list reads the same hold the same links along it. */
  lemma {:induction false} ListHeaders(d: seq<byte>, e: seq<byte>, a: Link, b: Link, list: seq<u32>, p: u32)
    requires ReadsAs(d, a, list) && ReadsAs(e, b, list) && p in list
    ensures ReadHeader(d, p) == ReadHeader(e, p)
    decreases |list|
  {
    hide ReadHeader;
    var x, y := NextOf(d, list[0]), NextOf(e, list[0]);
    assert x == if list[1..] == [] then Nil else Ptr(list[1]);
    assert y == x;
    if p != list[0] {
      ListHeaders(d, e, x, y, list[1..], p);
    }
  }

  /** The layout determines what the allocator and the headers hold, so a restored layout
      restores them. */
  lemma LayoutDetermines(h: Heap, m: Memory, h': Heap, m': Memory, l: Layout)
    requires Inv(h, m, l) && Inv(h', m', l) && h.base == h'.base
    ensures h.bumper == h'.bumper && h.heads == h'.heads && h.stats.inUse == h'.stats.inUse
    ensures forall c :: c in l.chunks ==> ReadHeader(m.data, c.header) == ReadHeader(m'.data, c.header)
  {
    hide ReadHeader;
    TilesEnd(l.chunks, h.base, h.bumper, h'.bumper);
    forall c | c in l.chunks
      ensures ReadHeader(m.data, c.header) == ReadHeader(m'.data, c.header)
    {
      assert ReadsAs(m.data, h.heads[c.order], l.free[c.order]) && ReadsAs(m'.data, h'.heads[c.order], l.free[c.order]);
      if c !in l.live { ListHeaders(m.data, m'.data, h.heads[c.order], h'.heads[c.order], l.free[c.order], c.header); }
    }
    forall k | 0 <= k < N_ORDERS
      ensures h.heads[k] == h'.heads[k]
    {
      assert ReadsAs(m.data, h.heads[k], l.free[k]) && ReadsAs(m'.data, h'.heads[k], l.free[k]);
    }
  }
}
