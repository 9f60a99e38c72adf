/** One call of `allocate` or `deallocate` seen through the layout: what it hands out or takes
    back, when it fails, and that it keeps the invariant and everyone else's bytes. */
module HeapSteps {
  import opened Types
  import opened WasmMemory
  import opened FreeingBump
  import opened HeapLayout

  // ---- the effect on the layout ----

  /** The chunk an allocation of order `k` hands out. */
  function Chosen(l: Layout, bumper: u32, k: Order): Chunk
    requires |l.free| == N_ORDERS
  {
    Chunk(if l.free[k] != [] then l.free[k][0] else bumper, k)
  }

  function AllocLayout(l: Layout, bumper: u32, k: Order): Layout
    requires |l.free| == N_ORDERS
  {
    var c := Chosen(l, bumper, k);
    if l.free[k] != [] then
      Layout(l.chunks, l.live + {c}, l.free[k := l.free[k][1..]])
    else
      Layout(l.chunks + [c], l.live + {c}, l.free)
  }

  function FreeLayout(l: Layout, c: Chunk): Layout
    requires |l.free| == N_ORDERS
  {
    Layout(l.chunks, l.live - {c}, l.free[c.order := [c.header] + l.free[c.order]])
  }

  /** The one request that the u32 bump pointer cannot represent: a fresh chunk ending at
      exactly 2^32. */
  predicate Wraps(l: Layout, bumper: u32, k: Order)
    requires |l.free| == N_ORDERS
  {
    l.free[k] == [] && bumper + ChunkSize(k) == U32_RANGE
  }

  /** A fresh chunk of `size` bytes fits, growing the memory if the host agrees. */
  predicate CanBump(bumper: u32, size: u32, m: Memory, hostGrows: bool) {
    bumper + size <= |m.data| || (bumper + size <= m.Limit() * PAGE_SIZE && hostGrows)
  }

  // ---- bump and growth ----

  /** With `q` pages the request fits, and the memory has at least doubled or is full. */
  ghost predicate Suffices(need: nat, m: Memory, q: nat)
    requires m.Valid()
  {
    need <= q * PAGE_SIZE && q <= m.Limit() && (q >= 2 * m.Pages() || q == m.Limit())
  }

  /** No smaller growth would do. */
  ghost predicate LeastGrowth(need: nat, m: Memory, pages: nat)
    requires m.Valid()
  {
    Suffices(need, m, pages) && forall q :: Suffices(need, m, q) ==> pages <= q
  }

  /** `bump` succeeds exactly when the request fits; it then returns the old bump pointer,
      keeps every byte, and when it grows the debug assertions hold: the current pages were
      too few, and the new number is what was asked for, at least what is needed, at most
      the limit, and the least that doubles the memory or reaches the limit. */
  lemma BumpSpec(bumper: u32, size: u32, m: Memory, hostGrows: bool)
    requires m.Valid() && size <= MAX_POSSIBLE_ALLOCATION + HEADER_SIZE
    ensures var r := Bump(bumper, size, m, hostGrows);
            && (bumper + size > |m.data| ==>
                  PagesFromSize(bumper + size).Some? && m.Pages() < PagesFromSize(bumper + size).value)
            && (r.Ok? <==> CanBump(bumper, size, m, hostGrows))
            && (r.Ok? ==>
                  && r.value.res == bumper
                  && r.value.bumper == Wrap32(bumper + size)
                  && bumper + size <= |r.value.mem.data|
                  && m.data <= r.value.mem.data
                  && (bumper + size <= |m.data| ==> r.value.mem == m)
                  && (bumper + size > |m.data| ==>
                        var required := PagesFromSize(bumper + size);
                        && required.Some? && m.Pages() < required.value <= m.Limit()
                        && r.value.mem.Pages() == NextPages(m.Pages(), required.value, m.Limit())
                        && required.value <= r.value.mem.Pages() <= m.Limit()
                        && (r.value.mem.Pages() >= 2 * m.Pages() || r.value.mem.Pages() == m.Limit())
                        && LeastGrowth(bumper + size, m, r.value.mem.Pages())))
  {
    var need := bumper + size;
    assert |m.data| == m.Pages() * PAGE_SIZE;
    if need > |m.data| {
      assert PagesFromSize(need).Some?;
      var required := PagesFromSize(need).value;
      assert required <= m.Limit() <==> need <= m.Limit() * PAGE_SIZE;
      assert m.Pages() < required;
    }
  }

  // ---- memory ----

  /** Only the header word of `c` may differ. */
  ghost predicate OnlyHeader(d: seq<byte>, e: seq<byte>, p: nat) {
    |d| <= |e| && forall a :: 0 <= a < |d| && !(p <= a < p + 8) ==> e[a] == d[a]
  }

  ghost function Payload(data: seq<byte>, c: Chunk): seq<byte>
    requires c.header + HEADER_SIZE <= c.End() <= |data|
  {
    data[c.header + HEADER_SIZE..c.End()]
  }

  lemma WriteOnlyHeader(data: seq<byte>, p: u32, h: Header)
    requires InBounds(data, p)
    ensures WriteHeader(data, p, h).Ok? && OnlyHeader(data, WriteHeader(data, p, h).value, p)
  {
    HeaderRoundTrip(data, p, h);
    var d := WriteHeader(data, p, h).value;
    forall a | 0 <= a < |data| && !(p <= a < p + 8)
      ensures d[a] == data[a]
    {
      if a < p { assert d[a] == d[..p][a] == data[..p][a]; }
      else { assert d[a] == d[p + 8..][a - p - 8] == data[p + 8..][a - p - 8]; }
    }
  }

  /** Writing the header of one chunk keeps the header of every other one and all payloads. */
  lemma WriteKeepsOthers(chunks: seq<Chunk>, base: nat, end: nat, data: seq<byte>, c: Chunk, h: Header)
    requires Tiles(chunks, base, end) && c in chunks && end <= |data| && end <= U32_RANGE
    ensures InBounds(data, c.header) && WriteHeader(data, c.header, h).Ok?
    ensures var d := WriteHeader(data, c.header, h).value;
            && OnlyHeader(data, d, c.header)
            && (Representable(h) ==> ReadHeader(d, c.header) == Ok(h))
            && (forall x :: x in chunks && x != c ==> ReadHeader(d, x.header) == ReadHeader(data, x.header))
  {
    Within(chunks, base, end, c);
    HeaderRoundTrip(data, c.header, h);
    WriteOnlyHeader(data, c.header, h);
    var d := WriteHeader(data, c.header, h).value;
    forall x | x in chunks && x != c
      ensures ReadHeader(d, x.header) == ReadHeader(data, x.header)
    {
      Separate(chunks, base, end, c, x);
      Within(chunks, base, end, x);
      HeaderUntouched(data, c.header, h, x.header);
    }
  }

  lemma PayloadKept(chunks: seq<Chunk>, base: nat, end: nat, d: seq<byte>, e: seq<byte>, c: Chunk, x: Chunk)
    requires Tiles(chunks, base, end) && c in chunks && x in chunks
    requires x.End() <= |d| && OnlyHeader(d, e, c.header)
    ensures x.header + HEADER_SIZE <= x.End() && Payload(e, x) == Payload(d, x)
  {
    Within(chunks, base, end, x);
    if x != c { Separate(chunks, base, end, c, x); }
    ChunkSizeBounds(c.order);
  }

  // ---- allocate ----

  lemma ListIsChunks(l: Layout, k: Order)
    requires Partition(l)
    ensures forall p :: p in l.free[k] ==> Chunk(p, k) in l.chunks && Chunk(p, k) !in l.live
  {
    forall p | p in l.free[k]
      ensures Chunk(p, k) in l.chunks && Chunk(p, k) !in l.live
    {
      var j :| 0 <= j < |l.free[k]| && l.free[k][j] == p;
      assert Chunk(l.free[k][j], k) in l.chunks;
    }
  }

  /** Growing the memory keeps what is stored. */
  lemma StoredGrown(h: Heap, base: nat, end: nat, d: seq<byte>, e: seq<byte>, l: Layout)
    requires Stored(h, d, l) && Partition(l) && Tiles(l.chunks, base, end)
    requires d <= e && end < U32_RANGE && (l.chunks != [] ==> end <= |d|)
    ensures Stored(h, e, l)
  {
    forall c | c in l.chunks
      ensures ReadHeader(e, c.header) == ReadHeader(d, c.header)
    {
      Within(l.chunks, base, end, c);
      assert e[c.header..c.header + 8] == d[c.header..c.header + 8];
      HeaderFrame(d, e, c.header);
    }
    forall k: Order
      ensures ReadsAs(e, h.heads[k], l.free[k])
    {
      ListIsChunks(l, k);
      ReadsAsFrame(d, e, h.heads[k], l.free[k]);
    }
  }

  /** Taking the head off a non-empty list never fails. */
  lemma TakeFromList(h: Heap, m: Memory, l: Layout, k: Order, hostGrows: bool)
    requires Inv(h, m, l) && l.free[k] != []
    ensures Take(h, m, k, hostGrows) ==
            Ok(Taken(l.free[k][0], h.(heads := h.heads[k := NextOf(m.data, l.free[k][0])]), m))
  {
    var c := Chunk(l.free[k][0], k);
    assert c in l.chunks;
    Within(l.chunks, h.base, h.bumper, c);
    assert ReadsAs(m.data, h.heads[k], l.free[k]);
  }

  lemma AllocPartition(l: Layout, base: nat, bumper: u32, k: Order)
    requires Partition(l) && Tiles(l.chunks, base, bumper)
    ensures |l.free| == |AllocLayout(l, bumper, k).free| == N_ORDERS
    ensures Partition(AllocLayout(l, bumper, k))
    ensures Chosen(l, bumper, k) !in l.live
    ensures l.free[k] == [] ==> Chosen(l, bumper, k) !in l.chunks
  {
    var c := Chosen(l, bumper, k);
    var n := AllocLayout(l, bumper, k);
    if l.free[k] == [] {
      if c in l.chunks { Within(l.chunks, base, bumper, c); assert false; }
      assert forall x :: x in n.chunks <==> x in l.chunks || x == c;
    } else {
      assert Chunk(l.free[k][0], k) in l.chunks;
      assert l.free[k] == [c.header] + n.free[k];
    }
  }

  lemma ChosenIsChunk(l: Layout, bumper: u32, k: Order)
    requires Partition(l)
    ensures Chosen(l, bumper, k) in AllocLayout(l, bumper, k).chunks
    ensures Chosen(l, bumper, k) in AllocLayout(l, bumper, k).live
  {
    if l.free[k] != [] { assert Chunk(l.free[k][0], k) in l.chunks; }
  }

  /** Each list head is right again once the chosen chunk has left its list. */
  lemma AllocListStored(h: Heap, d: seq<byte>, e: seq<byte>, l: Layout, bumper: u32, k: Order, q: Order)
    requires Partition(l) && Stored(h, d, l)
    requires var n := AllocLayout(l, bumper, k);
             && Partition(n)
             && (forall x :: x in n.chunks && x != Chosen(l, bumper, k) ==>
                 ReadHeader(e, x.header) == ReadHeader(d, x.header))
    ensures ReadsAs(e, if q == k && l.free[k] != [] then NextOf(d, l.free[k][0]) else h.heads[q],
                    AllocLayout(l, bumper, k).free[q])
  {
    var n := AllocLayout(l, bumper, k);
    assert ReadsAs(d, h.heads[q], l.free[q]);
    ListIsChunks(n, q);
    ChosenIsChunk(l, bumper, k);
    if q == k && l.free[k] != [] {
      ReadsAsFrame(d, e, NextOf(d, l.free[k][0]), n.free[q]);
    } else {
      ReadsAsFrame(d, e, h.heads[q], n.free[q]);
    }
  }

  /** The header of the chosen chunk becomes occupied; every list still reads as it should. */
  lemma AllocStored(h: Heap, h': Heap, base: nat, end: nat, d: seq<byte>, l: Layout, bumper: u32, k: Order)
    requires Partition(l) && Stored(h, d, l) && Tiles(l.chunks, base, bumper)
    requires Tiles(AllocLayout(l, bumper, k).chunks, base, end) && end <= |d| && end <= U32_RANGE
    requires h'.heads == if l.free[k] != [] then h.heads[k := NextOf(d, l.free[k][0])] else h.heads
    ensures WriteHeader(d, Chosen(l, bumper, k).header, Occupied(k)).Ok?
    ensures Stored(h', WriteHeader(d, Chosen(l, bumper, k).header, Occupied(k)).value, AllocLayout(l, bumper, k))
  {
    hide ReadHeader, WriteHeader, Tiles;
    var c := Chosen(l, bumper, k);
    var n := AllocLayout(l, bumper, k);
    AllocPartition(l, base, bumper, k);
    ChosenIsChunk(l, bumper, k);
    WriteKeepsOthers(n.chunks, base, end, d, c, Occupied(k));
    var e := WriteHeader(d, c.header, Occupied(k)).value;
    forall q: Order
      ensures ReadsAs(e, h'.heads[q], n.free[q])
    {
      AllocListStored(h, d, e, l, bumper, k, q);
    }
    forall x | x in n.live
      ensures ReadHeader(e, x.header) == Ok(Occupied(x.order))
    {
      if x != c { assert x in l.live; }
    }
  }

  // ---- the two operations ----

  /** When an allocation on a good heap succeeds. */
  predicate CanAllocate(h: Heap, m: Memory, l: Layout, size: u32, hostGrows: bool)
    requires |l.free| == N_ORDERS
  {
    && OrderFromSize(size).Ok?
    && var k := OrderFromSize(size).value;
       ChunkSizeBounds(k);
       l.free[k] != [] || CanBump(h.bumper, ChunkSize(k), m, hostGrows)
  }

  lemma AllocBytes(l: Layout, base: nat, bumper: u32, end: nat, k: Order)
    requires |l.free| == N_ORDERS
    requires Tiles(AllocLayout(l, bumper, k).chunks, base, end)
    requires Chosen(l, bumper, k) in AllocLayout(l, bumper, k).chunks && Chosen(l, bumper, k) !in l.live
    ensures var n := AllocLayout(l, bumper, k);
            LiveBytes(n.chunks, n.live) == LiveBytes(l.chunks, l.live) + ChunkSize(k) <= end - base
  {
    hide Tiles;
    var n := AllocLayout(l, bumper, k);
    var c := Chosen(l, bumper, k);
    LiveBytesAdd(n.chunks, base, end, l.live, c);
    LiveBytesBounded(n.chunks, base, end, n.live);
    if l.free[k] == [] {
      assert n.chunks[..|n.chunks| - 1] == l.chunks;
    }
  }

  lemma AllocAccounts(h: Heap, l: Layout, k: Order, end: u32)
    requires Accounts(h, l) && Partition(l) && Tiles(l.chunks, h.base, h.bumper)
    requires Tiles(AllocLayout(l, h.bumper, k).chunks, h.base, end) && h.bumper <= end
    ensures var s := StatsAfterAllocate(h.stats, k, end - h.base);
            Accounts(h.(bumper := end, stats := s), AllocLayout(l, h.bumper, k))
  {
    hide Partition, Tiles, LiveBytes, AllocLayout, Chosen;
    AllocPartition(l, h.base, h.bumper, k);
    ChosenIsChunk(l, h.bumper, k);
    AllocBytes(l, h.base, h.bumper, end, k);
  }

  /** `Take` on a good heap: the state handed to the header write. */
  lemma TakeSpec(h: Heap, m: Memory, l: Layout, k: Order, hostGrows: bool)
    requires Inv(h, m, l)
    ensures ChunkSize(k) < U32_RANGE
    ensures var r := Take(h, m, k, hostGrows);
            && (r.Ok? <==> l.free[k] != [] || CanBump(h.bumper, ChunkSize(k), m, hostGrows))
            && (r.Err? ==> r.error == AllocatorOutOfSpace)
            && (r.Ok? ==>
                  var t := r.value;
                  var n := AllocLayout(l, h.bumper, k);
                  && t.header == Chosen(l, h.bumper, k).header
                  && m.data <= t.mem.data && t.mem.max == m.max
                  && t.heap == h.(bumper := t.heap.bumper, heads := t.heap.heads)
                  && Stored(h, t.mem.data, l)
                  && t.heap.heads ==
                       (if l.free[k] != [] then h.heads[k := NextOf(t.mem.data, l.free[k][0])] else h.heads)
                  && (l.free[k] != [] ==> t.mem == m && t.heap.bumper == h.bumper)
                  && (l.free[k] == [] ==> t.heap.bumper == Wrap32(h.bumper + ChunkSize(k)))
                  && var end := if l.free[k] != [] then h.bumper else h.bumper + ChunkSize(k);
                     Tiles(n.chunks, h.base, end) && end <= |t.mem.data| && end <= U32_RANGE)
  {
    hide ReadHeader;
    ChunkSizeBounds(k);
    if l.free[k] != [] {
      TakeFromList(h, m, l, k, hostGrows);
      assert Chunk(l.free[k][0], k) in l.chunks;
    } else {
      assert ReadsAs(m.data, h.heads[k], l.free[k]);
      BumpSpec(h.bumper, ChunkSize(k), m, hostGrows);
      TilesExtend(l.chunks, h.base, h.bumper, k);
      var r := Bump(h.bumper, ChunkSize(k), m, hostGrows);
      if r.Ok? {
        StoredGrown(h, h.base, h.bumper, m.data, r.value.mem.data, l);
      }
    }
  }

  /** `allocate` on a good heap. It fails exactly when the request is too large or nothing is
      free and the heap cannot be extended. Otherwise it hands out a chunk that was not live:
      the head of the order's free list if there is one, else the bytes at the bump pointer.
      The pointer is 8-aligned, the capacity is the least power of two that covers the
      request, the chunk lies inside memory, and only its header word is written. The heap is
      good again, with exactly that chunk moved, unless the u32 bump pointer wrapped. */
  lemma AllocateCorrect(h: Heap, m: Memory, l: Layout, size: u32, hostGrows: bool)
    requires Inv(h, m, l)
    ensures var o := Allocate(h, m, size, hostGrows);
            && (o.result.Ok? <==> CanAllocate(h, m, l, size, hostGrows))
            && (o.result.Err? ==> o.mem == m && o.heap == h.(poisoned := true, observed := |m.data|))
            && (o.result.Err? ==>
                  o.result.error ==
                    if size > MAX_POSSIBLE_ALLOCATION then RequestedAllocationTooLarge else AllocatorOutOfSpace)
            && (o.result.Ok? ==>
                  var k := OrderFromSize(size).value;
                  var c := Chosen(l, h.bumper, k);
                  var n := AllocLayout(l, h.bumper, k);
                  && o.result.value == c.Pointer() && c !in l.live && c in n.live
                  && c.Pointer() % ALIGNMENT == 0
                  && size <= OrderSize(k) && (k > 0 ==> OrderSize(k - 1) < size)
                  && h.base <= c.header && c.End() <= |o.mem.data|
                  && OnlyHeader(m.data, o.mem.data, c.header)
                  && (l.free[k] != [] ==> |o.mem.data| == |m.data| && o.heap.bumper == h.bumper)
                  && (Inv(o.heap, o.mem, n) <==> !Wraps(l, h.bumper, k)))
  {
    hide ReadHeader, WriteHeader, Stored, Partition, Accounts, Take, Tiles, OrderFromSize, Wraps, Chosen,
         AllocLayout, OnlyHeader;
    if OrderFromSize(size).Ok? {
      var k := OrderFromSize(size).value;
      var h1 := h.(observed := |m.data|);
      ObservedInv(h, m, l);
      TakeSpec(h1, m, l, k, hostGrows);
      if Take(h1, m, k, hostGrows).Ok? {
        AllocatedBytes(h1, m, l, hostGrows, k);
        AllocatedInv(h1, m, l, hostGrows, k);
      }
    }
  }

  /** The heap after a successful allocation that took `t`. */
  function Allocated(h: Heap, t: Taken, k: Order): Heap {
    t.heap.(stats := StatsAfterAllocate(h.stats, k, Wrap32(t.heap.bumper - h.base)))
  }

  /** One past the last used byte after an allocation, not wrapped. */
  function EndAfter(l: Layout, bumper: u32, k: Order): nat
    requires |l.free| == N_ORDERS
  {
    if l.free[k] != [] then bumper else bumper + ChunkSize(k)
  }

  /** The header of the chunk taken becomes occupied and everything stored stays readable. */
  lemma AllocatedStored(h: Heap, m: Memory, l: Layout, hostGrows: bool, k: Order)
    requires Inv(h, m, l)
    requires Take(h, m, k, hostGrows).Ok?
    ensures var t := Take(h, m, k, hostGrows).value;
            var n := AllocLayout(l, h.bumper, k);
            var r := WriteHeader(t.mem.data, t.header, Occupied(k));
            && r.Ok? && Partition(n) && Stored(Allocated(h, t, k), r.value, n)
  {
    hide ReadHeader, WriteHeader, Stored, Partition, Accounts, Take, Tiles, OnlyHeader, Representable, Chosen,
         NextOf, AllocLayout;
    var t := Take(h, m, k, hostGrows).value;
    TakeSpec(h, m, l, k, hostGrows);
    AllocPartition(l, h.base, h.bumper, k);
    AllocStored(h, t.heap, h.base, EndAfter(l, h.bumper, k), t.mem.data, l, h.bumper, k);
    var data := WriteHeader(t.mem.data, t.header, Occupied(k)).value;
    StoredHeads(t.heap, Allocated(h, t, k), data, AllocLayout(l, h.bumper, k));
  }

  /** The bytes in use are counted right unless the bump pointer wrapped, and then the used
      heap has no tiling. */
  lemma AllocatedAccounts(h: Heap, m: Memory, l: Layout, hostGrows: bool, k: Order)
    requires Inv(h, m, l)
    requires Take(h, m, k, hostGrows).Ok?
    ensures var h' := Allocated(h, Take(h, m, k, hostGrows).value, k);
            var n := AllocLayout(l, h.bumper, k);
            && (Tiles(n.chunks, h.base, h'.bumper) <==> !Wraps(l, h.bumper, k))
            && (!Wraps(l, h.bumper, k) ==> Accounts(h', n))
  {
    hide ReadHeader, WriteHeader, Stored, Partition, Accounts, Take, Tiles, Chosen, NextOf, AllocLayout;
    var t := Take(h, m, k, hostGrows).value;
    var h' := Allocated(h, t, k);
    var n := AllocLayout(l, h.bumper, k);
    var end := EndAfter(l, h.bumper, k);
    TakeSpec(h, m, l, k, hostGrows);
    ChunkSizeBounds(k);
    if end < U32_RANGE {
      AllocAccounts(h, l, k, end);
      AccountsOf(h.(bumper := end, stats := h'.stats), h', n);
    } else if Tiles(n.chunks, h.base, h'.bumper) {
      TilesEnd(n.chunks, h.base, end, h'.bumper);
      assert false;
    }
  }

  /** The heap after taking is good again, unless the bump pointer wrapped. */
  lemma AllocatedInv(h: Heap, m: Memory, l: Layout, hostGrows: bool, k: Order)
    requires Inv(h, m, l) && h.observed == |m.data|
    requires Take(h, m, k, hostGrows).Ok?
    ensures var t := Take(h, m, k, hostGrows).value;
            && WriteHeader(t.mem.data, t.header, Occupied(k)).Ok?
            && var m' := t.mem.(data := WriteHeader(t.mem.data, t.header, Occupied(k)).value);
               Inv(Allocated(h, t, k), m', AllocLayout(l, h.bumper, k)) <==> !Wraps(l, h.bumper, k)
  {
    hide ReadHeader, WriteHeader, Stored, Partition, Accounts, Take, Tiles, Chosen, NextOf, StatsAfterAllocate;
    TakeSpec(h, m, l, k, hostGrows);
    AllocatedStored(h, m, l, hostGrows, k);
    AllocatedAccounts(h, m, l, hostGrows, k);
  }

  /** What is stored depends on the list heads only. */
  lemma StoredHeads(h: Heap, h': Heap, d: seq<byte>, l: Layout)
    requires Stored(h, d, l) && h'.heads == h.heads
    ensures Stored(h', d, l)
  {
  }

  lemma AccountsOf(h: Heap, h': Heap, l: Layout)
    requires Accounts(h, l) && h'.stats == h.stats && h'.bumper == h.bumper && h'.base == h.base
    ensures Accounts(h', l)
  {
  }

  /** Recording the memory's size keeps the invariant. */
  lemma ObservedInv(h: Heap, m: Memory, l: Layout)
    requires Inv(h, m, l)
    ensures Inv(h.(observed := |m.data|), m, l)
  {
  }

  /** Where the chunk taken lies, and which bytes its header write changes. */
  lemma AllocatedBytes(h: Heap, m: Memory, l: Layout, hostGrows: bool, k: Order)
    requires Inv(h, m, l)
    requires Take(h, m, k, hostGrows).Ok?
    ensures var t := Take(h, m, k, hostGrows).value;
            var c := Chosen(l, h.bumper, k);
            && t.header == c.header && c !in l.live && c in AllocLayout(l, h.bumper, k).live
            && c.Pointer() % ALIGNMENT == 0 && c.Pointer() < U32_RANGE
            && h.base <= c.header && c.End() <= |t.mem.data|
            && WriteHeader(t.mem.data, t.header, Occupied(k)).Ok?
            && OnlyHeader(m.data, WriteHeader(t.mem.data, t.header, Occupied(k)).value, c.header)
            && (l.free[k] != [] ==> |t.mem.data| == |m.data| && t.heap.bumper == h.bumper)
  {
    hide ReadHeader, WriteHeader, Stored, Partition, Accounts, Take, Tiles, OnlyHeader, Chosen, AllocLayout;
    var t := Take(h, m, k, hostGrows).value;
    var c := Chosen(l, h.bumper, k);
    var n := AllocLayout(l, h.bumper, k);
    var end := if l.free[k] != [] then h.bumper else h.bumper + ChunkSize(k);
    TakeSpec(h, m, l, k, hostGrows);
    AllocPartition(l, h.base, h.bumper, k);
    ChosenIsChunk(l, h.bumper, k);
    Within(n.chunks, h.base, end, c);
    WriteKeepsOthers(n.chunks, h.base, end, t.mem.data, c, Occupied(k));
    GrownOnlyHeader(m.data, t.mem.data, WriteHeader(t.mem.data, t.header, Occupied(k)).value, c.header);
  }

  lemma GrownOnlyHeader(d: seq<byte>, grown: seq<byte>, e: seq<byte>, ptr: nat)
    requires d <= grown && OnlyHeader(grown, e, ptr)
    ensures OnlyHeader(d, e, ptr)
  {
  }

  lemma FreePartition(l: Layout, c: Chunk)
    requires Partition(l) && c in l.live
    ensures |l.free| == |FreeLayout(l, c).free| == N_ORDERS
    ensures Partition(FreeLayout(l, c)) && c in l.chunks && c.header !in l.free[c.order]
  {
    var n := FreeLayout(l, c);
    forall k: Order, j: nat | j < |n.free[k]|
      ensures Chunk(n.free[k][j], k) in n.chunks
    {
      if k == c.order && j > 0 { assert n.free[k][j] == l.free[k][j - 1]; }
    }
    forall k: Order, i: nat, j: nat | i < j < |n.free[k]|
      ensures n.free[k][i] != n.free[k][j]
    {
      if k == c.order { assert n.free[k][j] == l.free[k][j - 1]; }
    }
  }

  lemma FreeStored(h: Heap, h': Heap, base: nat, end: nat, d: seq<byte>, l: Layout, c: Chunk)
    requires Partition(l) && Stored(h, d, l) && Tiles(l.chunks, base, end) && c in l.live
    requires end <= |d| && end < U32_RANGE
    requires h'.heads == h.heads[c.order := Ptr(c.header)]
    ensures WriteHeader(d, c.header, Free(h.heads[c.order])).Ok?
    ensures Stored(h', WriteHeader(d, c.header, Free(h.heads[c.order])).value, FreeLayout(l, c))
  {
    hide ReadHeader, WriteHeader, Tiles;
    var n := FreeLayout(l, c);
    var k := c.order;
    FreePartition(l, c);
    assert Representable(Free(h.heads[k])) by {
      ListIsChunks(l, k);
      if l.free[k] != [] { Within(l.chunks, base, end, Chunk(l.free[k][0], k)); }
      assert ReadsAs(d, h.heads[k], l.free[k]);
    }
    WriteKeepsOthers(l.chunks, base, end, d, c, Free(h.heads[k]));
    var e := WriteHeader(d, c.header, Free(h.heads[k])).value;
    forall q: Order
      ensures ReadsAs(e, h'.heads[q], n.free[q])
    {
      ListIsChunks(l, q);
      assert ReadsAs(d, h.heads[q], l.free[q]);
      ReadsAsFrame(d, e, h.heads[q], l.free[q]);
      assert q == k ==> n.free[q][1..] == l.free[q];
    }
  }

  lemma FreeAccounts(h: Heap, l: Layout, c: Chunk)
    requires Accounts(h, l) && Tiles(l.chunks, h.base, h.bumper) && |l.free| == N_ORDERS
    requires c in l.live && c in l.chunks
    ensures ChunkSize(c.order) <= h.stats.inUse
    ensures Accounts(h.(stats := h.stats.(inUse := h.stats.inUse - ChunkSize(c.order))), FreeLayout(l, c))
  {
    hide Tiles;
    LiveBytesAdd(l.chunks, h.base, h.bumper, l.live - {c}, c);
    assert (l.live - {c}) + {c} == l.live;
  }

  /** `deallocate` of a live chunk on a good heap always succeeds, also for the bytes-in-use
      counter; it puts the chunk at the front of its order's free list, writes only the
      chunk's header word, and leaves the heap good. */
  lemma DeallocateCorrect(h: Heap, m: Memory, l: Layout, c: Chunk)
    requires Inv(h, m, l) && c in l.live
    ensures c.Pointer() < U32_RANGE
    ensures var o := Deallocate(h, m, c.Pointer());
            && o.result.Ok?
            && o.heap.bumper == h.bumper && |o.mem.data| == |m.data|
            && OnlyHeader(m.data, o.mem.data, c.header)
            && Inv(o.heap, o.mem, FreeLayout(l, c))
  {
    hide ReadHeader, WriteHeader, Tiles, Partition, Accounts, OnlyHeader;
    FreePartition(l, c);
    Within(l.chunks, h.base, h.bumper, c);
    FreeAccounts(h, l, c);
    assert ReadHeader(m.data, c.header) == Ok(Occupied(c.order));
    WriteKeepsOthers(l.chunks, h.base, h.bumper, m.data, c, Free(h.heads[c.order]));
    var h' := Deallocate(h, m, c.Pointer()).heap;
    FreeStored(h, h', h.base, h.bumper, m.data, l, c);
    AccountsOf(h.(stats := h'.stats), h', FreeLayout(l, c));
  }

  /** Every chunk on a list has a free header. */
  lemma {:induction false} ListedIsFree(data: seq<byte>, head: Link, list: seq<u32>, p: u32)
    requires ReadsAs(data, head, list) && p in list
    ensures ReadHeader(data, p).Ok? && ReadHeader(data, p).value.Free?
    decreases |list|
  {
    hide ReadHeader;
    if p != list[0] {
      ListedIsFree(data, NextOf(data, list[0]), list[1..], p);
    }
  }

  /** What a free of any pointer is refused for, read off the eight bytes before it, and that a
      refusal changes no byte. */
  lemma ForeignFreeIsRefused(h: Heap, m: Memory, ptr: u32)
    requires m.Valid() && |h.heads| == N_ORDERS && !h.poisoned && h.observed <= |m.data|
    requires var p := ptr - HEADER_SIZE;
             || p < 0
             || !InBounds(m.data, p)
             || FromLe(m.data[p..p + 8]) / U32_RANGE % 2 == 0
             || FromLe(m.data[p..p + 8]) % U32_RANGE >= N_ORDERS
    ensures var p := ptr - HEADER_SIZE;
            Deallocate(h, m, ptr) ==
              Outcome(h.(poisoned := true, observed := |m.data|), m,
                      Err(if p < 0 then InvalidPointer
                          else if !InBounds(m.data, p) then OutOfHeapBounds
                          else if FromLe(m.data[p..p + 8]) / U32_RANGE % 2 == 0 then EmptyHeader
                          else InvalidOrder))
  {
    hide FromLe;
  }

  /** A second free of a chunk is always refused: it poisons the allocator and changes no byte
      and nothing else. */
  lemma DoubleFreeIsRefused(h: Heap, m: Memory, l: Layout, c: Chunk)
    requires Inv(h, m, l) && c in l.chunks && c !in l.live
    ensures c.Pointer() < U32_RANGE
    ensures Deallocate(h, m, c.Pointer()) ==
            Outcome(h.(poisoned := true, observed := |m.data|), m, Err(EmptyHeader))
  {
    hide ReadHeader, WriteHeader, Tiles, Accounts;
    Within(l.chunks, h.base, h.bumper, c);
    assert ReadsAs(m.data, h.heads[c.order], l.free[c.order]);
    ListedIsFree(m.data, h.heads[c.order], l.free[c.order], c.header);
  }
}
