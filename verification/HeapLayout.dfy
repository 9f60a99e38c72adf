/** What the allocator's bytes mean: the chunks that tile the used part of the heap, which of
    them are live, and which free list each of the others is on. The program stores none of
    this; the invariant reads it back from the headers in memory. */
module HeapLayout {
  import opened Types
  import opened WasmMemory
  import opened FreeingBump

  datatype Chunk = Chunk(header: u32, order: Order) {
    /** One past the last byte of the chunk. */
    function End(): nat {
      header + ChunkSize(order)
    }

    /** The address handed to the guest. */
    function Pointer(): nat {
      header + HEADER_SIZE
    }
  }

  /** `chunks` in address order; `free[k]` is the free list of order `k`, head first. */
  datatype Layout = Layout(chunks: seq<Chunk>, live: set<Chunk>, free: seq<seq<u32>>)

  const EMPTY_LAYOUT := Layout([], {}, seq(N_ORDERS, _ => []))

  // ---- tiling ----

  /** The chunks follow each other without gap or overlap from `base` up to `end`. */
  ghost predicate Tiles(chunks: seq<Chunk>, base: nat, end: nat) {
    && (chunks == [] ==> base == end)
    && (chunks != [] ==> chunks[0].header == base && chunks[|chunks| - 1].End() == end)
    && (forall i, j :: 0 <= i < j < |chunks| && j == i + 1 ==> chunks[i].End() == chunks[j].header)
  }

  lemma {:induction false} TilesOrdered(chunks: seq<Chunk>, base: nat, end: nat, i: nat, j: nat)
    requires Tiles(chunks, base, end)
    requires i < j < |chunks|
    ensures chunks[i].End() <= chunks[j].header
  {
    if i < j - 1 {
      TilesOrdered(chunks, base, end, i, j - 1);
      ChunkSizeBounds(chunks[j - 1].order);
    }
  }

  /** Every chunk lies in `[base, end)`, and is aligned when `base` is. */
  lemma {:induction false} TilesWithin(chunks: seq<Chunk>, base: nat, end: nat, i: nat)
    requires Tiles(chunks, base, end) && i < |chunks|
    ensures base <= chunks[i].header && chunks[i].End() <= end
    ensures base % 8 == 0 ==> chunks[i].header % 8 == 0
  {
    if i > 0 {
      TilesWithin(chunks, base, end, i - 1);
      ChunkSizeBounds(chunks[i - 1].order);
    }
    if i < |chunks| - 1 {
      TilesOrdered(chunks, base, end, i, |chunks| - 1);
      ChunkSizeBounds(chunks[|chunks| - 1].order);
    }
  }

  /** Every address of the used heap belongs to a chunk. */
  lemma {:induction false} TilesCover(chunks: seq<Chunk>, base: nat, end: nat, a: nat) returns (i: nat)
    requires Tiles(chunks, base, end) && base <= a < end
    ensures i < |chunks| && chunks[i].header <= a < chunks[i].End()
  {
    i := |chunks| - 1;
    while a < chunks[i].header
      invariant i < |chunks| && a < chunks[i].End()
    {
      i := i - 1;
    }
  }

  lemma TilesEnd(chunks: seq<Chunk>, base: nat, end: nat, end': nat)
    requires Tiles(chunks, base, end) && Tiles(chunks, base, end')
    ensures end == end'
  {
  }

  /** Two different chunks do not overlap. */
  lemma Separate(chunks: seq<Chunk>, base: nat, end: nat, c: Chunk, d: Chunk)
    requires Tiles(chunks, base, end) && c in chunks && d in chunks && c != d
    ensures c.End() <= d.header || d.End() <= c.header
    ensures c.header + 16 <= d.header || d.header + 16 <= c.header
  {
    var i :| 0 <= i < |chunks| && chunks[i] == c;
    var j :| 0 <= j < |chunks| && chunks[j] == d;
    if i < j { TilesOrdered(chunks, base, end, i, j); } else { TilesOrdered(chunks, base, end, j, i); }
    ChunkSizeBounds(c.order);
    ChunkSizeBounds(d.order);
  }

  lemma Within(chunks: seq<Chunk>, base: nat, end: nat, c: Chunk)
    requires Tiles(chunks, base, end) && c in chunks
    ensures base <= c.header && c.header + 16 <= c.End() <= end
    ensures base % 8 == 0 ==> c.header % 8 == 0
  {
    var i :| 0 <= i < |chunks| && chunks[i] == c;
    TilesWithin(chunks, base, end, i);
    ChunkSizeBounds(c.order);
  }

  /** Tiling survives the bump: one more chunk at the end. */
  lemma TilesExtend(chunks: seq<Chunk>, base: nat, end: u32, k: Order)
    requires Tiles(chunks, base, end)
    ensures Tiles(chunks + [Chunk(end, k)], base, end + ChunkSize(k))
  {
  }

  // ---- bytes in use ----

  /** Header and capacity of every live chunk. */
  ghost function LiveBytes(chunks: seq<Chunk>, live: set<Chunk>): nat {
    if chunks == [] then 0
    else
      var last := chunks[|chunks| - 1];
      LiveBytes(chunks[..|chunks| - 1], live) + if last in live then ChunkSize(last.order) else 0
  }

  lemma {:induction false} LiveBytesFrame(chunks: seq<Chunk>, live: set<Chunk>, c: Chunk)
    requires c !in chunks
    ensures LiveBytes(chunks, live + {c}) == LiveBytes(chunks, live) == LiveBytes(chunks, live - {c})
  {
    if chunks != [] {
      LiveBytesFrame(chunks[..|chunks| - 1], live, c);
    }
  }

  lemma {:induction false} TilesPrefix(chunks: seq<Chunk>, base: nat, end: nat)
    requires Tiles(chunks, base, end) && chunks != []
    ensures Tiles(chunks[..|chunks| - 1], base, chunks[|chunks| - 1].header)
    ensures chunks[|chunks| - 1] !in chunks[..|chunks| - 1]
  {
    var last := chunks[|chunks| - 1];
    forall i | 0 <= i < |chunks| - 1
      ensures chunks[i] != last
    {
      TilesOrdered(chunks, base, end, i, |chunks| - 1);
      ChunkSizeBounds(chunks[i].order);
    }
  }

  lemma {:induction false} LiveBytesAdd(chunks: seq<Chunk>, base: nat, end: nat, live: set<Chunk>, c: Chunk)
    requires Tiles(chunks, base, end) && c in chunks && c !in live
    ensures LiveBytes(chunks, live + {c}) == LiveBytes(chunks, live) + ChunkSize(c.order)
    decreases |chunks|
  {
    var last := chunks[|chunks| - 1];
    TilesPrefix(chunks, base, end);
    if c == last {
      LiveBytesFrame(chunks[..|chunks| - 1], live, c);
    } else {
      LiveBytesAdd(chunks[..|chunks| - 1], base, last.header, live, c);
    }
  }

  lemma {:induction false} LiveBytesBounded(chunks: seq<Chunk>, base: nat, end: nat, live: set<Chunk>)
    requires Tiles(chunks, base, end)
    ensures LiveBytes(chunks, live) <= end - base
    decreases |chunks|
  {
    if chunks != [] {
      TilesPrefix(chunks, base, end);
      LiveBytesBounded(chunks[..|chunks| - 1], base, chunks[|chunks| - 1].header, live);
    }
  }

  // ---- free lists ----

  /** Reading from `head` through the headers in memory gives exactly `list`, then the end. */
  ghost predicate ReadsAs(data: seq<byte>, head: Link, list: seq<u32>)
    decreases |list|
  {
    if list == [] then head == Nil
    else
      && head == Ptr(list[0])
      && ReadHeader(data, list[0]).Ok?
      && ReadHeader(data, list[0]).value.Free?
      && ReadsAs(data, ReadHeader(data, list[0]).value.link, list[1..])
  }

  /** The link stored in a header that is known to be free. */
  function NextOf(data: seq<byte>, p: u32): Link {
    match ReadHeader(data, p)
    case Ok(Free(next)) => next
    case _ => Nil
  }

  lemma {:induction false} ReadsAsFrame(d: seq<byte>, e: seq<byte>, head: Link, list: seq<u32>)
    requires ReadsAs(d, head, list)
    requires forall p :: p in list ==> ReadHeader(e, p) == ReadHeader(d, p)
    ensures ReadsAs(e, head, list)
    decreases |list|
  {
    if list != [] {
      ReadsAsFrame(d, e, NextOf(d, list[0]), list[1..]);
    }
  }

  /** The bytes alone determine the list: two readings from one head agree. */
  lemma {:induction false} ReadsAsUnique(data: seq<byte>, head: Link, a: seq<u32>, b: seq<u32>)
    requires ReadsAs(data, head, a) && ReadsAs(data, head, b)
    ensures a == b
    decreases |a|
  {
    if a != [] && b != [] {
      ReadsAsUnique(data, NextOf(data, a[0]), a[1..], b[1..]);
      assert a == [a[0]] + a[1..] && b == [b[0]] + b[1..];
    }
  }

  // ---- the invariant ----

  /** Used heap: tiled, below 2^32, and inside memory once anything was allocated. */
  ghost predicate Shape(h: Heap, m: Memory, l: Layout) {
    && m.Valid() && h.observed <= |m.data|
    && |h.heads| == |l.free| == N_ORDERS
    && h.base % ALIGNMENT == 0
    && Tiles(l.chunks, h.base, h.bumper)
    && (l.chunks != [] ==> h.bumper <= |m.data|)
  }

  /** Every chunk is live or on the free list of its own order, never both; and the free lists
      hold chunks of their order without repetition. */
  ghost predicate Partition(l: Layout) {
    && |l.free| == N_ORDERS
    && (forall c :: c in l.live ==> c in l.chunks)
    && (forall c :: c in l.chunks ==> (c in l.live <==> c.header !in l.free[c.order]))
    && (forall k: Order, j: nat :: j < |l.free[k]| ==> Chunk(l.free[k][j], k) in l.chunks)
    && (forall k: Order, i: nat, j: nat :: i < j < |l.free[k]| ==> l.free[k][i] != l.free[k][j])
  }

  /** Memory agrees with the layout: live chunks have occupied headers, and each list head
      reads as its free list. */
  ghost predicate Stored(h: Heap, data: seq<byte>, l: Layout) {
    && |h.heads| == |l.free| == N_ORDERS
    && (forall c :: c in l.live ==> ReadHeader(data, c.header) == Ok(Occupied(c.order)))
    && (forall k: Order :: ReadsAs(data, h.heads[k], l.free[k]))
  }

  ghost predicate Accounts(h: Heap, l: Layout) {
    && h.stats.inUse == LiveBytes(l.chunks, l.live)
    && h.stats.inUse <= h.stats.peak <= h.bumper - h.base
    && h.stats.addressSpace == h.bumper - h.base
  }

  ghost predicate Inv(h: Heap, m: Memory, l: Layout) {
    && !h.poisoned
    && Shape(h, m, l)
    && Partition(l)
    && Stored(h, m.data, l)
    && Accounts(h, l)
  }

  /** A fresh allocator on any memory satisfies the invariant with no chunk at all. */
  lemma NewHeapInv(heapBase: u32, m: Memory)
    requires heapBase + ALIGNMENT < U32_RANGE && m.Valid()
    ensures Inv(NewHeap(heapBase), m, EMPTY_LAYOUT)
  {
  }
}
