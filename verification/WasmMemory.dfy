/** Wasm linear memory as the allocator sees it, and the allocation headers stored in it.

    A memory is a run of bytes whose length is a whole number of 64 KiB pages. It can grow up
    to its own maximum, or up to 65536 pages (4 GiB) when it has none. A header is one
    little-endian 64-bit word: bit 32 says whether the chunk is occupied and the low 32 bits
    hold the order of an occupied chunk or the link of a free one. */
module WasmMemory {
  import opened Types

  const PAGE_SIZE := 0x1_0000
  const MAX_WASM_PAGES := 0x1_0000
  const HEADER_SIZE := 8
  const N_ORDERS := 23
  const NIL_MARKER := 0xffff_ffff

  type u32 = x: int | 0 <= x < 0x1_0000_0000
  type Order = k: int | 0 <= k < 23

  datatype Error =
    | RequestedAllocationTooLarge
    | AllocatorOutOfSpace
    | MemoryShrinked
    | Poisoned
    | InvalidHeaderPointer
    | InvalidOrder
    | OccupiedInFreeList
    | InvalidPointer
    | EmptyHeader
    | OutOfHeapBounds
    | CountUnderflow

  datatype Memory = Memory(data: seq<byte>, max: Option<nat>) {

    function Pages(): nat {
      |data| / PAGE_SIZE
    }

    /** The most pages the memory may have. */
    function Limit(): nat {
      match max
      case None => MAX_WASM_PAGES
      case Some(n) => n
    }

    /** What the trait asks of its implementors: whole pages, and
        `pages <= max_pages <= 65536`. */
    predicate Valid() {
      |data| % PAGE_SIZE == 0 && Pages() <= Limit() <= MAX_WASM_PAGES
    }

    /** `grow` adds zeroed pages. */
    function Grow(additional: nat): (m: Memory)
      requires Valid() && Pages() + additional <= Limit()
      ensures m.Valid() && m.max == max && m.Pages() == Pages() + additional
      ensures |m.data| == |data| + additional * PAGE_SIZE && m.data[..|data|] == data
    {
      var m := Memory(data + seq(additional * PAGE_SIZE, _ => 0), max);
      assert |m.data| == (Pages() + additional) * PAGE_SIZE;
      m
    }
  }

  // ---- little-endian words ----

  function FromLe(b: seq<byte>): nat {
    if b == [] then 0 else b[0] + 0x100 * FromLe(b[1..])
  }

  function ToLe(v: nat, n: nat): (b: seq<byte>)
    ensures |b| == n
  {
    if n == 0 then [] else [v % 0x100] + ToLe(v / 0x100, n - 1)
  }

  function Range(n: nat): nat {
    if n == 0 then 1 else 0x100 * Range(n - 1)
  }

  lemma {:induction false} LeRoundTrip(v: nat, n: nat)
    requires v < Range(n)
    ensures FromLe(ToLe(v, n)) == v
  {
    if n > 0 {
      LeRoundTrip(v / 0x100, n - 1);
      assert ToLe(v, n)[1..] == ToLe(v / 0x100, n - 1);
    }
  }

  lemma RangeOf8()
    ensures Range(8) == 0x1_0000_0000_0000_0000
  {
    assert Range(4) == 0x1_0000_0000;
    assert Range(6) == 0x1_0000_0000_0000;
  }

  /** The bounds check of every access: `None` when the end overflows u32 or lies beyond
      the heap. */
  function HeapRange(offset: u32, length: u32, heapLen: nat): (r: Option<(nat, nat)>)
    ensures r.Some? <==> offset + length < U32_RANGE && offset + length <= heapLen
    ensures r.Some? ==> r.value.1 - r.value.0 == length && r.value.0 == offset && r.value.1 <= heapLen
  {
    if offset + length >= U32_RANGE then None
    else if offset + length <= heapLen then Some((offset, offset + length))
    else None
  }

  function ReadLeU64(data: seq<byte>, ptr: u32): Result<nat, Error> {
    match HeapRange(ptr, 8, |data|)
    case None => Err(OutOfHeapBounds)
    case Some(r) => Ok(FromLe(data[r.0..r.1]))
  }

  function WriteLeU64(data: seq<byte>, ptr: u32, val: nat): (r: Result<seq<byte>, Error>)
    ensures r.Ok? ==> |r.value| == |data|
  {
    match HeapRange(ptr, 8, |data|)
    case None => Err(OutOfHeapBounds)
    case Some(r) => Ok(data[..r.0] + ToLe(val, 8) + data[r.1..])
  }

  // ---- headers ----

  datatype Link = Nil | Ptr(ptr: u32)

  function LinkFromRaw(raw: u32): Link {
    if raw != NIL_MARKER then Ptr(raw) else Nil
  }

  function LinkIntoRaw(link: Link): u32 {
    match link
    case Nil => NIL_MARKER
    case Ptr(p) => p
  }

  datatype Header = Free(link: Link) | Occupied(order: Order)

  function OrderFromRaw(order: u32): Result<Order, Error> {
    if order < N_ORDERS then Ok(order) else Err(InvalidOrder)
  }

  /** Bit 32 of the word chooses the kind of header, the low 32 bits are its data, and the
      remaining high bits are ignored. */
  function DecodeHeader(raw: nat): Result<Header, Error> {
    var headerData: u32 := raw % U32_RANGE;
    if raw / U32_RANGE % 2 == 1 then
      match OrderFromRaw(headerData)
      case Err(e) => Err(e)
      case Ok(order) => Ok(Occupied(order))
    else
      Ok(Free(LinkFromRaw(headerData)))
  }

  function ReadHeader(data: seq<byte>, ptr: u32): Result<Header, Error> {
    match ReadLeU64(data, ptr)
    case Err(e) => Err(e)
    case Ok(raw) => DecodeHeader(raw)
  }

  function RawHeader(h: Header): nat {
    match h
    case Occupied(order) => order + U32_RANGE
    case Free(link) => LinkIntoRaw(link)
  }

  function WriteHeader(data: seq<byte>, ptr: u32, h: Header): (r: Result<seq<byte>, Error>)
    ensures r.Ok? ==> |r.value| == |data|
  {
    WriteLeU64(data, ptr, RawHeader(h))
  }

  /** A header can be stored at `p`: its eight bytes end inside memory and below 2^32. */
  predicate InBounds(data: seq<byte>, p: nat) {
    p + HEADER_SIZE < U32_RANGE && p + HEADER_SIZE <= |data|
  }

  /** A link is representable when it is not the pointer that reads back as the end marker. */
  predicate Representable(h: Header) {
    h.Free? && h.link.Ptr? ==> h.link.ptr != NIL_MARKER
  }

  lemma RawRoundTrip(h: Header)
    ensures DecodeHeader(RawHeader(h)) == Ok(h) <==> Representable(h)
    ensures RawHeader(h) < Range(8)
  {
    RangeOf8();
  }

  lemma WordRoundTrip(data: seq<byte>, p: u32, v: nat)
    requires InBounds(data, p) && v < Range(8)
    ensures WriteLeU64(data, p, v).Ok?
    ensures var d := WriteLeU64(data, p, v).value;
            ReadLeU64(d, p) == Ok(v) && d[..p] == data[..p] && d[p + 8..] == data[p + 8..]
  {
    var d := WriteLeU64(data, p, v).value;
    assert d[p..p + 8] == ToLe(v, 8);
    LeRoundTrip(v, 8);
  }

  /** Writing a header and reading it back gives the same header, exactly when the header is
      not a link to the end marker's own address; and every other byte of memory is kept. */
  lemma HeaderRoundTrip(data: seq<byte>, p: u32, h: Header)
    requires InBounds(data, p)
    ensures WriteHeader(data, p, h).Ok?
    ensures var d := WriteHeader(data, p, h).value;
            && (ReadHeader(d, p) == Ok(h) <==> Representable(h))
            && d[..p] == data[..p] && d[p + 8..] == data[p + 8..]
  {
    RawRoundTrip(h);
    WordRoundTrip(data, p, RawHeader(h));
  }

  lemma {:induction false} ToLeSplit(v: nat, n: nat)
    requires n > 0
    ensures ToLe(v, n)[0] == v % 0x100 && ToLe(v, n)[1..] == ToLe(v / 0x100, n - 1)
  {
  }

  /** A header in memory: the order or the link in the first four bytes, least significant first,
      then a one for an occupied chunk, and zeros. */
  lemma HeaderBytes(data: seq<byte>, p: u32, h: Header)
    requires InBounds(data, p)
    ensures WriteHeader(data, p, h).Ok?
    ensures var d := WriteHeader(data, p, h).value;
            var low: nat := if h.Occupied? then h.order else if h.link.Ptr? then h.link.ptr else NIL_MARKER;
            && d[p] == low % 0x100 && d[p + 1] == low / 0x100 % 0x100
            && d[p + 2] == low / 0x1_0000 % 0x100 && d[p + 3] == low / 0x100_0000
            && d[p + 4] == (if h.Occupied? then 1 else 0) && d[p + 5] == d[p + 6] == d[p + 7] == 0
  {
    hide ToLe;
    var low: nat := if h.Occupied? then h.order else if h.link.Ptr? then h.link.ptr else NIL_MARKER;
    var flag: nat := if h.Occupied? then 1 else 0;
    var w := WordBytes(low, flag);
    assert RawHeader(h) == low + flag * U32_RANGE;
    var d := WriteHeader(data, p, h).value;
    assert forall i :: 0 <= i < 8 ==> d[p + i] == w[i];
  }

  lemma WordBytes(low: nat, flag: nat) returns (w: seq<byte>)
    requires low < U32_RANGE && flag <= 1
    ensures w == ToLe(low + flag * U32_RANGE, 8) && |w| == 8
    ensures w[0] == low % 0x100 && w[1] == low / 0x100 % 0x100 && w[2] == low / 0x1_0000 % 0x100
    ensures w[3] == low / 0x100_0000 && w[4] == flag && w[5] == w[6] == w[7] == 0
  {
    hide ToLe;
    var v0 := low + flag * U32_RANGE;
    var v1 := low / 0x100 + flag * 0x100_0000;
    var v2 := low / 0x1_0000 + flag * 0x1_0000;
    var v3 := low / 0x100_0000 + flag * 0x100;
    assert v0 / 0x100 == v1 && v0 % 0x100 == low % 0x100;
    assert v1 / 0x100 == v2 && v1 % 0x100 == low / 0x100 % 0x100;
    assert v2 / 0x100 == v3 && v2 % 0x100 == low / 0x1_0000 % 0x100;
    assert v3 / 0x100 == flag && v3 % 0x100 == low / 0x100_0000;
    ToLeSplit(v0, 8);
    ToLeSplit(v1, 7);
    ToLeSplit(v2, 6);
    ToLeSplit(v3, 5);
    ToLeSplit(flag, 4);
    ToLeSplit(0, 3);
    ToLeSplit(0, 2);
    ToLeSplit(0, 1);
    w := ToLe(v0, 8);
    assert w[1] == ToLe(v1, 7)[0] && w[2] == ToLe(v1, 7)[1] && w[3] == ToLe(v1, 7)[2];
    assert w[2] == ToLe(v2, 6)[0] && w[3] == ToLe(v2, 6)[1] && w[4] == ToLe(v2, 6)[2];
    assert w[3] == ToLe(v3, 5)[0] && w[4] == ToLe(v3, 5)[1] && w[5] == ToLe(v3, 5)[2];
    assert w[4] == ToLe(flag, 4)[0] && w[5] == ToLe(flag, 4)[1] && w[6] == ToLe(flag, 4)[2];
    assert w[5] == ToLe(0, 3)[0] && w[6] == ToLe(0, 3)[1] && w[7] == ToLe(0, 3)[2];
    assert w[6] == ToLe(0, 2)[0] && w[7] == ToLe(0, 2)[1];
    assert w[7] == ToLe(0, 1)[0];
  }

  /** A header's value depends on its own eight bytes only. */
  lemma HeaderFrame(d: seq<byte>, e: seq<byte>, p: u32)
    requires InBounds(d, p) && InBounds(e, p)
    requires d[p..p + 8] == e[p..p + 8]
    ensures ReadHeader(d, p) == ReadHeader(e, p)
  {
  }

  /** Writing one header leaves every header at least eight bytes away as it was. */
  lemma HeaderUntouched(data: seq<byte>, p: u32, h: Header, q: u32)
    requires InBounds(data, p) && InBounds(data, q)
    requires p + 8 <= q || q + 8 <= p
    ensures WriteHeader(data, p, h).Ok?
    ensures ReadHeader(WriteHeader(data, p, h).value, q) == ReadHeader(data, q)
  {
    HeaderRoundTrip(data, p, h);
    var d := WriteHeader(data, p, h).value;
    if q + 8 <= p {
      assert d[q..q + 8] == d[..p][q..q + 8] == data[..p][q..q + 8] == data[q..q + 8];
    } else {
      assert d[q..q + 8] == d[p + 8..][q - p - 8..q - p] == data[p + 8..][q - p - 8..q - p] == data[q..q + 8];
    }
    HeaderFrame(data, d, q);
  }
}
