/** The allocator as the program runs it: an object whose fields, list heads and memory bytes
    are updated in place. Each method computes the function of the same name in `FreeingBump`,
    about which the invariants and run theorems are proved. */
module HeapAllocator {
  import opened Types
  import opened WasmMemory
  import FB = FreeingBump
  import opened HeapSteps

  class MemoryInstance {
    var data: seq<byte>
    const max: Option<nat>

    function View(): Memory
      reads this
    {
      Memory(data, max)
    }

    /** Adds pages unless the host refuses. */
    method Grow(additional: nat, hostGrows: bool) returns (ok: bool)
      requires View().Valid() && View().Pages() + additional <= View().Limit()
      modifies this
      ensures ok == hostGrows
      ensures View() == if ok then old(View()).Grow(additional) else old(View())
    {
      ok := hostGrows;
      if ok {
        data := data + seq(additional * PAGE_SIZE, _ => 0);
      }
    }
  }

  class FreeingBumpHeapAllocator {
    const originalHeapBase: u32
    var bumper: u32
    const heads: array<Link>
    var poisoned: bool
    var lastObservedMemorySize: nat
    var stats: FB.Stats

    /** The fields as a value. */
    ghost function View(): FB.Heap
      reads this, heads
    {
      FB.Heap(originalHeapBase, bumper, heads[..], poisoned, lastObservedMemorySize, stats)
    }

    constructor (heapBase: u32)
      requires heapBase + FB.ALIGNMENT < U32_RANGE
      ensures View() == FB.NewHeap(heapBase) && fresh(heads)
    {
      var aligned := (heapBase + FB.ALIGNMENT - 1) / FB.ALIGNMENT * FB.ALIGNMENT;
      originalHeapBase := aligned;
      bumper := aligned;
      heads := new Link[N_ORDERS](_ => Nil);
      poisoned := false;
      lastObservedMemorySize := 0;
      stats := FB.Stats(0, 0, 0, 0);
    }

    method ObserveMemorySize(mem: MemoryInstance) returns (ok: bool)
      modifies this`lastObservedMemorySize
      ensures ok == (old(lastObservedMemorySize) <= |mem.data|)
      ensures lastObservedMemorySize == if ok then |mem.data| else old(lastObservedMemorySize)
    {
      if |mem.data| < lastObservedMemorySize {
        return false;
      }
      lastObservedMemorySize := |mem.data|;
      return true;
    }

    /** Moves the bump pointer, growing memory when needed. */
    method Bump(size: u32, mem: MemoryInstance, hostGrows: bool) returns (r: Result<u32, Error>)
      requires mem.View().Valid() && size <= FB.MAX_POSSIBLE_ALLOCATION + HEADER_SIZE
      modifies this`bumper, mem
      ensures match FB.Bump(old(bumper), size, old(mem.View()), hostGrows)
              case Err(e) => r == Err(e) && bumper == old(bumper) && mem.View() == old(mem.View())
              case Ok(b) => r == Ok(b.res) && bumper == b.bumper && mem.View() == b.mem
    {
      BumpSpec(bumper, size, mem.View(), hostGrows);
      var requiredSize := bumper + size;
      if requiredSize > |mem.data| {
        var required := FB.PagesFromSize(requiredSize);
        if required.None? {
          return Err(AllocatorOutOfSpace);
        }
        var currentPages := mem.View().Pages();
        var maxPages := mem.View().Limit();
        assert currentPages < required.value;
        if currentPages >= maxPages || required.value > maxPages {
          return Err(AllocatorOutOfSpace);
        }
        var nextPages := FB.NextPages(currentPages, required.value, maxPages);
        var grown := mem.Grow(nextPages - currentPages, hostGrows);
        if !grown {
          return Err(AllocatorOutOfSpace);
        }
        assert mem.View().Pages() == nextPages;
      }
      r := Ok(bumper);
      bumper := FB.Wrap32(bumper + size);
    }

    /** Replaces the head of one list and returns the old one. */
    method Replace(order: Order, link: Link) returns (prev: Link)
      requires heads.Length == N_ORDERS
      modifies heads
      ensures prev == old(heads[order]) && heads[..] == old(heads[..])[order := link]
    {
      prev := heads[order];
      heads[order] := link;
    }

    /** Pops the head of the order's free list, or bumps when that list is empty. */
    method Take(order: Order, mem: MemoryInstance, hostGrows: bool) returns (r: Result<u32, Error>)
      requires mem.View().Valid() && heads.Length == N_ORDERS
      modifies this`bumper, heads, mem
      ensures match FB.Take(old(View()), old(mem.View()), order, hostGrows)
              case Err(e) => r == Err(e) && View() == old(View()) && mem.View() == old(mem.View())
              case Ok(t) => r == Ok(t.header) && View() == t.heap && mem.View() == t.mem
    {
      match heads[order]
      case Ptr(headerPtr) =>
        if headerPtr + FB.OrderSize(order) + HEADER_SIZE > |mem.data| {
          return Err(InvalidHeaderPointer);
        }
        match ReadHeader(mem.data, headerPtr) {
          case Err(e) => return Err(e);
          case Ok(Occupied(_)) => return Err(OccupiedInFreeList);
          case Ok(Free(next)) =>
            heads[order] := next;
            return Ok(headerPtr);
        }
      case Nil =>
        FB.ChunkSizeBounds(order);
        r := Bump(FB.ChunkSize(order), mem, hostGrows);
    }

    method Allocate(mem: MemoryInstance, size: u32, hostGrows: bool) returns (r: Result<u32, Error>)
      requires mem.View().Valid() && heads.Length == N_ORDERS
      modifies this, heads, mem
      ensures var o := FB.Allocate(old(View()), old(mem.View()), size, hostGrows);
              r == o.result && View() == o.heap && mem.View() == o.mem
    {
      hide ReadHeader, WriteHeader, FB.Take, FB.OrderFromSize, FB.StatsAfterAllocate;
      if poisoned {
        return Err(Poisoned);
      }
      var observed := ObserveMemorySize(mem);
      if !observed {
        poisoned := true;
        return Err(MemoryShrinked);
      }
      var order := FB.OrderFromSize(size);
      if order.Err? {
        poisoned := true;
        return Err(order.error);
      }
      var taken := Take(order.value, mem, hostGrows);
      if taken.Err? {
        poisoned := true;
        return taken;
      }
      var written := WriteHeader(mem.data, taken.value, Occupied(order.value));
      if written.Err? {
        poisoned := true;
        return Err(written.error);
      }
      mem.data := written.value;
      stats := FB.StatsAfterAllocate(stats, order.value, FB.Wrap32(bumper - originalHeapBase));
      return Ok(FB.Wrap32(taken.value + HEADER_SIZE));
    }

    method Deallocate(mem: MemoryInstance, ptr: u32) returns (r: Result<(), Error>)
      requires mem.View().Valid() && heads.Length == N_ORDERS
      modifies this, heads, mem
      ensures var o := FB.Deallocate(old(View()), old(mem.View()), ptr);
              r == o.result && View() == o.heap && mem.View() == o.mem
    {
      if poisoned {
        return Err(Poisoned);
      }
      var observed := ObserveMemorySize(mem);
      if !observed {
        poisoned := true;
        return Err(MemoryShrinked);
      }
      if ptr < HEADER_SIZE {
        poisoned := true;
        return Err(InvalidPointer);
      }
      var headerPtr := ptr - HEADER_SIZE;
      match ReadHeader(mem.data, headerPtr)
      case Err(e) =>
        poisoned := true;
        return Err(e);
      case Ok(Free(_)) =>
        poisoned := true;
        return Err(EmptyHeader);
      case Ok(Occupied(order)) =>
        var prevHead := Replace(order, Ptr(headerPtr));
        var written := WriteHeader(mem.data, headerPtr, Free(prevHead));
        assert written.Ok?;  // the same range was read just before
        mem.data := written.value;
        if stats.inUse < FB.ChunkSize(order) {
          poisoned := true;
          return Err(CountUnderflow);
        }
        stats := stats.(inUse := stats.inUse - FB.ChunkSize(order));
        return Ok(());
    }
  }
}
