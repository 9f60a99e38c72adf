/** Sliding-window pruning of block bodies together with the cache that keeps the bodies of
    pinned blocks readable. One chain without forks; blocks are finalised as the database's own
    test for sequential finalisation allows. */
module PinnedPruning {
  import opened Types
  import opened LeafSet

  const PINNING_CACHE_SIZE := 1024
  const U32_MAX := 0xffff_ffff

  type Body = seq<seq<byte>>

  // ---- the cache ----

  /** `body` is absent until the block is pruned, and then holds what the database held. */
  datatype Entry = Entry(refCount: nat, body: Option<Option<Body>>)

  /** `order` lists the keys, most recently used first. */
  datatype Cache = Cache(entries: map<Hash, Entry>, order: seq<Hash>)

  ghost predicate WellFormed(c: Cache) {
    && NoDup(c.order) && |c.order| == |c.entries|
    && (forall h :: h in c.order <==> h in c.entries)
  }

  function IncreaseRef(e: Entry): Entry {
    e.(refCount := if e.refCount < U32_MAX then e.refCount + 1 else e.refCount)
  }

  function DecreaseRef(e: Entry): Entry {
    e.(refCount := if e.refCount > 0 then e.refCount - 1 else 0)
  }

  /** Looks an entry up, making it the most recent one, or inserts an empty one. Over the
      limit, the least recently used entry is evicted. */
  function GetOrInsert(c: Cache, h: Hash): Cache {
    if h in c.entries then Cache(c.entries, [h] + Without(c.order, h))
    else
      var entries := c.entries[h := Entry(0, None)];
      var order := [h] + c.order;
      if |entries| > PINNING_CACHE_SIZE then Cache(entries - {order[|order| - 1]}, order[..|order| - 1])
      else Cache(entries, order)
  }

  function PinEntry(c: Cache, h: Hash): Cache {
    var c1 := GetOrInsert(c, h);
    if h in c1.entries then c1.(entries := c1.entries[h := IncreaseRef(c1.entries[h])]) else c1
  }

  function UnpinEntry(c: Cache, h: Hash): Cache {
    if h !in c.entries then c
    else
      var e := DecreaseRef(c.entries[h]);
      if e.refCount == 0 then Cache(c.entries - {h}, Without(c.order, h))
      else c.(entries := c.entries[h := e])
  }

  function InsertBody(c: Cache, h: Hash, body: Option<Body>): Cache {
    if h in c.entries then c.(entries := c.entries[h := c.entries[h].(body := Some(body))]) else c
  }

  function CachedBody(c: Cache, h: Hash): Option<Option<Body>> {
    if h in c.entries then c.entries[h].body else None
  }

  /** How often the block is pinned. */
  function References(c: Cache, h: Hash): nat {
    if h in c.entries then c.entries[h].refCount else 0
  }

  /** One more reference to `h`, which is the most recent block now and reads as before. All
      other entries stay, in their order, but a new block in a full cache drives out the least
      recent one. */
  ghost predicate PinnedOnceMore(c: Cache, c': Cache, h: Hash) {
    && h in c'.entries
    && c'.order == [h] + (if h in c.entries || |c.entries| < PINNING_CACHE_SIZE then Without(c.order, h)
                          else c.order[..Max(|c.order| - 1, 0)])
    && References(c', h) == (if References(c, h) < U32_MAX then References(c, h) + 1 else References(c, h))
    && CachedBody(c', h) == CachedBody(c, h)
    && (forall x :: x in c.entries && x in c'.entries && x != h ==> c'.entries[x] == c.entries[x])
    && (if h in c.entries || |c.entries| < PINNING_CACHE_SIZE then c'.entries.Keys == c.entries.Keys + {h}
        else c.order != [] && c'.entries.Keys == c.entries.Keys + {h} - {c.order[|c.order| - 1]})
  }

  /** The cache as the program keeps it. */
  class PinnedBlocksCache {
    var cache: Cache

    constructor ()
      ensures cache == Cache(map[], [])
    {
      cache := Cache(map[], []);
    }

    /** The block is pinned once more and is the most recent one. Everything else stays, except
        that a new block in a full cache drives out the least recent one. */
    method Pin(hash: Hash)
      modifies this
      ensures cache == PinEntry(old(cache), hash)
      ensures WellFormed(old(cache)) ==> WellFormed(cache) && PinnedOnceMore(old(cache), cache, hash)
    {
      hide WellFormed, PinnedOnceMore, Without;
      var entries, order := cache.entries, cache.order;
      if hash in entries {
        order := [hash] + Without(order, hash);
      } else {
        entries, order := entries[hash := Entry(0, None)], [hash] + order;
        if |entries| > PINNING_CACHE_SIZE {
          entries, order := entries - {order[|order| - 1]}, order[..|order| - 1];
        }
      }
      if hash in entries {
        var entry := entries[hash];
        entries := entries[hash := IncreaseRef(entry)];
      }
      cache := Cache(entries, order);
      if WellFormed(old(cache)) { PinObserved(old(cache), hash); }
    }

    /** One reference less; the entry goes with its last one, and with it the cached body. Every
        other entry stays. */
    method Unpin(hash: Hash)
      modifies this
      ensures cache == UnpinEntry(old(cache), hash)
      ensures WellFormed(old(cache)) ==> WellFormed(cache)
      ensures cache.order ==
                if hash in old(cache).entries && hash !in cache.entries then Without(old(cache).order, hash)
                else old(cache).order
      ensures References(cache, hash) == Max(References(old(cache), hash) - 1, 0)
      ensures hash in cache.entries <==> References(old(cache), hash) > 1
      ensures hash in cache.entries ==> CachedBody(cache, hash) == CachedBody(old(cache), hash)
      ensures forall h :: h != hash ==>
                && (h in cache.entries <==> h in old(cache).entries)
                && (h in cache.entries ==> cache.entries[h] == old(cache).entries[h])
    {
      if hash in cache.entries {
        var entry := cache.entries[hash];
        var left := if entry.refCount > 0 then entry.refCount - 1 else 0;
        if left == 0 {
          cache := Cache(cache.entries - {hash}, Without(cache.order, hash));
        } else {
          cache := cache.(entries := cache.entries[hash := entry.(refCount := left)]);
        }
      }
      if WellFormed(old(cache)) { UnpinEntrySpec(old(cache), hash); }
    }

    /** A block in the cache reads as the given body from now on; pins stay as they are. */
    method AttachBody(hash: Hash, extrinsics: Option<Body>)
      modifies this
      ensures cache == InsertBody(old(cache), hash, extrinsics)
      ensures WellFormed(old(cache)) ==> WellFormed(cache)
      ensures cache.entries.Keys == old(cache).entries.Keys
      ensures CachedBody(cache, hash) == if hash in old(cache).entries then Some(extrinsics) else None
      ensures forall h :: References(cache, h) == References(old(cache), h)
      ensures forall h :: h != hash ==> CachedBody(cache, h) == CachedBody(old(cache), h)
    {
      if hash in cache.entries {
        cache := cache.(entries := cache.entries[hash := cache.entries[hash].(body := Some(extrinsics))]);
      }
      if WellFormed(old(cache)) { InsertBodyWellFormed(old(cache), hash, extrinsics); }
    }
  }

  // ---- the database ----

  /** `chain[n]` is the block with number `n`; `first`, `pins` and `seen` are bookkeeping of the
      proof: the first block finalised after genesis (or zero), how often each block is pinned
      now, and what it read as when it was first pinned. */
  datatype Db = Db(
    chain: seq<Hash>,
    bodies: map<Hash, Body>,
    finalized: nat,
    first: nat,
    cache: Cache,
    pins: map<Hash, nat>,
    seen: map<Hash, Option<Body>>)

  const EMPTY := Db([], map[], 0, 0, Cache(map[], []), map[], map[])

  function Stored(db: Db, h: Hash): Option<Body> {
    if h in db.bodies then Some(db.bodies[h]) else None
  }

  /** What `body` returns: the cached body if there is one, else the stored one. */
  function ReadBody(db: Db, h: Hash): Option<Body> {
    match CachedBody(db.cache, h)
    case Some(b) => b
    case None => Stored(db, h)
  }

  /** Always keeps the last finalised block. */
  function Keep(pruning: nat): nat {
    Max(pruning, 1)
  }

  function ImportNext(db: Db, h: Hash, body: Body): Db {
    db.(chain := db.chain + [h], bodies := db.bodies[h := body])
  }

  /** `ensure_sequential_finalization`: the block is a child of the last finalised one, or
      nothing but genesis is finalised yet. */
  predicate Sequential(db: Db, f: nat)
    requires f < |db.chain| && db.finalized < |db.chain|
  {
    db.chain[db.finalized] == db.chain[0] || (f > 0 && db.chain[f - 1] == db.chain[db.finalized])
  }

  /** Finalises the block with number `f`. The block that leaves the window is copied to the
      cache if it is pinned, and then removed. */
  function FinalizeTo(db: Db, pruning: nat, f: nat): Db
    requires f < |db.chain|
  {
    var first := if db.first == 0 then f else db.first;
    if f < Keep(pruning) then db.(finalized := f, first := first)
    else
      var h := db.chain[f - Keep(pruning)];
      var cache := if h in db.cache.entries then InsertBody(db.cache, h, Stored(db, h)) else db.cache;
      db.(finalized := f, first := first, cache := cache, bodies := db.bodies - {h})
  }

  /** The bodies left when block `f` is final: the one max(N, 1) below it goes. */
  ghost function LeftAfter(bodies: map<Hash, Body>, chain: seq<Hash>, pruning: nat, f: nat): map<Hash, Body>
    requires f < |chain|
  {
    if f < Max(pruning, 1) then bodies else bodies - {chain[f - Max(pruning, 1)]}
  }

  /** Blocks that are pinned, and were not copied to the cache before, read the same. */
  ghost predicate PinnedReadSame(db: Db, db': Db) {
    forall h :: h in db.cache.entries && CachedBody(db.cache, h) == None ==> ReadBody(db', h) == ReadBody(db, h)
  }

  function PinBlock(db: Db, h: Hash): Db {
    db.(
    cache := PinEntry(db.cache, h),
    pins := db.pins[h := Outstanding(db, h) + 1],
    seen := if Outstanding(db, h) == 0 then db.seen[h := ReadBody(db, h)] else db.seen)
  }

  function UnpinBlock(db: Db, h: Hash): Db {
    var n := Outstanding(db, h);
    db.(cache := UnpinEntry(db.cache, h), pins := if n <= 1 then db.pins - {h} else db.pins[h := n - 1])
  }

  function Outstanding(db: Db, h: Hash): nat {
    if h in db.pins then db.pins[h] else 0
  }

  /** The database as an object. */
  class BodyStore {
    var chain: seq<Hash>
    var bodies: map<Hash, Body>
    var finalized: nat
    const pinnedBlocks: PinnedBlocksCache
    ghost var first: nat
    ghost var pins: map<Hash, nat>
    ghost var seen: map<Hash, Option<Body>>

    ghost function View(): Db
      reads this, pinnedBlocks
    {
      Db(chain, bodies, finalized, first, pinnedBlocks.cache, pins, seen)
    }

    constructor ()
      ensures View() == EMPTY && fresh(pinnedBlocks)
    {
      chain, bodies, finalized := [], map[], 0;
      first, pins, seen := 0, map[], map[];
      pinnedBlocks := new PinnedBlocksCache();
    }

    method GetBody(hash: Hash) returns (body: Option<Body>)
      ensures body == ReadBody(View(), hash)
    {
      var cached := CachedBody(pinnedBlocks.cache, hash);
      if cached.Some? {
        return cached.value;
      }
      return if hash in bodies then Some(bodies[hash]) else None;
    }

    /** Refuses a block that is not next, and changes nothing then. */
    method NoteFinalized(pruning: nat, f: nat) returns (ok: bool)
      requires f < |chain| && finalized < |chain|
      modifies this, pinnedBlocks
      ensures ok == Sequential(old(View()), f)
      ensures View() == if ok then FinalizeTo(old(View()), pruning, f) else old(View())
      ensures ok ==> finalized == f
      ensures ok ==> bodies == LeftAfter(old(bodies), chain, pruning, f)
      ensures PinnedReadSame(old(View()), View())
    {
      if chain[finalized] != chain[0] && !(f > 0 && chain[f - 1] == chain[finalized]) {
        return false;
      }
      PruneBlocks(pruning, f);
      finalized := f;
      first := if first == 0 then f else first;
      return true;
    }

    method PruneBlocks(pruning: nat, f: nat)
      requires f < |chain|
      modifies this`bodies, pinnedBlocks
      ensures var db := FinalizeTo(old(View()), pruning, f);
              bodies == db.bodies && pinnedBlocks.cache == db.cache
      ensures bodies == LeftAfter(old(bodies), chain, pruning, f)
      ensures PinnedReadSame(old(View()), View())
    {
      var keep := Keep(pruning);
      if f >= keep {
        var hash := chain[f - keep];
        if hash in pinnedBlocks.cache.entries {
          pinnedBlocks.AttachBody(hash, if hash in bodies then Some(bodies[hash]) else None);
        }
        bodies := bodies - {hash};
      }
    }
  }

  // ---- runs ----

  datatype Op = Import(hash: Hash, body: Body) | Finalize(number: nat) | Pin(hash: Hash) | Unpin(hash: Hash)

  /** Blocks are imported once; at most 1024 different blocks are pinned at a time, each less
      often than the counter can hold. */
  ghost predicate Legal(db: Db, op: Op) {
    match op
    case Import(h, _) => h !in db.chain
    case Finalize(f) => f < |db.chain| && db.finalized < |db.chain| && Sequential(db, f)
    case Pin(h) => h in db.chain && (h in db.pins || |db.pins| < PINNING_CACHE_SIZE) && Outstanding(db, h) < U32_MAX
    case Unpin(_) => true
  }

  function Apply(db: Db, pruning: nat, op: Op): Db
    requires op.Finalize? ==> op.number < |db.chain|
  {
    match op
    case Import(h, body) => ImportNext(db, h, body)
    case Finalize(f) => FinalizeTo(db, pruning, f)
    case Pin(h) => PinBlock(db, h)
    case Unpin(h) => UnpinBlock(db, h)
  }

  ghost predicate LegalRun(db: Db, pruning: nat, ops: seq<Op>)
    decreases |ops|
  {
    ops == [] || (Legal(db, ops[0]) && LegalRun(Apply(db, pruning, ops[0]), pruning, ops[1..]))
  }

  function Run(db: Db, pruning: nat, ops: seq<Op>): Db
    requires LegalRun(db, pruning, ops)
    decreases |ops|
  {
    if ops == [] then db else Run(Apply(db, pruning, ops[0]), pruning, ops[1..])
  }

  // ---- the invariant ----

  /** The bodies removed are those between the first block that left the window and the
      window's lower end; a first finalisation that skips blocks leaves lower ones alone. */
  ghost predicate Window(db: Db, pruning: nat) {
    && NoDup(db.chain)
    && (|db.chain| == 0 ==> db.finalized == 0) && (|db.chain| > 0 ==> db.finalized < |db.chain|)
    && (db.first == 0 <==> db.finalized == 0) && db.first <= db.finalized
    && (forall h :: h in db.bodies ==> h in db.chain)
    && (forall n :: 0 <= n < |db.chain| ==> (db.chain[n] in db.bodies <==> InWindow(db, pruning, n)))
  }

  predicate InWindow(db: Db, pruning: nat, n: nat) {
    n + Keep(pruning) > db.finalized || n + Keep(pruning) < db.first
  }

  /** A pinned block: counted right, and reading as it did when it was first pinned. A cached
      body is that of a block whose stored body is gone. */
  ghost predicate PinnedBlock(db: Db, h: Hash) {
    && h in db.pins && h in db.cache.entries && h in db.chain && h in db.seen
    && 0 < db.pins[h] <= U32_MAX && db.cache.entries[h].refCount == db.pins[h]
    && ReadBody(db, h) == db.seen[h]
    && (db.cache.entries[h].body.Some? ==> h !in db.bodies)
  }

  /** The cache holds exactly the pinned blocks. */
  ghost predicate Pinned(db: Db) {
    && WellFormed(db.cache)
    && db.cache.entries.Keys == db.pins.Keys && |db.pins| <= PINNING_CACHE_SIZE
    && (forall h :: h in db.pins ==> PinnedBlock(db, h))
  }

  ghost predicate Inv(db: Db, pruning: nat) {
    Window(db, pruning) && Pinned(db)
  }

  lemma {:induction false} WithoutOnce(s: seq<Hash>, h: Hash)
    requires NoDup(s) && h in s
    ensures NoDup(Without(s, h)) && |Without(s, h)| == |s| - 1
  {
    if s[0] == h {
      assert h !in s[1..];
      WithoutAbsent(s[1..], h);
      assert NoDup(s[1..]);
    } else {
      assert NoDup(s[1..]) && h in s[1..];
      WithoutOnce(s[1..], h);
      assert s[0] !in s[1..];
      ConsNoDup(s[0], Without(s[1..], h));
    }
  }

  /** Below the limit, pinning touches only the pinned entry. */
  lemma PinEntrySpec(c: Cache, h: Hash)
    requires WellFormed(c) && (h in c.entries || |c.entries| < PINNING_CACHE_SIZE)
    ensures var c' := PinEntry(c, h);
            && WellFormed(c')
            && c'.entries == c.entries[h := IncreaseRef(if h in c.entries then c.entries[h] else Entry(0, None))]
  {
    hide WellFormed;
    if h in c.entries { PinKnown(c, h); } else { PinNew(c, h); }
  }

  lemma PinKnown(c: Cache, h: Hash)
    requires WellFormed(c) && h in c.entries
    ensures PinEntry(c, h) == Cache(c.entries[h := IncreaseRef(c.entries[h])], [h] + Without(c.order, h))
    ensures WellFormed(PinEntry(c, h))
  {
    hide NoDup, Without;
    WithoutOnce(c.order, h);
    ConsNoDup(h, Without(c.order, h));
    var c' := PinEntry(c, h);
    assert c'.entries.Keys == c.entries.Keys;
    assert |c'.entries| == |c.entries|;
  }

  lemma PinNew(c: Cache, h: Hash)
    requires WellFormed(c) && h !in c.entries && |c.entries| < PINNING_CACHE_SIZE
    ensures PinEntry(c, h) == Cache(c.entries[h := IncreaseRef(Entry(0, None))], [h] + c.order)
    ensures WellFormed(PinEntry(c, h))
  {
    ConsNoDup(h, c.order);
    hide NoDup;
    var e := c.entries[h := Entry(0, None)];
    assert e.Keys == c.entries.Keys + {h};
    assert |e| == |c.entries| + 1;
    var c' := PinEntry(c, h);
    assert c' == Cache(e[h := IncreaseRef(Entry(0, None))], [h] + c.order);
    assert c'.entries.Keys == e.Keys;
    assert |c'.entries| == |e|;
  }

  /** At the limit, a new block drives out exactly the least recent one. */
  lemma PinEvicts(c: Cache, h: Hash)
    requires WellFormed(c) && h !in c.entries && |c.entries| >= PINNING_CACHE_SIZE
    ensures c.order != []
    ensures var last := c.order[|c.order| - 1];
            && last in c.entries
            && PinEntry(c, h) ==
                 Cache((c.entries - {last})[h := IncreaseRef(Entry(0, None))], [h] + c.order[..|c.order| - 1])
  {
    hide NoDup;
    var last := c.order[|c.order| - 1];
    assert last in c.order;
    var order := [h] + c.order;
    assert order[|order| - 1] == last && order[..|order| - 1] == [h] + c.order[..|c.order| - 1];
    var e := c.entries[h := Entry(0, None)];
    assert e.Keys == c.entries.Keys + {h};
    assert |e| == |c.entries| + 1;
    assert (e - {last})[h := IncreaseRef(Entry(0, None))] == (c.entries - {last})[h := IncreaseRef(Entry(0, None))];
  }

  lemma EvictedWellFormed(c: Cache, h: Hash, e: Entry)
    requires WellFormed(c) && h !in c.entries && c.order != []
    ensures var n := |c.order| - 1;
            WellFormed(Cache((c.entries - {c.order[n]})[h := e], [h] + c.order[..n]))
  {
    hide NoDup;
    var n := |c.order| - 1;
    var last := c.order[n];
    assert last in c.order;
    FrontOf(c.order);
    ConsNoDup(h, c.order[..n]);
    var entries := (c.entries - {last})[h := e];
    assert entries.Keys == (c.entries.Keys - {last}) + {h};
    assert |entries.Keys| == |c.entries.Keys|;
    assert |entries| == |entries.Keys| && |c.entries| == |c.entries.Keys|;
  }

  lemma FrontOf(s: seq<Hash>)
    requires NoDup(s) && s != []
    ensures var n := |s| - 1; NoDup(s[..n]) && forall x :: x in s[..n] <==> x in s && x != s[n]
  {
    var n := |s| - 1;
    assert s == s[..n] + [s[n]];
  }

  /** What one pin does, at the limit or below it. */
  lemma PinObserved(c: Cache, h: Hash)
    requires WellFormed(c)
    ensures WellFormed(PinEntry(c, h)) && PinnedOnceMore(c, PinEntry(c, h), h)
  {
    hide WellFormed, PinEntry, Without;
    if h in c.entries {
      PinKnown(c, h);
    } else if |c.entries| < PINNING_CACHE_SIZE {
      PinNew(c, h);
      NotListed(c, h);
    } else {
      PinEvicts(c, h);
      EvictedWellFormed(c, h, IncreaseRef(Entry(0, None)));
      NewIsNotLast(c, h);
    }
  }

  lemma NotListed(c: Cache, h: Hash)
    requires WellFormed(c) && h !in c.entries
    ensures Without(c.order, h) == c.order
  {
    WithoutAbsent(c.order, h);
  }

  lemma NewIsNotLast(c: Cache, h: Hash)
    requires WellFormed(c) && h !in c.entries && c.order != []
    ensures c.order[|c.order| - 1] != h
  {
    assert c.order[|c.order| - 1] in c.order;
  }

  lemma UnpinEntrySpec(c: Cache, h: Hash)
    requires WellFormed(c)
    ensures var c' := UnpinEntry(c, h);
            && WellFormed(c')
            && c'.entries ==
                 if h !in c.entries then c.entries
                 else if c.entries[h].refCount <= 1 then c.entries - {h}
                 else c.entries[h := DecreaseRef(c.entries[h])]
  {
    if h in c.entries {
      WithoutOnce(c.order, h);
      assert (c.entries - {h}).Keys == c.entries.Keys - {h};
    }
    var c' := UnpinEntry(c, h);
    assert h in c.entries && c.entries[h].refCount > 1 ==> c'.entries.Keys == c.entries.Keys;
  }

  // ---- every operation keeps the invariant ----

  lemma ImportKeepsWindow(db: Db, pruning: nat, h: Hash, body: Body)
    requires Window(db, pruning) && h !in db.chain
    ensures Window(ImportNext(db, h, body), pruning)
  {
    var db' := ImportNext(db, h, body);
    assert forall n :: 0 <= n < |db.chain| ==> db'.chain[n] == db.chain[n] && db.chain[n] in db.chain;
    assert forall n :: 0 <= n < |db.chain| ==> InWindow(db', pruning, n) == InWindow(db, pruning, n);
  }

  lemma ImportKeepsInv(db: Db, pruning: nat, h: Hash, body: Body)
    requires Inv(db, pruning) && h !in db.chain
    ensures Inv(ImportNext(db, h, body), pruning)
  {
    hide WellFormed, Window;
    ImportKeepsWindow(db, pruning, h, body);
    var db' := ImportNext(db, h, body);
    forall x | x in db'.pins
      ensures PinnedBlock(db', x)
    {
      assert PinnedBlock(db, x);
    }
  }

  /** What the test allows: the next block, or any block while only genesis is finalised. */
  lemma SequentialMeans(db: Db, pruning: nat, f: nat)
    requires Window(db, pruning) && f < |db.chain|
    ensures Sequential(db, f) <==> db.finalized == 0 || f == db.finalized + 1
  {
    if db.finalized > 0 { assert db.chain[0] != db.chain[db.finalized]; }
    if 0 < f < db.finalized + 1 {
      assert db.chain[f - 1] != db.chain[db.finalized];
    } else if f > db.finalized + 1 {
      assert db.chain[db.finalized] != db.chain[f - 1];
    }
  }

  lemma FinalizeKeepsWindow(db: Db, pruning: nat, f: nat)
    requires Window(db, pruning) && f < |db.chain| && (db.finalized == 0 || f == db.finalized + 1)
    ensures Window(FinalizeTo(db, pruning, f), pruning)
  {
    var db' := FinalizeTo(db, pruning, f);
    forall n | 0 <= n < |db'.chain|
      ensures db'.chain[n] in db'.bodies <==> InWindow(db', pruning, n)
    {
      assert db.chain[n] in db.bodies <==> InWindow(db, pruning, n);
      if f >= Keep(pruning) {
        var m := f - Keep(pruning);
        if n < m { assert db.chain[n] != db.chain[m]; } else if n > m { assert db.chain[m] != db.chain[n]; }
      }
    }
  }

  lemma InsertBodyWellFormed(c: Cache, h: Hash, body: Option<Body>)
    requires WellFormed(c)
    ensures WellFormed(InsertBody(c, h, body)) && InsertBody(c, h, body).entries.Keys == c.entries.Keys
  {
    var c' := InsertBody(c, h, body);
    assert c'.entries.Keys == c.entries.Keys;
    assert |c'.entries| == |c.entries|;
  }

  /** The block that leaves the window is still stored. */
  lemma LeavingIsStored(db: Db, pruning: nat, f: nat)
    requires Window(db, pruning) && Keep(pruning) <= f < |db.chain| && f > db.finalized
    ensures db.chain[f - Keep(pruning)] in db.bodies
  {
    assert InWindow(db, pruning, f - Keep(pruning));
  }

  lemma FinalizeKeepsBlock(db: Db, pruning: nat, f: nat, x: Hash)
    requires f < |db.chain| && PinnedBlock(db, x)
    requires f >= Keep(pruning) ==> db.chain[f - Keep(pruning)] in db.bodies
    ensures PinnedBlock(FinalizeTo(db, pruning, f), x)
  {
  }

  lemma FinalizeKeepsInv(db: Db, pruning: nat, f: nat)
    requires Inv(db, pruning) && Legal(db, Finalize(f))
    ensures Inv(FinalizeTo(db, pruning, f), pruning)
  {
    hide WellFormed, PinnedBlock, Window, InsertBody, Sequential;
    SequentialMeans(db, pruning, f);
    FinalizeKeepsWindow(db, pruning, f);
    if f >= Keep(pruning) {
      LeavingIsStored(db, pruning, f);
      var h := db.chain[f - Keep(pruning)];
      InsertBodyWellFormed(db.cache, h, Stored(db, h));
    }
    forall x | x in FinalizeTo(db, pruning, f).pins
      ensures PinnedBlock(FinalizeTo(db, pruning, f), x)
    {
      FinalizeKeepsBlock(db, pruning, f, x);
    }
  }

  lemma WindowFrame(db: Db, db': Db, pruning: nat)
    requires Window(db, pruning)
    requires db'.chain == db.chain && db'.bodies == db.bodies && db'.finalized == db.finalized && db'.first == db.first
    ensures Window(db', pruning)
  {
  }

  lemma PinKeepsKeys(db: Db, h: Hash)
    requires Pinned(db) && Legal(db, Pin(h))
    ensures var db' := PinBlock(db, h);
            WellFormed(db'.cache) && db'.cache.entries.Keys == db'.pins.Keys && |db'.pins| <= PINNING_CACHE_SIZE
  {
    hide WellFormed, PinEntry, PinnedBlock;
    var db' := PinBlock(db, h);
    assert |db.cache.entries.Keys| == |db.pins.Keys|;
    PinEntrySpec(db.cache, h);
    assert db'.pins.Keys == db.pins.Keys + {h};
    if h in db.pins { assert db'.pins.Keys == db.pins.Keys; }
  }

  lemma PinKeepsBlock(db: Db, h: Hash, x: Hash)
    requires Pinned(db) && Legal(db, Pin(h)) && x in PinBlock(db, h).pins
    ensures PinnedBlock(PinBlock(db, h), x)
  {
    hide WellFormed, PinEntry;
    assert |db.cache.entries.Keys| == |db.pins.Keys|;
    PinEntrySpec(db.cache, h);
    if x in db.pins { assert PinnedBlock(db, x); }
  }

  lemma PinKeepsInv(db: Db, pruning: nat, h: Hash)
    requires Inv(db, pruning) && Legal(db, Pin(h))
    ensures Inv(PinBlock(db, h), pruning)
  {
    hide WellFormed, PinEntry, Window, PinnedBlock;
    WindowFrame(db, PinBlock(db, h), pruning);
    PinKeepsKeys(db, h);
    forall x | x in PinBlock(db, h).pins
      ensures PinnedBlock(PinBlock(db, h), x)
    {
      PinKeepsBlock(db, h, x);
    }
  }

  lemma UnpinKeepsKeys(db: Db, h: Hash)
    requires Pinned(db)
    ensures var db' := UnpinBlock(db, h);
            WellFormed(db'.cache) && db'.cache.entries.Keys == db'.pins.Keys && |db'.pins| <= PINNING_CACHE_SIZE
  {
    hide WellFormed, UnpinEntry;
    UnpinEntrySpec(db.cache, h);
    var db' := UnpinBlock(db, h);
    if h in db.pins { assert PinnedBlock(db, h); }
    assert db'.pins.Keys == if Outstanding(db, h) <= 1 then db.pins.Keys - {h} else db.pins.Keys;
    assert |db'.pins.Keys| <= |db.pins.Keys|;
  }

  lemma UnpinKeepsBlock(db: Db, h: Hash, x: Hash)
    requires Pinned(db) && x in UnpinBlock(db, h).pins
    ensures PinnedBlock(UnpinBlock(db, h), x)
  {
    hide WellFormed, UnpinEntry;
    UnpinEntrySpec(db.cache, h);
    assert PinnedBlock(db, x);
  }

  lemma UnpinKeepsInv(db: Db, pruning: nat, h: Hash)
    requires Inv(db, pruning)
    ensures Inv(UnpinBlock(db, h), pruning)
  {
    hide WellFormed, UnpinEntry, Window, PinnedBlock;
    WindowFrame(db, UnpinBlock(db, h), pruning);
    UnpinKeepsKeys(db, h);
    forall x | x in UnpinBlock(db, h).pins
      ensures PinnedBlock(UnpinBlock(db, h), x)
    {
      UnpinKeepsBlock(db, h, x);
    }
  }

  lemma ApplyKeepsInv(db: Db, pruning: nat, op: Op)
    requires Inv(db, pruning) && Legal(db, op)
    ensures Inv(Apply(db, pruning, op), pruning)
  {
    hide Inv;
    match op
    case Import(h, body) => ImportKeepsInv(db, pruning, h, body);
    case Finalize(f) => FinalizeKeepsInv(db, pruning, f);
    case Pin(h) => PinKeepsInv(db, pruning, h);
    case Unpin(h) => UnpinKeepsInv(db, pruning, h);
  }

  lemma {:induction false} RunKeepsInv(db: Db, pruning: nat, ops: seq<Op>)
    requires Inv(db, pruning) && LegalRun(db, pruning, ops)
    ensures Inv(Run(db, pruning, ops), pruning)
    decreases |ops|
  {
    hide Inv, Apply;
    if ops != [] {
      ApplyKeepsInv(db, pruning, ops[0]);
      RunKeepsInv(Apply(db, pruning, ops[0]), pruning, ops[1..]);
    }
  }

  // ---- what a run does, read off its operations ----

  /** The first number above zero that the operations finalise, or zero. */
  function FirstFinalized(ops: seq<Op>): nat
    decreases |ops|
  {
    if ops == [] then 0
    else if ops[0].Finalize? && ops[0].number > 0 then ops[0].number
    else FirstFinalized(ops[1..])
  }

  /** The last number that the operations finalise, or `before`. */
  function LastFinalized(ops: seq<Op>, before: nat): nat
    decreases |ops|
  {
    if ops == [] then before
    else LastFinalized(ops[1..], if ops[0].Finalize? then ops[0].number else before)
  }

  /** The blocks that the operations import, by number. */
  function Imports(ops: seq<Op>): seq<(Hash, Body)>
    decreases |ops|
  {
    if ops == [] then []
    else (if ops[0].Import? then [(ops[0].hash, ops[0].body)] else []) + Imports(ops[1..])
  }

  /** How often the operations leave `h` pinned, from `n` pins. */
  function PinsLeft(ops: seq<Op>, h: Hash, n: nat): nat
    decreases |ops|
  {
    if ops == [] then n else PinsLeft(ops[1..], h, PinsAfter(ops[0], h, n))
  }

  function PinsAfter(op: Op, h: Hash, n: nat): nat {
    if op == Pin(h) then n + 1 else if op == Unpin(h) && n > 0 then n - 1 else n
  }

  lemma {:induction false} FirstIsFirst(db: Db, pruning: nat, ops: seq<Op>)
    requires LegalRun(db, pruning, ops)
    ensures Run(db, pruning, ops).first == if db.first > 0 then db.first else FirstFinalized(ops)
    decreases |ops|
  {
    if ops != [] {
      FirstIsFirst(Apply(db, pruning, ops[0]), pruning, ops[1..]);
    }
  }

  lemma {:induction false} LastIsLast(db: Db, pruning: nat, ops: seq<Op>)
    requires LegalRun(db, pruning, ops)
    ensures Run(db, pruning, ops).finalized == LastFinalized(ops, db.finalized)
    decreases |ops|
  {
    if ops != [] {
      LastIsLast(Apply(db, pruning, ops[0]), pruning, ops[1..]);
    }
  }

  lemma {:induction false} PinsAreLeft(db: Db, pruning: nat, ops: seq<Op>, h: Hash)
    requires LegalRun(db, pruning, ops)
    ensures Outstanding(Run(db, pruning, ops), h) == PinsLeft(ops, h, Outstanding(db, h))
    decreases |ops|
  {
    hide Apply, Sequential, Outstanding, PinsAfter;
    if ops != [] {
      StepPins(db, pruning, ops[0], h);
      PinsAreLeft(Apply(db, pruning, ops[0]), pruning, ops[1..], h);
    }
  }

  lemma StepPins(db: Db, pruning: nat, op: Op, h: Hash)
    requires Legal(db, op)
    ensures Outstanding(Apply(db, pruning, op), h) == PinsAfter(op, h, Outstanding(db, h))
  {
  }

  /** The chain and the stored bodies are as imported. */
  ghost predicate AsImported(db: Db, imports: seq<(Hash, Body)>) {
    && |db.chain| == |imports| && (forall n :: 0 <= n < |imports| ==> db.chain[n] == imports[n].0)
    && (forall n :: 0 <= n < |imports| && imports[n].0 in db.bodies ==> db.bodies[imports[n].0] == imports[n].1)
  }

  lemma ApplyImports(db: Db, pruning: nat, op: Op, imports: seq<(Hash, Body)>)
    requires Legal(db, op) && AsImported(db, imports)
    ensures AsImported(Apply(db, pruning, op), imports + if op.Import? then [(op.hash, op.body)] else [])
  {
    if op.Import? {
      var imports' := imports + [(op.hash, op.body)];
      forall n | 0 <= n < |imports| ensures imports'[n].0 != op.hash { assert db.chain[n] in db.chain; }
    } else {
      assert imports + [] == imports;
    }
  }

  lemma {:induction false} RunImports(db: Db, pruning: nat, ops: seq<Op>, imports: seq<(Hash, Body)>)
    requires LegalRun(db, pruning, ops) && AsImported(db, imports)
    ensures AsImported(Run(db, pruning, ops), imports + Imports(ops))
    decreases |ops|
  {
    hide AsImported, Apply, Sequential;
    if ops == [] {
      assert imports + [] == imports;
    } else {
      var more := if ops[0].Import? then [(ops[0].hash, ops[0].body)] else [];
      ApplyImports(db, pruning, ops[0], imports);
      RunImports(Apply(db, pruning, ops[0]), pruning, ops[1..], imports + more);
      assert Imports(ops) == more + Imports(ops[1..]);
      hide Run, LegalRun, Imports;
      assert imports + Imports(ops) == (imports + more) + Imports(ops[1..]);
    }
  }

  /** All of it, for a run from the empty database. */
  lemma RunFollowsOps(pruning: nat, ops: seq<Op>)
    requires LegalRun(EMPTY, pruning, ops)
    ensures var db := Run(EMPTY, pruning, ops);
            && db.first == FirstFinalized(ops) && db.finalized == LastFinalized(ops, 0)
            && AsImported(db, Imports(ops)) && Inv(db, pruning)
            && (forall h :: References(db.cache, h) == PinsLeft(ops, h, 0))
  {
    assert Inv(EMPTY, pruning);
    RunKeepsInv(EMPTY, pruning, ops);
    FirstIsFirst(EMPTY, pruning, ops);
    LastIsLast(EMPTY, pruning, ops);
    RunImports(EMPTY, pruning, ops, []);
    assert [] + Imports(ops) == Imports(ops);
    hide Run, AsImported, Window, WellFormed, PinsLeft;
    var db := Run(EMPTY, pruning, ops);
    forall h
      ensures References(db.cache, h) == PinsLeft(ops, h, 0)
    {
      PinsAreLeft(EMPTY, pruning, ops, h);
      if h in db.pins { assert PinnedBlock(db, h); }
    }
  }

  /** After any run the database holds, of the blocks that were imported and with the bodies
      they were imported with, exactly those above the last max(N, 1) finalised ones, these
      themselves, and those that were more than that far below the first block finalised. */
  lemma BodiesAfterRun(pruning: nat, ops: seq<Op>)
    requires LegalRun(EMPTY, pruning, ops)
    ensures var db, imports, last := Run(EMPTY, pruning, ops), Imports(ops), LastFinalized(ops, 0);
            && db.finalized == last && |db.chain| == |imports|
            && (forall n :: 0 <= n < |imports| ==>
                  && db.chain[n] == imports[n].0
                  && Stored(db, imports[n].0) ==
                       if n > last - Max(pruning, 1) || n < FirstFinalized(ops) - Max(pruning, 1)
                       then Some(imports[n].1) else None)
            && (forall h :: h in db.bodies ==> h in db.chain)
  {
    RunFollowsOps(pruning, ops);
    hide Run, Pinned, FirstFinalized, LastFinalized, Imports, LegalRun;
    var db := Run(EMPTY, pruning, ops);
    assert forall n :: 0 <= n < |db.chain| ==> (db.chain[n] in db.bodies <==> InWindow(db, pruning, n));
  }

  /** Of the finalised blocks, the database holds the bodies of exactly the last max(N, 1). */
  ghost predicate OnlyLast(db: Db, pruning: nat, ops: seq<Op>) {
    forall n :: 0 <= n < |Imports(ops)| && n <= LastFinalized(ops, 0) ==>
      (Imports(ops)[n].0 in db.bodies <==> n > LastFinalized(ops, 0) - Max(pruning, 1))
  }

  /** Exactly the last max(N, 1) finalised bodies are left if and only if the first number that
      the operations finalise above zero is at most max(N, 1). */
  lemma LastBodiesRemain(pruning: nat, ops: seq<Op>)
    requires LegalRun(EMPTY, pruning, ops)
    ensures OnlyLast(Run(EMPTY, pruning, ops), pruning, ops) <==> FirstFinalized(ops) <= Max(pruning, 1)
  {
    BodiesAfterRun(pruning, ops);
    RunFollowsOps(pruning, ops);
    hide Run, Pinned, FirstFinalized, LastFinalized, Imports, LegalRun;
    var db := Run(EMPTY, pruning, ops);
    forall n | 0 <= n < |Imports(ops)|
      ensures Imports(ops)[n].0 in db.bodies <==>
                n > LastFinalized(ops, 0) - Max(pruning, 1) || n < FirstFinalized(ops) - Max(pruning, 1)
    {
      assert Stored(db, Imports(ops)[n].0).Some? <==> Imports(ops)[n].0 in db.bodies;
    }
    if db.first > Max(pruning, 1) {
      assert Imports(ops)[0].0 in db.bodies;
    }
  }

  /** No finalisation skips a block. */
  predicate OneByOne(ops: seq<Op>, last: nat)
    decreases |ops|
  {
    ops == [] ||
    (if ops[0].Finalize? then ops[0].number <= last + 1 && OneByOne(ops[1..], ops[0].number)
     else OneByOne(ops[1..], last))
  }

  lemma {:induction false} OneByOneStartsAtOne(ops: seq<Op>)
    requires OneByOne(ops, 0)
    ensures FirstFinalized(ops) <= 1
    decreases |ops|
  {
    if ops != [] && !(ops[0].Finalize? && ops[0].number > 0) {
      OneByOneStartsAtOne(ops[1..]);
    }
  }

  /** Finalising one by one from genesis, whatever else happens in between, leaves exactly the
      last max(N, 1) finalised bodies. */
  lemma OneByOneKeepsTheLast(pruning: nat, ops: seq<Op>)
    requires LegalRun(EMPTY, pruning, ops) && OneByOne(ops, 0)
    ensures OnlyLast(Run(EMPTY, pruning, ops), pruning, ops)
  {
    hide Run, LegalRun, OneByOne;
    OneByOneStartsAtOne(ops);
    LastBodiesRemain(pruning, ops);
  }

  /** A first finalisation that skips a block passes the test and leaves genesis stored. */
  lemma SkippingLeavesABody(a: Hash, b: Hash, c: Hash, body: Body)
    requires a != b && b != c && a != c
    ensures var ops := [Import(a, body), Import(b, body), Import(c, body), Finalize(2)];
            LegalRun(EMPTY, 1, ops) && !OnlyLast(Run(EMPTY, 1, ops), 1, ops)
  {
    var ops := [Import(a, body), Import(b, body), Import(c, body), Finalize(2)];
    SkippingRun(a, b, c, body);
    hide Run, LegalRun;
    assert ops[1..][1..] == ops[2..] && ops[2..][1..] == ops[3..] && ops[3..][1..] == [];
    assert Imports(ops)[0] == (a, body);
    assert LastFinalized([], 2) == 2 && LastFinalized(ops[3..], 0) == 2;
    assert LastFinalized(ops[2..], 0) == 2 && LastFinalized(ops[1..], 0) == 2;
  }

  lemma SkippingRun(a: Hash, b: Hash, c: Hash, body: Body)
    requires a != b && b != c && a != c
    ensures var ops := [Import(a, body), Import(b, body), Import(c, body), Finalize(2)];
            LegalRun(EMPTY, 1, ops) && a in Run(EMPTY, 1, ops).bodies
  {
    var ops := [Import(a, body), Import(b, body), Import(c, body), Finalize(2)];
    var d1 := ImportNext(EMPTY, a, body);
    var d2 := ImportNext(d1, b, body);
    var d3 := ImportNext(d2, c, body);
    var d4 := FinalizeTo(d3, 1, 2);
    assert ops[1..][1..] == ops[2..] && ops[2..][1..] == ops[3..] && ops[3..][1..] == [];
    assert LegalRun(d4, 1, []) && Run(d4, 1, []) == d4;
    assert LegalRun(d3, 1, ops[3..]) && Run(d3, 1, ops[3..]) == d4;
    assert LegalRun(d2, 1, ops[2..]) && Run(d2, 1, ops[2..]) == d4;
    assert LegalRun(d1, 1, ops[1..]) && Run(d1, 1, ops[1..]) == d4;
  }

  /** From `n` pins, the operations never leave `h` without one. */
  predicate StaysPinned(ops: seq<Op>, h: Hash, n: nat)
    decreases |ops|
  {
    n > 0 && (ops == [] || StaysPinned(ops[1..], h, PinsAfter(ops[0], h, n)))
  }

  lemma {:induction false} SeenStays(db: Db, pruning: nat, ops: seq<Op>, h: Hash)
    requires LegalRun(db, pruning, ops) && StaysPinned(ops, h, Outstanding(db, h)) && Inv(db, pruning)
    ensures h in Run(db, pruning, ops).pins
    ensures h in db.seen && h in Run(db, pruning, ops).seen && Run(db, pruning, ops).seen[h] == db.seen[h]
    decreases |ops|
  {
    hide Inv, Apply;
    SeenOnce(db, pruning, h);
    if ops != [] {
      var db1 := Apply(db, pruning, ops[0]);
      SeenStep(db, pruning, ops[0], h);
      ApplyKeepsInv(db, pruning, ops[0]);
      SeenStays(db1, pruning, ops[1..], h);
    }
  }

  lemma SeenOnce(db: Db, pruning: nat, h: Hash)
    requires Inv(db, pruning) && h in db.pins
    ensures h in db.seen && db.pins[h] > 0
  {
    assert PinnedBlock(db, h);
  }

  lemma SeenStep(db: Db, pruning: nat, op: Op, h: Hash)
    requires Legal(db, op) && h in db.pins && h in db.seen && db.pins[h] > 0
    ensures var db' := Apply(db, pruning, op);
            && h in db'.seen && db'.seen[h] == db.seen[h]
            && Outstanding(db', h) == PinsAfter(op, h, Outstanding(db, h))
  {
  }

  /** While a block stays pinned it reads as the same body, through any run: also after it
      leaves the window and its stored body is removed. */
  lemma PinnedBodyIsStable(db: Db, pruning: nat, ops: seq<Op>, h: Hash)
    requires Inv(db, pruning) && LegalRun(db, pruning, ops) && StaysPinned(ops, h, Outstanding(db, h))
    ensures ReadBody(Run(db, pruning, ops), h) == ReadBody(db, h)
  {
    SeenStays(db, pruning, ops, h);
    RunKeepsInv(db, pruning, ops);
    hide Run, Window;
    assert PinnedBlock(db, h) && PinnedBlock(Run(db, pruning, ops), h);
  }

  /** A block that was pinned while it was in the window, and stays pinned, reads as the body it
      was imported with, whatever was finalised since. */
  lemma PinnedReadsAsImported(pruning: nat, before: seq<Op>, after: seq<Op>, n: nat)
    requires LegalRun(EMPTY, pruning, before) && LegalRun(Run(EMPTY, pruning, before), pruning, after)
    requires n < |Imports(before)| && n > LastFinalized(before, 0) - Max(pruning, 1)
    requires StaysPinned(after, Imports(before)[n].0, PinsLeft(before, Imports(before)[n].0, 0))
    ensures ReadBody(Run(Run(EMPTY, pruning, before), pruning, after), Imports(before)[n].0) ==
              Some(Imports(before)[n].1)
  {
    var (h, body) := Imports(before)[n];
    BodiesAfterRun(pruning, before);
    RunFollowsOps(pruning, before);
    PinsAreLeft(EMPTY, pruning, before, h);
    PinnedBodyIsStable(Run(EMPTY, pruning, before), pruning, after, h);
    assert Outstanding(EMPTY, h) == 0 && PinsLeft(before, h, 0) > 0;
    hide Run, Window, Imports, LastFinalized, PinsLeft, StaysPinned, LegalRun, AsImported;
    var db := Run(EMPTY, pruning, before);
    assert h in db.pins && PinnedBlock(db, h);
    assert Stored(db, h) == Some(body);
  }
}
