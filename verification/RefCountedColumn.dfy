/** The reference-counted transaction column, in the two databases that implement it: the
    in-memory one, which applies changes one after the other, and the key-value adapter, which
    computes every change from the counters as they were before the commit. */
module RefCountedColumn {
  import opened Types

  datatype Change = Store(hash: Hash, data: seq<byte>) | Reference(hash: Hash) | Release(hash: Hash)

  datatype Entry = Entry(count: nat, data: seq<byte>)

  /** Entries with a count of zero do not exist. */
  type Column = map<Hash, Entry>

  ghost predicate Counted(col: Column) {
    forall h :: h in col ==> col[h].count > 0
  }

  function Count(col: Column, h: Hash): nat {
    if h in col then col[h].count else 0
  }

  // ---- the in-memory database ----

  function ApplyOne(col: Column, c: Change): Column {
    match c
    case Store(h, data) => if h in col then col[h := col[h].(count := col[h].count + 1)] else col[h := Entry(1, data)]
    case Reference(h) => if h in col then col[h := col[h].(count := col[h].count + 1)] else col
    case Release(h) =>
      if h !in col then col
      else if col[h].count <= 1 then col - {h}
      else col[h := col[h].(count := col[h].count - 1)]
  }

  function MemCommit(col: Column, tx: seq<Change>): Column {
    if tx == [] then col else ApplyOne(MemCommit(col, tx[..|tx| - 1]), tx[|tx| - 1])
  }

  lemma {:induction false} MemCommitConcat(col: Column, a: seq<Change>, b: seq<Change>)
    ensures MemCommit(col, a + b) == MemCommit(MemCommit(col, a), b)
    decreases |b|
  {
    if b == [] {
      assert a + b == a;
    } else {
      MemCommitConcat(col, a, b[..|b| - 1]);
      assert (a + b)[..|a + b| - 1] == a + b[..|b| - 1];
    }
  }

  /** How many changes of the transaction name `h`. */
  function Naming(tx: seq<Change>, h: Hash): nat {
    if tx == [] then 0 else Naming(tx[..|tx| - 1], h) + if tx[|tx| - 1].hash == h then 1 else 0
  }

  /** A transaction that only adds references, and only to stored hashes except by storing. */
  ghost predicate Adds(tx: seq<Change>, col: Column) {
    forall i :: 0 <= i < |tx| ==> !tx[i].Release? && (tx[i].Reference? ==> tx[i].hash in col)
  }

  /** A transaction that only releases, and no more than there is. */
  ghost predicate Releases(tx: seq<Change>, col: Column) {
    && (forall i :: 0 <= i < |tx| ==> tx[i].Release?)
    && (forall h :: Naming(tx, h) <= Count(col, h))
  }

  /** Adding references counts each of them. */
  lemma {:induction false} AddsCount(col: Column, tx: seq<Change>)
    requires Counted(col) && Adds(tx, col)
    ensures Counted(MemCommit(col, tx))
    ensures forall h :: Count(MemCommit(col, tx), h) == Count(col, h) + Naming(tx, h)
    ensures forall h :: h in col ==> h in MemCommit(col, tx) && MemCommit(col, tx)[h].data == col[h].data
  {
    if tx != [] {
      AddsCount(col, tx[..|tx| - 1]);
    }
  }

  /** What a transaction of additions stores under a new hash is what it was given first. */
  lemma {:induction false} AddsData(col: Column, tx: seq<Change>, h: Hash, data: seq<byte>)
    requires Counted(col) && Adds(tx, col)
    requires h in col ==> col[h].data == data
    requires forall i :: 0 <= i < |tx| && tx[i].Store? && tx[i].hash == h ==> tx[i].data == data
    ensures h in MemCommit(col, tx) ==> MemCommit(col, tx)[h].data == data
  {
    if tx != [] {
      AddsData(col, tx[..|tx| - 1], h, data);
    }
  }

  lemma {:induction false} ReleasesCount(col: Column, tx: seq<Change>)
    requires Counted(col) && Releases(tx, col)
    ensures Counted(MemCommit(col, tx))
    ensures forall h :: Count(MemCommit(col, tx), h) == Count(col, h) - Naming(tx, h)
    ensures forall h :: h in MemCommit(col, tx) ==> h in col && MemCommit(col, tx)[h].data == col[h].data
  {
    if tx != [] {
      var front := tx[..|tx| - 1];
      assert forall h :: Naming(front, h) <= Naming(tx, h);
      ReleasesCount(col, front);
      var last := tx[|tx| - 1];
      assert Naming(tx, last.hash) == Naming(front, last.hash) + 1;
    }
  }

  // ---- the key-value adapter ----

  /** The adapter keeps counters and values under different keys. */
  datatype KvDb = KvDb(counters: map<Hash, nat>, values: map<Hash, seq<byte>>)

  function KvOf(col: Column): KvDb {
    KvDb(map h | h in col :: col[h].count, map h | h in col :: col[h].data)
  }

  /** Adds one change to a batch. The counter is read from the database before the commit. */
  function KvOne(before: KvDb, batch: KvDb, c: Change): KvDb {
    match c
    case Store(h, data) =>
      if h in before.counters then batch.(counters := batch.counters[h := before.counters[h] + 1])
      else KvDb(batch.counters[h := 1], batch.values[h := data])
    case Reference(h) =>
      if h in before.counters then batch.(counters := batch.counters[h := before.counters[h] + 1]) else batch
    case Release(h) =>
      if h !in before.counters then batch
      else if before.counters[h] <= 1 then KvDb(batch.counters - {h}, batch.values - {h})
      else batch.(counters := batch.counters[h := before.counters[h] - 1])
  }

  function KvCommit(before: KvDb, tx: seq<Change>): KvDb {
    if tx == [] then before else KvOne(before, KvCommit(before, tx[..|tx| - 1]), tx[|tx| - 1])
  }

  function KvCount(db: KvDb, h: Hash): nat {
    if h in db.counters then db.counters[h] else 0
  }

  ghost predicate AtMostOnce(tx: seq<Change>) {
    forall h :: Naming(tx, h) <= 1
  }

  /** A hash that is not named keeps its entry. */
  lemma {:induction false} Unnamed(col: Column, tx: seq<Change>, h: Hash)
    requires Naming(tx, h) == 0
    ensures h in MemCommit(col, tx) <==> h in col
    ensures h in col ==> MemCommit(col, tx)[h] == col[h]
  {
    if tx != [] {
      Unnamed(col, tx[..|tx| - 1], h);
    }
  }

  lemma OneAgrees(before: Column, col: Column, c: Change)
    requires c.hash in before <==> c.hash in col
    requires c.hash in col ==> before[c.hash] == col[c.hash]
    ensures KvOne(KvOf(before), KvOf(col), c) == KvOf(ApplyOne(col, c))
  {
    var a, b := KvOne(KvOf(before), KvOf(col), c), KvOf(ApplyOne(col, c));
    assert a.counters == b.counters;
    assert a.values == b.values;
  }

  /** When no hash is named twice, the adapter does what the in-memory database does, for any
      mix of changes. */
  lemma {:induction false} AdapterAgreesOnce(col: Column, tx: seq<Change>)
    requires AtMostOnce(tx)
    ensures KvCommit(KvOf(col), tx) == KvOf(MemCommit(col, tx))
  {
    if tx != [] {
      var front, last := tx[..|tx| - 1], tx[|tx| - 1];
      forall h ensures Naming(front, h) <= 1 { assert Naming(tx, h) <= 1; }
      AdapterAgreesOnce(col, front);
      assert Naming(tx, last.hash) == Naming(front, last.hash) + 1;
      Unnamed(col, front, last.hash);
      OneAgrees(col, MemCommit(col, front), last);
    }
  }

  /** The adapter counts a hash once per commit, however often it is named. */
  lemma {:induction false} KvAddsCount(col: Column, tx: seq<Change>)
    requires Counted(col) && Adds(tx, col)
    ensures forall h :: KvCount(KvCommit(KvOf(col), tx), h) == Count(col, h) + if Naming(tx, h) > 0 then 1 else 0
  {
    if tx != [] {
      KvAddsCount(col, tx[..|tx| - 1]);
    }
  }

  lemma {:induction false} KvReleasesCount(col: Column, tx: seq<Change>)
    requires Counted(col) && Releases(tx, col)
    ensures forall h :: KvCount(KvCommit(KvOf(col), tx), h) == Count(col, h) - if Naming(tx, h) > 0 then 1 else 0
  {
    if tx != [] {
      var front := tx[..|tx| - 1];
      assert forall h :: Naming(front, h) <= Naming(tx, h);
      KvReleasesCount(col, front);
      var last := tx[|tx| - 1];
      assert Naming(tx, last.hash) == Naming(front, last.hash) + 1;
    }
  }

  /** For the transaction of an import or of a pruning, the adapter and the in-memory database
      agree exactly when no hash is named twice. */
  lemma AdapterAgreesIff(col: Column, tx: seq<Change>)
    requires Counted(col) && (Adds(tx, col) || Releases(tx, col))
    ensures KvCommit(KvOf(col), tx) == KvOf(MemCommit(col, tx)) <==> AtMostOnce(tx)
  {
    if AtMostOnce(tx) {
      AdapterAgreesOnce(col, tx);
    } else {
      var h :| Naming(tx, h) > 1;
      if Adds(tx, col) {
        AddsCount(col, tx);
        KvAddsCount(col, tx);
      } else {
        ReleasesCount(col, tx);
        KvReleasesCount(col, tx);
      }
      assert KvCount(KvCommit(KvOf(col), tx), h) != Count(MemCommit(col, tx), h);
      assert KvCount(KvOf(MemCommit(col, tx)), h) == Count(MemCommit(col, tx), h);
    }
  }

  /** Both databases ignore references to, and releases of, what is not stored. */
  lemma AbsentIsIgnored(col: Column, c: Change)
    requires !c.Store? && c.hash !in col
    ensures MemCommit(col, [c]) == col && KvCommit(KvOf(col), [c]) == KvOf(col)
  {
    assert [c][..0] == [];
    assert MemCommit(col, []) == col && KvCommit(KvOf(col), []) == KvOf(col);
  }

  // ---- any transaction ----

  /** Every reference and release names a hash that is stored when its turn comes. */
  ghost predicate Grounded(col: Column, tx: seq<Change>) {
    tx == [] ||
    (&& Grounded(col, tx[..|tx| - 1])
     && (!tx[|tx| - 1].Store? ==> tx[|tx| - 1].hash in MemCommit(col, tx[..|tx| - 1])))
  }

  /** References added less references released. */
  function Net(tx: seq<Change>, h: Hash): int {
    if tx == [] then 0
    else
      var last := tx[|tx| - 1];
      Net(tx[..|tx| - 1], h) + if last.hash != h then 0 else if last.Release? then -1 else 1
  }

  /** The last change that names `h`. */
  function LastNaming(tx: seq<Change>, h: Hash): Option<Change> {
    if tx == [] then None
    else if tx[|tx| - 1].hash == h then Some(tx[|tx| - 1])
    else LastNaming(tx[..|tx| - 1], h)
  }

  ghost predicate StoresIt(tx: seq<Change>, h: Hash) {
    exists i :: 0 <= i < |tx| && tx[i].Store? && tx[i].hash == h
  }

  ghost predicate ReleasesIt(tx: seq<Change>, h: Hash) {
    Release(h) in tx
  }

  /** The in-memory database counts every change. */
  lemma {:induction false} NetCount(col: Column, tx: seq<Change>)
    requires Counted(col) && Grounded(col, tx)
    ensures Counted(MemCommit(col, tx))
    ensures forall h :: Count(MemCommit(col, tx), h) == Count(col, h) + Net(tx, h)
  {
    if tx != [] {
      NetCount(col, tx[..|tx| - 1]);
    }
  }

  /** What the adapter makes of a count: the last change that names the hash decides, except
      that changes to a hash without a counter are lost unless they store it. */
  ghost function AdapterCount(tx: seq<Change>, h: Hash, count: nat): nat {
    if count == 0 then (if StoresIt(tx, h) then 1 else 0)
    else
      match LastNaming(tx, h)
      case None => count
      case Some(c) => if c.Release? then count - 1 else count + 1
  }

  /** Counters are positive, and values have counters. */
  ghost predicate KvCounted(kv: KvDb) {
    && (forall h :: h in kv.counters ==> kv.counters[h] > 0)
    && (forall h :: h in kv.values ==> h in kv.counters)
  }

  lemma StoresSnoc(tx: seq<Change>, h: Hash)
    requires tx != []
    ensures var n := |tx| - 1;
            && (StoresIt(tx, h) <==> StoresIt(tx[..n], h) || (tx[n].Store? && tx[n].hash == h))
            && (ReleasesIt(tx, h) <==> ReleasesIt(tx[..n], h) || tx[n] == Release(h))
  {
    var n := |tx| - 1;
    assert tx == tx[..n] + [tx[n]];
    if StoresIt(tx[..n], h) {
      var i :| 0 <= i < n && tx[..n][i].Store? && tx[..n][i].hash == h;
      assert tx[i].Store? && tx[i].hash == h;
    }
    if StoresIt(tx, h) && !(tx[n].Store? && tx[n].hash == h) {
      var i :| 0 <= i < |tx| && tx[i].Store? && tx[i].hash == h;
      assert tx[..n][i] == tx[i];
    }
  }

  /** The adapter's counter of one hash after any transaction. */
  lemma {:induction false} KvCountIs(kv: KvDb, tx: seq<Change>, h: Hash)
    requires KvCounted(kv)
    ensures KvCount(KvCommit(kv, tx), h) == AdapterCount(tx, h, KvCount(kv, h))
    ensures h in KvCommit(kv, tx).counters <==> KvCount(KvCommit(kv, tx), h) > 0
    ensures h in KvCommit(kv, tx).values ==> h in KvCommit(kv, tx).counters
  {
    hide StoresIt;
    if tx == [] {
      StoresNothing(h);
    } else {
      KvCountIs(kv, tx[..|tx| - 1], h);
      StoresSnoc(tx, h);
    }
  }

  lemma StoresNothing(h: Hash)
    ensures !StoresIt([], h) && !ReleasesIt([], h)
  {
  }

  lemma KvCommitCounted(kv: KvDb, tx: seq<Change>)
    requires KvCounted(kv)
    ensures KvCounted(KvCommit(kv, tx))
  {
    hide KvCommit, AdapterCount;
    forall h: Hash
      ensures h in KvCommit(kv, tx).counters ==> KvCommit(kv, tx).counters[h] > 0
      ensures h in KvCommit(kv, tx).values ==> h in KvCommit(kv, tx).counters
    {
      KvCountIs(kv, tx, h);
    }
  }

  /** The adapter's value of one hash after any transaction: a hash without a counter gets one
      when it is stored, a hash with one reference loses it with the first release for good. */
  lemma {:induction false} KvValueIs(kv: KvDb, tx: seq<Change>, h: Hash)
    requires KvCounted(kv) && (h in kv.counters ==> h in kv.values)
    ensures h in KvCommit(kv, tx).values <==>
              if KvCount(kv, h) == 0 then StoresIt(tx, h) else !(KvCount(kv, h) == 1 && ReleasesIt(tx, h))
    ensures h in kv.values && h in KvCommit(kv, tx).values ==> KvCommit(kv, tx).values[h] == kv.values[h]
  {
    hide StoresIt, ReleasesIt;
    if tx == [] {
      StoresNothing(h);
    } else {
      KvValueIs(kv, tx[..|tx| - 1], h);
      StoresSnoc(tx, h);
    }
  }

  /** ...and what is stored under a new hash is what was stored last. */
  lemma {:induction false} KvNewValueIs(kv: KvDb, tx: seq<Change>, h: Hash, data: seq<byte>)
    requires KvCounted(kv) && h !in kv.values
    requires forall i :: 0 <= i < |tx| && tx[i].Store? && tx[i].hash == h ==> tx[i].data == data
    ensures h in KvCommit(kv, tx).values ==> KvCommit(kv, tx).values[h] == data
  {
    if tx != [] {
      KvNewValueIs(kv, tx[..|tx| - 1], h, data);
    }
  }

  /** All changes to `h` together make the difference that the last one alone makes, or for a
      hash that is not stored yet, the one that storing it once makes. */
  ghost predicate CountFits(count: nat, tx: seq<Change>, h: Hash) {
    if count == 0 then Net(tx, h) == (if StoresIt(tx, h) then 1 else 0)
    else
      match LastNaming(tx, h)
      case None => true
      case Some(c) => Net(tx, h) == if c.Release? then -1 else 1
  }

  /** ...and its value stays: a hash with one reference is not released and taken up again. */
  ghost predicate Fits(count: nat, tx: seq<Change>, h: Hash) {
    && CountFits(count, tx, h)
    && (count == 1 && ReleasesIt(tx, h) ==> LastNaming(tx, h).Some? && LastNaming(tx, h).value.Release?)
  }

  lemma {:induction false} UnnamedNet(tx: seq<Change>, h: Hash)
    ensures LastNaming(tx, h).None? ==> Net(tx, h) == 0
  {
    if tx != [] { UnnamedNet(tx[..|tx| - 1], h); }
  }

  lemma FitsIsAdapter(count: nat, tx: seq<Change>, h: Hash)
    ensures CountFits(count, tx, h) <==> count + Net(tx, h) == AdapterCount(tx, h, count)
  {
    hide Net, LastNaming, StoresIt;
    UnnamedNet(tx, h);
  }

  /** For any transaction, the adapter counts a hash right exactly when its count fits. */
  lemma CountsRightIff(col: Column, kv: KvDb, tx: seq<Change>, h: Hash)
    requires Counted(col) && Grounded(col, tx) && KvCounted(kv) && KvCount(kv, h) == Count(col, h)
    ensures KvCount(KvCommit(kv, tx), h) == Count(MemCommit(col, tx), h) <==> CountFits(Count(col, h), tx, h)
  {
    hide MemCommit, KvCommit, Net, AdapterCount, Grounded, CountFits;
    FitsIsAdapter(Count(col, h), tx, h);
    NetCount(col, tx);
    KvCountIs(kv, tx, h);
  }

  /** For any transaction whose hashes determine their content, the adapter ends up with what
      the in-memory database holds if and only if every hash fits. */
  lemma AdapterAgreesExactly(col: Column, tx: seq<Change>, content: Hash -> seq<byte>)
    requires Counted(col) && Grounded(col, tx)
    requires forall h :: h in col ==> col[h].data == content(h)
    requires forall i :: 0 <= i < |tx| && tx[i].Store? ==> tx[i].data == content(tx[i].hash)
    ensures KvCommit(KvOf(col), tx) == KvOf(MemCommit(col, tx)) <==> forall h :: Fits(Count(col, h), tx, h)
    ensures forall h :: h in MemCommit(col, tx) ==> MemCommit(col, tx)[h].data == content(h)
  {
    hide MemCommit, KvCommit, Fits, Grounded;
    var kv, kv', col' := KvOf(col), KvCommit(KvOf(col), tx), MemCommit(col, tx);
    forall h
      ensures Fits(Count(col, h), tx, h) <==> SameAt(kv', col', h)
      ensures h in col' ==> col'[h].data == content(h)
    {
      MemData(col, tx, content, h);
      AgreesAt(col, tx, content, h);
    }
    if forall h :: SameAt(kv', col', h) {
      assert forall h :: SameAt(kv', col', h);
      assert kv'.counters == KvOf(col').counters && kv'.values == KvOf(col').values;
    }
    if kv' == KvOf(col') { forall h ensures SameAt(kv', col', h) { SameSame(col', h); } }
  }

  /** The two databases hold the same under `h`. */
  ghost predicate SameAt(kv: KvDb, col: Column, h: Hash) {
    && (h in kv.counters <==> h in col) && (h in kv.values <==> h in col)
    && (h in col && h in kv.counters ==> kv.counters[h] == col[h].count)
    && (h in col && h in kv.values ==> kv.values[h] == col[h].data)
  }

  lemma SameSame(col: Column, h: Hash)
    ensures SameAt(KvOf(col), col, h)
  {
  }

  lemma {:induction false} MemData(col: Column, tx: seq<Change>, content: Hash -> seq<byte>, h: Hash)
    requires h in col ==> col[h].data == content(h)
    requires forall i :: 0 <= i < |tx| && tx[i].Store? ==> tx[i].data == content(tx[i].hash)
    ensures h in MemCommit(col, tx) ==> MemCommit(col, tx)[h].data == content(h)
  {
    if tx != [] {
      MemData(col, tx[..|tx| - 1], content, h);
    }
  }

  lemma AgreesAt(col: Column, tx: seq<Change>, content: Hash -> seq<byte>, h: Hash)
    requires Counted(col) && Grounded(col, tx)
    requires h in col ==> col[h].data == content(h)
    requires forall i :: 0 <= i < |tx| && tx[i].Store? ==> tx[i].data == content(tx[i].hash)
    ensures Fits(Count(col, h), tx, h) <==> SameAt(KvCommit(KvOf(col), tx), MemCommit(col, tx), h)
  {
    hide MemCommit, KvCommit, Net, Grounded, StoresIt, ReleasesIt, LastNaming, CountFits;
    FitsIsAdapter(Count(col, h), tx, h);
    var kv := KvOf(col);
    assert KvCounted(kv) && KvCount(kv, h) == Count(col, h);
    NetCount(col, tx);
    KvCountIs(kv, tx, h);
    KvValueIs(kv, tx, h);
    if h !in col { KvNewValueIs(kv, tx, h, content(h)); }
    MemData(col, tx, content, h);
    LastIsReleased(tx, h);
    assert Counted(MemCommit(col, tx));
  }

  lemma {:induction false} LastIsReleased(tx: seq<Change>, h: Hash)
    ensures LastNaming(tx, h).Some? && LastNaming(tx, h).value.Release? ==> ReleasesIt(tx, h)
    ensures LastNaming(tx, h).Some? ==> LastNaming(tx, h).value.hash == h
  {
    if tx != [] {
      LastIsReleased(tx[..|tx| - 1], h);
      StoresSnoc(tx, h);
    }
  }

  // ---- cases ----

  /** Storing one hash twice in a transaction: two references in memory, one in the adapter,
      so that releasing one of the two removes the value there. */
  lemma AdapterLosesReference(h: Hash, data: seq<byte>)
    ensures var tx := [Store(h, data), Store(h, data)];
            var mem, kv := MemCommit(map[], tx), KvCommit(KvDb(map[], map[]), tx);
            && Count(mem, h) == 2 && KvCount(kv, h) == 1
            && h in MemCommit(mem, [Release(h)]) && h !in KvCommit(kv, [Release(h)]).values
  {
    var c := Store(h, data);
    var tx := [c, c];
    assert tx[..1] == [c] && [c][..0] == [] && [Release(h)][..0] == [];
    assert MemCommit(map[], [c]) == map[h := Entry(1, data)];
    var empty := KvDb(map[], map[]);
    assert KvCommit(empty, [c]) == KvDb(map[h := 1], map[h := data]);
    assert KvCommit(empty, tx) == KvDb(map[h := 1], map[h := data]);
  }

  /** Releasing a hash of two bodies in one transaction leaves it in the adapter for good. */
  lemma AdapterKeepsReleased(h: Hash, data: seq<byte>)
    ensures var col := map[h := Entry(2, data)];
            var tx := [Release(h), Release(h)];
            && h !in MemCommit(col, tx)
            && KvCount(KvCommit(KvOf(col), tx), h) == 1 && h in KvCommit(KvOf(col), tx).values
  {
    var col, c := map[h := Entry(2, data)], Release(h);
    CommitTwo(col, c, c);
  }

  /** Taking a hash up again while its last other body is pruned in the same transaction removes
      it from the adapter. */
  lemma AdapterLosesRenewed(h: Hash, data: seq<byte>)
    ensures var col := map[h := Entry(1, data)];
            var tx := [Reference(h), Release(h)];
            && Count(MemCommit(col, tx), h) == 1
            && KvCount(KvCommit(KvOf(col), tx), h) == 0 && h !in KvCommit(KvOf(col), tx).values
  {
    CommitTwo(map[h := Entry(1, data)], Reference(h), Release(h));
  }

  /** The count can be right and the value gone: the last body is pruned, and the same hash
      stored twice, in one transaction. */
  lemma AdapterLosesValue(h: Hash, data: seq<byte>)
    ensures var col := map[h := Entry(1, data)];
            var tx := [Release(h), Store(h, data), Store(h, data)];
            && Count(MemCommit(col, tx), h) == 2 && h in MemCommit(col, tx)
            && KvCount(KvCommit(KvOf(col), tx), h) == 2 && h !in KvCommit(KvOf(col), tx).values
  {
    var col, r, c := map[h := Entry(1, data)], Release(h), Store(h, data);
    CommitTwo(col, r, c);
    assert [r, c, c][..2] == [r, c];
  }

  lemma CommitTwo(col: Column, a: Change, b: Change)
    ensures MemCommit(col, [a, b]) == ApplyOne(ApplyOne(col, a), b)
    ensures KvCommit(KvOf(col), [a, b]) == KvOne(KvOf(col), KvOne(KvOf(col), KvOf(col), a), b)
  {
    hide ApplyOne, KvOne;
    assert [a, b][..1] == [a] && [a][..0] == [];
    assert MemCommit(col, []) == col && MemCommit(col, [a]) == ApplyOne(col, a);
    var kv := KvOf(col);
    assert KvCommit(kv, []) == kv && KvCommit(kv, [a]) == KvOne(kv, kv, a);
  }
}
