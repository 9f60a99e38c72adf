/** Runs of `IndexedBodies` by commits, on both databases. One commit holds any number of
    imports and prunings: finalising several blocks prunes several bodies, and importing a final
    block also prunes one. The in-memory database applies the changes one after the other; the
    key-value adapter computes each from the counters before the commit. */
module AdapterRuns {
  import opened Types
  import opened RefCountedColumn
  import opened IndexedBodies

  /** What the database does in one commit, in this order. */
  type Batch<!X> = seq<Op<X>>

  /** What one operation adds to the transaction. */
  function TxOf<X>(c: Codec<X>, db: Db<X>, op: Op<X>): seq<Change>
    requires op.Prune? ==> op.pos < |db.stored|
  {
    match op
    case Import(body, ops) => if ops == [] then [] else IndexBody(c, body, Inserts(ops), Renewals(ops)).0
    case Prune(pos) => PruneTx(db.stored[pos].index)
  }

  /** The whole transaction. */
  ghost function TxOfBatch<X(!new)>(c: Codec<X>, db: Db<X>, content: Hash -> seq<byte>, batch: Batch<X>): seq<Change>
    requires LegalRun(c, db, content, batch)
    decreases |batch|
  {
    if batch == [] then []
    else TxOf(c, db, batch[0]) + TxOfBatch(c, Apply(c, db, content, batch[0]), content, batch[1..])
  }

  // ---- the transaction of a commit ----

  lemma GroundedSnoc(col: Column, tx: seq<Change>, c: Change)
    requires Grounded(col, tx) && (c.Store? || c.hash in MemCommit(col, tx))
    ensures Grounded(col, tx + [c])
  {
    hide MemCommit;
    assert (tx + [c])[..|tx|] == tx;
  }

  lemma {:induction false} GroundedConcat(col: Column, a: seq<Change>, b: seq<Change>)
    requires Grounded(col, a) && Grounded(MemCommit(col, a), b)
    ensures Grounded(col, a + b)
    decreases |b|
  {
    hide MemCommit;
    if b == [] {
      assert a + b == a;
    } else {
      var n := |b| - 1;
      var front := b[..n];
      GroundedConcat(col, a, front);
      MemCommitConcat(col, a, front);
      assert a + b == (a + front) + [b[n]];
      GroundedSnoc(col, a + front, b[n]);
    }
  }

  lemma {:induction false} AddsGrounded(col: Column, tx: seq<Change>)
    requires Counted(col) && Adds(tx, col)
    ensures Grounded(col, tx)
  {
    hide MemCommit;
    if tx != [] {
      var front := tx[..|tx| - 1];
      AddsGrounded(col, front);
      AddsCount(col, front);
    }
  }

  lemma {:induction false} ReleasesGrounded(col: Column, tx: seq<Change>)
    requires Counted(col) && Releases(tx, col)
    ensures Grounded(col, tx)
  {
    hide MemCommit;
    if tx != [] {
      var n := |tx| - 1;
      var front := tx[..n];
      forall h ensures Naming(front, h) <= Naming(tx, h) { }
      ReleasesGrounded(col, front);
      ReleasesCount(col, front);
      assert Naming(tx, tx[n].hash) == Naming(front, tx[n].hash) + 1;
      assert Count(MemCommit(col, front), tx[n].hash) > 0;
    }
  }

  /** The transaction stores what the hashes stand for. */
  ghost predicate StoresContent(tx: seq<Change>, content: Hash -> seq<byte>) {
    forall i :: 0 <= i < |tx| && tx[i].Store? ==> tx[i].data == content(tx[i].hash)
  }

  /** One operation's part of the transaction does to the column what the operation does. */
  lemma OpIsTx<X(!new)>(c: Codec<X>, db: Db<X>, content: Hash -> seq<byte>, op: Op<X>)
    requires Inv(c, db, content) && Legal(c, db, content, op)
    ensures var tx := TxOf(c, db, op);
            && MemCommit(db.col, tx) == Apply(c, db, content, op).col
            && Grounded(db.col, tx) && StoresContent(tx, content)
  {
    hide MemCommit, Grounded, Faithful, Mentions, Naming, Total;
    match op
    case Import(body, iops) =>
      if iops == [] {
        Nothing(db.col, content);
      } else {
        IndexBodyAdds(c, body, iops, db.col, content, |body|);
        assert body[..|body|] == body;
        AddsGrounded(db.col, TxOf(c, db, op));
      }
    case Prune(pos) =>
      var tx := TxOf(c, db, op);
      PruneTxSpec(db.stored[pos].index);
      forall h
        ensures Naming(tx, h) <= Count(db.col, h)
      {
        TotalAt(db.stored, pos, h);
        assert Count(db.col, h) == Total(db.stored, h);
      }
      ReleasesGrounded(db.col, tx);
  }

  lemma Nothing(col: Column, content: Hash -> seq<byte>)
    ensures MemCommit(col, []) == col && Grounded(col, []) && StoresContent([], content)
  {
  }

  lemma StepKeepsInv<X(!new)>(c: Codec<X>, db: Db<X>, content: Hash -> seq<byte>, op: Op<X>)
    requires Lawful(c) && Inv(c, db, content) && Legal(c, db, content, op)
    ensures Inv(c, Apply(c, db, content, op), content)
  {
    hide Inv, Lawful, Consistent, ImportBody, PruneBody;
    match op
    case Import(body, iops) => ImportKeepsInv(c, db, content, body, iops);
    case Prune(pos) => PruneKeepsInv(c, db, content, pos);
  }

  /** Committing the whole transaction at once does to the column what the operations do one
      after the other, so the run theorems of `IndexedBodies` hold for commits of any shape. */
  lemma {:induction false} BatchIsRun<X(!new)>(c: Codec<X>, db: Db<X>, content: Hash -> seq<byte>, batch: Batch<X>)
    requires Lawful(c) && Inv(c, db, content) && LegalRun(c, db, content, batch)
    ensures var tx := TxOfBatch(c, db, content, batch);
            && MemCommit(db.col, tx) == Run(c, db, content, batch).col
            && Grounded(db.col, tx) && StoresContent(tx, content)
    ensures Inv(c, Run(c, db, content, batch), content)
    decreases |batch|
  {
    hide Inv, Lawful, Consistent, MemCommit, Grounded, Apply, TxOf;
    if batch == [] {
      Nothing(db.col, content);
    } else {
      var db' := Apply(c, db, content, batch[0]);
      OpIsTx(c, db, content, batch[0]);
      StepKeepsInv(c, db, content, batch[0]);
      BatchIsRun(c, db', content, batch[1..]);
      var a, b := TxOf(c, db, batch[0]), TxOfBatch(c, db', content, batch[1..]);
      MemCommitConcat(db.col, a, b);
      GroundedConcat(db.col, a, b);
    }
  }

  // ---- runs of commits ----

  ghost predicate LegalBatches<X(!new)>(c: Codec<X>, db: Db<X>, content: Hash -> seq<byte>, batches: seq<Batch<X>>)
    decreases |batches|
  {
    batches == [] ||
    (&& LegalRun(c, db, content, batches[0])
     && LegalBatches(c, Run(c, db, content, batches[0]), content, batches[1..]))
  }

  ghost function RunBatches<X(!new)>(c: Codec<X>, db: Db<X>, content: Hash -> seq<byte>, batches: seq<Batch<X>>): Db<X>
    requires LegalBatches(c, db, content, batches)
    decreases |batches|
  {
    if batches == [] then db else RunBatches(c, Run(c, db, content, batches[0]), content, batches[1..])
  }

  /** The adapter after the commits. */
  ghost function KvRun<X(!new)>(c: Codec<X>, db: Db<X>, kv: KvDb, content: Hash -> seq<byte>, batches: seq<Batch<X>>)
    : KvDb
    requires LegalBatches(c, db, content, batches)
    decreases |batches|
  {
    if batches == [] then kv
    else
      KvRun(c, Run(c, db, content, batches[0]), KvCommit(kv, TxOfBatch(c, db, content, batches[0])),
            content, batches[1..])
  }

  /** The adapter counts every hash as often as the stored bodies name it. */
  ghost predicate Exact<X>(db: Db<X>, kv: KvDb) {
    forall h :: KvCount(kv, h) == Total(db.stored, h)
  }

  /** ...after every commit. */
  ghost predicate ExactThroughout<X(!new)>(c: Codec<X>, db: Db<X>, kv: KvDb, content: Hash -> seq<byte>,
                                           batches: seq<Batch<X>>)
    requires LegalBatches(c, db, content, batches)
    decreases |batches|
  {
    && Exact(db, kv)
    && (batches == [] ||
        ExactThroughout(c, Run(c, db, content, batches[0]), KvCommit(kv, TxOfBatch(c, db, content, batches[0])),
                        content, batches[1..]))
  }

  /** The adapter holds what the in-memory database holds, after every commit. */
  ghost predicate SameThroughout<X(!new)>(c: Codec<X>, db: Db<X>, kv: KvDb, content: Hash -> seq<byte>,
                                          batches: seq<Batch<X>>)
    requires LegalBatches(c, db, content, batches)
    decreases |batches|
  {
    && kv == KvOf(db.col)
    && (batches == [] ||
        SameThroughout(c, Run(c, db, content, batches[0]), KvCommit(kv, TxOfBatch(c, db, content, batches[0])),
                       content, batches[1..]))
  }

  /** The transaction fits the counts that the stored bodies give. */
  ghost predicate CountsFit<X>(db: Db<X>, tx: seq<Change>) {
    forall h :: CountFits(Total(db.stored, h), tx, h)
  }

  ghost predicate BatchFits<X>(db: Db<X>, tx: seq<Change>) {
    forall h :: Fits(Total(db.stored, h), tx, h)
  }

  /** Every commit's transaction fits what is stored before it. */
  ghost predicate AllCountsFit<X(!new)>(c: Codec<X>, db: Db<X>, content: Hash -> seq<byte>, batches: seq<Batch<X>>)
    requires LegalBatches(c, db, content, batches)
    decreases |batches|
  {
    batches == [] ||
    (&& CountsFit(db, TxOfBatch(c, db, content, batches[0]))
     && AllCountsFit(c, Run(c, db, content, batches[0]), content, batches[1..]))
  }

  ghost predicate AllFit<X(!new)>(c: Codec<X>, db: Db<X>, content: Hash -> seq<byte>, batches: seq<Batch<X>>)
    requires LegalBatches(c, db, content, batches)
    decreases |batches|
  {
    batches == [] ||
    (&& BatchFits(db, TxOfBatch(c, db, content, batches[0]))
     && AllFit(c, Run(c, db, content, batches[0]), content, batches[1..]))
  }

  lemma CountsOf<X(!new)>(c: Codec<X>, db: Db<X>, content: Hash -> seq<byte>)
    requires Inv(c, db, content)
    ensures Counted(db.col) && (forall h :: h in db.col ==> db.col[h].data == content(h))
    ensures forall h :: Count(db.col, h) == Total(db.stored, h)
  {
    hide Faithful, Total;
  }

  /** One commit on an adapter with the right counts. */
  lemma BatchCounts<X(!new)>(c: Codec<X>, db: Db<X>, kv: KvDb, content: Hash -> seq<byte>, batch: Batch<X>)
    requires Lawful(c) && Inv(c, db, content) && LegalRun(c, db, content, batch)
    requires KvCounted(kv) && Exact(db, kv)
    ensures var tx := TxOfBatch(c, db, content, batch);
            && KvCounted(KvCommit(kv, tx))
            && (Exact(Run(c, db, content, batch), KvCommit(kv, tx)) <==> CountsFit(db, tx))
  {
    hide Inv, Lawful, LegalRun, Run, TxOfBatch, MemCommit, KvCommit, Grounded, CountFits, Total, Counted, KvCounted;
    var tx, db' := TxOfBatch(c, db, content, batch), Run(c, db, content, batch);
    BatchIsRun(c, db, content, batch);
    CountsOf(c, db, content);
    CountsOf(c, db', content);
    KvCommitCounted(kv, tx);
    forall h
      ensures KvCount(KvCommit(kv, tx), h) == Total(db'.stored, h) <==> CountFits(Total(db.stored, h), tx, h)
    {
      assert KvCount(kv, h) == Total(db.stored, h);
      CountsRightIff(db.col, kv, tx, h);
    }
    if CountsFit(db, tx) {
      forall h ensures KvCount(KvCommit(kv, tx), h) == Total(db'.stored, h) {
        assert CountFits(Total(db.stored, h), tx, h);
      }
    }
    if Exact(db', KvCommit(kv, tx)) {
      forall h ensures CountFits(Total(db.stored, h), tx, h) {
        assert KvCount(KvCommit(kv, tx), h) == Total(db'.stored, h);
      }
    }
  }

  lemma {:induction false} CountsRun<X(!new)>(c: Codec<X>, db: Db<X>, kv: KvDb, content: Hash -> seq<byte>,
                                              batches: seq<Batch<X>>)
    requires Lawful(c) && Inv(c, db, content) && LegalBatches(c, db, content, batches)
    requires KvCounted(kv) && Exact(db, kv)
    ensures ExactThroughout(c, db, kv, content, batches) <==> AllCountsFit(c, db, content, batches)
    decreases |batches|
  {
    hide Inv, Lawful, Consistent, Run, TxOfBatch, KvCommit, CountsFit, KvCounted, Exact;
    if batches != [] {
      var db' := Run(c, db, content, batches[0]);
      var kv' := KvCommit(kv, TxOfBatch(c, db, content, batches[0]));
      BatchCounts(c, db, kv, content, batches[0]);
      BatchIsRun(c, db, content, batches[0]);
      if Exact(db', kv') {
        CountsRun(c, db', kv', content, batches[1..]);
      } else {
        assert !ExactThroughout(c, db', kv', content, batches[1..]);
      }
    }
  }

  /** One commit on an adapter that holds the same. */
  lemma BatchSame<X(!new)>(c: Codec<X>, db: Db<X>, content: Hash -> seq<byte>, batch: Batch<X>)
    requires Lawful(c) && Inv(c, db, content) && LegalRun(c, db, content, batch)
    ensures var tx := TxOfBatch(c, db, content, batch);
            KvCommit(KvOf(db.col), tx) == KvOf(Run(c, db, content, batch).col) <==> BatchFits(db, tx)
  {
    hide Inv, Lawful, LegalRun, Run, TxOfBatch, KvCommit, KvOf, Fits, Total, MemCommit, Grounded, Counted;
    var tx := TxOfBatch(c, db, content, batch);
    BatchIsRun(c, db, content, batch);
    CountsOf(c, db, content);
    AdapterAgreesExactly(db.col, tx, content);
    if BatchFits(db, tx) {
      forall h ensures Fits(Count(db.col, h), tx, h) { assert Fits(Total(db.stored, h), tx, h); }
    }
    if forall h :: Fits(Count(db.col, h), tx, h) {
      forall h ensures Fits(Total(db.stored, h), tx, h) { assert Fits(Count(db.col, h), tx, h); }
    }
  }

  lemma {:induction false} SameRun<X(!new)>(c: Codec<X>, db: Db<X>, content: Hash -> seq<byte>, batches: seq<Batch<X>>)
    requires Lawful(c) && Inv(c, db, content) && LegalBatches(c, db, content, batches)
    ensures SameThroughout(c, db, KvOf(db.col), content, batches) <==> AllFit(c, db, content, batches)
    ensures AllFit(c, db, content, batches) ==>
              KvRun(c, db, KvOf(db.col), content, batches) == KvOf(RunBatches(c, db, content, batches).col)
    ensures Inv(c, RunBatches(c, db, content, batches), content)
    decreases |batches|
  {
    hide Inv, Lawful, Consistent, Run, TxOfBatch, KvCommit, KvOf, BatchFits;
    if batches != [] {
      var db', tx := Run(c, db, content, batches[0]), TxOfBatch(c, db, content, batches[0]);
      var kv' := KvCommit(KvOf(db.col), tx);
      BatchIsRun(c, db, content, batches[0]);
      BatchSame(c, db, content, batches[0]);
      SameRun(c, db', content, batches[1..]);
      if kv' != KvOf(db'.col) {
        assert !SameThroughout(c, db', kv', content, batches[1..]);
      }
    }
  }

  lemma EmptyOk<X(!new)>(c: Codec<X>, content: Hash -> seq<byte>)
    ensures Inv(c, Db(map[], []), content) && Exact(Db<X>.Db(map[], []), KvDb(map[], map[]))
    ensures KvCounted(KvDb(map[], map[])) && KvOf(map[]) == KvDb(map[], map[])
  {
  }

  /** Over any run of commits, each any mix of imports and prunings, the adapter's reference
      counts equal the entries of the stored bodies after every commit if and only if, in every
      commit and for every hash, the net change is what the last change naming it makes. */
  lemma AdapterCountsIff<X(!new)>(c: Codec<X>, content: Hash -> seq<byte>, batches: seq<Batch<X>>)
    requires Lawful(c) && LegalBatches(c, Db(map[], []), content, batches)
    ensures ExactThroughout(c, Db(map[], []), KvDb(map[], map[]), content, batches) <==>
              AllCountsFit(c, Db(map[], []), content, batches)
  {
    hide Lawful, Inv, LegalBatches, ExactThroughout, AllCountsFit, Exact, KvCounted;
    EmptyOk(c, content);
    CountsRun(c, Db(map[], []), KvDb(map[], map[]), content, batches);
  }

  /** ...and it holds what the in-memory database holds, counts and values, so that every stored
      body reads back, if and only if moreover no commit releases a hash with one reference and
      then takes it up again. */
  lemma AdapterHoldsIff<X(!new)>(c: Codec<X>, content: Hash -> seq<byte>, batches: seq<Batch<X>>)
    requires Lawful(c) && LegalBatches(c, Db(map[], []), content, batches)
    ensures SameThroughout(c, Db(map[], []), KvDb(map[], map[]), content, batches) <==>
              AllFit(c, Db(map[], []), content, batches)
    ensures var db := RunBatches(c, Db(map[], []), content, batches);
            && (AllFit(c, Db(map[], []), content, batches) ==>
                  KvRun(c, Db(map[], []), KvDb(map[], map[]), content, batches) == KvOf(db.col))
            && (forall i :: 0 <= i < |db.stored| ==>
                  ReadBody(c, db.col, db.stored[i].index) == Ok(db.stored[i].body))
  {
    hide Lawful, Inv, LegalBatches, SameThroughout, AllFit, RunBatches, KvRun, ReadBody;
    EmptyOk(c, content);
    SameRun(c, Db(map[], []), content, batches);
    var db := RunBatches(c, Db(map[], []), content, batches);
    forall i | 0 <= i < |db.stored|
      ensures ReadBody(c, db.col, db.stored[i].index) == Ok(db.stored[i].body)
    {
      ReadsAll(c, db, content, i);
    }
  }

  // ---- commits of one kind ----

  /** A commit of imports only, or of prunings only, fits exactly when it names no hash twice. */
  lemma OneKindFitsIff(col: Column, tx: seq<Change>, content: Hash -> seq<byte>)
    requires Counted(col) && (Adds(tx, col) || Releases(tx, col)) && StoresContent(tx, content)
    requires forall h :: h in col ==> col[h].data == content(h)
    ensures (forall h :: Fits(Count(col, h), tx, h)) <==> AtMostOnce(tx)
  {
    hide MemCommit, KvCommit, KvOf, Fits, Grounded, AtMostOnce;
    if Adds(tx, col) { AddsGrounded(col, tx); } else { ReleasesGrounded(col, tx); }
    AdapterAgreesExactly(col, tx, content);
    AdapterAgreesIff(col, tx);
  }

  // ---- cases ----

  /** A commit of two operations. */
  lemma CommitOfTwo<X(!new)>(c: Codec<X>, db: Db<X>, content: Hash -> seq<byte>, o: Op<X>, p: Op<X>)
    requires Legal(c, db, content, o) && Legal(c, Apply(c, db, content, o), content, p)
    ensures LegalRun(c, db, content, [o, p])
    ensures Run(c, db, content, [o, p]) == Apply(c, Apply(c, db, content, o), content, p)
    ensures TxOfBatch(c, db, content, [o, p]) == TxOf(c, db, o) + TxOf(c, Apply(c, db, content, o), p)
  {
    hide Apply, TxOf, Consistent;
    var db1 := Apply(c, db, content, o);
    var db2 := Apply(c, db1, content, p);
    assert [o, p][1..] == [p] && [p][1..] == [];
    assert LegalRun(c, db2, content, []) && Run(c, db2, content, []) == db2 && TxOfBatch(c, db2, content, []) == [];
    assert LegalRun(c, db1, content, [p]) && Run(c, db1, content, [p]) == db2;
    assert TxOfBatch(c, db1, content, [p]) == TxOf(c, db1, p);
  }

  /** Finalising past two blocks that name `h` once each, in one commit, releases it twice; the
      adapter keeps a reference that no body has. */
  lemma TwoPruningsReleaseTwice<X(!new)>(c: Codec<X>, content: Hash -> seq<byte>, h: Hash, a: Stored<X>, b: Stored<X>,
                                         header: seq<byte>)
    requires a.index == [Indexed(h, header)] && b.index == [Indexed(h, header)]
    ensures var db := Db(map[h := Entry(2, content(h))], [a, b]);
            var batch := [Op<X>.Prune(0), Op<X>.Prune(0)];
            && (Faithful(c, a, content) && Faithful(c, b, content) ==> Inv(c, db, content))
            && LegalRun(c, db, content, batch) && TxOfBatch(c, db, content, batch) == [Release(h), Release(h)]
            && Run(c, db, content, batch).stored == []
            && KvCount(KvCommit(KvOf(db.col), TxOfBatch(c, db, content, batch)), h) == 1
  {
    hide KvCommit, KvOf, Faithful, Inv, LegalRun, Run, TxOfBatch;
    var db := Db(map[h := Entry(2, content(h))], [a, b]);
    TwoBodies(c, content, h, a, b, header);
    OneEntry(a.index, h, header);
    assert PruneBody(db, 0).stored == [b];
    CommitOfTwo(c, db, content, Op<X>.Prune(0), Op<X>.Prune(0));
    AdapterKeepsReleased(h, content(h));
  }

  /** Importing a final block that renews `h` while the only other body naming it is pruned: the
      adapter loses what the new block names. */
  lemma RenewalWithPruning<X(!new)>(c: Codec<X>, content: Hash -> seq<byte>, h: Hash, a: Stored<X>,
                                    header: seq<byte>, y: X)
    requires a.index == [Indexed(h, header)]
    ensures var db := Db(map[h := Entry(1, content(h))], [a]);
            var batch := [Op<X>.Import([y], [Renew(0, h)]), Op<X>.Prune(0)];
            && (Faithful(c, a, content) ==> Inv(c, db, content))
            && LegalRun(c, db, content, batch) && TxOfBatch(c, db, content, batch) == [Reference(h), Release(h)]
            && Total(Run(c, db, content, batch).stored, h) == 1
            && h !in KvCommit(KvOf(db.col), TxOfBatch(c, db, content, batch)).values
  {
    hide KvCommit, KvOf, Faithful, Inv, LegalRun, Run, TxOfBatch, Total;
    var iops := [Renew(0, h)];
    var db := Db(map[h := Entry(1, content(h))], [a]);
    OneBody(c, content, h, a, header);
    OneEntry(a.index, h, header);
    OneRenewed(c, h, y);
    hide IndexBody, Renewals, Inserts;
    var added := Stored(IndexBody(c, [y], Inserts(iops), Renewals(iops)).1, [y]);
    var db1 := ImportBody(c, db, [y], iops);
    assert db1.stored == [a, added] && PruneBody(db1, 0).stored == [added];
    CountOne(added, h, h);
    CommitOfTwo(c, db, content, Op<X>.Import([y], iops), Op<X>.Prune(0));
    AdapterLosesRenewed(h, content(h));
  }

  /** The databases of the two cases are good ones. */
  lemma OneBody<X(!new)>(c: Codec<X>, content: Hash -> seq<byte>, h: Hash, a: Stored<X>, header: seq<byte>)
    requires a.index == [Indexed(h, header)]
    ensures Faithful(c, a, content) ==> Inv(c, Db(map[h := Entry(1, content(h))], [a]), content)
  {
    hide Faithful, Total;
    var db := Db(map[h := Entry(1, content(h))], [a]);
    forall g ensures Count(db.col, g) == Total(db.stored, g) { CountOne(a, h, g); }
  }

  lemma TwoBodies<X(!new)>(c: Codec<X>, content: Hash -> seq<byte>, h: Hash, a: Stored<X>, b: Stored<X>,
                           header: seq<byte>)
    requires a.index == [Indexed(h, header)] && b.index == [Indexed(h, header)]
    ensures Faithful(c, a, content) && Faithful(c, b, content) ==>
              Inv(c, Db(map[h := Entry(2, content(h))], [a, b]), content)
  {
    hide Faithful, Total;
    var db := Db(map[h := Entry(2, content(h))], [a, b]);
    assert [a] + [b] == [a, b];
    forall g ensures Count(db.col, g) == Total(db.stored, g) {
      TotalConcat([a], [b], g);
      CountOne(a, h, g);
      CountOne(b, h, g);
    }
  }

  lemma CountOne<X>(a: Stored<X>, h: Hash, g: Hash)
    requires |a.index| == 1 && a.index[0].Indexed? && a.index[0].hash == h
    ensures Total([a], g) == if g == h then 1 else 0
  {
    assert [a][..0] == [] && a.index[..0] == [];
    assert Total([a][..0], g) == 0 && Mentions(a.index[..0], g) == 0;
  }

  /** What importing one renewed extrinsic adds. */
  lemma OneRenewed<X>(c: Codec<X>, h: Hash, y: X)
    ensures var iops := [Renew(0, h)];
            var (tx, index) := IndexBody(c, [y], Inserts(iops), Renewals(iops));
            && Renewals(iops) == map[0 := h] && Inserts(iops) == map[]
            && tx == [Reference(h)] && |index| == 1 && index[0].Indexed? && index[0].hash == h
  {
    var iops := [Renew(0, h)];
    assert iops[..0] == [] && Renewals(iops[..0]) == map[] && Inserts(iops[..0]) == map[];
    assert [y][..0] == [] && IndexBody(c, [], Inserts(iops), Renewals(iops)) == ([], []);
  }

  lemma OneEntry<X>(index: seq<DbExtrinsic<X>>, h: Hash, header: seq<byte>)
    requires index == [Indexed(h, header)]
    ensures PruneTx(index) == [Release(h)]
  {
    assert index[..0] == [];
    assert PruneTx(index[..0]) == [];
  }
}
