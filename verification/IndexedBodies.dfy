/** Block bodies stored with indexed extrinsics: the indexed part of an extrinsic lives in the
    reference-counted transaction column, shared between blocks, and the block keeps the rest.
    Covers writing (`apply_index_ops`), reading (`body_uncached`), pruning and whole runs. */
module IndexedBodies {
  import opened Types
  import opened JoinedInput
  import opened RefCountedColumn

  /** How extrinsics are encoded. `steps` bounds the requests the decoder makes on an input. */
  datatype Codec<!X> = Codec(encode: X -> seq<byte>, decoder: Decoder<X>, steps: seq<byte> -> nat)

  /** Decoding an encoding gives the value back, whatever bytes follow it. */
  ghost predicate Lawful<X(!new)>(c: Codec<X>) {
    forall x: X, rest: seq<byte> :: DecodeFrom(c, c.encode(x) + rest) == Decoded(x)
  }

  function DecodeFrom<X>(c: Codec<X>, input: seq<byte>): JoinedInput.Outcome<X> {
    RunPlain(c.decoder, input, [], c.steps(input))
  }

  datatype IndexOp = Insert(extrinsic: nat, hash: Hash, size: nat) | Renew(extrinsic: nat, hash: Hash)

  datatype DbExtrinsic<X> = Indexed(hash: Hash, header: seq<byte>) | Full(extrinsic: X)

  // ---- writing ----

  /** The last insertion given for each extrinsic. */
  function Inserts(ops: seq<IndexOp>): map<nat, (Hash, nat)> {
    if ops == [] then map[]
    else
      match ops[|ops| - 1]
      case Insert(e, hash, size) => Inserts(ops[..|ops| - 1])[e := (hash, size)]
      case Renew(_, _) => Inserts(ops[..|ops| - 1])
  }

  /** The last renewal given for each extrinsic. */
  function Renewals(ops: seq<IndexOp>): map<nat, Hash> {
    if ops == [] then map[]
    else
      match ops[|ops| - 1]
      case Insert(_, _, _) => Renewals(ops[..|ops| - 1])
      case Renew(e, hash) => Renewals(ops[..|ops| - 1])[e := hash]
  }

  /** How one extrinsic is stored: renewed, with its tail in the column, or in full. Renewals
      win over insertions, and an insertion longer than the extrinsic is ignored. */
  function IndexOne<X>(c: Codec<X>, x: X, i: nat, inserts: map<nat, (Hash, nat)>, renewals: map<nat, Hash>)
    : (seq<Change>, DbExtrinsic<X>)
  {
    var key := i % U32_RANGE;
    var encoded := c.encode(x);
    if key in renewals then
      ([Reference(renewals[key])], Indexed(renewals[key], encoded))
    else if key in inserts && inserts[key].1 <= |encoded| then
      var offset := |encoded| - inserts[key].1;
      ([Store(inserts[key].0, encoded[offset..])], Indexed(inserts[key].0, encoded[..offset]))
    else
      ([], Full(x))
  }

  function IndexBody<X>(c: Codec<X>, body: seq<X>, inserts: map<nat, (Hash, nat)>, renewals: map<nat, Hash>)
    : (r: (seq<Change>, seq<DbExtrinsic<X>>))
    ensures |r.1| == |body|
  {
    if body == [] then ([], [])
    else
      var n := |body| - 1;
      var (tx, index) := IndexBody(c, body[..n], inserts, renewals);
      var (tx1, ex) := IndexOne(c, body[n], n, inserts, renewals);
      (tx + tx1, index + [ex])
  }

  // ---- what the operations ask for ----

  ghost predicate LastInsert(ops: seq<IndexOp>, e: nat, j: nat) {
    && j < |ops| && ops[j].Insert? && ops[j].extrinsic == e
    && (forall k :: j < k < |ops| && ops[k].Insert? ==> ops[k].extrinsic != e)
  }

  ghost predicate LastRenew(ops: seq<IndexOp>, e: nat, j: nat) {
    && j < |ops| && ops[j].Renew? && ops[j].extrinsic == e
    && (forall k :: j < k < |ops| && ops[k].Renew? ==> ops[k].extrinsic != e)
  }

  ghost predicate Inserted(ops: seq<IndexOp>, e: nat) {
    exists j :: 0 <= j < |ops| && ops[j].Insert? && ops[j].extrinsic == e
  }

  ghost predicate Renewed(ops: seq<IndexOp>, e: nat) {
    exists j :: 0 <= j < |ops| && ops[j].Renew? && ops[j].extrinsic == e
  }

  /** What the operations ask for extrinsic `x` with number `e`: the changes and the entry. The
      last renewal wins, then the last insertion: its tail goes under the hash and the rest into
      the entry, if the extrinsic is that long. */
  ghost predicate AsAsked<X>(c: Codec<X>, x: X, e: nat, ops: seq<IndexOp>, tx: seq<Change>, ex: DbExtrinsic<X>) {
    && (forall j: nat :: LastRenew(ops, e, j) ==>
          tx == [Reference(ops[j].hash)] && ex == Indexed(ops[j].hash, c.encode(x)))
    && (!Renewed(ops, e) ==>
          forall j: nat :: LastInsert(ops, e, j) ==>
            if ops[j].size <= |c.encode(x)| then
              var rest := |c.encode(x)| - ops[j].size;
              && tx == [Store(ops[j].hash, c.encode(x)[rest..])]
              && ex == Indexed(ops[j].hash, c.encode(x)[..rest])
            else
              tx == [] && ex == Full(x))
    && (!Renewed(ops, e) && !Inserted(ops, e) ==> tx == [] && ex == Full(x))
  }

  function Flat(parts: seq<seq<Change>>): seq<Change> {
    if parts == [] then [] else Flat(parts[..|parts| - 1]) + parts[|parts| - 1]
  }

  ghost predicate PartsAsAsked<X>(c: Codec<X>, body: seq<X>, ops: seq<IndexOp>, parts: seq<seq<Change>>,
                                  index: seq<DbExtrinsic<X>>)
  {
    && |parts| == |body| == |index|
    && (forall i :: 0 <= i < |body| ==> AsAsked(c, body[i], i % U32_RANGE, ops, parts[i], index[i]))
  }

  /** The whole body is stored as asked: nothing is missing and nothing is added. */
  ghost predicate BodyAsAsked<X>(c: Codec<X>, body: seq<X>, ops: seq<IndexOp>, tx: seq<Change>,
                                 index: seq<DbExtrinsic<X>>)
  {
    exists parts :: tx == Flat(parts) && PartsAsAsked(c, body, ops, parts, index)
  }

  lemma {:induction false} InsertsHas(ops: seq<IndexOp>, e: nat)
    ensures e in Inserts(ops) <==> Inserted(ops, e)
  {
    if ops != [] {
      var n := |ops| - 1;
      var front := ops[..n];
      InsertsHas(front, e);
      if Inserted(front, e) {
        var j :| 0 <= j < n && front[j].Insert? && front[j].extrinsic == e;
        assert ops[j].Insert?;
      }
      if Inserted(ops, e) && !(ops[n].Insert? && ops[n].extrinsic == e) {
        var j :| 0 <= j < |ops| && ops[j].Insert? && ops[j].extrinsic == e;
        assert front[j].Insert?;
      }
    }
  }

  lemma {:induction false} InsertsLast(ops: seq<IndexOp>, e: nat, j: nat)
    requires LastInsert(ops, e, j)
    ensures e in Inserts(ops) && Inserts(ops)[e] == (ops[j].hash, ops[j].size)
  {
    var n := |ops| - 1;
    if j < n {
      assert ops[..n][j] == ops[j];
      InsertsLast(ops[..n], e, j);
    }
  }

  lemma {:induction false} RenewalsHas(ops: seq<IndexOp>, e: nat)
    ensures e in Renewals(ops) <==> Renewed(ops, e)
  {
    if ops != [] {
      var n := |ops| - 1;
      var front := ops[..n];
      RenewalsHas(front, e);
      if Renewed(front, e) {
        var j :| 0 <= j < n && front[j].Renew? && front[j].extrinsic == e;
        assert ops[j].Renew?;
      }
      if Renewed(ops, e) && !(ops[n].Renew? && ops[n].extrinsic == e) {
        var j :| 0 <= j < |ops| && ops[j].Renew? && ops[j].extrinsic == e;
        assert front[j].Renew?;
      }
    }
  }

  lemma {:induction false} RenewalsLast(ops: seq<IndexOp>, e: nat, j: nat)
    requires LastRenew(ops, e, j)
    ensures e in Renewals(ops) && Renewals(ops)[e] == ops[j].hash
  {
    var n := |ops| - 1;
    if j < n {
      assert ops[..n][j] == ops[j];
      RenewalsLast(ops[..n], e, j);
    }
  }

  lemma OneAsAsked<X>(c: Codec<X>, x: X, i: nat, ops: seq<IndexOp>)
    ensures var (tx, ex) := IndexOne(c, x, i, Inserts(ops), Renewals(ops));
            AsAsked(c, x, i % U32_RANGE, ops, tx, ex)
  {
    hide Inserted, Renewed, Inserts, Renewals;
    var e := i % U32_RANGE;
    InsertsHas(ops, e);
    RenewalsHas(ops, e);
    forall j: nat | LastInsert(ops, e, j) ensures e in Inserts(ops) && Inserts(ops)[e] == (ops[j].hash, ops[j].size) {
      InsertsLast(ops, e, j);
    }
    forall j: nat | LastRenew(ops, e, j) ensures e in Renewals(ops) && Renewals(ops)[e] == ops[j].hash {
      RenewalsLast(ops, e, j);
    }
  }

  lemma {:induction false} PartsOf<X>(c: Codec<X>, body: seq<X>, ops: seq<IndexOp>) returns (parts: seq<seq<Change>>)
    ensures var (tx, index) := IndexBody(c, body, Inserts(ops), Renewals(ops));
            tx == Flat(parts) && PartsAsAsked(c, body, ops, parts, index)
  {
    hide AsAsked, IndexOne, Inserts, Renewals;
    if body == [] {
      parts := [];
    } else {
      var n := |body| - 1;
      var front := PartsOf(c, body[..n], ops);
      var (tx1, ex) := IndexOne(c, body[n], n, Inserts(ops), Renewals(ops));
      OneAsAsked(c, body[n], n, ops);
      parts := front + [tx1];
      assert parts[..n] == front;
    }
  }

  /** `IndexBody` is what the operations ask for. */
  lemma IndexBodyAsAsked<X>(c: Codec<X>, body: seq<X>, ops: seq<IndexOp>)
    ensures var (tx, index) := IndexBody(c, body, Inserts(ops), Renewals(ops));
            BodyAsAsked(c, body, ops, tx, index)
  {
    var parts := PartsOf(c, body, ops);
  }

  method ApplyIndexOps<X>(c: Codec<X>, body: seq<X>, ops: seq<IndexOp>)
    returns (tx: seq<Change>, extrinsicIndex: seq<DbExtrinsic<X>>)
    ensures (tx, extrinsicIndex) == IndexBody(c, body, Inserts(ops), Renewals(ops))
    ensures BodyAsAsked(c, body, ops, tx, extrinsicIndex)
  {
    hide BodyAsAsked;
    IndexBodyAsAsked(c, body, ops);
    var indexMap: map<nat, (Hash, nat)> := map[];
    var renewedMap: map<nat, Hash> := map[];
    var j := 0;
    while j < |ops|
      invariant 0 <= j <= |ops|
      invariant indexMap == Inserts(ops[..j]) && renewedMap == Renewals(ops[..j])
    {
      assert ops[..j + 1][..j] == ops[..j];
      match ops[j] {
        case Insert(e, hash, size) => indexMap := indexMap[e := (hash, size)];
        case Renew(e, hash) => renewedMap := renewedMap[e := hash];
      }
      j := j + 1;
    }
    assert ops[..j] == ops;
    tx := [];
    extrinsicIndex := [];
    var i := 0;
    while i < |body|
      invariant 0 <= i <= |body|
      invariant (tx, extrinsicIndex) == IndexBody(c, body[..i], indexMap, renewedMap)
    {
      assert body[..i + 1][..i] == body[..i];
      var key := i % U32_RANGE;
      var encoded := c.encode(body[i]);
      if key in renewedMap {
        tx := tx + [Reference(renewedMap[key])];
        extrinsicIndex := extrinsicIndex + [Indexed(renewedMap[key], encoded)];
      } else if key in indexMap && indexMap[key].1 <= |encoded| {
        var (hash, size) := indexMap[key];
        var offset := |encoded| - size;
        tx := tx + [Store(hash, encoded[offset..])];
        extrinsicIndex := extrinsicIndex + [Indexed(hash, encoded[..offset])];
      } else {
        extrinsicIndex := extrinsicIndex + [Full(body[i])];
        assert tx + [] == tx;
      }
      i := i + 1;
    }
    assert body[..i] == body;
  }

  // ---- reading ----

  datatype ReadError = MissingTransaction(hash: Hash) | DecodingFailed

  function ReadOne<X>(c: Codec<X>, col: Column, ex: DbExtrinsic<X>): Result<X, ReadError> {
    match ex
    case Full(x) => Ok(x)
    case Indexed(hash, header) =>
      if hash !in col then Err(MissingTransaction(hash))
      else
        match DecodeFrom(c, header + col[hash].data)
        case Decoded(x) => Ok(x)
        case Failed => Err(DecodingFailed)
        case Unfinished => Err(DecodingFailed)
  }

  function ReadBody<X>(c: Codec<X>, col: Column, index: seq<DbExtrinsic<X>>): Result<seq<X>, ReadError> {
    if index == [] then Ok([])
    else
      match ReadBody(c, col, index[..|index| - 1])
      case Err(e) => Err(e)
      case Ok(xs) =>
        match ReadOne(c, col, index[|index| - 1])
        case Err(e) => Err(e)
        case Ok(x) => Ok(xs + [x])
  }

  lemma {:induction false} ReadBodyFails<X>(c: Codec<X>, col: Column, index: seq<DbExtrinsic<X>>, i: nat)
    requires i < |index| && ReadBody(c, col, index[..i]).Ok? && ReadOne(c, col, index[i]).Err?
    ensures ReadBody(c, col, index) == Err(ReadOne(c, col, index[i]).error)
    decreases |index|
  {
    var n := |index| - 1;
    if i < n {
      assert index[..n][..i] == index[..i];
      ReadBodyFails(c, col, index[..n], i);
    }
  }

  /** An entry stands for `x`: it is stored in full, or its header and the data under its hash
      decode to it. */
  ghost predicate Gives<X>(c: Codec<X>, col: Column, ex: DbExtrinsic<X>, x: X) {
    match ex
    case Full(y) => x == y
    case Indexed(hash, header) => hash in col && DecodeFrom(c, header + col[hash].data) == Decoded(x)
  }

  /** An entry stands for nothing, and this is the error. */
  ghost predicate Lost<X>(c: Codec<X>, col: Column, ex: DbExtrinsic<X>, e: ReadError) {
    && ex.Indexed?
    && (if ex.hash !in col then e == MissingTransaction(ex.hash)
        else !DecodeFrom(c, ex.header + col[ex.hash].data).Decoded? && e == DecodingFailed)
  }

  /** A body reads as what its entries stand for, or gives the error of the first that stands
      for nothing. */
  lemma {:induction false} ReadBodyMeans<X>(c: Codec<X>, col: Column, index: seq<DbExtrinsic<X>>) returns (i: nat)
    ensures var r := ReadBody(c, col, index);
            && i <= |index| && (r.Ok? <==> i == |index|)
            && (r.Ok? ==> |r.value| == |index| && forall j :: 0 <= j < |index| ==> Gives(c, col, index[j], r.value[j]))
            && (r.Err? ==> Lost(c, col, index[i], r.error) && ReadBody(c, col, index[..i]).Ok?)
  {
    if index == [] {
      i := 0;
    } else {
      var n := |index| - 1;
      i := ReadBodyMeans(c, col, index[..n]);
      if i == n {
        if ReadOne(c, col, index[n]).Ok? { i := n + 1; }
      } else {
        assert index[..n][..i] == index[..i];
      }
    }
  }

  /** The indexed branch of `body_uncached`: each extrinsic is decoded from its header joined
      with the stored data. */
  method BodyUncached<X>(c: Codec<X>, col: Column, index: seq<DbExtrinsic<X>>) returns (r: Result<seq<X>, ReadError>)
    ensures r == ReadBody(c, col, index)
  {
    var body: seq<X> := [];
    var i := 0;
    while i < |index|
      invariant 0 <= i <= |index|
      invariant ReadBody(c, col, index[..i]) == Ok(body)
    {
      assert index[..i + 1][..i] == index[..i];
      match index[i] {
        case Full(x) => body := body + [x];
        case Indexed(hash, header) =>
          if hash !in col {
            ReadBodyFails(c, col, index, i);
            return Err(MissingTransaction(hash));
          }
          var input := new JoinInput(header, col[hash].data);
          var out := RunJoined(c.decoder, input, c.steps(header + col[hash].data));
          if !out.Decoded? {
            ReadBodyFails(c, col, index, i);
            return Err(DecodingFailed);
          }
          body := body + [out.value];
      }
      i := i + 1;
    }
    assert index[..i] == index;
    return Ok(body);
  }

  // ---- the round trip ----

  /** A hash determines its content: what is stored under it, and what any insertion of this
      body would store. Renewed hashes are stored. */
  ghost predicate Consistent<X>(c: Codec<X>, body: seq<X>, ops: seq<IndexOp>, col: Column, content: Hash -> seq<byte>) {
    && (forall h :: h in col ==> col[h].data == content(h))
    && (forall i: nat ::
          i < |body| && i % U32_RANGE in Renewals(ops) ==> Renewals(ops)[i % U32_RANGE] in col)
    && (forall i: nat ::
          i < |body| && i % U32_RANGE !in Renewals(ops) && i % U32_RANGE in Inserts(ops) ==>
            var (hash, size) := Inserts(ops)[i % U32_RANGE];
            var encoded := c.encode(body[i]);
            size <= |encoded| ==> encoded[|encoded| - size..] == content(hash))
  }

  /** Reading one stored extrinsic gives it back, from any column that holds what its entry
      names with the right content. */
  lemma ReadIndexed<X(!new)>(c: Codec<X>, body: seq<X>, ops: seq<IndexOp>, col: Column, content: Hash -> seq<byte>,
                             i: nat, col': Column)
    requires Lawful(c) && Consistent(c, body, ops, col, content) && i < |body|
    requires var ex := IndexOne(c, body[i], i, Inserts(ops), Renewals(ops)).1;
             ex.Indexed? ==> ex.hash in col' && col'[ex.hash].data == content(ex.hash)
    ensures ReadOne(c, col', IndexOne(c, body[i], i, Inserts(ops), Renewals(ops)).1) == Ok(body[i])
  {
    var encoded := c.encode(body[i]);
    var key := i % U32_RANGE;
    if key in Renewals(ops) {
      assert DecodeFrom(c, encoded + content(Renewals(ops)[key])) == Decoded(body[i]);
    } else if key in Inserts(ops) && Inserts(ops)[key].1 <= |encoded| {
      var offset := |encoded| - Inserts(ops)[key].1;
      assert encoded[..offset] + encoded[offset..] == encoded + [];
      assert DecodeFrom(c, encoded + []) == Decoded(body[i]);
    }
  }

  // ---- counting ----

  /** How many entries of a stored body name `h`. */
  function Mentions<X>(index: seq<DbExtrinsic<X>>, h: Hash): nat {
    if index == [] then 0
    else
      var last := index[|index| - 1];
      Mentions(index[..|index| - 1], h) + if last.Indexed? && last.hash == h then 1 else 0
  }

  lemma {:induction false} MentionedIsCounted<X>(index: seq<DbExtrinsic<X>>, i: nat)
    requires i < |index| && index[i].Indexed?
    ensures Mentions(index, index[i].hash) > 0
  {
    if i < |index| - 1 {
      MentionedIsCounted(index[..|index| - 1], i);
    }
  }

  /** Writing a body names each hash as often as its entries do. */
  lemma {:induction false} IndexBodySpec<X>(c: Codec<X>, body: seq<X>, inserts: map<nat, (Hash, nat)>,
                                            renewals: map<nat, Hash>)
    ensures var (tx, index) := IndexBody(c, body, inserts, renewals);
            && (forall h :: Naming(tx, h) == Mentions(index, h))
            && (forall i :: 0 <= i < |body| ==> index[i] == IndexOne(c, body[i], i, inserts, renewals).1)
  {
    hide Naming, Mentions;
    if body == [] {
      forall h ensures Naming([], h) == 0 && Mentions<X>([], h) == 0 { NothingNamed<X>(h); }
    } else {
      var n := |body| - 1;
      var (tx, index) := IndexBody(c, body[..n], inserts, renewals);
      IndexBodySpec(c, body[..n], inserts, renewals);
      var (tx1, ex) := IndexOne(c, body[n], n, inserts, renewals);
      forall h
        ensures Naming(tx + tx1, h) == Mentions(index + [ex], h)
      {
        MentionsSnoc(index, ex, h);
        if tx1 == [] { assert tx + tx1 == tx; } else { NamingSnoc(tx, tx1[0], h); assert tx1 == [tx1[0]]; }
      }
    }
  }

  lemma NothingNamed<X>(h: Hash)
    ensures Naming([], h) == 0 && Mentions<X>([], h) == 0
  {
  }

  lemma NamingSnoc(tx: seq<Change>, change: Change, h: Hash)
    ensures Naming(tx + [change], h) == Naming(tx, h) + if change.hash == h then 1 else 0
  {
    assert (tx + [change])[..|tx|] == tx;
  }

  lemma MentionsSnoc<X>(index: seq<DbExtrinsic<X>>, ex: DbExtrinsic<X>, h: Hash)
    ensures Mentions(index + [ex], h) == Mentions(index, h) + if ex.Indexed? && ex.hash == h then 1 else 0
  {
    assert (index + [ex])[..|index|] == index;
  }

  /** ...and only adds references, to hashes that are stored. */
  lemma {:induction false} IndexBodyAdds<X>(c: Codec<X>, body: seq<X>, ops: seq<IndexOp>, col: Column,
                                            content: Hash -> seq<byte>, n: nat)
    requires Consistent(c, body, ops, col, content) && n <= |body|
    ensures var tx := IndexBody(c, body[..n], Inserts(ops), Renewals(ops)).0;
            && Adds(tx, col)
            && (forall i :: 0 <= i < |tx| && tx[i].Store? ==> tx[i].data == content(tx[i].hash))
  {
    if n > 0 {
      IndexBodyAdds(c, body, ops, col, content, n - 1);
      assert body[..n][..n - 1] == body[..n - 1];
      var tx := IndexBody(c, body[..n - 1], Inserts(ops), Renewals(ops)).0;
      var tx1 := IndexOne(c, body[n - 1], n - 1, Inserts(ops), Renewals(ops)).0;
      var key := (n - 1) % U32_RANGE;
      if key in Renewals(ops) {
        assert tx1 == [Reference(Renewals(ops)[key])];
        assert Renewals(ops)[key] in col;
      }
    }
  }

  // ---- runs ----

  /** A block's stored index, and the body it was made from. */
  datatype Stored<X> = Stored(index: seq<DbExtrinsic<X>>, body: seq<X>)

  datatype Db<X> = Db(col: Column, stored: seq<Stored<X>>)

  /** Blocks without index operations are stored as one blob and do not use the column. */
  function ImportBody<X>(c: Codec<X>, db: Db<X>, body: seq<X>, ops: seq<IndexOp>): Db<X> {
    if ops == [] then db
    else
      var (tx, index) := IndexBody(c, body, Inserts(ops), Renewals(ops));
      Db(MemCommit(db.col, tx), db.stored + [Stored(index, body)])
  }

  /** One release for every indexed entry. */
  function PruneTx<X>(index: seq<DbExtrinsic<X>>): seq<Change> {
    if index == [] then []
    else
      var last := index[|index| - 1];
      PruneTx(index[..|index| - 1]) + if last.Indexed? then [Release(last.hash)] else []
  }

  /** The loop of `prune_block` over the stored index. */
  method ReleaseIndexed<X>(index: seq<DbExtrinsic<X>>) returns (tx: seq<Change>)
    ensures tx == PruneTx(index)
  {
    tx := [];
    var i := 0;
    while i < |index|
      invariant 0 <= i <= |index|
      invariant tx == PruneTx(index[..i])
    {
      assert index[..i + 1][..i] == index[..i];
      match index[i] {
        case Indexed(hash, _) => tx := tx + [Release(hash)];
        case Full(_) => assert tx + [] == tx;
      }
      i := i + 1;
    }
    assert index[..i] == index;
  }

  function PruneBody<X>(db: Db<X>, pos: nat): Db<X>
    requires pos < |db.stored|
  {
    Db(MemCommit(db.col, PruneTx(db.stored[pos].index)), db.stored[..pos] + db.stored[pos + 1..])
  }

  /** How many entries of all stored bodies name `h`. */
  function Total<X>(stored: seq<Stored<X>>, h: Hash): nat {
    if stored == [] then 0 else Total(stored[..|stored| - 1], h) + Mentions(stored[|stored| - 1].index, h)
  }

  lemma {:induction false} TotalConcat<X>(a: seq<Stored<X>>, b: seq<Stored<X>>, h: Hash)
    ensures Total(a + b, h) == Total(a, h) + Total(b, h)
    decreases |b|
  {
    if b == [] {
      assert a + b == a;
    } else {
      TotalConcat(a, b[..|b| - 1], h);
      assert (a + b)[..|a + b| - 1] == a + b[..|b| - 1];
    }
  }

  lemma TotalAt<X>(stored: seq<Stored<X>>, pos: nat, h: Hash)
    requires pos < |stored|
    ensures Total(stored, h) == Total(stored[..pos] + stored[pos + 1..], h) + Mentions(stored[pos].index, h)
  {
    TotalConcat(stored[..pos], stored[pos + 1..], h);
    TotalConcat(stored[..pos] + [stored[pos]], stored[pos + 1..], h);
    assert stored == stored[..pos] + [stored[pos]] + stored[pos + 1..];
    assert (stored[..pos] + [stored[pos]])[..pos] == stored[..pos];
  }

  lemma {:induction false} PruneTxSpec<X>(index: seq<DbExtrinsic<X>>)
    ensures forall h :: Naming(PruneTx(index), h) == Mentions(index, h)
    ensures forall i :: 0 <= i < |PruneTx(index)| ==> PruneTx(index)[i].Release?
  {
    if index != [] {
      var front, last := index[..|index| - 1], index[|index| - 1];
      PruneTxSpec(front);
      if last.Indexed? {
        assert (PruneTx(front) + [Release(last.hash)])[..|PruneTx(front)|] == PruneTx(front);
      } else {
        assert PruneTx(front) + [] == PruneTx(front);
      }
    }
  }

  /** Each entry gives its extrinsic back when its hash holds the right content. */
  ghost predicate Faithful<X(!new)>(c: Codec<X>, st: Stored<X>, content: Hash -> seq<byte>) {
    && |st.index| == |st.body|
    && (forall i :: 0 <= i < |st.index| ==> GivesBack(c, st.index[i], st.body[i], content))
  }

  ghost predicate GivesBack<X(!new)>(c: Codec<X>, ex: DbExtrinsic<X>, x: X, content: Hash -> seq<byte>) {
    match ex
    case Full(y) => y == x
    case Indexed(hash, header) => DecodeFrom(c, header + content(hash)) == Decoded(x)
  }

  ghost predicate Inv<X(!new)>(c: Codec<X>, db: Db<X>, content: Hash -> seq<byte>) {
    && Counted(db.col)
    && (forall h :: Count(db.col, h) == Total(db.stored, h))
    && (forall h :: h in db.col ==> db.col[h].data == content(h))
    && (forall i :: 0 <= i < |db.stored| ==> Faithful(c, db.stored[i], content))
  }

  lemma ImportedIsFaithful<X(!new)>(c: Codec<X>, body: seq<X>, ops: seq<IndexOp>, col: Column,
                                    content: Hash -> seq<byte>)
    requires Lawful(c) && Consistent(c, body, ops, col, content)
    ensures Faithful(c, Stored(IndexBody(c, body, Inserts(ops), Renewals(ops)).1, body), content)
  {
    var index := IndexBody(c, body, Inserts(ops), Renewals(ops)).1;
    IndexBodySpec(c, body, Inserts(ops), Renewals(ops));
    forall i | 0 <= i < |body|
      ensures GivesBack(c, index[i], body[i], content)
    {
      if index[i].Indexed? {
        ReadIndexed(c, body, ops, col, content, i, map[index[i].hash := Entry(1, content(index[i].hash))]);
      }
    }
  }

  lemma ImportKeepsInv<X(!new)>(c: Codec<X>, db: Db<X>, content: Hash -> seq<byte>, body: seq<X>, ops: seq<IndexOp>)
    requires Lawful(c) && Inv(c, db, content) && Consistent(c, body, ops, db.col, content)
    ensures Inv(c, ImportBody(c, db, body, ops), content)
  {
    if ops != [] {
      var (tx, index) := IndexBody(c, body, Inserts(ops), Renewals(ops));
      var db' := ImportBody(c, db, body, ops);
      IndexBodySpec(c, body, Inserts(ops), Renewals(ops));
      IndexBodyAdds(c, body, ops, db.col, content, |body|);
      assert body[..|body|] == body;
      AddsCount(db.col, tx);
      ImportedIsFaithful(c, body, ops, db.col, content);
      forall h
        ensures Count(db'.col, h) == Total(db'.stored, h)
        ensures h in db'.col ==> db'.col[h].data == content(h)
      {
        TotalConcat(db.stored, [Stored(index, body)], h);
        assert [Stored(index, body)][..0] == [];
        AddsData(db.col, tx, h, content(h));
      }
    }
  }

  lemma PruneKeepsInv<X(!new)>(c: Codec<X>, db: Db<X>, content: Hash -> seq<byte>, pos: nat)
    requires Inv(c, db, content) && pos < |db.stored|
    ensures Inv(c, PruneBody(db, pos), content)
  {
    var tx := PruneTx(db.stored[pos].index);
    var db' := PruneBody(db, pos);
    PruneTxSpec(db.stored[pos].index);
    forall h
      ensures Naming(tx, h) <= Count(db.col, h)
      ensures Total(db'.stored, h) == Count(db.col, h) - Naming(tx, h)
    {
      TotalAt(db.stored, pos, h);
    }
    ReleasesCount(db.col, tx);
  }

  datatype Op<X> = Import(body: seq<X>, ops: seq<IndexOp>) | Prune(pos: nat)

  ghost predicate Legal<X(!new)>(c: Codec<X>, db: Db<X>, content: Hash -> seq<byte>, op: Op<X>) {
    match op
    case Import(body, ops) => Consistent(c, body, ops, db.col, content)
    case Prune(pos) => pos < |db.stored|
  }

  ghost function Apply<X(!new)>(c: Codec<X>, db: Db<X>, content: Hash -> seq<byte>, op: Op<X>): Db<X>
    requires Legal(c, db, content, op)
  {
    match op
    case Import(body, ops) => ImportBody(c, db, body, ops)
    case Prune(pos) => PruneBody(db, pos)
  }

  ghost predicate LegalRun<X(!new)>(c: Codec<X>, db: Db<X>, content: Hash -> seq<byte>, ops: seq<Op<X>>)
    decreases |ops|
  {
    ops == [] || (Legal(c, db, content, ops[0]) && LegalRun(c, Apply(c, db, content, ops[0]), content, ops[1..]))
  }

  ghost function Run<X(!new)>(c: Codec<X>, db: Db<X>, content: Hash -> seq<byte>, ops: seq<Op<X>>): Db<X>
    requires LegalRun(c, db, content, ops)
    decreases |ops|
  {
    if ops == [] then db else Run(c, Apply(c, db, content, ops[0]), content, ops[1..])
  }

  lemma {:induction false} RunKeepsInv<X(!new)>(c: Codec<X>, db: Db<X>, content: Hash -> seq<byte>, ops: seq<Op<X>>)
    requires Lawful(c) && Inv(c, db, content) && LegalRun(c, db, content, ops)
    ensures Inv(c, Run(c, db, content, ops), content)
    decreases |ops|
  {
    if ops != [] {
      match ops[0] {
        case Import(body, iops) => ImportKeepsInv(c, db, content, body, iops);
        case Prune(pos) => PruneKeepsInv(c, db, content, pos);
      }
      RunKeepsInv(c, Apply(c, db, content, ops[0]), content, ops[1..]);
    }
  }

  lemma {:induction false} ReadsBack<X(!new)>(c: Codec<X>, db: Db<X>, content: Hash -> seq<byte>, pos: nat, n: nat)
    requires Inv(c, db, content) && pos < |db.stored| && n <= |db.stored[pos].body|
    ensures n <= |db.stored[pos].index|
    ensures ReadBody(c, db.col, db.stored[pos].index[..n]) == Ok(db.stored[pos].body[..n])
  {
    var st := db.stored[pos];
    assert Faithful(c, st, content);
    if n > 0 {
      ReadsBack(c, db, content, pos, n - 1);
      assert st.index[..n][..n - 1] == st.index[..n - 1];
      assert st.body[..n] == st.body[..n - 1] + [st.body[n - 1]];
      assert GivesBack(c, st.index[n - 1], st.body[n - 1], content);
      if st.index[n - 1].Indexed? {
        var h := st.index[n - 1].hash;
        MentionedIsCounted(st.index, n - 1);
        TotalAt(db.stored, pos, h);
        assert Count(db.col, h) > 0;
      }
    }
  }

  /** Every stored body reads back whole. */
  lemma ReadsAll<X(!new)>(c: Codec<X>, db: Db<X>, content: Hash -> seq<byte>, pos: nat)
    requires Inv(c, db, content) && pos < |db.stored|
    ensures ReadBody(c, db.col, db.stored[pos].index) == Ok(db.stored[pos].body)
  {
    hide ReadBody;
    var st := db.stored[pos];
    assert Faithful(c, st, content);
    ReadsBack(c, db, content, pos, |st.body|);
    assert st.index[..|st.body|] == st.index && st.body[..|st.body|] == st.body;
  }

  // ---- runs and what was asked for ----

  /** The bodies with index operations that were imported and not pruned, in order. */
  function Kept<X>(ops: seq<Op<X>>, before: seq<(seq<X>, seq<IndexOp>)>): seq<(seq<X>, seq<IndexOp>)>
    decreases |ops|
  {
    if ops == [] then before
    else
      Kept(ops[1..],
           match ops[0]
           case Import(body, iops) => if iops == [] then before else before + [(body, iops)]
           case Prune(pos) => if pos < |before| then before[..pos] + before[pos + 1..] else before)
  }

  /** One stored body: the entries are those asked for, and the tails that were to be inserted
      are what their hashes stand for. */
  ghost predicate KeptAsAsked<X(!new)>(c: Codec<X>, st: Stored<X>, body: seq<X>, ops: seq<IndexOp>,
                                       content: Hash -> seq<byte>)
  {
    st.body == body && (exists tx :: BodyAsAsked(c, body, ops, tx, st.index)) && TailsAre(c, body, ops, content)
  }

  /** Operation `j` decides about extrinsic `i`, and asks to insert a tail that it has. */
  ghost predicate AsksTail<X>(c: Codec<X>, body: seq<X>, ops: seq<IndexOp>, i: nat, j: nat) {
    && i < |body| && LastInsert(ops, i % U32_RANGE, j) && !Renewed(ops, i % U32_RANGE)
    && ops[j].size <= |c.encode(body[i])|
  }

  ghost function Tail<X>(c: Codec<X>, body: seq<X>, ops: seq<IndexOp>, i: nat, j: nat): seq<byte>
    requires AsksTail(c, body, ops, i, j)
  {
    c.encode(body[i])[|c.encode(body[i])| - ops[j].size..]
  }

  /** Every inserted tail is the content of its hash. */
  ghost predicate TailsAre<X>(c: Codec<X>, body: seq<X>, ops: seq<IndexOp>, content: Hash -> seq<byte>) {
    forall i: nat, j: nat :: AsksTail(c, body, ops, i, j) ==> Tail(c, body, ops, i, j) == content(ops[j].hash)
  }

  ghost predicate AllKept<X(!new)>(c: Codec<X>, db: Db<X>, kept: seq<(seq<X>, seq<IndexOp>)>,
                                   content: Hash -> seq<byte>)
  {
    && |db.stored| == |kept|
    && (forall p :: 0 <= p < |kept| ==> KeptAsAsked(c, db.stored[p], kept[p].0, kept[p].1, content))
  }

  lemma ImportIsAsAsked<X(!new)>(c: Codec<X>, body: seq<X>, ops: seq<IndexOp>, col: Column,
                                 content: Hash -> seq<byte>)
    requires Consistent(c, body, ops, col, content)
    ensures KeptAsAsked(c, Stored(IndexBody(c, body, Inserts(ops), Renewals(ops)).1, body), body, ops, content)
  {
    hide BodyAsAsked, IndexBody, Inserts, Renewals;
    IndexBodyAsAsked(c, body, ops);
    forall i: nat, j: nat | AsksTail(c, body, ops, i, j)
      ensures Tail(c, body, ops, i, j) == content(ops[j].hash)
    {
      InsertsLast(ops, i % U32_RANGE, j);
      RenewalsHas(ops, i % U32_RANGE);
    }
  }

  lemma {:induction false} RunKeepsAsked<X(!new)>(c: Codec<X>, db: Db<X>, content: Hash -> seq<byte>, ops: seq<Op<X>>,
                                                  kept: seq<(seq<X>, seq<IndexOp>)>)
    requires LegalRun(c, db, content, ops) && AllKept(c, db, kept, content)
    ensures AllKept(c, Run(c, db, content, ops), Kept(ops, kept), content)
    decreases |ops|
  {
    hide KeptAsAsked, Consistent, MemCommit, PruneTx, IndexBody;
    if ops != [] {
      match ops[0] {
        case Import(body, iops) =>
          if iops != [] { ImportIsAsAsked(c, body, iops, db.col, content); }
          RunKeepsAsked(c, ImportBody(c, db, body, iops), content, ops[1..],
                        if iops == [] then kept else kept + [(body, iops)]);
        case Prune(pos) =>
          RunKeepsAsked(c, PruneBody(db, pos), content, ops[1..], kept[..pos] + kept[pos + 1..]);
      }
    }
  }

  /** An inserted tail is in the column while a body that inserted it is stored. */
  ghost predicate TailsHeld<X>(c: Codec<X>, col: Column, body: seq<X>, ops: seq<IndexOp>) {
    forall i: nat, j: nat :: AsksTail(c, body, ops, i, j) ==>
      ops[j].hash in col && col[ops[j].hash].data == Tail(c, body, ops, i, j)
  }

  lemma KeptTailsHeld<X(!new)>(c: Codec<X>, db: Db<X>, content: Hash -> seq<byte>, p: nat, body: seq<X>,
                               ops: seq<IndexOp>)
    requires Inv(c, db, content) && p < |db.stored| && KeptAsAsked(c, db.stored[p], body, ops, content)
    ensures TailsHeld(c, db.col, body, ops)
  {
    hide LastRenew, Renewed, Inserted, Faithful, Total, Mentions, Flat;
    var index := db.stored[p].index;
    var tx :| BodyAsAsked(c, body, ops, tx, index);
    var parts :| tx == Flat(parts) && PartsAsAsked(c, body, ops, parts, index);
    forall i: nat, j: nat | AsksTail(c, body, ops, i, j)
      ensures ops[j].hash in db.col && db.col[ops[j].hash].data == Tail(c, body, ops, i, j)
    {
      assert AsAsked(c, body[i], i % U32_RANGE, ops, parts[i], index[i]);
      MentionedIsCounted(index, i);
      TotalAt(db.stored, p, index[i].hash);
      assert Count(db.col, index[i].hash) == Total(db.stored, index[i].hash);
    }
  }

  /** Over any run of imports and prunings, the reference count of every hash is the number of
      indexed entries that name it in the bodies still stored. The bodies stored are those
      imported and not pruned; each has the entries that its operations asked for, reads back
      as the extrinsics it was imported with, for every mix of inserted, renewed, oversized and
      plain ones, and has its inserted tails in the column. */
  lemma CountsAndBodiesAreExact<X(!new)>(c: Codec<X>, content: Hash -> seq<byte>, ops: seq<Op<X>>)
    requires Lawful(c) && LegalRun(c, Db(map[], []), content, ops)
    ensures var db := Run(c, Db(map[], []), content, ops);
            var kept := Kept(ops, []);
            && (forall h :: Count(db.col, h) == Total(db.stored, h))
            && |db.stored| == |kept|
            && (forall i :: 0 <= i < |kept| ==>
                  && ReadBody(c, db.col, db.stored[i].index) == Ok(kept[i].0)
                  && (exists tx :: BodyAsAsked(c, kept[i].0, kept[i].1, tx, db.stored[i].index))
                  && TailsHeld(c, db.col, kept[i].0, kept[i].1))
  {
    var empty: Db<X> := Db(map[], []);
    assert Inv(c, empty, content);
    RunKeepsInv(c, empty, content, ops);
    RunKeepsAsked(c, empty, content, ops, []);
    hide Run, LegalRun, TailsHeld, BodyAsAsked, ReadBody, Kept, Faithful, Total, TailsAre;
    var db, kept := Run(c, empty, content, ops), Kept(ops, []);
    forall i | 0 <= i < |kept|
      ensures ReadBody(c, db.col, db.stored[i].index) == Ok(kept[i].0)
      ensures exists tx :: BodyAsAsked(c, kept[i].0, kept[i].1, tx, db.stored[i].index)
      ensures TailsHeld(c, db.col, kept[i].0, kept[i].1)
    {
      ReadsAll(c, db, content, i);
      assert KeptAsAsked(c, db.stored[i], kept[i].0, kept[i].1, content);
      KeptTailsHeld(c, db, content, i, kept[i].0, kept[i].1);
    }
  }
}
