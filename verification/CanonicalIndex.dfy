/** The number-to-hash index of the canonical chain and how a change of head rewrites it. */
module CanonicalIndex {
  import opened Types
  import opened LeafTree
  import opened BlockTree

  /** The hash that stands for "no block": the default value, all zero. */
  const DEFAULT_HASH: Hash :=
    [0, 0, 0, 0, 0, 0, 0, 0, 0, 0, 0, 0, 0, 0, 0, 0,
     0, 0, 0, 0, 0, 0, 0, 0, 0, 0, 0, 0, 0, 0, 0, 0]

  datatype Error = SetHeadTooOld | NotInFinalizedChain | NumberTooLarge | UnknownBlock(hash: Hash)

  // ---- keys ----

  /** Four bytes, most significant first. */
  function NumberKey(n: nat): (k: seq<byte>)
    requires n < U32_RANGE
    ensures |k| == 4
  {
    [n / 0x100_0000, n / 0x1_0000 % 0x100, n / 0x100 % 0x100, n % 0x100]
  }

  function NumberOfKey(k: seq<byte>): nat
    requires |k| == 4
  {
    (k[0] as int) * 0x100_0000 + (k[1] as int) * 0x1_0000 + (k[2] as int) * 0x100 + k[3]
  }

  /** Number keys round-trip, so different numbers have different keys. */
  lemma NumberKeyRoundTrip(n: nat)
    requires n < U32_RANGE
    ensures NumberOfKey(NumberKey(n)) == n
  {
    var a, b := n / 0x100, n / 0x1_0000;
    assert n == a * 0x100 + n % 0x100;
    assert a / 0x100 == b && a == b * 0x100 + a % 0x100;
    assert b / 0x100 == n / 0x100_0000;
  }

  function NumberIndexKey(n: nat): Result<seq<byte>, Error> {
    if n < U32_RANGE then Ok(NumberKey(n)) else Err(NumberTooLarge)
  }

  function LookupKey(n: nat, h: Hash): seq<byte>
    requires n < U32_RANGE
  {
    NumberKey(n) + h
  }

  /** A lookup key gives back the number and the hash it was made from. */
  lemma LookupKeyRoundTrip(n: nat, h: Hash)
    requires n < U32_RANGE
    ensures var k := LookupKey(n, h);
            |k| == 4 + |h| && NumberOfKey(k[..4]) == n && k[4..] == h
  {
    NumberKeyRoundTrip(n);
    assert LookupKey(n, h)[..4] == NumberKey(n);
  }

  // ---- transactions on the lookup column ----

  type Column = map<seq<byte>, seq<byte>>

  datatype Change = Set(key: seq<byte>, value: seq<byte>) | Delete(key: seq<byte>)

  function CommitOne(col: Column, c: Change): Column {
    match c
    case Set(k, v) => col[k := v]
    case Delete(k) => col - {k}
  }

  /** Applies the changes in order. */
  function Commit(col: Column, tx: seq<Change>): Column {
    if tx == [] then col else CommitOne(Commit(col, tx[..|tx| - 1]), tx[|tx| - 1])
  }

  lemma CommitAppend(col: Column, tx: seq<Change>, c: Change)
    ensures Commit(col, tx + [c]) == CommitOne(Commit(col, tx), c)
  {
    assert (tx + [c])[..|tx|] == tx;
  }

  /** What the index says about number `n`. */
  function Lookup(col: Column, n: nat): Option<seq<byte>>
    requires n < U32_RANGE
  {
    if NumberKey(n) in col then Some(col[NumberKey(n)]) else None
  }

  /** The index is exactly the chain of `best`: every number up to its own leads to its
      ancestor, and nothing is above. */
  ghost predicate IsChainOf(col: Column, b: Blocks, best: Hash) {
    && IsTree(b) && best in b && b[best].number < U32_RANGE
    && (forall n: nat :: n < U32_RANGE ==>
          Lookup(col, n) == if n <= b[best].number then Some(LookupKey(n, Ancestor(b, best, n))) else None)
  }

  /** The block that the index gives for number `n`: what follows the number in the entry. */
  function HashAt(col: Column, n: nat): Option<Hash>
    requires n < U32_RANGE
  {
    match Lookup(col, n)
    case Some(v) => if |v| >= 4 then Some(v[4..]) else None
    case None => None
  }

  /** Reading the index: `best` is found under its own number, below every block its parent,
      and nothing above. */
  ghost predicate IndexWalks(col: Column, b: Blocks, best: Hash) {
    && best in b && b[best].number < U32_RANGE && HashAt(col, b[best].number) == Some(best)
    && (forall n: nat :: b[best].number < n < U32_RANGE ==> HashAt(col, n) == None)
    && (forall n: nat :: n <= b[best].number ==>
          var h := HashAt(col, n);
          && h.Some? && h.value in b && b[h.value].number == n
          && (n > 0 ==> HashAt(col, n - 1) == Some(b[h.value].parent)))
  }

  lemma ChainWalks(col: Column, b: Blocks, best: Hash)
    requires IsChainOf(col, b, best)
    ensures IndexWalks(col, b, best)
  {
    hide NumberKey, LookupKey, NumberOfKey, Lookup;
    forall n: nat | n <= b[best].number
      ensures HashAt(col, n) == Some(Ancestor(b, best, n))
      ensures n > 0 ==> Ancestor(b, best, n - 1) == b[Ancestor(b, best, n)].parent
    {
      var h := Ancestor(b, best, n);
      LookupKeyRoundTrip(n, h);
      if n > 0 {
        assert ParentBelow(b, h);
        AncestorOfAncestor(b, best, n, n - 1);
        assert Ancestor(b, b[h].parent, n - 1) == b[h].parent;
      }
    }
  }

  /** Keys that are not number keys. */
  ghost predicate OtherKeysKept(col: Column, col': Column) {
    forall k :: |k| != 4 ==> (k in col <==> k in col') && (k in col ==> col'[k] == col[k])
  }

  // ---- the head change ----

  datatype Meta = Meta(bestHash: Hash, bestNumber: nat, finalizedHash: Hash)

  datatype HeadChange = HeadChange(tx: seq<Change>, enacted: seq<Hash>, retracted: seq<Hash>)

  function Hashes(items: seq<HashAndNumber>): (r: seq<Hash>)
    ensures |r| == |items| && forall i :: 0 <= i < |items| ==> r[i] == items[i].hash
  {
    if items == [] then [] else Hashes(items[..|items| - 1]) + [items[|items| - 1].hash]
  }

  ghost predicate Numbered(items: seq<HashAndNumber>) {
    forall i :: 0 <= i < |items| ==> items[i].number < U32_RANGE
  }

  function Deletes(items: seq<HashAndNumber>): seq<Change>
    requires Numbered(items)
  {
    if items == [] then []
    else
      var last := items[|items| - 1];
      Deletes(items[..|items| - 1]) + [Delete(NumberKey(last.number))]
  }

  function Sets(items: seq<HashAndNumber>): seq<Change>
    requires Numbered(items)
  {
    if items == [] then []
    else
      var last := items[|items| - 1];
      Sets(items[..|items| - 1]) + [Set(NumberKey(last.number), LookupKey(last.number, last.hash))]
  }

  /** What is retracted and enacted on the way from the old best block to `routeTo`; nothing
      for an empty database or a block whose parent is missing. */
  ghost function Retracted(b: Blocks, meta: Meta, routeTo: Hash): seq<HashAndNumber>
    requires SingleRoot(b)
  {
    if meta.bestHash in b && routeTo in b && meta.bestHash != DEFAULT_HASH
    then Down(b, meta.bestHash, Common(b, meta.bestHash, routeTo)) else []
  }

  ghost function Enacted(b: Blocks, meta: Meta, routeTo: Hash): seq<HashAndNumber>
    requires SingleRoot(b)
  {
    if meta.bestHash in b && routeTo in b && meta.bestHash != DEFAULT_HASH
    then Up(b, routeTo, Common(b, meta.bestHash, routeTo)) else []
  }

  /** When a head change goes through. */
  ghost predicate Allowed(b: Blocks, meta: Meta, delay: nat, routeTo: Hash, bestNumber: nat)
    requires SingleRoot(b)
  {
    && meta.bestNumber <= bestNumber + delay
    && (meta.bestHash != DEFAULT_HASH && routeTo in b ==> meta.bestHash in b)
    && Numbered(Retracted(b, meta, routeTo)) && Numbered(Enacted(b, meta, routeTo)) && bestNumber < U32_RANGE
    && meta.finalizedHash !in Hashes(Retracted(b, meta, routeTo))
  }

  ghost function Rewritten(b: Blocks, meta: Meta, routeTo: Hash, bestNumber: nat, bestHash: Hash): HeadChange
    requires SingleRoot(b) && bestNumber < U32_RANGE
    requires Numbered(Retracted(b, meta, routeTo)) && Numbered(Enacted(b, meta, routeTo))
  {
    var down, up := Retracted(b, meta, routeTo), Enacted(b, meta, routeTo);
    HeadChange(Deletes(down) + Sets(up) + [Set(NumberKey(bestNumber), LookupKey(bestNumber, bestHash))],
               Hashes(up), Hashes(down))
  }

  /** The finalised block is among the items, before any number that is too large. */
  ghost predicate MeetsFinalized(items: seq<HashAndNumber>, finalizedHash: Hash) {
    exists i :: 0 <= i < |items| && items[i].hash == finalizedHash && Numbered(items[..i])
  }

  /** Deletes the retracted numbers, unless the finalised block is among them. */
  method Uncanonicalize(items: seq<HashAndNumber>, finalizedHash: Hash)
    returns (r: Result<(seq<Change>, seq<Hash>), Error>)
    ensures r.Ok? <==> Numbered(items) && finalizedHash !in Hashes(items)
    ensures r.Ok? ==> r.value == (Deletes(items), Hashes(items))
    ensures r == Err(NotInFinalizedChain) <==> MeetsFinalized(items, finalizedHash)
    ensures r.Err? ==> r.error == NotInFinalizedChain || r.error == NumberTooLarge
  {
    var tx: seq<Change> := [];
    var retracted: seq<Hash> := [];
    var i := 0;
    while i < |items|
      invariant 0 <= i <= |items|
      invariant Numbered(items[..i]) && tx == Deletes(items[..i]) && retracted == Hashes(items[..i])
      invariant finalizedHash !in retracted
    {
      assert items[..i + 1][..i] == items[..i];
      if items[i].hash == finalizedHash {
        assert Hashes(items)[i] == finalizedHash;
        return Err(NotInFinalizedChain);
      }
      var key := NumberIndexKey(items[i].number);
      if key.Err? {
        NotMet(items, finalizedHash, i);
        return Err(key.error);
      }
      retracted := retracted + [items[i].hash];
      tx := tx + [Delete(key.value)];
      i := i + 1;
    }
    assert items[..i] == items;
    return Ok((tx, retracted));
  }

  /** A number that is too large ends the search. */
  lemma NotMet(items: seq<HashAndNumber>, finalizedHash: Hash, i: nat)
    requires i < |items| && finalizedHash !in Hashes(items[..i]) && items[i].hash != finalizedHash
    requires items[i].number >= U32_RANGE
    ensures !MeetsFinalized(items, finalizedHash)
  {
    assert forall j :: 0 <= j < i ==> Hashes(items[..i])[j] == items[j].hash;
    forall j | i < j < |items| ensures !Numbered(items[..j]) { assert items[..j][i] == items[i]; }
  }

  /** Points the enacted numbers at the new chain. */
  method Canonicalize(items: seq<HashAndNumber>) returns (r: Result<(seq<Change>, seq<Hash>), Error>)
    ensures r.Ok? <==> Numbered(items)
    ensures r.Ok? ==> r.value == (Sets(items), Hashes(items))
    ensures r.Err? ==> r.error == NumberTooLarge
  {
    var tx: seq<Change> := [];
    var enacted: seq<Hash> := [];
    var i := 0;
    while i < |items|
      invariant 0 <= i <= |items|
      invariant Numbered(items[..i]) && tx == Sets(items[..i]) && enacted == Hashes(items[..i])
    {
      assert items[..i + 1][..i] == items[..i];
      enacted := enacted + [items[i].hash];
      var key := NumberIndexKey(items[i].number);
      if key.Err? {
        return Err(key.error);
      }
      tx := tx + [Set(key.value, LookupKey(items[i].number, items[i].hash))];
      i := i + 1;
    }
    assert items[..i] == items;
    return Ok((tx, enacted));
  }

  /** `set_head_with_transaction`. It refuses heads that are too far below the best block and
      routes that would retract the finalised block; otherwise it deletes the retracted
      numbers, sets the enacted ones and finally the new best block. */
  method SetHead(b: Blocks, meta: Meta, delay: nat, routeTo: Hash, bestNumber: nat, bestHash: Hash)
    returns (r: Result<HeadChange, Error>)
    requires SingleRoot(b)
    ensures r.Ok? <==> Allowed(b, meta, delay, routeTo, bestNumber)
    ensures r.Ok? ==> r.value == Rewritten(b, meta, routeTo, bestNumber, bestHash)
    ensures r == Err(SetHeadTooOld) <==> meta.bestNumber > bestNumber + delay
    ensures forall h :: r == Err(Error.UnknownBlock(h)) <==>
              && meta.bestNumber <= bestNumber + delay
              && routeTo in b && h == meta.bestHash && h !in b && h != DEFAULT_HASH
    ensures r == Err(NotInFinalizedChain) <==>
              && meta.bestNumber <= bestNumber + delay
              && MeetsFinalized(Retracted(b, meta, routeTo), meta.finalizedHash)
    ensures r.Err? && !r.error.SetHeadTooOld? && !r.error.UnknownBlock? && !r.error.NotInFinalizedChain? ==>
              r.error == NumberTooLarge
  {
    hide SingleRoot, Numbered, Down, Up, Route, Hashes, Deletes, Sets, Common, MeetsFinalized;
    NothingMet(meta.finalizedHash);
    if meta.bestNumber > bestNumber && meta.bestNumber - bestNumber > delay {
      return Err(SetHeadTooOld);
    }
    var down, up := [], [];
    if meta.bestHash != DEFAULT_HASH && routeTo in b {
      var found := FindRoute(b, meta.bestHash, routeTo);
      if found.Err? {
        return Err(Error.UnknownBlock(found.error));
      }
      var route := found.value;
      RouteParts(b, meta.bestHash, routeTo);
      down, up := route.route[..route.pivot], route.route[route.pivot + 1..];
    }
    assert down == Retracted(b, meta, routeTo) && up == Enacted(b, meta, routeTo);
    var retracted := Uncanonicalize(down, meta.finalizedHash);
    if retracted.Err? {
      return Err(retracted.error);
    }
    var enacted := Canonicalize(up);
    if enacted.Err? {
      return Err(enacted.error);
    }
    if bestNumber >= U32_RANGE {
      return Err(NumberTooLarge);
    }
    var last := [Set(NumberKey(bestNumber), LookupKey(bestNumber, bestHash))];
    return Ok(HeadChange(retracted.value.0 + enacted.value.0 + last, enacted.value.1, retracted.value.1));
  }

  lemma NothingMet(finalizedHash: Hash)
    ensures !MeetsFinalized([], finalizedHash)
  {
  }

  /** The three parts of a route, and the block in the middle that both chains have. */
  lemma RouteParts(b: Blocks, from: Hash, to: Hash)
    requires SingleRoot(b) && from in b && to in b
    ensures var r := Route(b, from, to);
            var c := Common(b, from, to);
            && r.pivot < |r.route|
            && r.route[..r.pivot] == Down(b, from, c) && r.route[r.pivot + 1..] == Up(b, to, c)
            && r.route[r.pivot] == HashAndNumber(c, Ancestor(b, from, c))
            && Ancestor(b, from, c) == Ancestor(b, to, c)
  {
  }

  /** What a head change reports: the blocks retracted from the old best block downwards, and
      the blocks enacted up to the target. */
  lemma RouteReported(b: Blocks, meta: Meta, delay: nat, routeTo: Hash, bestNumber: nat, bestHash: Hash)
    requires SingleRoot(b) && Allowed(b, meta, delay, routeTo, bestNumber)
    requires meta.bestHash in b && routeTo in b && meta.bestHash != DEFAULT_HASH
    ensures var r := Rewritten(b, meta, routeTo, bestNumber, bestHash);
            var c := Common(b, meta.bestHash, routeTo);
            && |r.retracted| == b[meta.bestHash].number - c && |r.enacted| == b[routeTo].number - c
            && (forall i :: 0 <= i < |r.retracted| ==>
                  r.retracted[i] == Ancestor(b, meta.bestHash, b[meta.bestHash].number - i))
            && (forall i :: 0 <= i < |r.enacted| ==> r.enacted[i] == Ancestor(b, routeTo, c + 1 + i))
  {
    hide Common, Hashes, Down, Up, Deletes, Sets, NumberKey, LookupKey, Numbered, Ancestor;
    CommonBounds(b, meta.bestHash, routeTo);
  }

  // ---- what the transaction does to the index ----

  lemma {:induction false} CommitConcat(col: Column, a: seq<Change>, b: seq<Change>)
    ensures Commit(col, a + b) == Commit(Commit(col, a), b)
    decreases |b|
  {
    hide CommitOne;
    if b == [] {
      assert a + b == a;
    } else {
      CommitConcat(col, a, b[..|b| - 1]);
      assert (a + b)[..|a + b| - 1] == a + b[..|b| - 1];
    }
  }

  ghost predicate HasNumber(items: seq<HashAndNumber>, n: nat) {
    exists i :: 0 <= i < |items| && items[i].number == n
  }

  lemma SameKey(m: nat, n: nat)
    requires m < U32_RANGE && n < U32_RANGE
    ensures NumberKey(m) == NumberKey(n) <==> m == n
  {
    NumberKeyRoundTrip(m);
    NumberKeyRoundTrip(n);
  }

  /** One change under a number key affects that number and no other key. */
  lemma CommitOneLookup(col: Column, c: Change, m: nat, n: nat)
    requires m < U32_RANGE && n < U32_RANGE && c.key == NumberKey(m)
    ensures Lookup(CommitOne(col, c), n) ==
              if n == m then (if c.Set? then Some(c.value) else None) else Lookup(col, n)
    ensures OtherKeysKept(col, CommitOne(col, c))
  {
    SameKey(m, n);
    hide NumberKey;
    assert |NumberKey(m)| == 4;
  }

  lemma OtherKeysTransitive(a: Column, b: Column, c: Column)
    requires OtherKeysKept(a, b) && OtherKeysKept(b, c)
    ensures OtherKeysKept(a, c)
  {
  }

  lemma {:induction false} CommitDeletes(col: Column, items: seq<HashAndNumber>, n: nat)
    requires Numbered(items) && n < U32_RANGE
    ensures Lookup(Commit(col, Deletes(items)), n) == if HasNumber(items, n) then None else Lookup(col, n)
    ensures OtherKeysKept(col, Commit(col, Deletes(items)))
  {
    hide NumberKey, Lookup, OtherKeysKept, HasNumber, CommitOne;
    if items == [] {
      NoItems(col, n);
    } else {
      var front, last := items[..|items| - 1], items[|items| - 1];
      var c := Delete(NumberKey(last.number));
      CommitDeletes(col, front, n);
      CommitAppend(col, Deletes(front), c);
      CommitOneLookup(Commit(col, Deletes(front)), c, last.number, n);
      OtherKeysTransitive(col, Commit(col, Deletes(front)), Commit(col, Deletes(items)));
      HasNumberSnoc(items, n);
    }
  }

  lemma NoItems(col: Column, n: nat)
    ensures !HasNumber([], n) && OtherKeysKept(col, col)
  {
  }

  lemma HasNumberSnoc(items: seq<HashAndNumber>, n: nat)
    requires items != []
    ensures HasNumber(items, n) <==> HasNumber(items[..|items| - 1], n) || items[|items| - 1].number == n
  {
    var front := items[..|items| - 1];
    if HasNumber(items, n) {
      var i :| 0 <= i < |items| && items[i].number == n;
      if i < |front| { assert front[i].number == n; }
    }
    if HasNumber(front, n) {
      var i :| 0 <= i < |front| && front[i].number == n;
      assert items[i].number == n;
    }
  }

  /** The hash that the last item with number `n` names. */
  function Find(items: seq<HashAndNumber>, n: nat): Option<Hash> {
    if items == [] then None
    else if items[|items| - 1].number == n then Some(items[|items| - 1].hash)
    else Find(items[..|items| - 1], n)
  }

  lemma {:induction false} CommitSets(col: Column, items: seq<HashAndNumber>, n: nat)
    requires Numbered(items) && n < U32_RANGE
    ensures Lookup(Commit(col, Sets(items)), n) ==
              match Find(items, n)
              case None => Lookup(col, n)
              case Some(h) => Some(LookupKey(n, h))
    ensures OtherKeysKept(col, Commit(col, Sets(items)))
  {
    hide NumberKey, LookupKey, Lookup, OtherKeysKept, CommitOne;
    if items == [] {
      NoItems(col, n);
    } else {
      var front, last := items[..|items| - 1], items[|items| - 1];
      var c := Set(NumberKey(last.number), LookupKey(last.number, last.hash));
      CommitSets(col, front, n);
      CommitAppend(col, Sets(front), c);
      CommitOneLookup(Commit(col, Sets(front)), c, last.number, n);
      OtherKeysTransitive(col, Commit(col, Sets(front)), Commit(col, Sets(items)));
    }
  }

  lemma {:induction false} FindAt(items: seq<HashAndNumber>, n: nat, i: nat)
    requires forall j, k :: 0 <= j < k < |items| ==> items[j].number != items[k].number
    requires i < |items| && items[i].number == n
    ensures Find(items, n) == Some(items[i].hash)
  {
    if i < |items| - 1 {
      FindAt(items[..|items| - 1], n, i);
    }
  }

  lemma {:induction false} FindNowhere(items: seq<HashAndNumber>, n: nat)
    requires forall j :: 0 <= j < |items| ==> items[j].number != n
    ensures Find(items, n) == None
  {
    if items != [] {
      FindNowhere(items[..|items| - 1], n);
    }
  }

  lemma DownNumbers(b: Blocks, h: Hash, low: nat, n: nat)
    requires IsTree(b) && h in b && low <= b[h].number
    ensures HasNumber(Down(b, h, low), n) <==> low < n <= b[h].number
  {
    if low < n <= b[h].number { assert Down(b, h, low)[b[h].number - n].number == n; }
  }

  lemma UpNumbers(b: Blocks, h: Hash, low: nat, n: nat)
    requires IsTree(b) && h in b && low <= b[h].number
    ensures Find(Up(b, h, low), n) == if low < n <= b[h].number then Some(Ancestor(b, h, n)) else None
  {
    var up := Up(b, h, low);
    if low < n <= b[h].number {
      FindAt(up, n, n - low - 1);
    } else {
      FindNowhere(up, n);
    }
  }

  /** The index after a head change, number by number. */
  lemma RewrittenLookup(col: Column, b: Blocks, meta: Meta, delay: nat, routeTo: Hash, bestNumber: nat,
                        bestHash: Hash, n: nat)
    requires SingleRoot(b) && Allowed(b, meta, delay, routeTo, bestNumber)
    requires meta.bestHash in b && routeTo in b && meta.bestHash != DEFAULT_HASH && n < U32_RANGE
    ensures var col' := Commit(col, Rewritten(b, meta, routeTo, bestNumber, bestHash).tx);
            var c := Common(b, meta.bestHash, routeTo);
            && OtherKeysKept(col, col')
            && Lookup(col', n) ==
                 if n == bestNumber then Some(LookupKey(n, bestHash))
                 else if c < n <= b[routeTo].number then Some(LookupKey(n, Ancestor(b, routeTo, n)))
                 else if c < n <= b[meta.bestHash].number then None
                 else Lookup(col, n)
  {
    hide NumberKey, LookupKey, Numbered, Hashes, Down, Up, HasNumber, Common, Lookup, OtherKeysKept, CommitOne,
         Commit, Deletes, Sets, Find;
    var c := Common(b, meta.bestHash, routeTo);
    var down, up := Retracted(b, meta, routeTo), Enacted(b, meta, routeTo);
    var last := Set(NumberKey(bestNumber), LookupKey(bestNumber, bestHash));
    var col1 := Commit(col, Deletes(down));
    var col2 := Commit(col1, Sets(up));
    CommonBounds(b, meta.bestHash, routeTo);
    CommitConcat(col, Deletes(down), Sets(up));
    CommitAppend(col, Deletes(down) + Sets(up), last);
    CommitDeletes(col, down, n);
    CommitSets(col1, up, n);
    DownNumbers(b, meta.bestHash, c, n);
    UpNumbers(b, routeTo, c, n);
    CommitOneLookup(col2, last, bestNumber, n);
    OtherKeysTransitive(col, col1, col2);
    OtherKeysTransitive(col, col2, CommitOne(col2, last));
  }

  // ---- the main results ----

  /** `b'` is the tree after the operation: either `routeTo` is the new best block itself, or
      the new best block is a child of `routeTo` (a new one, or one that is imported again). */
  ghost predicate HeadOf(b: Blocks, b': Blocks, routeTo: Hash, bestNumber: nat, bestHash: Hash) {
    && routeTo in b && IsTree(b')
    && (if routeTo == bestHash then b' == b && bestNumber == b[bestHash].number
        else
          && b' == b[bestHash := Node(bestNumber, routeTo)] && bestNumber == b[routeTo].number + 1
          && (bestHash in b ==> b' == b))
  }

  lemma HeadAncestors(b: Blocks, b': Blocks, routeTo: Hash, bestNumber: nat, bestHash: Hash, n: nat)
    requires IsTree(b) && HeadOf(b, b', routeTo, bestNumber, bestHash) && n <= bestNumber
    ensures bestHash in b' && b'[bestHash].number == bestNumber
    ensures Ancestor(b', bestHash, n) ==
              if n == bestNumber then bestHash else (assert n <= b[routeTo].number; Ancestor(b, routeTo, n))
  {
    if n < bestNumber {
      AncestorFrame(b, b', routeTo, n);
      if routeTo != bestHash {
        assert ParentBelow(b', bestHash);
      }
    }
  }

  /** If the index is exactly the chain of the old best block, then after any successful head
      change it is exactly the chain of the new one: nothing is missing, nothing is left above,
      and no other key is touched. This holds for a higher, a lower or a forked head, set or
      imported. */
  lemma IndexFollowsHead(col: Column, b: Blocks, b': Blocks, meta: Meta, delay: nat, routeTo: Hash,
                         bestNumber: nat, bestHash: Hash)
    requires SingleRoot(b) && IsChainOf(col, b, meta.bestHash) && meta.bestHash != DEFAULT_HASH
    requires HeadOf(b, b', routeTo, bestNumber, bestHash)
    requires Allowed(b, meta, delay, routeTo, bestNumber)
    ensures var col' := Commit(col, Rewritten(b, meta, routeTo, bestNumber, bestHash).tx);
            IsChainOf(col', b', bestHash) && IndexWalks(col', b', bestHash) && OtherKeysKept(col, col')
  {
    hide NumberKey, LookupKey, Commit, Numbered, Hashes, Common, Rewritten, Lookup, IndexWalks;
    var col' := Commit(col, Rewritten(b, meta, routeTo, bestNumber, bestHash).tx);
    var c := Common(b, meta.bestHash, routeTo);
    CommonBounds(b, meta.bestHash, routeTo);
    forall n: nat | n < U32_RANGE
      ensures Lookup(col', n) == if n <= bestNumber then Some(LookupKey(n, Ancestor(b', bestHash, n))) else None
    {
      RewrittenLookup(col, b, meta, delay, routeTo, bestNumber, bestHash, n);
      if n <= bestNumber { HeadAncestors(b, b', routeTo, bestNumber, bestHash, n); }
      if n <= c { CommonBelow(b, meta.bestHash, routeTo, n); }
    }
    RewrittenLookup(col, b, meta, delay, routeTo, bestNumber, bestHash, 0);
    HeadAncestors(b, b', routeTo, bestNumber, bestHash, 0);
    ChainWalks(col', b', bestHash);
  }

  lemma CommonBounds(b: Blocks, x: Hash, y: Hash)
    requires SingleRoot(b) && x in b && y in b
    ensures Common(b, x, y) <= b[x].number && Common(b, x, y) <= b[y].number
  {
  }

  /** A finalised block on the best chain is retracted by a route exactly when the route's
      common ancestor lies strictly below it. */
  lemma RetractsFinalized(b: Blocks, meta: Meta, routeTo: Hash)
    requires SingleRoot(b) && meta.bestHash in b && routeTo in b && meta.bestHash != DEFAULT_HASH
    requires OnChainOf(b, meta.finalizedHash, meta.bestHash)
    ensures meta.finalizedHash in Hashes(Retracted(b, meta, routeTo)) <==>
              b[meta.finalizedHash].number > Common(b, meta.bestHash, routeTo)
  {
    var c := Common(b, meta.bestHash, routeTo);
    CommonBounds(b, meta.bestHash, routeTo);
    var down := Down(b, meta.bestHash, c);
    var f := b[meta.finalizedHash].number;
    if f > c {
      assert down[b[meta.bestHash].number - f].hash == meta.finalizedHash;
      assert Hashes(down)[b[meta.bestHash].number - f] == meta.finalizedHash;
    }
    if meta.finalizedHash in Hashes(down) {
      var i :| 0 <= i < |down| && Hashes(down)[i] == meta.finalizedHash;
      assert down[i] == At(b, meta.bestHash, b[meta.bestHash].number - i);
    }
  }

  /** Safety: a successful head change never leaves the finalised block behind. */
  lemma FinalizedStaysOnChain(b: Blocks, b': Blocks, meta: Meta, delay: nat, routeTo: Hash,
                              bestNumber: nat, bestHash: Hash)
    requires SingleRoot(b) && meta.bestHash in b && meta.bestHash != DEFAULT_HASH
    requires OnChainOf(b, meta.finalizedHash, meta.bestHash)
    requires HeadOf(b, b', routeTo, bestNumber, bestHash)
    requires Allowed(b, meta, delay, routeTo, bestNumber)
    ensures OnChainOf(b', meta.finalizedHash, bestHash)
  {
    hide Hashes, Common, Numbered;
    RetractsFinalized(b, meta, routeTo);
    CommonBounds(b, meta.bestHash, routeTo);
    var f := b[meta.finalizedHash].number;
    CommonBelow(b, meta.bestHash, routeTo, f);
    HeadAncestors(b, b', routeTo, bestNumber, bestHash, f);
  }
}
