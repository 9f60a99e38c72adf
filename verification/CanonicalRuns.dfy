/** Any sequence of imports, head changes, finalisations and removals of leaf blocks, seen
    through the canonical index. */
module CanonicalRuns {
  import opened Types
  import opened LeafTree
  import opened BlockTree
  import opened CanonicalIndex

  datatype State = State(blocks: Blocks, col: Column, meta: Meta)

  datatype HeadOp =
    | AddBlock(hash: Hash, parent: Hash)      // import that does not become best
    | BestBlock(hash: Hash, parent: Hash)     // import as best
    | MoveHead(hash: Hash)                    // set an existing block as head
    | FinalizeBlock(hash: Hash)               // finalise a block of the best chain
    | RemoveBlock(hash: Hash)                 // remove a leaf block

  /** The database right after the genesis block was imported as best and final. */
  function Genesis(col: Column, genesis: Hash, parent: Hash): State {
    State(map[genesis := Node(0, parent)],
          CommitOne(CommitOne(col, Set(NumberKey(0), LookupKey(0, genesis))), Set(genesis, LookupKey(0, genesis))),
          Meta(genesis, 0, genesis))
  }

  /** A head change of which `Allowed` decides; refused changes leave everything as it was. */
  ghost function ChangeHead(s: State, delay: nat, routeTo: Hash, b': Blocks, number: nat, hash: Hash): State
    requires SingleRoot(s.blocks)
  {
    if Allowed(s.blocks, s.meta, delay, routeTo, number) then
      State(b', Commit(s.col, Rewritten(s.blocks, s.meta, routeTo, number, hash).tx),
            s.meta.(bestHash := hash, bestNumber := number))
    else s
  }

  /** A block that `remove_leaf_block` accepts: known, not the best one, and without children. */
  ghost predicate Removable(s: State, hash: Hash) {
    hash in s.blocks && hash != s.meta.bestHash && forall x :: x in s.blocks ==> s.blocks[x].parent != hash
  }

  /** An imported block is found by its hash. */
  function Recorded(col: Column, hash: Hash, number: nat): Column
    requires number < U32_RANGE
  {
    CommitOne(col, Set(hash, LookupKey(number, hash)))
  }

  /** An import is refused when the block number does not fit, whatever else it does. */
  ghost function AddOne(s: State, hash: Hash, parent: Hash): State
    requires parent in s.blocks
  {
    var number := s.blocks[parent].number + 1;
    if number < U32_RANGE then
      s.(blocks := WithBlock(s.blocks, hash, parent), col := Recorded(s.col, hash, number))
    else s
  }

  ghost function AddBest(s: State, delay: nat, hash: Hash, parent: Hash): State
    requires SingleRoot(s.blocks) && parent in s.blocks
  {
    var number := s.blocks[parent].number + 1;
    if Allowed(s.blocks, s.meta, delay, parent, number) then
      var s' := ChangeHead(s, delay, parent, WithBlock(s.blocks, hash, parent), number, hash);
      s'.(col := Recorded(s'.col, hash, number))
    else s
  }

  /** Besides the header the lookup entry under the hash goes; a refusal changes nothing. */
  ghost function RemoveLeaf(s: State, hash: Hash): State {
    if Removable(s, hash) then s.(blocks := s.blocks - {hash}, col := CommitOne(s.col, Delete(hash))) else s
  }

  ghost function Apply(s: State, delay: nat, op: HeadOp): State
    requires SingleRoot(s.blocks) && Legal(s, op)
  {
    match op
    case AddBlock(hash, parent) => AddOne(s, hash, parent)
    case BestBlock(hash, parent) => AddBest(s, delay, hash, parent)
    case MoveHead(hash) => ChangeHead(s, delay, hash, s.blocks, s.blocks[hash].number, hash)
    case FinalizeBlock(hash) => s.(meta := s.meta.(finalizedHash := hash))
    case RemoveBlock(hash) => RemoveLeaf(s, hash)
  }

  function WithBlock(b: Blocks, hash: Hash, parent: Hash): Blocks
    requires parent in b
  {
    b[hash := Node(b[parent].number + 1, parent)]
  }

  /** New hashes are fresh and not the default hash; known ones keep their header; a finalised
      block lies on the best chain; hashes are as long as the default one. */
  ghost predicate Legal(s: State, op: HeadOp)
    requires SingleRoot(s.blocks)
  {
    match op
    case AddBlock(hash, parent) => Importable(s.blocks, hash, parent)
    case BestBlock(hash, parent) => Importable(s.blocks, hash, parent)
    case MoveHead(hash) => hash in s.blocks
    case FinalizeBlock(hash) => OnChainOf(s.blocks, hash, s.meta.bestHash)
    case RemoveBlock(hash) => |hash| == |DEFAULT_HASH|
  }

  ghost predicate Importable(b: Blocks, hash: Hash, parent: Hash) {
    && parent in b && hash != DEFAULT_HASH && |hash| == |DEFAULT_HASH|
    && (if hash in b then b[hash] == Node(b[parent].number + 1, parent)
        else forall x :: x in b ==> b[x].parent != hash)
  }

  /** The lookup column finds exactly the known blocks by their hashes. */
  ghost predicate HashesFound(col: Column, b: Blocks) {
    && (forall h :: h in b ==> |h| == |DEFAULT_HASH| && b[h].number < U32_RANGE)
    && (forall h: Hash :: |h| == |DEFAULT_HASH| ==> (h in col <==> h in b))
    && (forall h :: h in b && h in col ==> col[h] == LookupKey(b[h].number, h))
  }

  ghost predicate Inv(s: State) {
    && SingleRoot(s.blocks) && HashesFound(s.col, s.blocks)
    && IsChainOf(s.col, s.blocks, s.meta.bestHash)
    && s.meta.bestHash != DEFAULT_HASH && DEFAULT_HASH !in s.blocks
    && s.meta.bestNumber == s.blocks[s.meta.bestHash].number
    && OnChainOf(s.blocks, s.meta.finalizedHash, s.meta.bestHash)
  }

  lemma WithBlockIsTree(b: Blocks, hash: Hash, parent: Hash)
    requires SingleRoot(b) && Importable(b, hash, parent)
    ensures SingleRoot(WithBlock(b, hash, parent))
    ensures forall x :: x in b ==> x in WithBlock(b, hash, parent) && WithBlock(b, hash, parent)[x] == b[x]
    ensures hash != parent && (hash in b ==> WithBlock(b, hash, parent) == b)
  {
    var b' := WithBlock(b, hash, parent);
    if hash in b { assert b' == b; }
    assert hash != parent by { if hash == parent { assert false; } }
    forall h | h in b'
      ensures ParentBelow(b', h)
    {
      if h != hash { assert ParentBelow(b, h); }
    }
  }

  /** The chain of a block is the same in a larger tree. */
  lemma ChainGrows(col: Column, b: Blocks, b': Blocks, best: Hash, finalized: Hash)
    requires IsChainOf(col, b, best) && IsTree(b') && forall x :: x in b ==> x in b' && b'[x] == b[x]
    requires OnChainOf(b, finalized, best)
    ensures IsChainOf(col, b', best) && OnChainOf(b', finalized, best)
  {
    hide Lookup;
    forall n: nat | n <= b[best].number ensures Ancestor(b', best, n) == Ancestor(b, best, n) {
      AncestorFrame(b, b', best, n);
    }
  }

  lemma ChainFrame(col: Column, col': Column, b: Blocks, best: Hash)
    requires IsChainOf(col, b, best) && forall n: nat :: n < U32_RANGE ==> Lookup(col', n) == Lookup(col, n)
    ensures IsChainOf(col', b, best)
  {
    hide Lookup, LookupKey;
  }

  lemma AddKeepsInv(s: State, hash: Hash, parent: Hash)
    requires Inv(s) && Importable(s.blocks, hash, parent)
    ensures Inv(AddOne(s, hash, parent))
  {
    hide SingleRoot, IsChainOf, OnChainOf, Recorded, HashesFound;
    var b, b', best := s.blocks, WithBlock(s.blocks, hash, parent), s.meta.bestHash;
    WithBlockIsTree(b, hash, parent);
    TreeOf(b');
    ChainHasBest(s);
    ChainGrows(s.col, b, b', best, s.meta.finalizedHash);
    if b[parent].number + 1 < U32_RANGE {
      RecordedFinds(s.col, b, hash, parent);
      ChainFrame(s.col, Recorded(s.col, hash, b[parent].number + 1), b', best);
    }
  }

  /** Recording a block under its hash leaves the number index alone. */
  lemma RecordedFinds(col: Column, b: Blocks, hash: Hash, parent: Hash)
    requires HashesFound(col, b) && Importable(b, hash, parent) && b[parent].number + 1 < U32_RANGE
    ensures HashesFound(Recorded(col, hash, b[parent].number + 1), WithBlock(b, hash, parent))
    ensures forall n: nat :: n < U32_RANGE ==> Lookup(Recorded(col, hash, b[parent].number + 1), n) == Lookup(col, n)
  {
    hide NumberKey, LookupKey;
    var col' := Recorded(col, hash, b[parent].number + 1);
    forall n: nat | n < U32_RANGE ensures Lookup(col', n) == Lookup(col, n) { assert |NumberKey(n)| == 4; }
  }

  lemma TreeOf(b: Blocks)
    requires SingleRoot(b)
    ensures IsTree(b)
  {
  }

  lemma ChangeKeepsInv(s: State, delay: nat, routeTo: Hash, b': Blocks, number: nat, hash: Hash)
    requires Inv(s) && HeadOf(s.blocks, b', routeTo, number, hash)
    requires SingleRoot(b') && hash != DEFAULT_HASH && DEFAULT_HASH !in b'
    ensures var s' := ChangeHead(s, delay, routeTo, b', number, hash);
            && (Allowed(s.blocks, s.meta, delay, routeTo, number) ==>
                  && IsChainOf(s'.col, b', hash) && OnChainOf(b', s.meta.finalizedHash, hash)
                  && hash in b' && b'[hash].number == number && OtherKeysKept(s.col, s'.col)
                  && s'.blocks == b' && s'.meta == s.meta.(bestHash := hash, bestNumber := number))
            && (!Allowed(s.blocks, s.meta, delay, routeTo, number) ==> s' == s)
  {
    hide SingleRoot, IsChainOf, OnChainOf, Commit, Rewritten, Allowed, HashesFound;
    if Allowed(s.blocks, s.meta, delay, routeTo, number) {
      ChainHasBest(s);
      IndexFollowsHead(s.col, s.blocks, b', s.meta, delay, routeTo, number, hash);
      FinalizedStaysOnChain(s.blocks, b', s.meta, delay, routeTo, number, hash);
    }
  }

  /** Keys that are not number keys include the hashes. */
  lemma FoundFrame(col: Column, col': Column, b: Blocks)
    requires HashesFound(col, b) && OtherKeysKept(col, col')
    ensures HashesFound(col', b)
  {
  }

  lemma MoveKeepsInv(s: State, delay: nat, hash: Hash)
    requires Inv(s) && hash in s.blocks
    ensures Inv(ChangeHead(s, delay, hash, s.blocks, s.blocks[hash].number, hash))
  {
    hide SingleRoot, IsChainOf, OnChainOf, Commit, Rewritten, Allowed, HashesFound;
    TreeOf(s.blocks);
    var s' := ChangeHead(s, delay, hash, s.blocks, s.blocks[hash].number, hash);
    ChangeKeepsInv(s, delay, hash, s.blocks, s.blocks[hash].number, hash);
    if Allowed(s.blocks, s.meta, delay, hash, s.blocks[hash].number) { FoundFrame(s.col, s'.col, s.blocks); }
  }

  lemma BestKeepsInv(s: State, delay: nat, hash: Hash, parent: Hash)
    requires Inv(s) && Importable(s.blocks, hash, parent)
    ensures Inv(AddBest(s, delay, hash, parent))
  {
    hide SingleRoot, IsChainOf, OnChainOf, HashesFound, Recorded, ChangeHead, Allowed;
    var b', number := WithBlock(s.blocks, hash, parent), s.blocks[parent].number + 1;
    WithBlockIsTree(s.blocks, hash, parent);
    TreeOf(b');
    ChangeKeepsInv(s, delay, parent, b', number, hash);
    if Allowed(s.blocks, s.meta, delay, parent, number) {
      var s1 := ChangeHead(s, delay, parent, b', number, hash);
      AllowedNumber(s.blocks, s.meta, delay, parent, number);
      FoundFrame(s.col, s1.col, s.blocks);
      RecordedFinds(s1.col, s.blocks, hash, parent);
      ChainFrame(s1.col, Recorded(s1.col, hash, number), b', hash);
    }
  }

  lemma AllowedNumber(b: Blocks, meta: Meta, delay: nat, routeTo: Hash, number: nat)
    requires SingleRoot(b) && Allowed(b, meta, delay, routeTo, number)
    ensures number < U32_RANGE
  {
  }

  /** Removing a leaf leaves a tree with every other block in it. */
  lemma WithoutLeafIsTree(b: Blocks, hash: Hash)
    requires SingleRoot(b) && hash in b && forall x :: x in b ==> b[x].parent != hash
    ensures SingleRoot(b - {hash})
  {
    forall h | h in b - {hash} ensures ParentBelow(b - {hash}, h) { assert ParentBelow(b, h); }
  }

  lemma RemoveKeepsInv(s: State, hash: Hash)
    requires Inv(s) && |hash| == |DEFAULT_HASH|
    ensures Inv(RemoveLeaf(s, hash))
    ensures Removable(s, hash) ==> hash in s.col && hash !in RemoveLeaf(s, hash).col
  {
    hide SingleRoot, NumberKey, LookupKey;
    if !Removable(s, hash) { return; }
    var b, b' := s.blocks, s.blocks - {hash};
    var best := s.meta.bestHash;
    WithoutLeafIsTree(b, hash);
    TreeOf(b');
    forall n: nat | n <= b[best].number
      ensures Ancestor(b, best, n) == Ancestor(b', best, n)
    {
      AncestorFrame(b', b, best, n);
    }
    var col' := CommitOne(s.col, Delete(hash));
    forall n: nat | n < U32_RANGE ensures Lookup(col', n) == Lookup(s.col, n) { assert |NumberKey(n)| == 4; }
  }

  lemma ChainHasBest(s: State)
    requires IsChainOf(s.col, s.blocks, s.meta.bestHash)
    ensures s.meta.bestHash in s.blocks && IsTree(s.blocks)
  {
  }

  lemma ApplyKeepsInv(s: State, delay: nat, op: HeadOp)
    requires Inv(s) && Legal(s, op)
    ensures Inv(Apply(s, delay, op))
  {
    hide IsChainOf, SingleRoot, Ancestor, Commit, Rewritten, Allowed, HashesFound;
    hide AddOne, AddBest, ChangeHead, RemoveLeaf;
    match op
    case AddBlock(hash, parent) => AddKeepsInv(s, hash, parent);
    case BestBlock(hash, parent) => BestKeepsInv(s, delay, hash, parent);
    case MoveHead(hash) => MoveKeepsInv(s, delay, hash);
    case FinalizeBlock(hash) =>
    case RemoveBlock(hash) => RemoveKeepsInv(s, hash);
  }

  // ---- what each operation does ----

  /** The head may go to `routeTo`, or to a child of it, with this number: it is not too far
      below the best block, and the finalised block stays on the chain. */
  ghost predicate HeadMayMove(s: State, delay: nat, routeTo: Hash, number: nat)
    requires IsTree(s.blocks)
  {
    && s.meta.bestNumber <= number + delay && number < U32_RANGE
    && OnChainOf(s.blocks, s.meta.finalizedHash, routeTo)
  }

  /** The route of a head change avoids the finalised block exactly when it is on the chain of
      the target. */
  lemma FinalizedBelow(s: State, routeTo: Hash)
    requires Inv(s) && routeTo in s.blocks
    ensures s.meta.bestHash in s.blocks
    ensures s.meta.finalizedHash !in Hashes(Retracted(s.blocks, s.meta, routeTo)) <==>
              OnChainOf(s.blocks, s.meta.finalizedHash, routeTo)
  {
    hide Hashes, HashesFound, Lookup, LookupKey, NumberKey;
    var b, best, f := s.blocks, s.meta.bestHash, s.meta.finalizedHash;
    ChainHasBest(s);
    RetractsFinalized(b, s.meta, routeTo);
    CommonBounds(b, best, routeTo);
    if b[f].number <= Common(b, best, routeTo) { CommonBelow(b, best, routeTo, b[f].number); }
  }

  lemma RouteNumbers(s: State, routeTo: Hash, number: nat)
    requires Inv(s) && routeTo in s.blocks && s.blocks[routeTo].number <= number < U32_RANGE
    ensures Numbered(Retracted(s.blocks, s.meta, routeTo)) && Numbered(Enacted(s.blocks, s.meta, routeTo))
  {
    hide HashesFound, Lookup, LookupKey, NumberKey, Common;
    CommonBounds(s.blocks, s.meta.bestHash, routeTo);
  }

  lemma AllowedMeans(s: State, delay: nat, routeTo: Hash, number: nat)
    requires Inv(s) && routeTo in s.blocks && s.blocks[routeTo].number <= number
    ensures Allowed(s.blocks, s.meta, delay, routeTo, number) <==> HeadMayMove(s, delay, routeTo, number)
  {
    hide SingleRoot, Numbered, Hashes, HashesFound, IsChainOf, Retracted, Enacted, OnChainOf;
    TreeOf(s.blocks);
    FinalizedBelow(s, routeTo);
    if number < U32_RANGE { RouteNumbers(s, routeTo, number); }
  }

  /** What one operation does to the known blocks, the best and the finalised block: imports and
      head changes happen exactly when they may, and refused ones change nothing. */
  ghost predicate Follows(s: State, delay: nat, op: HeadOp, s': State)
    requires IsTree(s.blocks) && BuildsOnKnown(s, op)
  {
    match op
    case AddBlock(hash, parent) =>
      var number := s.blocks[parent].number + 1;
      && s'.meta == s.meta
      && s'.blocks == if number < U32_RANGE then s.blocks[hash := Node(number, parent)] else s.blocks
    case BestBlock(hash, parent) =>
      var number := s.blocks[parent].number + 1;
      if HeadMayMove(s, delay, parent, number)
      then s'.blocks == s.blocks[hash := Node(number, parent)] && s'.meta == Meta(hash, number, s.meta.finalizedHash)
      else s' == s
    case MoveHead(hash) =>
      var number := s.blocks[hash].number;
      if HeadMayMove(s, delay, hash, number)
      then s'.blocks == s.blocks && s'.meta == Meta(hash, number, s.meta.finalizedHash)
      else s' == s
    case FinalizeBlock(hash) => s'.blocks == s.blocks && s'.meta == s.meta.(finalizedHash := hash)
    case RemoveBlock(hash) =>
      && s'.meta == s.meta
      && s'.blocks ==
           if hash != s.meta.bestHash && (forall x :: x in s.blocks ==> s.blocks[x].parent != hash)
           then s.blocks - {hash} else s.blocks
  }

  /** The blocks that an operation builds on are known. */
  predicate BuildsOnKnown(s: State, op: HeadOp) {
    match op
    case AddBlock(_, parent) => parent in s.blocks
    case BestBlock(_, parent) => parent in s.blocks
    case MoveHead(hash) => hash in s.blocks
    case _ => true
  }

  lemma ApplyFollows(s: State, delay: nat, op: HeadOp)
    requires Inv(s) && Legal(s, op)
    ensures IsTree(s.blocks) && BuildsOnKnown(s, op) && Follows(s, delay, op, Apply(s, delay, op))
  {
    hide SingleRoot, HashesFound, IsChainOf, Allowed, Commit, Rewritten, HeadMayMove, OnChainOf;
    TreeOf(s.blocks);
    match op
    case BestBlock(hash, parent) => AllowedMeans(s, delay, parent, s.blocks[parent].number + 1);
    case MoveHead(hash) => AllowedMeans(s, delay, hash, s.blocks[hash].number);
    case RemoveBlock(hash) => assert hash !in s.blocks ==> s.blocks - {hash} == s.blocks;
    case _ =>
  }

  lemma GenesisInv(col: Column, genesis: Hash, parent: Hash)
    requires genesis != DEFAULT_HASH && parent != genesis && |genesis| == |DEFAULT_HASH|
    requires Fresh(col)
    ensures Inv(Genesis(col, genesis, parent))
  {
    hide NumberKey, LookupKey;
    var s := Genesis(col, genesis, parent);
    assert ParentBelow(s.blocks, genesis);
    var c := Set(NumberKey(0), LookupKey(0, genesis));
    forall n: nat | n < U32_RANGE
      ensures Lookup(s.col, n) == if n == 0 then Some(LookupKey(0, genesis)) else None
    {
      CommitOneLookup(col, c, 0, n);
      assert |NumberKey(n)| == 4;
    }
  }

  /** The lookup column of a new database: no number and no hash is found. */
  ghost predicate Fresh(col: Column) {
    forall k :: k in col ==> |k| != 4 && |k| != |DEFAULT_HASH|
  }

  ghost predicate LegalRun(s: State, delay: nat, ops: seq<HeadOp>)
    decreases |ops|
  {
    ops == [] || (SingleRoot(s.blocks) && Legal(s, ops[0]) && LegalRun(Apply(s, delay, ops[0]), delay, ops[1..]))
  }

  ghost function Run(s: State, delay: nat, ops: seq<HeadOp>): State
    requires LegalRun(s, delay, ops)
    decreases |ops|
  {
    if ops == [] then s else Run(Apply(s, delay, ops[0]), delay, ops[1..])
  }

  lemma {:induction false} RunKeepsInv(s: State, delay: nat, ops: seq<HeadOp>)
    requires Inv(s) && LegalRun(s, delay, ops)
    ensures Inv(Run(s, delay, ops))
    decreases |ops|
  {
    hide Inv, Apply, Legal;
    if ops != [] {
      ApplyKeepsInv(s, delay, ops[0]);
      RunKeepsInv(Apply(s, delay, ops[0]), delay, ops[1..]);
    }
  }

  /** Every state that the run passes leads to the next as the operation asks. */
  ghost predicate RunFollows(s: State, delay: nat, ops: seq<HeadOp>)
    requires LegalRun(s, delay, ops)
    decreases |ops|
  {
    ops == [] ||
    (&& IsTree(s.blocks) && BuildsOnKnown(s, ops[0]) && Follows(s, delay, ops[0], Apply(s, delay, ops[0]))
     && RunFollows(Apply(s, delay, ops[0]), delay, ops[1..]))
  }

  lemma {:induction false} AllFollow(s: State, delay: nat, ops: seq<HeadOp>)
    requires Inv(s) && LegalRun(s, delay, ops)
    ensures RunFollows(s, delay, ops)
    decreases |ops|
  {
    hide Inv, Apply, Legal, Follows;
    if ops != [] {
      ApplyFollows(s, delay, ops[0]);
      ApplyKeepsInv(s, delay, ops[0]);
      AllFollow(Apply(s, delay, ops[0]), delay, ops[1..]);
    }
  }

  /** The block finalised last, or `before`. */
  function LastFinalized(ops: seq<HeadOp>, before: Hash): Hash
    decreases |ops|
  {
    if ops == [] then before
    else LastFinalized(ops[1..], if ops[0].FinalizeBlock? then ops[0].hash else before)
  }

  lemma {:induction false} FinalizedIsLast(s: State, delay: nat, ops: seq<HeadOp>)
    requires LegalRun(s, delay, ops)
    ensures Run(s, delay, ops).meta.finalizedHash == LastFinalized(ops, s.meta.finalizedHash)
    decreases |ops|
  {
    hide SingleRoot, Allowed, Commit, Rewritten, OnChainOf, Importable, WithBlock, Removable, Recorded;
    if ops != [] {
      FinalizedIsLast(Apply(s, delay, ops[0]), delay, ops[1..]);
    }
  }

  /** A known block is found by its hash: the entry holds its number and the hash. */
  ghost predicate FoundByHash(col: Column, b: Blocks) {
    && (forall h: Hash :: |h| == |DEFAULT_HASH| ==> (h in col <==> h in b))
    && (forall h :: h in b && h in col ==>
          |col[h]| == 4 + |h| && NumberOfKey(col[h][..4]) == b[h].number && col[h][4..] == h)
  }

  lemma HashesAreFound(col: Column, b: Blocks)
    requires HashesFound(col, b)
    ensures FoundByHash(col, b)
  {
    hide NumberKey, LookupKey, NumberOfKey;
    forall h | h in b && h in col
      ensures |col[h]| == 4 + |h| && NumberOfKey(col[h][..4]) == b[h].number && col[h][4..] == h
    {
      LookupKeyRoundTrip(b[h].number, h);
    }
  }

  /** Over any run from genesis the known blocks, the best and the finalised block follow the
      operations. At its end, however the head moved, reading the index walks exactly the chain
      of the best block, the block finalised last is on it, and exactly the known blocks are
      found by their hashes. */
  lemma IndexIsAlwaysTheBestChain(col: Column, genesis: Hash, parent: Hash, delay: nat, ops: seq<HeadOp>)
    requires genesis != DEFAULT_HASH && parent != genesis && |genesis| == |DEFAULT_HASH|
    requires Fresh(col)
    requires LegalRun(Genesis(col, genesis, parent), delay, ops)
    ensures var s := Run(Genesis(col, genesis, parent), delay, ops);
            && IsChainOf(s.col, s.blocks, s.meta.bestHash)
            && OnChainOf(s.blocks, s.meta.finalizedHash, s.meta.bestHash)
            && HashesFound(s.col, s.blocks)
            && IndexWalks(s.col, s.blocks, s.meta.bestHash) && FoundByHash(s.col, s.blocks)
            && s.meta.bestNumber == s.blocks[s.meta.bestHash].number
            && s.meta.finalizedHash == LastFinalized(ops, genesis)
            && RunFollows(Genesis(col, genesis, parent), delay, ops)
  {
    GenesisInv(col, genesis, parent);
    RunKeepsInv(Genesis(col, genesis, parent), delay, ops);
    AllFollow(Genesis(col, genesis, parent), delay, ops);
    FinalizedIsLast(Genesis(col, genesis, parent), delay, ops);
    hide Run, RunFollows, LegalRun, HashesFound, IsChainOf, FoundByHash, IndexWalks, LastFinalized, OnChainOf;
    var s := Run(Genesis(col, genesis, parent), delay, ops);
    ChainHasBest(s);
    ChainWalks(s.col, s.blocks, s.meta.bestHash);
    HashesAreFound(s.col, s.blocks);
  }
}
