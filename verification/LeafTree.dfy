/** How the block database keeps its leaf set and its children index while blocks are
    imported, removed and finalised. */
module LeafTree {
  import opened Types
  import opened LeafSet

  datatype Node = Node(number: nat, parent: Hash)

  /** `blocks` are the headers found by hash, `children` the stored child lists. */
  datatype Chain = Chain(
    blocks: map<Hash, Node>,
    children: map<Hash, seq<Hash>>,
    leaves: Storage,
    finalized: nat)

  const EMPTY := Chain(map[], map[], map[], 0)

  function ReadChildren(children: map<Hash, seq<Hash>>, parent: Hash): seq<Hash> {
    if parent in children then children[parent] else []
  }

  // ---- the operations ----

  ghost function HighestLeaf(st: Storage): nat {
    if st == map[] then 0 else MaxKey(st)
  }

  /** The import's test for a block that is already known. */
  ghost predicate ExistingHeader(c: Chain, hash: Hash, number: nat) {
    number <= HighestLeaf(c.leaves) && hash in c.blocks
  }

  /** A new block becomes a leaf if it can still be finalised, and is listed as a child. */
  ghost function ImportBlock(c: Chain, hash: Hash, number: nat, parent: Hash): Chain {
    var blocks := c.blocks[hash := Node(number, parent)];
    if ExistingHeader(c, hash, number) then c.(blocks := blocks)
    else
      var leaves :=
        if number > c.finalized || c.finalized == 0 then Import(c.leaves, hash, number, parent).0 else c.leaves;
      var siblings := ReadChildren(c.children, parent);
      var children := if hash in siblings then c.children else c.children[parent := siblings + [hash]];
      Chain(blocks, children, leaves, c.finalized)
  }

  datatype RemoveError = BestBlock | UnknownBlock | StateDiscarded | NotALeaf

  /** Removes a block that has no children, unless it is the best block or its state is gone.
      Its parent becomes a leaf when it has no child left. */
  function RemoveLeafBlock(c: Chain, hash: Hash, best: Hash, hasState: bool): Result<Chain, RemoveError> {
    if hash == best then Err(BestBlock)
    else if hash !in c.blocks then Err(UnknownBlock)
    else if !hasState then Err(StateDiscarded)
    else
      var node := c.blocks[hash];
      if !Contains(c.leaves, node.number, hash) then Err(NotALeaf)
      else
        var left := Without(ReadChildren(c.children, node.parent), hash);
        var children := if left == [] then c.children - {node.parent} else c.children[node.parent := left];
        var leaves := Remove(c.leaves, hash, node.number, if left == [] then Some(node.parent) else None).0;
        Ok(Chain(c.blocks - {hash}, children, leaves, c.finalized))
  }

  function Finalize(c: Chain, number: nat): Chain {
    c.(leaves := FinalizeHeight(c.leaves, number).0, finalized := number)
  }

  // ---- runs ----

  datatype Op =
    | ImportOp(hash: Hash, number: nat, parent: Hash)
    | RemoveOp(hash: Hash, best: Hash, hasState: bool)
    | FinalizeOp(number: nat)

  ghost function Apply(c: Chain, op: Op): Chain {
    match op
    case ImportOp(hash, number, parent) => ImportBlock(c, hash, number, parent)
    case RemoveOp(hash, best, hasState) =>
      (match RemoveLeafBlock(c, hash, best, hasState)
       case Ok(c') => c'
       case Err(_) => c)
    case FinalizeOp(number) => Finalize(c, number)
  }

  /** Parents come before their children, a hash names one header, new blocks and removals are
      above the finalised height, and finalised heights rise and belong to known blocks. */
  ghost predicate Legal(c: Chain, op: Op) {
    match op
    case ImportOp(hash, number, parent) =>
      if hash in c.blocks then c.blocks[hash] == Node(number, parent)
      else
        && (forall x :: x in c.blocks ==> c.blocks[x].parent != hash)
        && hash != parent
        && (if c.blocks == map[] then number == 0
            else parent in c.blocks && number == c.blocks[parent].number + 1 && number > c.finalized)
    case RemoveOp(hash, _, _) => hash in c.blocks ==> c.blocks[hash].number > c.finalized
    case FinalizeOp(number) => number >= c.finalized && exists x :: x in c.blocks && c.blocks[x].number >= number
  }

  ghost predicate LegalRun(c: Chain, ops: seq<Op>)
    decreases |ops|
  {
    ops == [] || (Legal(c, ops[0]) && LegalRun(Apply(c, ops[0]), ops[1..]))
  }

  ghost function Run(c: Chain, ops: seq<Op>): Chain
    decreases |ops|
  {
    if ops == [] then c else Run(Apply(c, ops[0]), ops[1..])
  }

  // ---- the invariant ----

  /** The parent is known and one number below; the first block has none. */
  predicate ParentBelow(blocks: map<Hash, Node>, h: Hash)
    requires h in blocks
  {
    if blocks[h].number == 0 then blocks[h].parent !in blocks
    else blocks[h].parent in blocks && blocks[blocks[h].parent].number + 1 == blocks[h].number
  }

  ghost predicate IsTree(blocks: map<Hash, Node>) {
    forall h {:trigger ParentBelow(blocks, h)} :: h in blocks ==> ParentBelow(blocks, h)
  }

  predicate IsChild(blocks: map<Hash, Node>, p: Hash, h: Hash) {
    h in blocks && blocks[h].parent == p
  }

  /** The children index lists each block once, under its parent and nowhere else. */
  ghost predicate ChildrenExact(c: Chain) {
    && (forall p, h :: h in ReadChildren(c.children, p) <==> IsChild(c.blocks, p, h))
    && (forall p :: NoDup(ReadChildren(c.children, p)))
  }

  /** The leaves are the blocks without children at or above the finalised height. */
  ghost predicate LeavesExact(c: Chain) {
    && (forall n: nat, h :: Contains(c.leaves, n, h) <==> IsLeaf(c, n, h))
    && (forall n: nat :: NoDup(Level(c.leaves, n)))
    && Proper(c.leaves)
  }

  ghost predicate IsLeaf(c: Chain, n: nat, h: Hash) {
    h in c.blocks && c.blocks[h].number == n && n >= c.finalized && ReadChildren(c.children, h) == []
  }

  ghost predicate Rooted(c: Chain) {
    && (c.blocks == map[] ==> c.finalized == 0)
    && (c.blocks != map[] ==> exists h :: h in c.blocks && c.blocks[h].number >= c.finalized)
  }

  ghost predicate Inv(c: Chain) {
    IsTree(c.blocks) && ChildrenExact(c) && LeavesExact(c) && Rooted(c)
  }

  // ---- the test for known blocks ----

  /** Every known block is at most as high as the highest leaf, so the import's cheap test
      for an existing header is exact. */
  lemma ExistingHeaderExact(c: Chain, hash: Hash)
    requires Inv(c) && hash in c.blocks
    ensures ExistingHeader(c, hash, c.blocks[hash].number)
  {
    var numbers := set h | h in c.blocks :: c.blocks[h].number;
    assert c.blocks[hash].number in numbers;
    MaxExists(numbers);
    var top :| top in numbers && forall m :: m in numbers ==> m <= top;
    var h :| h in c.blocks && c.blocks[h].number == top;
    assert ReadChildren(c.children, h) == [] by {
      forall x
        ensures x !in ReadChildren(c.children, h)
      {
        if x in c.blocks { assert c.blocks[x].number in numbers && ParentBelow(c.blocks, x); }
      }
      Childless(c.children, h);
    }
    var y :| y in c.blocks && c.blocks[y].number >= c.finalized;
    assert c.blocks[y].number in numbers;
    assert IsLeaf(c, top, h);
    assert Contains(c.leaves, top, h);
  }

  lemma Childless(children: map<Hash, seq<Hash>>, h: Hash)
    ensures ReadChildren(children, h) == [] <==> forall x :: x !in ReadChildren(children, h)
  {
    var s := ReadChildren(children, h);
    if s != [] { assert s[0] in s; }
  }

  // ---- every operation keeps the invariant ----

  lemma {:induction false} WithoutNoDup(s: seq<Hash>, h: Hash)
    requires NoDup(s)
    ensures NoDup(Without(s, h))
  {
    if s != [] {
      assert NoDup(s[1..]);
      WithoutNoDup(s[1..], h);
      var rest := Without(s[1..], h);
      if s[0] != h {
        assert s[0] !in s[1..];
        ConsNoDup(s[0], rest);
      }
    }
  }

  /** The levels after an import: the parent is gone from its level, the block is at the end
      of its own. */
  lemma ImportLevels(st: Storage, hash: Hash, number: nat, parent: Hash)
    ensures var st' := Import(st, hash, number, parent).0;
            && (forall m: nat ::
                  Level(st', m) ==
                    if m == number then Level(st, m) + [hash]
                    else if m + 1 == number then Without(Level(st, m), parent)
                    else Level(st, m))
            && (Proper(st) ==> Proper(st'))
  {
    hide RemoveLeaf, InsertLeaf, Without, Proper;
    if number > 0 {
      RemoveLeafSpec(st, number - 1, parent);
      InsertLevels(RemoveLeaf(st, number - 1, parent).0, number, hash);
    } else {
      InsertLevels(st, number, hash);
    }
  }

  lemma InsertLevels(st: Storage, number: nat, hash: Hash)
    ensures var st' := InsertLeaf(st, number, hash);
            && (forall m: nat :: Level(st', m) == if m == number then Level(st, m) + [hash] else Level(st, m))
            && (Proper(st) ==> Proper(st'))
  {
  }

  lemma ImportKeepsChildren(c: Chain, hash: Hash, number: nat, parent: Hash)
    requires ChildrenExact(c) && Legal(c, ImportOp(hash, number, parent)) && hash !in c.blocks
    ensures var c' := ImportBlock(c, hash, number, parent);
            && ChildrenExact(c')
            && (forall p :: ReadChildren(c'.children, p) ==
                  if p == parent then ReadChildren(c.children, p) + [hash] else ReadChildren(c.children, p))
  {
    hide Import, HighestLeaf, NoDup;
    var c' := ImportBlock(c, hash, number, parent);
    assert !IsChild(c.blocks, parent, hash);
    assert hash !in ReadChildren(c.children, parent);
    assert c'.children == c.children[parent := ReadChildren(c.children, parent) + [hash]];
    forall p, h
      ensures h in ReadChildren(c'.children, p) <==> IsChild(c'.blocks, p, h)
    {
      assert h in ReadChildren(c.children, p) <==> IsChild(c.blocks, p, h);
    }
    forall p
      ensures NoDup(ReadChildren(c'.children, p))
    {
      assert NoDup(ReadChildren(c.children, p));
      if p == parent { SnocNoDup(ReadChildren(c.children, parent), hash); }
    }
  }

  lemma ImportKeepsLeaves(c: Chain, hash: Hash, number: nat, parent: Hash)
    requires Inv(c) && Legal(c, ImportOp(hash, number, parent)) && hash !in c.blocks
    ensures LeavesExact(ImportBlock(c, hash, number, parent))
  {
    hide HighestLeaf, Import, NoDup, Without, Rooted;
    var c' := ImportBlock(c, hash, number, parent);
    ImportKeepsChildren(c, hash, number, parent);
    ImportLevels(c.leaves, hash, number, parent);
    assert c'.leaves == Import(c.leaves, hash, number, parent).0 by { RootedAt(c, number); }
    forall n: nat, h
      ensures Contains(c'.leaves, n, h) <==> IsLeaf(c', n, h)
    {
      assert Contains(c.leaves, n, h) <==> IsLeaf(c, n, h);
      if h == hash { NewIsChildless(c, hash); }
    }
    forall n: nat
      ensures NoDup(Level(c'.leaves, n))
    {
      assert NoDup(Level(c.leaves, n));
      if n == number {
        assert !Contains(c.leaves, n, hash);
        SnocNoDup(Level(c.leaves, n), hash);
      } else if n + 1 == number {
        WithoutNoDup(Level(c.leaves, n), parent);
      }
    }
  }

  lemma RootedAt(c: Chain, number: nat)
    requires Rooted(c)
    requires if c.blocks == map[] then number == 0 else number > c.finalized
    ensures number > c.finalized || c.finalized == 0
  {
  }

  lemma NewIsChildless(c: Chain, hash: Hash)
    requires ChildrenExact(c) && forall x :: x in c.blocks ==> c.blocks[x].parent != hash
    ensures ReadChildren(c.children, hash) == []
  {
    forall x ensures x !in ReadChildren(c.children, hash) { assert !IsChild(c.blocks, hash, x); }
    Childless(c.children, hash);
  }

  lemma ImportKeepsInv(c: Chain, hash: Hash, number: nat, parent: Hash)
    requires Inv(c) && Legal(c, ImportOp(hash, number, parent))
    ensures Inv(ImportBlock(c, hash, number, parent))
  {
    hide ChildrenExact, LeavesExact, Import, HighestLeaf;
    var c' := ImportBlock(c, hash, number, parent);
    if hash in c.blocks {
      ExistingHeaderExact(c, hash);
      assert c'.blocks == c.blocks;
      assert c' == c;
    } else {
      ImportKeepsChildren(c, hash, number, parent);
      ImportKeepsLeaves(c, hash, number, parent);
      assert hash in c'.blocks && number >= c.finalized;
      forall h | h in c'.blocks
        ensures ParentBelow(c'.blocks, h)
      {
        assert h != hash ==> ParentBelow(c.blocks, h);
      }
    }
  }

  lemma RemoveLevels(st: Storage, hash: Hash, number: nat, parent: Option<Hash>)
    requires Contains(st, number, hash) && number > 0
    ensures var st' := Remove(st, hash, number, parent).0;
            && (forall m: nat ::
                  Level(st', m) ==
                    if m == number then Without(Level(st, m), hash)
                    else if m + 1 == number && parent.Some? then Level(st, m) + [parent.value]
                    else Level(st, m))
            && (Proper(st) ==> Proper(st'))
  {
    RemoveLeafSpec(st, number, hash);
  }

  lemma RemoveKeepsChildren(c: Chain, hash: Hash, best: Hash, hasState: bool)
    requires Inv(c) && RemoveLeafBlock(c, hash, best, hasState).Ok?
    ensures var c' := RemoveLeafBlock(c, hash, best, hasState).value;
            var p := c.blocks[hash].parent;
            && ChildrenExact(c')
            && (forall q :: ReadChildren(c'.children, q) ==
                  if q == p then Without(ReadChildren(c.children, q), hash) else ReadChildren(c.children, q))
  {
    hide Remove, LeavesExact, Rooted, NoDup, IsTree, Contains, Without;
    var c' := RemoveLeafBlock(c, hash, best, hasState).value;
    var p := c.blocks[hash].parent;
    forall q, h
      ensures h in ReadChildren(c'.children, q) <==> IsChild(c'.blocks, q, h)
    {
      assert h in ReadChildren(c.children, q) <==> IsChild(c.blocks, q, h);
    }
    forall q
      ensures NoDup(ReadChildren(c'.children, q))
    {
      assert NoDup(ReadChildren(c.children, q));
      if q == p { WithoutNoDup(ReadChildren(c.children, q), hash); }
    }
  }

  /** The parent of a block above the finalised height is known and no leaf. */
  lemma ParentHasChild(c: Chain, hash: Hash)
    requires IsTree(c.blocks) && ChildrenExact(c) && hash in c.blocks && c.blocks[hash].number > 0
    ensures var p := c.blocks[hash].parent;
            && p in c.blocks && p != hash && c.blocks[p].number + 1 == c.blocks[hash].number
            && hash in ReadChildren(c.children, p) && ReadChildren(c.children, p) != []
  {
    assert ParentBelow(c.blocks, hash);
    assert IsChild(c.blocks, c.blocks[hash].parent, hash);
  }

  /** The levels of the leaf set after a removal, and that the parent was no leaf before. */
  lemma RemovedLevels(c: Chain, hash: Hash, best: Hash, hasState: bool)
    requires Inv(c) && RemoveLeafBlock(c, hash, best, hasState).Ok? && Legal(c, RemoveOp(hash, best, hasState))
    ensures var c' := RemoveLeafBlock(c, hash, best, hasState).value;
            var Node(number, p) := c.blocks[hash];
            && number > 0 && p != hash && !Contains(c.leaves, number - 1, p)
            && Proper(c'.leaves)
            && (forall m: nat ::
                  Level(c'.leaves, m) ==
                    if m == number then Without(Level(c.leaves, m), hash)
                    else if m + 1 == number && ReadChildren(c'.children, p) == [] then Level(c.leaves, m) + [p]
                    else Level(c.leaves, m))
  {
    hide Remove, Without, NoDup, Rooted, ChildrenExact, IsTree;
    var Node(number, p) := c.blocks[hash];
    RemoveKeepsChildren(c, hash, best, hasState);
    ParentHasChild(c, hash);
    assert Contains(c.leaves, number - 1, p) <==> IsLeaf(c, number - 1, p);
    var left := Without(ReadChildren(c.children, p), hash);
    RemoveLevels(c.leaves, hash, number, if left == [] then Some(p) else None);
  }

  lemma RemoveKeepsLeaves(c: Chain, hash: Hash, best: Hash, hasState: bool)
    requires Inv(c) && RemoveLeafBlock(c, hash, best, hasState).Ok? && Legal(c, RemoveOp(hash, best, hasState))
    ensures LeavesExact(RemoveLeafBlock(c, hash, best, hasState).value)
  {
    hide Remove, Without, NoDup, Rooted, ChildrenExact, IsTree, Proper;
    var c' := RemoveLeafBlock(c, hash, best, hasState).value;
    var Node(number, p) := c.blocks[hash];
    RemoveKeepsChildren(c, hash, best, hasState);
    RemovedLevels(c, hash, best, hasState);
    ParentHasChild(c, hash);
    forall n: nat, h
      ensures Contains(c'.leaves, n, h) <==> IsLeaf(c', n, h)
    {
      assert Contains(c.leaves, n, h) <==> IsLeaf(c, n, h);
    }
    forall n: nat
      ensures NoDup(Level(c'.leaves, n))
    {
      assert NoDup(Level(c.leaves, n));
      WithoutNoDup(Level(c.leaves, n), hash);
      if n + 1 == number { SnocNoDup(Level(c.leaves, n), p); }
    }
  }

  lemma RemoveKeepsInv(c: Chain, hash: Hash, best: Hash, hasState: bool)
    requires Inv(c) && RemoveLeafBlock(c, hash, best, hasState).Ok? && Legal(c, RemoveOp(hash, best, hasState))
    ensures Inv(RemoveLeafBlock(c, hash, best, hasState).value)
  {
    hide LeavesExact, ChildrenExact, Remove, Contains, Without;
    var c' := RemoveLeafBlock(c, hash, best, hasState).value;
    RemoveKeepsChildren(c, hash, best, hasState);
    RemoveKeepsLeaves(c, hash, best, hasState);
    LeafHasNoChild(c, hash);
    var p := c.blocks[hash].parent;
    assert ParentBelow(c.blocks, hash);
    assert p in c'.blocks && c'.blocks[p].number >= c'.finalized;
    forall h | h in c'.blocks
      ensures ParentBelow(c'.blocks, h)
    {
      assert ParentBelow(c.blocks, h);
    }
  }

  lemma LeafHasNoChild(c: Chain, hash: Hash)
    requires Inv(c) && hash in c.blocks && Contains(c.leaves, c.blocks[hash].number, hash)
    ensures forall x :: x in c.blocks ==> c.blocks[x].parent != hash
  {
    assert IsLeaf(c, c.blocks[hash].number, hash);
    forall x | x in c.blocks
      ensures c.blocks[x].parent != hash
    {
      assert !IsChild(c.blocks, hash, x);
    }
  }

  lemma FinalizeKeepsInv(c: Chain, number: nat)
    requires Inv(c) && Legal(c, FinalizeOp(number))
    ensures Inv(Finalize(c, number))
  {
    var c' := Finalize(c, number);
    forall n: nat, h
      ensures Contains(c'.leaves, n, h) <==> IsLeaf(c', n, h)
    {
      assert Contains(c.leaves, n, h) <==> IsLeaf(c, n, h);
    }
    forall n: nat
      ensures NoDup(Level(c'.leaves, n))
    {
      assert NoDup(Level(c.leaves, n));
    }
  }

  lemma ApplyKeepsInv(c: Chain, op: Op)
    requires Inv(c) && Legal(c, op)
    ensures Inv(Apply(c, op))
  {
    hide Inv, ImportBlock, RemoveLeafBlock, Finalize;
    match op
    case ImportOp(hash, number, parent) => ImportKeepsInv(c, hash, number, parent);
    case RemoveOp(hash, best, hasState) =>
      if RemoveLeafBlock(c, hash, best, hasState).Ok? { RemoveKeepsInv(c, hash, best, hasState); }
    case FinalizeOp(number) => FinalizeKeepsInv(c, number);
  }

  lemma {:induction false} RunKeepsInv(c: Chain, ops: seq<Op>)
    requires Inv(c) && LegalRun(c, ops)
    ensures Inv(Run(c, ops))
    decreases |ops|
  {
    hide Inv, Apply, Legal;
    if ops != [] {
      ApplyKeepsInv(c, ops[0]);
      RunKeepsInv(Apply(c, ops[0]), ops[1..]);
    }
  }

  // ---- what each operation does ----

  ghost predicate HasChild(blocks: map<Hash, Node>, hash: Hash) {
    exists x :: x in blocks && blocks[x].parent == hash
  }

  /** When a removal goes through, and which error it gives otherwise: a block above the
      finalised height is a leaf exactly when no known block has it as its parent. */
  lemma RemoveDecides(c: Chain, hash: Hash, best: Hash, hasState: bool)
    requires Inv(c) && Legal(c, RemoveOp(hash, best, hasState))
    ensures var r := RemoveLeafBlock(c, hash, best, hasState);
            && (r == Err(BestBlock) <==> hash == best)
            && (r == Err(UnknownBlock) <==> hash != best && hash !in c.blocks)
            && (r == Err(StateDiscarded) <==> hash != best && hash in c.blocks && !hasState)
            && (r == Err(NotALeaf) <==> hash != best && hash in c.blocks && hasState && HasChild(c.blocks, hash))
            && (r.Ok? <==> hash != best && hash in c.blocks && hasState && !HasChild(c.blocks, hash))
            && (r.Ok? ==> r.value.blocks == c.blocks - {hash} && r.value.finalized == c.finalized)
  {
    hide Remove, Contains, NoDup, Rooted, IsTree, Proper;
    if hash in c.blocks {
      var n := c.blocks[hash].number;
      assert Contains(c.leaves, n, hash) <==> IsLeaf(c, n, hash);
      if HasChild(c.blocks, hash) {
        var x :| x in c.blocks && c.blocks[x].parent == hash;
        assert IsChild(c.blocks, hash, x);
      } else {
        NewIsChildless(c, hash);
      }
    }
  }

  /** The known blocks and the finalised height, without leaf set and children index. */
  datatype Known = Known(blocks: map<Hash, Node>, finalized: nat)

  ghost function KnownAfter(k: Known, op: Op): Known {
    match op
    case ImportOp(hash, number, parent) => k.(blocks := k.blocks[hash := Node(number, parent)])
    case RemoveOp(hash, best, hasState) =>
      if hash != best && hasState && !HasChild(k.blocks, hash) then k.(blocks := k.blocks - {hash}) else k
    case FinalizeOp(number) => k.(finalized := number)
  }

  ghost function KnownRun(k: Known, ops: seq<Op>): Known
    decreases |ops|
  {
    if ops == [] then k else KnownRun(KnownAfter(k, ops[0]), ops[1..])
  }

  lemma ApplyKnown(c: Chain, op: Op)
    requires Inv(c) && Legal(c, op)
    ensures var c' := Apply(c, op);
            Known(c'.blocks, c'.finalized) == KnownAfter(Known(c.blocks, c.finalized), op)
  {
    hide Inv, RemoveLeafBlock, HighestLeaf, HasChild, Import;
    match op
    case RemoveOp(hash, best, hasState) =>
      RemoveDecides(c, hash, best, hasState);
      if hash !in c.blocks { assert c.blocks - {hash} == c.blocks; }
    case _ =>
  }

  lemma {:induction false} RunIsKnown(c: Chain, ops: seq<Op>)
    requires Inv(c) && LegalRun(c, ops)
    ensures var c' := Run(c, ops);
            Inv(c') && Known(c'.blocks, c'.finalized) == KnownRun(Known(c.blocks, c.finalized), ops)
    decreases |ops|
  {
    hide Inv, Apply, Legal, KnownAfter;
    if ops != [] {
      ApplyKnown(c, ops[0]);
      ApplyKeepsInv(c, ops[0]);
      RunIsKnown(Apply(c, ops[0]), ops[1..]);
    }
  }

  /** After any run from the empty database the known blocks and the finalised height are those
      that the operations leave; the leaf set is exactly the known blocks without known
      children, numbered at or above the finalised height; and the children index lists under
      each hash exactly the known blocks that name it as their parent. */
  lemma LeavesAreChildlessBlocks(ops: seq<Op>)
    requires LegalRun(EMPTY, ops)
    ensures var c := Run(EMPTY, ops);
            var Known(blocks, finalized) := KnownRun(Known(map[], 0), ops);
            && c.blocks == blocks && c.finalized == finalized
            && (forall n: nat, h :: Contains(c.leaves, n, h) <==>
                  h in blocks && blocks[h].number == n && n >= finalized && !HasChild(blocks, h))
            && (forall p, h :: h in ReadChildren(c.children, p) <==> h in blocks && blocks[h].parent == p)
  {
    EmptyInv();
    RunIsKnown(EMPTY, ops);
    hide Run, KnownRun, LegalRun, Rooted, IsTree;
    var c := Run(EMPTY, ops);
    forall n: nat, h
      ensures Contains(c.leaves, n, h) <==>
                h in c.blocks && c.blocks[h].number == n && n >= c.finalized && !HasChild(c.blocks, h)
    {
      assert Contains(c.leaves, n, h) <==> IsLeaf(c, n, h);
      if HasChild(c.blocks, h) {
        var x :| x in c.blocks && c.blocks[x].parent == h;
        assert IsChild(c.blocks, h, x);
      } else {
        NewIsChildless(c, h);
      }
    }
  }

  /** Undoing the import of a new block restores the leaf set. */
  lemma UndoesImport(c: Chain, hash: Hash, number: nat, parent: Hash)
    requires Inv(c) && hash !in c.blocks
    ensures var (st, o) := Import(c.leaves, hash, number, parent);
            Same(UndoImport(st, o), c.leaves)
  {
    hide Import, UndoImport, Same, Inv, Leaves;
    LevelsOf(c);
    OnceAtMost(c, number, hash);
    if number > 0 { OnceAtMost(c, number - 1, parent); }
    UndoImportRestores(c.leaves, hash, number, parent);
  }

  /** The change that a removal makes to the leaf set. */
  function RemovalOf(c: Chain, hash: Hash): (Storage, Option<RemoveOutcome>)
    requires hash in c.blocks
  {
    var Node(number, p) := c.blocks[hash];
    var left := Without(ReadChildren(c.children, p), hash);
    Remove(c.leaves, hash, number, if left == [] then Some(p) else None)
  }

  /** Undoing the removal of a leaf block restores the leaf set. */
  lemma UndoesRemoval(c: Chain, hash: Hash, best: Hash, hasState: bool)
    requires Inv(c) && RemoveLeafBlock(c, hash, best, hasState).Ok? && Legal(c, RemoveOp(hash, best, hasState))
    ensures var (st, o) := RemovalOf(c, hash);
            && st == RemoveLeafBlock(c, hash, best, hasState).value.leaves
            && o.Some? && Same(UndoRemove(st, o.value), c.leaves)
  {
    hide Remove, UndoRemove, Same, Inv, Leaves, Without;
    LevelsOf(c);
    var Node(number, p) := c.blocks[hash];
    RemovedLevels(c, hash, best, hasState);
    OnceAtMost(c, number, hash);
    OnceAtMost(c, number - 1, p);
    var left := Without(ReadChildren(c.children, p), hash);
    UndoRemoveRestores(c.leaves, hash, number, if left == [] then Some(p) else None);
  }

  /** On every reachable database `revert` does not panic, whatever its target; undoing the
      removal of a leaf restores the leaf set; and so does undoing the import of a new block. */
  lemma ReachableLeavesCanBeUndone(ops: seq<Op>, target: Hash, best: nat, op: Op)
    requires LegalRun(EMPTY, ops) && Legal(Run(EMPTY, ops), op)
    ensures var c := Run(EMPTY, ops);
            && Revert(c.leaves, target, best).Some?
            && (op.RemoveOp? && RemoveLeafBlock(c, op.hash, op.best, op.hasState).Ok? ==>
                  var (st, o) := RemovalOf(c, op.hash);
                  o.Some? && Same(UndoRemove(st, o.value), c.leaves))
            && (op.ImportOp? && op.hash !in c.blocks ==>
                  var (st, o) := Import(c.leaves, op.hash, op.number, op.parent);
                  Same(UndoImport(st, o), c.leaves))
  {
    hide Run, LegalRun, Legal, Revert, Import, UndoImport, UndoRemove, Same, Inv, RemovalOf, RemoveLeafBlock, NoDup;
    EmptyInv();
    RunKeepsInv(EMPTY, ops);
    var c := Run(EMPTY, ops);
    LevelsOf(c);
    RevertSpec(c.leaves, target, best);
    match op
    case ImportOp(hash, number, parent) =>
      if hash !in c.blocks { UndoesImport(c, hash, number, parent); }
    case RemoveOp(hash, b, hasState) =>
      if RemoveLeafBlock(c, hash, b, hasState).Ok? {
        RemovedIsKnown(c, hash, b, hasState);
        UndoesRemoval(c, hash, b, hasState);
      }
    case FinalizeOp(_) =>
  }

  lemma EmptyInv()
    ensures Inv(EMPTY)
  {
  }

  lemma RemovedIsKnown(c: Chain, hash: Hash, best: Hash, hasState: bool)
    requires RemoveLeafBlock(c, hash, best, hasState).Ok?
    ensures hash in c.blocks && hash != best && hasState
  {
  }

  lemma LevelsOf(c: Chain)
    requires Inv(c)
    ensures Proper(c.leaves) && forall n :: n in c.leaves ==> NoDup(c.leaves[n])
  {
    forall n | n in c.leaves ensures NoDup(c.leaves[n]) { assert NoDup(Level(c.leaves, n)); }
  }

  /** A block is a leaf at most once, and one that is not known not at all. */
  lemma OnceAtMost(c: Chain, n: nat, h: Hash)
    requires Inv(c)
    ensures Leaves(c.leaves, n)[h] <= 1
    ensures h in Leaves(c.leaves, n) <==> Contains(c.leaves, n, h)
    ensures h !in c.blocks ==> h !in Leaves(c.leaves, n)
  {
    assert NoDup(Level(c.leaves, n));
    CountOnce(Level(c.leaves, n), h);
    assert Contains(c.leaves, n, h) <==> IsLeaf(c, n, h);
  }

  lemma {:induction false} CountOnce(s: seq<Hash>, h: Hash)
    requires NoDup(s)
    ensures multiset(s)[h] <= 1
  {
    if s != [] {
      var front, last := s[..|s| - 1], s[|s| - 1];
      assert s == front + [last];
      CountOnce(front, h);
      assert last !in front;
    }
  }
}
