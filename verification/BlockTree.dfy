/** The tree of block headers and the route between two of its blocks. */
module BlockTree {
  import opened Types
  import opened LeafTree

  type Blocks = map<Hash, Node>

  /** A tree with one root: every other block has its parent, one number below. */
  ghost predicate SingleRoot(b: Blocks) {
    IsTree(b) && forall x, y :: x in b && y in b && b[x].number == 0 && b[y].number == 0 ==> x == y
  }

  // ---- ancestors ----

  /** The ancestor of `h` with number `n`, or `h` itself. */
  ghost function Ancestor(b: Blocks, h: Hash, n: nat): (a: Hash)
    requires IsTree(b) && h in b && n <= b[h].number
    ensures a in b && b[a].number == n
    decreases b[h].number
  {
    assert ParentBelow(b, h);
    if b[h].number == n then h else Ancestor(b, b[h].parent, n)
  }

  lemma {:induction false} AncestorOfAncestor(b: Blocks, h: Hash, m: nat, n: nat)
    requires IsTree(b) && h in b && n <= m <= b[h].number
    ensures Ancestor(b, Ancestor(b, h, m), n) == Ancestor(b, h, n)
    decreases b[h].number
  {
    assert ParentBelow(b, h);
    if m < b[h].number {
      AncestorOfAncestor(b, b[h].parent, m, n);
    }
  }

  /** Adding a block on top keeps everybody's ancestors. */
  lemma {:induction false} AncestorFrame(b: Blocks, b': Blocks, h: Hash, n: nat)
    requires IsTree(b) && IsTree(b') && h in b && n <= b[h].number
    requires forall x :: x in b ==> x in b' && b'[x] == b[x]
    ensures Ancestor(b', h, n) == Ancestor(b, h, n)
    decreases b[h].number
  {
    assert ParentBelow(b, h);
    if b[h].number > n {
      AncestorFrame(b, b', b[h].parent, n);
    }
  }

  ghost predicate OnChainOf(b: Blocks, a: Hash, h: Hash)
    requires IsTree(b)
  {
    a in b && h in b && b[a].number <= b[h].number && Ancestor(b, h, b[a].number) == a
  }

  /** The number of the last common ancestor, looking downwards from `n`. */
  ghost function CommonFrom(b: Blocks, x: Hash, y: Hash, n: nat): (c: nat)
    requires SingleRoot(b) && x in b && y in b && n <= b[x].number && n <= b[y].number
    ensures c <= n && Ancestor(b, x, c) == Ancestor(b, y, c)
    ensures forall m: nat :: c < m <= n ==> Ancestor(b, x, m) != Ancestor(b, y, m)
  {
    if Ancestor(b, x, n) == Ancestor(b, y, n) then n else CommonFrom(b, x, y, n - 1)
  }

  /** The number of the last common ancestor of two blocks. */
  ghost function Common(b: Blocks, x: Hash, y: Hash): nat
    requires SingleRoot(b) && x in b && y in b
  {
    CommonFrom(b, x, y, Min(b[x].number, b[y].number))
  }

  /** Below the last common ancestor the two chains are one. */
  lemma CommonBelow(b: Blocks, x: Hash, y: Hash, m: nat)
    requires SingleRoot(b) && x in b && y in b && m <= Common(b, x, y)
    ensures Ancestor(b, x, m) == Ancestor(b, y, m)
  {
    var c := Common(b, x, y);
    AncestorOfAncestor(b, x, c, m);
    AncestorOfAncestor(b, y, c, m);
  }

  // ---- routes ----

  datatype HashAndNumber = HashAndNumber(number: nat, hash: Hash)

  /** `route[..pivot]` is retracted, `route[pivot]` the common block, the rest enacted. */
  datatype TreeRoute = TreeRoute(route: seq<HashAndNumber>, pivot: nat)

  ghost function At(b: Blocks, h: Hash, n: nat): HashAndNumber
    requires IsTree(b) && h in b && n <= b[h].number
  {
    HashAndNumber(n, Ancestor(b, h, n))
  }

  /** The chain of `h` from its own number down to `low` exclusive. */
  ghost function Down(b: Blocks, h: Hash, low: nat): (r: seq<HashAndNumber>)
    requires IsTree(b) && h in b && low <= b[h].number
    ensures |r| == b[h].number - low
    ensures forall i :: 0 <= i < |r| ==> r[i] == At(b, h, b[h].number - i)
    decreases b[h].number - low
  {
    seq(b[h].number - low, i requires 0 <= i < b[h].number - low => At(b, h, b[h].number - i))
  }

  /** The chain of `h` from above `low` up to `h` itself. */
  ghost function Up(b: Blocks, h: Hash, low: nat): (r: seq<HashAndNumber>)
    requires IsTree(b) && h in b && low <= b[h].number
    ensures |r| == b[h].number - low
    ensures forall i :: 0 <= i < |r| ==> r[i] == At(b, h, low + 1 + i)
  {
    seq(b[h].number - low, i requires 0 <= i < b[h].number - low => At(b, h, low + 1 + i))
  }

  /** Retracted blocks go down from `from` to the last common ancestor, enacted blocks go up
      from it to `to`. */
  ghost function Route(b: Blocks, from: Hash, to: Hash): TreeRoute
    requires SingleRoot(b) && from in b && to in b
  {
    var c := Common(b, from, to);
    TreeRoute(Down(b, from, c) + [At(b, to, c)] + Up(b, to, c), b[from].number - c)
  }

  function Reversed(s: seq<HashAndNumber>): (r: seq<HashAndNumber>)
    ensures |r| == |s| && forall i :: 0 <= i < |s| ==> r[i] == s[|s| - 1 - i]
  {
    if s == [] then [] else Reversed(s[1..]) + [s[0]]
  }

  lemma DownStep(b: Blocks, h: Hash, x: Hash)
    requires IsTree(b) && OnChainOf(b, x, h) && b[x].number > 0
    ensures OnChainOf(b, b[x].parent, h) && b[b[x].parent].number == b[x].number - 1
    ensures Down(b, h, b[x].number - 1) == Down(b, h, b[x].number) + [HashAndNumber(b[x].number, x)]
  {
    assert ParentBelow(b, x);
    AncestorOfAncestor(b, h, b[x].number, b[x].number - 1);
    assert Ancestor(b, x, b[x].number - 1) == Ancestor(b, b[x].parent, b[x].number - 1);
  }

  lemma Tree(b: Blocks)
    requires SingleRoot(b)
    ensures IsTree(b)
  {
  }

  lemma OnOwnChain(b: Blocks, h: Hash)
    requires IsTree(b) && h in b
    ensures OnChainOf(b, h, h)
  {
  }

  lemma CommonIsBelow(b: Blocks, from: Hash, to: Hash)
    requires SingleRoot(b) && from in b && to in b
    ensures Common(b, from, to) <= Min(b[from].number, b[to].number)
  {
  }

  /** Two different blocks of the same height, one on each chain, are above the last common
      ancestor; */
  lemma NotYetMet(b: Blocks, from: Hash, to: Hash, f: Hash, t: Hash)
    requires SingleRoot(b) && OnChainOf(b, f, from) && OnChainOf(b, t, to) && f != t
    requires Common(b, from, to) <= b[f].number == b[t].number
    ensures b[f].number > Common(b, from, to)
  {
  }

  /** and a block on both chains, not below it, is it. */
  lemma MetAtCommon(b: Blocks, from: Hash, to: Hash, f: Hash)
    requires SingleRoot(b) && OnChainOf(b, f, from) && OnChainOf(b, f, to)
    requires Common(b, from, to) <= b[f].number
    ensures b[f].number == Common(b, from, to) && f == Ancestor(b, to, Common(b, from, to))
  {
  }

  /** The search of the original: walk both blocks up to the same height, then both together
      until they meet. It finds the route, or reports the block that is missing. */
  method FindRoute(b: Blocks, from: Hash, to: Hash) returns (r: Result<TreeRoute, Hash>)
    requires SingleRoot(b)
    ensures from in b && to in b ==> r == Ok(Route(b, from, to))
    ensures r.Err? <==> from !in b || to !in b
    ensures r.Err? ==> r.error == if from !in b then from else to
  {
    hide Ancestor, Down, Up, CommonFrom, SingleRoot, IsTree;
    Tree(b);
    if from !in b { return Err(from); }
    if to !in b { return Err(to); }
    OnOwnChain(b, from);
    OnOwnChain(b, to);
    var f, t := from, to;
    var fromBranch: seq<HashAndNumber> := [];
    var toBranch: seq<HashAndNumber> := [];
    while b[t].number > b[f].number
      invariant f == from && OnChainOf(b, t, to)
      invariant b[t].number >= Min(b[from].number, b[to].number)
      invariant toBranch == Down(b, to, b[t].number)
      decreases b[t].number
    {
      DownStep(b, to, t);
      toBranch := toBranch + [HashAndNumber(b[t].number, t)];
      t := b[t].parent;
    }
    while b[f].number > b[t].number
      invariant OnChainOf(b, f, from) && OnChainOf(b, t, to)
      invariant b[f].number >= b[t].number == Min(b[from].number, b[to].number)
      invariant fromBranch == Down(b, from, b[f].number) && toBranch == Down(b, to, b[t].number)
      decreases b[f].number
    {
      DownStep(b, from, f);
      fromBranch := fromBranch + [HashAndNumber(b[f].number, f)];
      f := b[f].parent;
    }
    ghost var c := Common(b, from, to);
    CommonIsBelow(b, from, to);
    while t != f
      invariant OnChainOf(b, f, from) && OnChainOf(b, t, to)
      invariant c <= b[f].number == b[t].number <= Min(b[from].number, b[to].number)
      invariant fromBranch == Down(b, from, b[f].number) && toBranch == Down(b, to, b[t].number)
      decreases b[f].number
    {
      NotYetMet(b, from, to, f, t);
      DownStep(b, to, t);
      toBranch := toBranch + [HashAndNumber(b[t].number, t)];
      t := b[t].parent;
      DownStep(b, from, f);
      fromBranch := fromBranch + [HashAndNumber(b[f].number, f)];
      f := b[f].parent;
    }
    MetAtCommon(b, from, to, f);
    assert Reversed(toBranch) == Up(b, to, c);
    var pivot := |fromBranch|;
    fromBranch := fromBranch + [HashAndNumber(b[t].number, t)] + Reversed(toBranch);
    r := Ok(TreeRoute(fromBranch, pivot));
  }
}
