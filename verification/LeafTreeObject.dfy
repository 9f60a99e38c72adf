/** The part of the block database that maintains leaves and children, as an object. Each
    method computes the function of the same name in `LeafTree`. */
module LeafTreeObject {
  import opened Types
  import L = LeafSet
  import T = LeafTree
  import LeafSetObject

  class Backend {
    var blocks: map<Hash, T.Node>
    var children: map<Hash, seq<Hash>>
    var finalizedNumber: nat
    const leaves: LeafSetObject.LeafSet

    ghost function View(): T.Chain
      reads this, leaves
    {
      T.Chain(blocks, children, leaves.storage, finalizedNumber)
    }

    constructor ()
      ensures View() == T.EMPTY && fresh(leaves)
    {
      blocks := map[];
      children := map[];
      finalizedNumber := 0;
      leaves := new LeafSetObject.LeafSet();
    }

    /** Number of the highest leaf, zero when there is none. */
    method HighestLeaf() returns (n: nat)
      ensures n == T.HighestLeaf(leaves.storage)
    {
      if leaves.storage == map[] {
        return 0;
      }
      L.MaxExists(leaves.storage.Keys);
      n :| n in leaves.storage.Keys && forall m :: m in leaves.storage.Keys ==> m <= n;
    }

    method ImportBlock(hash: Hash, number: nat, parentHash: Hash)
      modifies this, leaves
      ensures View() == T.ImportBlock(old(View()), hash, number, parentHash)
    {
      var highestLeaf := HighestLeaf();
      var existingHeader := number <= highestLeaf && hash in blocks;
      blocks := blocks[hash := T.Node(number, parentHash)];
      if !existingHeader {
        if number > finalizedNumber || finalizedNumber == 0 {
          var _ := leaves.Import(hash, number, parentHash);
        }
        var siblings := T.ReadChildren(children, parentHash);
        if hash !in siblings {
          children := children[parentHash := siblings + [hash]];
        }
      }
    }

    /** Keeps the children other than `hash`, in order. */
    method OtherChildren(parentHash: Hash, hash: Hash) returns (left: seq<Hash>)
      ensures left == L.Without(T.ReadChildren(children, parentHash), hash)
    {
      var all := T.ReadChildren(children, parentHash);
      left := [];
      var i := |all|;
      while i > 0
        invariant 0 <= i <= |all|
        invariant left == L.Without(all[i..], hash)
      {
        i := i - 1;
        assert all[i..][0] == all[i] && all[i..][1..] == all[i + 1..];
        if all[i] != hash {
          left := [all[i]] + left;
        }
      }
      assert all[0..] == all;
    }

    method RemoveLeafBlock(hash: Hash, bestHash: Hash, hasState: bool) returns (r: Result<(), T.RemoveError>)
      modifies this, leaves
      ensures match T.RemoveLeafBlock(old(View()), hash, bestHash, hasState)
              case Err(e) => r == Err(e) && View() == old(View())
              case Ok(c) => r == Ok(()) && View() == c
    {
      if bestHash == hash {
        return Err(T.BestBlock);
      }
      if hash !in blocks {
        return Err(T.UnknownBlock);
      }
      if !hasState {
        return Err(T.StateDiscarded);
      }
      var node := blocks[hash];
      if !L.Contains(leaves.storage, node.number, hash) {
        return Err(T.NotALeaf);
      }
      blocks := blocks - {hash};
      var left := OtherChildren(node.parent, hash);
      var parentLeaf: Option<Hash> := None;
      if left == [] {
        children := children - {node.parent};
        parentLeaf := Some(node.parent);
      } else {
        children := children[node.parent := left];
      }
      var _ := leaves.Remove(hash, node.number, parentLeaf);
      return Ok(());
    }

    method Finalize(number: nat) returns (displaced: L.Storage)
      modifies this, leaves
      ensures View() == T.Finalize(old(View()), number)
      ensures displaced == L.FinalizeHeight(old(leaves.storage), number).1
    {
      displaced := leaves.FinalizeHeight(number);
      finalizedNumber := number;
    }
  }
}
