/** The leaf set of the block database as an object. Each method computes the function of the
    same name in `LeafSet`. */
module LeafSetObject {
  import opened Types
  import L = LeafSet

  class LeafSet {
    var storage: L.Storage

    constructor ()
      ensures storage == map[]
    {
      storage := map[];
    }

    method InsertLeaf(number: nat, hash: Hash)
      modifies this
      ensures storage == L.InsertLeaf(old(storage), number, hash)
    {
      var level := if number in storage then storage[number] else [];
      storage := storage[number := level + [hash]];
    }

    /** `retain` walks the level once and notes whether it met the hash. */
    method RemoveLeaf(number: nat, hash: Hash) returns (removed: bool)
      modifies this
      ensures (storage, removed) == L.RemoveLeaf(old(storage), number, hash)
    {
      if number !in storage {
        return false;
      }
      var leaves := storage[number];
      var left: seq<Hash> := [];
      removed := false;
      var i := |leaves|;
      while i > 0
        invariant 0 <= i <= |leaves|
        invariant left == L.Without(leaves[i..], hash)
        invariant removed <==> hash in leaves[i..]
      {
        i := i - 1;
        assert leaves[i..] == [leaves[i]] + leaves[i + 1..];
        if leaves[i] == hash {
          removed := true;
        } else {
          left := [leaves[i]] + left;
        }
      }
      assert leaves[0..] == leaves;
      if removed && left == [] {
        storage := storage - {number};
      } else {
        storage := storage[number := left];
      }
    }

    method Import(hash: Hash, number: nat, parentHash: Hash) returns (o: L.ImportOutcome)
      modifies this
      ensures (storage, o) == L.Import(old(storage), hash, number, parentHash)
    {
      var removed := false;
      if number != 0 {
        removed := RemoveLeaf(number - 1, parentHash);
      }
      InsertLeaf(number, hash);
      return L.ImportOutcome(hash, number, if removed then Some(parentHash) else None);
    }

    method Remove(hash: Hash, number: nat, parentHash: Option<Hash>) returns (o: Option<L.RemoveOutcome>)
      modifies this
      ensures (storage, o) == L.Remove(old(storage), hash, number, parentHash)
    {
      var removed := RemoveLeaf(number, hash);
      if !removed {
        return None;
      }
      if parentHash.Some? && number != 0 {
        InsertLeaf(number - 1, parentHash.value);
        return Some(L.RemoveOutcome(parentHash, hash, number));
      }
      return Some(L.RemoveOutcome(None, hash, number));
    }

    /** `split_off`: the levels from `boundary` downwards, taken out one by one. */
    method SplitOff(boundary: nat) returns (below: L.Storage)
      modifies this
      ensures forall n :: n in below <==> n in old(storage) && n <= boundary
      ensures forall n :: n in storage <==> n in old(storage) && n > boundary
      ensures forall n :: n in below ==> below[n] == old(storage)[n]
      ensures forall n :: n in storage ==> storage[n] == old(storage)[n]
    {
      below := map[];
      var todo: set<nat> := set n | n in storage.Keys && n <= boundary;
      while todo != {}
        invariant forall n :: n in todo ==> n in storage && n <= boundary
        invariant forall n :: n in old(storage) <==> n in storage || n in below
        invariant forall n :: n in below ==> n !in storage && n <= boundary && below[n] == old(storage)[n]
        invariant forall n :: n in storage ==> storage[n] == old(storage)[n] && (n <= boundary ==> n in todo)
        decreases |todo|
      {
        var n :| n in todo;
        below := below[n := storage[n]];
        storage := storage - {n};
        todo := todo - {n};
      }
    }

    /** Every leaf stays or is displaced: it stays if it is at or above the height, and undoing
        puts everything back. */
    method FinalizeHeight(number: nat) returns (removed: L.Storage)
      modifies this
      ensures forall n: nat, h :: L.Contains(storage, n, h) <==> L.Contains(old(storage), n, h) && n >= number
      ensures forall n: nat, h :: L.Contains(removed, n, h) <==> L.Contains(old(storage), n, h) && n < number
      ensures L.UndoFinalization(storage, removed) == old(storage)
      ensures (storage, removed) == L.FinalizeHeight(old(storage), number)
    {
      removed := map[];
      if number > 0 {
        removed := SplitOff(number - 1);
      }
      assert storage == L.FinalizeHeight(old(storage), number).0;
      assert removed == L.FinalizeHeight(old(storage), number).1;
    }

    method UndoImport(o: L.ImportOutcome)
      modifies this
      ensures storage == L.UndoImport(old(storage), o)
    {
      if o.removed.Some? && o.number > 0 {
        InsertLeaf(o.number - 1, o.removed.value);
      }
      var _ := RemoveLeaf(o.number, o.hash);
    }

    method UndoRemove(o: L.RemoveOutcome)
      modifies this
      ensures storage == L.UndoRemove(old(storage), o)
    {
      if o.inserted.Some? && o.number > 0 {
        var _ := RemoveLeaf(o.number - 1, o.inserted.value);
      }
      InsertLeaf(o.number, o.hash);
    }

    /** `append`: the displaced levels are put back one by one. Whatever run of finalisations
        displaced them, the leaf set is the one before that run. */
    method UndoFinalization(removed: L.Storage)
      modifies this
      ensures storage == L.UndoFinalization(old(storage), removed)
      ensures forall st, heights :: L.FinalizeAll(st, heights) == (old(storage), removed) ==> storage == st
    {
      var todo := removed.Keys;
      while todo != {}
        invariant todo <= removed.Keys
        invariant forall n :: n in storage <==> n in old(storage) || (n in removed && n !in todo)
        invariant forall n :: n in storage ==>
                    storage[n] == if n in removed && n !in todo then removed[n] else old(storage)[n]
        decreases |todo|
      {
        var n :| n in todo;
        storage := storage[n := removed[n]];
        todo := todo - {n};
      }
      assert storage == L.UndoFinalization(old(storage), removed);
      forall st, heights | L.FinalizeAll(st, heights) == (old(storage), removed)
        ensures storage == st
      {
        L.UndoFinalizationRestores(st, heights);
      }
    }

    /** All leaves with their numbers, read off level by level from the top. */
    method CollectItems() returns (items: seq<(Hash, nat)>)
      ensures items == L.Items(storage)
    {
      items := [];
      var rest := storage;
      while rest != map[]
        invariant items + L.Items(rest) == L.Items(storage)
        decreases |rest|
      {
        L.MaxExists(rest.Keys);
        var n :| n in rest.Keys && forall m :: m in rest.Keys ==> m <= n;
        assert n == L.MaxKey(rest);
        assert (rest - {n}).Keys == rest.Keys - {n};
        items := items + L.Tagged(rest[n], n);
        rest := rest - {n};
      }
    }

    /** `ok` is false when the assertion inside the loop fires. */
    method Revert(bestHash: Hash, bestNumber: nat) returns (ok: bool)
      modifies this
      ensures ok == L.Revert(old(storage), bestHash, bestNumber).Some?
      ensures ok ==> storage == L.Revert(old(storage), bestHash, bestNumber).value
    {
      var items := CollectItems();
      var i := 0;
      while i < |items|
        invariant 0 <= i <= |items|
        invariant L.Drain(storage, items[i..], bestNumber) == L.Drain(old(storage), items, bestNumber)
      {
        assert items[i..][1..] == items[i + 1..];
        var (hash, number) := items[i];
        if number > bestNumber {
          var removed := RemoveLeaf(number, hash);
          if !removed {
            return false;
          }
        }
        i := i + 1;
      }
      if !(bestNumber in storage && bestHash in storage[bestNumber]) {
        InsertLeaf(bestNumber, bestHash);
      }
      return true;
    }
  }
}
