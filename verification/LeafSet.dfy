/** The set of chain leaves: hashes by block number, kept up to date on import, removal and
    finalisation, with an undo log for each of the three. Numbers map to lists, newest last;
    the original's map is ordered by descending number, which matters only where it is read
    in order (`hashes`, `highest_leaf`, `revert`). */
module LeafSet {
  import opened Types

  type Storage = map<nat, seq<Hash>>

  function Level(st: Storage, n: nat): seq<Hash> {
    if n in st then st[n] else []
  }

  predicate Contains(st: Storage, n: nat, h: Hash) {
    h in Level(st, n)
  }

  // ---- operations on levels ----

  /** `retain`: every copy of `h` goes, the rest keeps its order. */
  function Without(s: seq<Hash>, h: Hash): (r: seq<Hash>)
    ensures forall x :: x in r <==> x in s && x != h
    ensures multiset(r) == multiset(s)[h := 0]
  {
    if s == [] then []
    else
      var r := if s[0] == h then Without(s[1..], h) else [s[0]] + Without(s[1..], h);
      assert s == [s[0]] + s[1..];
      r
  }

  lemma {:induction false} WithoutAbsent(s: seq<Hash>, h: Hash)
    requires h !in s
    ensures Without(s, h) == s
  {
    if s != [] {
      WithoutAbsent(s[1..], h);
    }
  }

  function InsertLeaf(st: Storage, n: nat, h: Hash): Storage {
    st[n := Level(st, n) + [h]]
  }

  /** Whether the leaf was there, and the storage without it. A level that becomes empty is
      removed. */
  function RemoveLeaf(st: Storage, n: nat, h: Hash): (Storage, bool) {
    if n !in st then (st, false)
    else
      var left := Without(st[n], h);
      if h in st[n] && left == [] then (st - {n}, true)
      else (st[n := left], h in st[n])
  }

  /** One leaf goes completely and nothing else changes. */
  lemma RemoveLeafSpec(st: Storage, n: nat, h: Hash)
    ensures var (st', removed) := RemoveLeaf(st, n, h);
            && removed == Contains(st, n, h)
            && (!removed ==> st' == st)
            && (forall m: nat :: Level(st', m) == if m == n then Without(Level(st, n), h) else Level(st, m))
            && (Proper(st) ==> Proper(st'))
  {
    if n in st && h !in st[n] {
      WithoutAbsent(st[n], h);
    }
    var (st', removed) := RemoveLeaf(st, n, h);
    assert !removed ==> st' == st;
  }

  /** No level is empty. */
  predicate Proper(st: Storage) {
    forall n :: n in st ==> st[n] != []
  }

  // ---- the operations and their outcomes ----

  datatype ImportOutcome = ImportOutcome(hash: Hash, number: nat, removed: Option<Hash>)
  datatype RemoveOutcome = RemoveOutcome(inserted: Option<Hash>, hash: Hash, number: nat)

  function Import(st: Storage, hash: Hash, number: nat, parent: Hash): (Storage, ImportOutcome) {
    if number != 0 then
      var (st1, removed) := RemoveLeaf(st, number - 1, parent);
      (InsertLeaf(st1, number, hash), ImportOutcome(hash, number, if removed then Some(parent) else None))
    else
      (InsertLeaf(st, number, hash), ImportOutcome(hash, number, None))
  }

  /** `parent` is given when `hash` is its last child. */
  function Remove(st: Storage, hash: Hash, number: nat, parent: Option<Hash>): (Storage, Option<RemoveOutcome>) {
    var (st1, removed) := RemoveLeaf(st, number, hash);
    if !removed then (st1, None)
    else if parent.Some? && number != 0 then
      (InsertLeaf(st1, number - 1, parent.value), Some(RemoveOutcome(parent, hash, number)))
    else
      (st1, Some(RemoveOutcome(None, hash, number)))
  }

  /** What is displaced: every leaf below the finalised height. */
  function FinalizeHeight(st: Storage, number: nat): (Storage, Storage) {
    (map n | n in st && n >= number :: st[n], map n | n in st && n < number :: st[n])
  }

  /** `BTreeMap::append`: on a common key the argument wins. */
  function Merge(a: Storage, b: Storage): Storage {
    a + b
  }

  function UndoImport(st: Storage, o: ImportOutcome): Storage {
    var st1 := if o.removed.Some? && o.number > 0 then InsertLeaf(st, o.number - 1, o.removed.value) else st;
    RemoveLeaf(st1, o.number, o.hash).0
  }

  function UndoRemove(st: Storage, o: RemoveOutcome): Storage {
    var st1 := if o.inserted.Some? && o.number > 0 then RemoveLeaf(st, o.number - 1, o.inserted.value).0 else st;
    InsertLeaf(st1, o.number, o.hash)
  }

  function UndoFinalization(st: Storage, removed: Storage): Storage {
    st + removed
  }

  // ---- undo ----

  /** How often each hash is a leaf of level `n`. */
  ghost function Leaves(st: Storage, n: nat): multiset<Hash> {
    multiset(Level(st, n))
  }

  /** The same leaves, as often, on the same levels; the order within a level may differ. */
  ghost predicate Same(a: Storage, b: Storage) {
    a.Keys == b.Keys && forall n: nat :: Leaves(a, n) == Leaves(b, n)
  }

  lemma SameLeaves(a: Storage, b: Storage)
    requires Proper(a) && Proper(b)
    ensures Same(a, b) <==> forall n: nat :: Leaves(a, n) == Leaves(b, n)
  {
    if forall n: nat :: Leaves(a, n) == Leaves(b, n) {
      forall n: nat
        ensures n in a <==> n in b
      {
        assert Leaves(a, n) == Leaves(b, n);
        assert n in a ==> FirstLeaf(a, n) in Leaves(a, n);
        assert n in b ==> FirstLeaf(b, n) in Leaves(b, n);
      }
    }
  }

  ghost function FirstLeaf(st: Storage, n: nat): Hash
    requires n in st && st[n] != []
  {
    st[n][0]
  }

  lemma InsertLeaves(st: Storage, n: nat, h: Hash)
    ensures var st' := InsertLeaf(st, n, h);
            && (forall m: nat :: Leaves(st', m) == if m == n then Leaves(st, n) + multiset{h} else Leaves(st, m))
            && (Proper(st) ==> Proper(st'))
  {
  }

  lemma RemoveLeaves(st: Storage, n: nat, h: Hash)
    ensures var (st', removed) := RemoveLeaf(st, n, h);
            && removed == (h in Leaves(st, n))
            && (forall m: nat :: Leaves(st', m) == if m == n then Leaves(st, n)[h := 0] else Leaves(st, m))
            && (Proper(st) ==> Proper(st'))
  {
    RemoveLeafSpec(st, n, h);
  }

  lemma UndoImportLeaves(st: Storage, hash: Hash, number: nat, parent: Hash)
    requires Proper(st)
    ensures var (st', o) := Import(st, hash, number, parent);
            var st'' := UndoImport(st', o);
            && Proper(st'')
            && (forall m: nat ::
                  Leaves(st'', m) ==
                    if m == number then Leaves(st, m)[hash := 0]
                    else if number > 0 && m == number - 1 && parent in Leaves(st, m) then Leaves(st, m)[parent := 1]
                    else Leaves(st, m))
  {
    hide RemoveLeaf, InsertLeaf, Leaves, Proper;
    if number > 0 {
      var (st1, removed) := RemoveLeaf(st, number - 1, parent);
      RemoveLeaves(st, number - 1, parent);
      InsertLeaves(st1, number, hash);
      var st2 := InsertLeaf(st1, number, hash);
      InsertLeaves(st2, number - 1, parent);
      RemoveLeaves(if removed then InsertLeaf(st2, number - 1, parent) else st2, number, hash);
      assert removed ==> Leaves(st, number - 1)[parent := 0] + multiset{parent} == Leaves(st, number - 1)[parent := 1];
      assert (Leaves(st, number) + multiset{hash})[hash := 0] == Leaves(st, number)[hash := 0];
    } else {
      InsertLeaves(st, number, hash);
      RemoveLeaves(InsertLeaf(st, number, hash), number, hash);
      assert (Leaves(st, number) + multiset{hash})[hash := 0] == Leaves(st, number)[hash := 0];
    }
  }

  /** Undoing an import restores the leaves exactly when the hash was not a leaf of that level
      before and the parent was a leaf at most once. */
  lemma UndoImportRestores(st: Storage, hash: Hash, number: nat, parent: Hash)
    requires Proper(st)
    ensures var (st', o) := Import(st, hash, number, parent);
            Same(UndoImport(st', o), st) <==>
              hash !in Leaves(st, number) && (number > 0 ==> Leaves(st, number - 1)[parent] <= 1)
  {
    hide Leaves, UndoImport, Import, Proper, Same;
    var (st', o) := Import(st, hash, number, parent);
    var st'' := UndoImport(st', o);
    UndoImportLeaves(st, hash, number, parent);
    SameLeaves(st'', st);
    assert Leaves(st'', number) == Leaves(st, number) <==> hash !in Leaves(st, number);
    if number > 0 {
      var b := Leaves(st, number - 1);
      assert Leaves(st'', number - 1) == b <==> b[parent] <= 1;
    }
  }

  lemma UndoRemoveLeaves(st: Storage, hash: Hash, number: nat, parent: Option<Hash>)
    requires Proper(st) && hash in Leaves(st, number)
    ensures Remove(st, hash, number, parent).1.Some?
    ensures var (st', o) := Remove(st, hash, number, parent);
            var st'' := UndoRemove(st', o.value);
            && Proper(st'')
            && (forall m: nat ::
                  Leaves(st'', m) ==
                    if m == number then Leaves(st, m)[hash := 1]
                    else if number > 0 && m == number - 1 && parent.Some? then Leaves(st, m)[parent.value := 0]
                    else Leaves(st, m))
  {
    hide RemoveLeaf, InsertLeaf, Leaves, Proper;
    var (st1, removed) := RemoveLeaf(st, number, hash);
    RemoveLeaves(st, number, hash);
    assert Leaves(st, number)[hash := 0] + multiset{hash} == Leaves(st, number)[hash := 1];
    if parent.Some? && number != 0 {
      var st2 := InsertLeaf(st1, number - 1, parent.value);
      InsertLeaves(st1, number - 1, parent.value);
      RemoveLeaves(st2, number - 1, parent.value);
      InsertLeaves(RemoveLeaf(st2, number - 1, parent.value).0, number, hash);
      var b := Leaves(st, number - 1);
      assert (b + multiset{parent.value})[parent.value := 0] == b[parent.value := 0];
    } else {
      InsertLeaves(st1, number, hash);
    }
  }

  /** Undoing a removal restores the leaves exactly when the hash was a leaf of its level once
      and the parent that was put back was not a leaf already. */
  lemma UndoRemoveRestores(st: Storage, hash: Hash, number: nat, parent: Option<Hash>)
    requires Proper(st) && hash in Leaves(st, number)
    ensures Remove(st, hash, number, parent).1.Some?
    ensures var (st', o) := Remove(st, hash, number, parent);
            Same(UndoRemove(st', o.value), st) <==>
              Leaves(st, number)[hash] == 1 && (number > 0 && parent.Some? ==> parent.value !in Leaves(st, number - 1))
  {
    hide Leaves, UndoRemove, Remove, Proper, Same;
    UndoRemoveLeaves(st, hash, number, parent);
    var (st', o) := Remove(st, hash, number, parent);
    var st'' := UndoRemove(st', o.value);
    SameLeaves(st'', st);
    assert Leaves(st'', number) == Leaves(st, number) <==> Leaves(st, number)[hash] == 1;
    if number > 0 && parent.Some? {
      var b := Leaves(st, number - 1);
      assert Leaves(st'', number - 1) == b <==> parent.value !in b;
    }
  }

  /** Finalises heights one after the other and merges what they displace. */
  function FinalizeAll(st: Storage, heights: seq<nat>): (Storage, Storage) {
    if heights == [] then (st, map[])
    else
      var (st1, removed1) := FinalizeAll(st, heights[..|heights| - 1]);
      var (st2, removed2) := FinalizeHeight(st1, heights[|heights| - 1]);
      (st2, Merge(removed1, removed2))
  }

  /** Undoing any merged run of finalisations restores the map exactly, order included. */
  lemma {:induction false} UndoFinalizationRestores(st: Storage, heights: seq<nat>)
    ensures var (st', removed) := FinalizeAll(st, heights);
            st'.Keys !! removed.Keys && UndoFinalization(st', removed) == st
  {
    if heights != [] {
      UndoFinalizationRestores(st, heights[..|heights| - 1]);
      var (st1, removed1) := FinalizeAll(st, heights[..|heights| - 1]);
      var (st2, removed2) := FinalizeHeight(st1, heights[|heights| - 1]);
      assert st2 + (removed1 + removed2) == st1 + removed1;
    }
  }

  /** After finalising, exactly the levels at or above the highest finalised height remain. */
  lemma {:induction false} FinalizeAllKeeps(st: Storage, heights: seq<nat>)
    ensures var st' := FinalizeAll(st, heights).0;
            forall n :: n in st' <==> n in st && (forall i :: 0 <= i < |heights| ==> heights[i] <= n)
  {
    if heights != [] {
      FinalizeAllKeeps(st, heights[..|heights| - 1]);
      var last := heights[|heights| - 1];
      assert heights == heights[..|heights| - 1] + [last];
    }
  }

  // ---- reading in order, and revert ----

  lemma MaxExists(keys: set<nat>)
    requires keys != {}
    ensures exists n :: n in keys && forall m :: m in keys ==> m <= n
  {
    var k :| k in keys;
    if keys != {k} {
      MaxExists(keys - {k});
      var n :| n in keys - {k} && forall m :: m in keys - {k} ==> m <= n;
      var top := if k > n then k else n;
      forall m | m in keys
        ensures m <= top
      {
        if m != k { assert m in keys - {k}; }
      }
      assert top in keys;
    }
  }

  ghost function MaxKey(st: Storage): (n: nat)
    requires st != map[]
    ensures n in st && forall m :: m in st ==> m <= n
  {
    MaxExists(st.Keys);
    var n :| n in st.Keys && forall m :: m in st.Keys ==> m <= n;
    n
  }

  function Tagged(hs: seq<Hash>, n: nat): (r: seq<(Hash, nat)>)
    ensures |r| == |hs| && forall i :: 0 <= i < |hs| ==> r[i] == (hs[i], n)
  {
    seq(|hs|, i requires 0 <= i < |hs| => (hs[i], n))
  }

  /** All leaves with their numbers, highest level first. */
  ghost function Items(st: Storage): seq<(Hash, nat)>
    decreases |st|
  {
    if st == map[] then []
    else
      var n := MaxKey(st);
      assert (st - {n}).Keys == st.Keys - {n};
      Tagged(st[n], n) + Items(st - {n})
  }

  lemma {:induction false} ItemsSpec(st: Storage)
    ensures forall x :: x in Items(st) <==> Contains(st, x.1, x.0)
    ensures forall i, j :: 0 <= i < j < |Items(st)| ==> Items(st)[i].1 >= Items(st)[j].1
    decreases |st|
  {
    if st != map[] {
      var n := MaxKey(st);
      var rest := st - {n};
      assert rest.Keys == st.Keys - {n};
      ItemsSpec(rest);
      var a, b := Tagged(st[n], n), Items(rest);
      forall x: (Hash, nat)
        ensures x in a + b <==> Contains(st, x.1, x.0)
      {
        assert x in a ==> x.0 in st[n] && x.1 == n;
        if x.0 in st[n] && x.1 == n {
          var i :| 0 <= i < |st[n]| && st[n][i] == x.0;
          assert a[i] == x;
        }
        assert x in b <==> Contains(rest, x.1, x.0);
      }
      forall i, j | 0 <= i < j < |a + b|
        ensures (a + b)[i].1 >= (a + b)[j].1
      {
        if j >= |a| {
          assert (a + b)[j] in b;
        }
      }
    }
  }

  /** No leaf above `best` is listed twice. */
  ghost predicate DistinctAbove(items: seq<(Hash, nat)>, best: nat) {
    forall i, j :: 0 <= i < j < |items| && items[i].1 > best ==> items[i] != items[j]
  }

  lemma {:induction false} ItemsDistinct(st: Storage, best: nat)
    ensures DistinctAbove(Items(st), best) <==> forall n :: n in st && n > best ==> NoDup(st[n])
    decreases |st|
  {
    if st != map[] {
      var n := MaxKey(st);
      var rest := st - {n};
      assert rest.Keys == st.Keys - {n};
      ItemsDistinct(rest, best);
      ItemsSpec(rest);
      forall x | x in Items(rest) ensures x.1 != n { assert Contains(rest, x.1, x.0); }
      DistinctConcat(st[n], n, Items(rest), best);
      assert forall m :: m in st <==> m == n || m in rest;
      assert forall m :: m in rest ==> rest[m] == st[m];
      assert Items(st) == Tagged(st[n], n) + Items(rest);
    }
  }

  lemma DistinctConcat(hs: seq<Hash>, n: nat, b: seq<(Hash, nat)>, best: nat)
    requires forall x :: x in b ==> x.1 != n
    ensures DistinctAbove(Tagged(hs, n) + b, best) <==> (n > best ==> NoDup(hs)) && DistinctAbove(b, best)
  {
    var a := Tagged(hs, n);
    var c := a + b;
    if DistinctAbove(c, best) {
      forall i, j | 0 <= i < j < |b| && b[i].1 > best
        ensures b[i] != b[j]
      {
        assert c[|a| + i] == b[i] && c[|a| + j] == b[j];
      }
      if n > best {
        forall i, j | 0 <= i < j < |hs|
          ensures hs[i] != hs[j]
        {
          assert c[i] == a[i] && c[j] == a[j];
        }
      }
    }
    if (n > best ==> NoDup(hs)) && DistinctAbove(b, best) {
      forall i, j | 0 <= i < j < |c| && c[i].1 > best
        ensures c[i] != c[j]
      {
        if j < |a| { assert hs[i] != hs[j]; }
        else if i < |a| { assert c[j] in b; }
      }
    }
  }

  /** The loop of `revert`; `None` when its assertion that the leaf was there fails. */
  function Drain(st: Storage, items: seq<(Hash, nat)>, best: nat): Option<Storage>
    decreases |items|
  {
    if items == [] then Some(st)
    else if items[0].1 > best then
      var (st', removed) := RemoveLeaf(st, items[0].1, items[0].0);
      if removed then Drain(st', items[1..], best) else None
    else
      Drain(st, items[1..], best)
  }

  lemma {:induction false} DrainSpec(st: Storage, items: seq<(Hash, nat)>, best: nat)
    ensures Drain(st, items, best).Some? <==>
              && DistinctAbove(items, best)
              && (forall x :: x in items && x.1 > best ==> Contains(st, x.1, x.0))
    ensures Drain(st, items, best).Some? ==>
              var st' := Drain(st, items, best).value;
              && (forall n: nat, h :: Contains(st', n, h) <==> Contains(st, n, h) && !(n > best && (h, n) in items))
              && (forall n: nat :: n <= best ==> Level(st', n) == Level(st, n))
              && (Proper(st) ==> Proper(st'))
    decreases |items|
  {
    if items != [] {
      var x, rest := items[0], items[1..];
      assert items == [x] + rest;
      if x.1 > best {
        RemoveLeafSpec(st, x.1, x.0);
        var (st', removed) := RemoveLeaf(st, x.1, x.0);
        assert forall n: nat, h :: Contains(st', n, h) <==> Contains(st, n, h) && !(n == x.1 && h == x.0);
        DrainSpec(st', rest, best);
        assert DistinctAbove(items, best) <==> DistinctAbove(rest, best) && x !in rest by { DistinctHead(items, best); }
      } else {
        DrainSpec(st, rest, best);
        assert DistinctAbove(items, best) <==> DistinctAbove(rest, best) by { DistinctHead(items, best); }
      }
    }
  }

  lemma DistinctHead(items: seq<(Hash, nat)>, best: nat)
    requires items != []
    ensures DistinctAbove(items, best) <==>
              DistinctAbove(items[1..], best) && (items[0].1 > best ==> items[0] !in items[1..])
  {
    var x, rest := items[0], items[1..];
    if DistinctAbove(rest, best) && (x.1 > best ==> x !in rest) {
      forall i, j | 0 <= i < j < |items| && items[i].1 > best
        ensures items[i] != items[j]
      {
        assert items[j] == rest[j - 1];
        if i > 0 { assert items[i] == rest[i - 1]; }
      }
    }
    if DistinctAbove(items, best) {
      forall i, j | 0 <= i < j < |rest| && rest[i].1 > best
        ensures rest[i] != rest[j]
      {
        assert items[i + 1] == rest[i] && items[j + 1] == rest[j];
      }
    }
  }

  /** `revert`; `None` when it panics. */
  ghost function Revert(st: Storage, bestHash: Hash, best: nat): Option<Storage> {
    match Drain(st, Items(st), best)
    case None => None
    case Some(st') => Some(if Contains(st', best, bestHash) then st' else InsertLeaf(st', best, bestHash))
  }

  lemma NoLeaves(st: Storage, n: nat)
    requires forall h :: !Contains(st, n, h)
    ensures Level(st, n) == []
  {
    if Level(st, n) != [] { assert Contains(st, n, Level(st, n)[0]); }
  }

  /** `revert` panics exactly when a level above the target lists a hash twice. Otherwise it
      drops every leaf above the target, keeps every lower level as it is, and makes the
      target block a leaf. */
  lemma RevertSpec(st: Storage, bestHash: Hash, best: nat)
    ensures Revert(st, bestHash, best).Some? <==> forall n :: n in st && n > best ==> NoDup(st[n])
    ensures Revert(st, bestHash, best).Some? ==>
              var st' := Revert(st, bestHash, best).value;
              && (forall n: nat :: n < best ==> Level(st', n) == Level(st, n))
              && (forall n: nat :: n > best ==> Level(st', n) == [])
              && (forall h :: Contains(st', best, h) <==> Contains(st, best, h) || h == bestHash)
              && (Contains(st, best, bestHash) ==> Level(st', best) == Level(st, best))
  {
    hide Items, Drain, DistinctAbove, NoDup;
    ItemsSpec(st);
    ItemsDistinct(st, best);
    DrainSpec(st, Items(st), best);
    if Drain(st, Items(st), best).Some? {
      var st1 := Drain(st, Items(st), best).value;
      forall n: nat | n > best
        ensures Level(st1, n) == []
      {
        forall h ensures !Contains(st1, n, h) { assert (h, n).1 == n; }
        NoLeaves(st1, n);
      }
      var st' := Revert(st, bestHash, best).value;
      assert forall n: nat :: n != best ==> Level(st', n) == Level(st1, n);
    }
  }

  // ---- where undo and revert fail ----

  /** Without a level below, an import only adds the block. */
  lemma ImportAlone(st: Storage, h: Hash, n: nat, parent: Hash)
    requires n > 0 && n - 1 !in st
    ensures Import(st, h, n, parent) == (st[n := Level(st, n) + [h]], ImportOutcome(h, n, None))
  {
  }

  lemma WithoutTwins(h: Hash)
    ensures Without([h, h], h) == []
  {
    assert [h, h][1..] == [h] && [h][1..] == [];
    assert Without([h], h) == [];
  }

  /** Importing one block twice lists it twice, and a revert below it panics. */
  lemma RevertPanicsOnTwins(h: Hash, parent: Hash, target: Hash)
    ensures var st := Import(Import(map[], h, 1, parent).0, h, 1, parent).0;
            Revert(st, target, 0) == None
  {
    hide Revert, Import;
    var st1 := Import(map[], h, 1, parent).0;
    ImportAlone(map[], h, 1, parent);
    ImportAlone(st1, h, 1, parent);
    var st := Import(st1, h, 1, parent).0;
    assert st[1][0] == st[1][1];
    RevertSpec(st, target, 0);
  }

  /** Importing a block that is a leaf already and undoing that loses the leaf. */
  lemma UndoImportLosesTwin(h: Hash, parent: Hash)
    ensures var st := Import(map[], h, 1, parent).0;
            var (st', o) := Import(st, h, 1, parent);
            UndoImport(st', o) == map[] && !Same(UndoImport(st', o), st)
  {
    hide Import;
    var st := Import(map[], h, 1, parent).0;
    ImportAlone(map[], h, 1, parent);
    ImportAlone(st, h, 1, parent);
    var (st', o) := Import(st, h, 1, parent);
    assert st'[1] == [h, h];
    WithoutTwins(h);
    hide Without;
    assert UndoImport(st', o) == map[];
  }

  /** Removing a block whose parent is a leaf already, given as the parent to put back, and
      undoing that loses the parent. */
  lemma UndoRemoveLosesParent(h: Hash, parent: Hash, grandparent: Hash)
    ensures var st := Import(Import(map[], h, 2, parent).0, parent, 1, grandparent).0;
            var (st', o) := Remove(st, h, 2, Some(parent));
            o.Some? && !Same(UndoRemove(st', o.value), st)
  {
    hide Import, Remove, UndoRemove, Same;
    var st1 := Import(map[], h, 2, parent).0;
    ImportAlone(map[], h, 2, parent);
    ImportAlone(st1, parent, 1, grandparent);
    var st := Import(st1, parent, 1, grandparent).0;
    assert st[2] == [h] && st[1] == [parent] && Proper(st);
    assert h in Leaves(st, 2) && parent in Leaves(st, 1);
    UndoRemoveRestores(st, h, 2, Some(parent));
  }
}
