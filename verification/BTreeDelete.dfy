/** Deletes take one entry out of one leaf; separators and empty leaves stay. */
module BTreeDelete {
  import opened Options
  import opened BTreeNode
  import opened BTreeModel
  import opened BTreeStructure
  import opened BTreeOrder
  import opened BTreeInsert
  import opened BTreeInsertOrder
  import opened BTreeEntries
  import opened BTreeRead

  /** The slot a leaf's removal picks, from slot `i` on: the first exact match before a larger key. */
  function FindSlot(n: Node, key: int, rid: Rid, i: nat): (r: Option<nat>)
    requires n.Leaf? && |n.rids| == |n.keys| && i <= |n.keys|
    ensures r.Some? ==> i <= r.value < |n.keys| && n.keys[r.value] == key && n.rids[r.value] == rid
    decreases |n.keys| - i
  {
    if i == |n.keys| || n.keys[i] > key then None
    else if n.keys[i] == key && n.rids[i] == rid then Some(i)
    else FindSlot(n, key, rid, i + 1)
  }

  function RemoveEntry(n: Node, s: nat): Node
    requires n.Leaf? && |n.rids| == |n.keys| && s < |n.keys|
  {
    n.(keys := RemoveAt(n.keys, s), rids := RemoveAt(n.rids, s))
  }

  /** The leaf position and slot a delete settles on, walking from the `i`th leaf. */
  function FindFrom(ix: Index, i: nat, key: int, rid: Rid): (r: Option<(nat, nat)>)
    requires Walkable(ix) && i < |ix.chain|
    ensures r.Some? ==> i <= r.value.0 < |ix.chain| && FindSlot(ChainLeaf(ix, r.value.0), key, rid, 0) == Some(r.value.1)
    decreases |ix.chain| - i
  {
    var n := ChainLeaf(ix, i);
    match FindSlot(n, key, rid, 0)
    case Some(s) => Some((i, s))
    case None => if Passed(n, key) || i + 1 == |ix.chain| then None else FindFrom(ix, i + 1, key, rid)
  }

  function Find(ix: Index, key: int, rid: Rid): (r: Option<(nat, nat)>)
    requires Tree(ix, 0) && Chained(ix)
    ensures r.Some? ==> r.value.0 < |ix.chain| && FindSlot(ChainLeaf(ix, r.value.0), key, rid, 0) == Some(r.value.1)
  {
    FindFrom(ix, Position(ix, LeafFor(ix, key)), key, rid)
  }

  function Remove(ix: Index, i: nat, s: nat): Index
    requires Walkable(ix) && i < |ix.chain| && s < |ChainLeaf(ix, i).keys|
  {
    PutLeaf(ix, ix.chain[i], RemoveEntry(ChainLeaf(ix, i), s))
  }

  function Delete(ix: Index, key: int, rid: Rid): (Index, bool)
    requires Tree(ix, 0) && Chained(ix)
  {
    match Find(ix, key, rid)
    case None => (ix, false)
    case Some((i, s)) => (Remove(ix, i, s), true)
  }

  lemma RemoveValid(ix: Index, i: nat, s: nat)
    requires Valid(ix) && i < |ix.chain| && s < |ChainLeaf(ix, i).keys|
    ensures Valid(Remove(ix, i, s))
    ensures Ordered(ix) ==> Ordered(Remove(ix, i, s))
  {
    var c := ix.chain[i];
    var n := ChainLeaf(ix, i);
    var n' := RemoveEntry(n, s);
    PutLeafTree(ix, c, n');
    PutLeafChained(ix, c, n');
    assert SizeOk(ix, c);
    PutLeafSizes(ix, c, n');
    if Ordered(ix) {
      assert InInterval(ix, c);
      PutLeafOrdered(ix, c, n');
    }
  }

  lemma RemoveInside<T>(a: seq<T>, b: seq<T>, c: seq<T>, s: nat)
    requires s < |b|
    ensures (a + b + c)[|a| + s] == b[s]
    ensures a + RemoveAt(b, s) + c == RemoveAt(a + b + c, |a| + s)
  {
  }

  lemma RemoveEntries(ix: Index, i: nat, s: nat) returns (j: nat)
    requires Valid(ix) && i < |ix.chain| && s < |ChainLeaf(ix, i).keys|
    ensures Valid(Remove(ix, i, s))
    ensures j == |Head(ix, i)| + s && j < |Entries(ix)|
    ensures Entries(ix)[j] == Pairs(ChainLeaf(ix, i))[s]
    ensures Entries(Remove(ix, i, s)) == RemoveAt(Entries(ix), j)
  {
    RemoveValid(ix, i, s);
    var c := ix.chain[i];
    var n := ChainLeaf(ix, i);
    PutLeafEntries(ix, c, RemoveEntry(n, s));
    LeafLinks(ix, c);
    assert IndexOf(ix.chain, c) == i;
    assert Pairs(RemoveEntry(n, s)) == RemoveAt(Pairs(n), s);
    RemoveInside(Head(ix, i), Pairs(n), Behind(ix, c), s);
    j := |Head(ix, i)| + s;
  }

  /**
   Whatever the keys are, a delete keeps the structure; when it answers true it has removed exactly
   one matching entry, and when it answers false nothing has changed.
   */
  lemma DeleteEntries(ix: Index, key: int, rid: Rid) returns (j: nat)
    requires Valid(ix)
    ensures Valid(Delete(ix, key, rid).0)
    ensures Ordered(ix) ==> Ordered(Delete(ix, key, rid).0)
    ensures Delete(ix, key, rid).1 ==> j < |Entries(ix)| && Entries(ix)[j] == (key, rid)
    ensures Delete(ix, key, rid).1 ==> Entries(Delete(ix, key, rid).0) == RemoveAt(Entries(ix), j)
    ensures !Delete(ix, key, rid).1 ==> Delete(ix, key, rid).0 == ix
  {
    match Find(ix, key, rid)
    case None => j := 0;
    case Some((i, s)) =>
      RemoveValid(ix, i, s);
      j := RemoveEntries(ix, i, s);
  }

  // ---- In an ordered tree a live entry is always found ----

  lemma {:induction false} SlotComplete(n: Node, key: int, rid: Rid, i: nat, s: nat)
    requires n.Leaf? && |n.rids| == |n.keys| && Sorted(n.keys) && i <= s < |n.keys|
    requires n.keys[s] == key && n.rids[s] == rid
    ensures FindSlot(n, key, rid, i).Some? && FindSlot(n, key, rid, i).value <= s
    decreases |n.keys| - i
  {
    if !(n.keys[i] == key && n.rids[i] == rid) {
      SlotComplete(n, key, rid, i + 1, s);
    }
  }

  lemma SlotIff(n: Node, key: int, rid: Rid)
    requires n.Leaf? && |n.rids| == |n.keys| && Sorted(n.keys)
    ensures FindSlot(n, key, rid, 0).Some? <==> (key, rid) in Pairs(n)
  {
    var f := FindSlot(n, key, rid, 0);
    assert f.Some? ==> Pairs(n)[f.value] == (key, rid);
    if (key, rid) in Pairs(n) {
      var s :| 0 <= s < |Pairs(n)| && Pairs(n)[s] == (key, rid);
      SlotComplete(n, key, rid, 0, s);
    }
  }

  lemma {:induction false} FindComplete(ix: Index, i: nat, key: int, rid: Rid)
    requires Ordered(ix) && i < |ix.chain|
    ensures FindFrom(ix, i, key, rid).Some? <==> (key, rid) in Tail(ix, i)
    decreases |ix.chain| - i
  {
    var n := ChainLeaf(ix, i);
    TailStep(ix, i);
    SlotIff(n, key, rid);
    if FindSlot(n, key, rid, 0).Some? {
    } else if Passed(n, key) {
      LeafWithin(ix, i);
      TailAbove(ix, i);
      assert Pairs(n)[|n.keys| - 1].0 == n.keys[|n.keys| - 1];
    } else if i + 1 < |ix.chain| {
      FindComplete(ix, i + 1, key, rid);
    }
  }

  /** In an ordered tree, delete answers true exactly when the entry is live. */
  lemma DeleteExact(ix: Index, key: int, rid: Rid)
    requires Ordered(ix)
    ensures Delete(ix, key, rid).1 <==> (key, rid) in Entries(ix)
  {
    LeafForHolds(ix, key);
    var i := Position(ix, LeafFor(ix, key));
    FindComplete(ix, i, key, rid);
    HeadBelow(ix, i);
    EntriesCut(ix, i);
  }
}
