/** Each step of an insert keeps the pages filled, and keeps the tree ordered when its separator is strict. */
module BTreeOrder {
  import opened BTreeNode
  import opened BTreeModel
  import opened BTreeStructure

  // ---- Fill ----

  lemma PutLeafSizes(ix: Index, c: int, n: Node)
    requires Domain(ix) && Sizes(ix, 0) && IsLeaf(ix, c) && n.Leaf? && |n.keys| <= ix.order + 1
    ensures Sizes(PutLeaf(ix, c, n), if |n.keys| <= ix.order then 0 else c)
  {
    assert forall p :: p in ix.pages && p != 0 ==> SizeOk(ix, p);
  }

  lemma SplitLeafSizes(ix: Index, c: int)
    requires Tree(ix, 0) && Chained(ix) && IsLeaf(ix, c) && Sizes(ix, c)
    ensures Sizes(SplitLeaf(ix, c), 0)
  {
    SplitLeafPages(ix, c);
    assert forall p :: p in ix.pages && p != c ==> SizeOk(ix, p);
  }

  lemma AttachSizes(ix: Index, p: int, sep: int, r: int)
    requires Domain(ix) && Sizes(ix, 0) && PageOk(ix, p) && ix.pages[p].Inner?
    ensures Sizes(Attach(ix, p, sep, r), if |ix.pages[p].keys| < ix.order then 0 else p)
  {
    assert SizeOk(ix, p);
    assert forall q :: q in ix.pages && q != 0 ==> SizeOk(ix, q);
  }

  lemma SplitInnerSizes(ix: Index, p: int, sep: int)
    requires Domain(ix) && Overfull(ix, p) && Sizes(ix, p)
    ensures Sizes(SplitInner(ix, p, sep), 0)
  {
    assert forall q :: q in ix.pages && q != p ==> SizeOk(ix, q);
  }

  lemma GrowRootSizes(ix: Index, sep: int, r: int)
    requires Domain(ix) && r in ix.pages && Sizes(ix, 0)
    requires ix.pages[ix.root].Inner? ==> ix.order / 2 <= |ix.pages[ix.root].keys|
    ensures Sizes(GrowRoot(ix, sep, r), 0)
  {
    assert forall q :: q in ix.pages && q != 0 ==> SizeOk(ix, q);
  }

  // ---- Order ----

  lemma PutLeafOrdered(ix: Index, c: int, n: Node)
    requires Ordered(ix) && IsLeaf(ix, c)
    requires Tree(PutLeaf(ix, c, n), 0) && Chained(PutLeaf(ix, c, n))
    requires n.Leaf? && Within(n, ix.lo[c], ix.hi[c])
    ensures Ordered(PutLeaf(ix, c, n))
  {
    var jx := PutLeaf(ix, c, n);
    forall p | p in jx.pages
      ensures InInterval(jx, p)
    {
      assert InInterval(ix, p);
    }
    forall p, i | IsChild(jx, p, i)
      ensures ChildFits(jx, p, i, 0, 0)
    {
      assert IsChild(ix, p, i) && ChildFits(ix, p, i, 0, 0);
    }
    KeepChainOrder(ix, jx);
  }

  lemma KeepChainOrder(ix: Index, jx: Index)
    requires Domain(ix) && Chained(ix) && ChainOrder(ix)
    requires Domain(jx) && Chained(jx) && jx.chain == ix.chain
    requires forall p :: IsLeaf(ix, p) ==> p in jx.lo && p in jx.hi && jx.lo[p] == ix.lo[p] && jx.hi[p] == ix.hi[p]
    ensures ChainOrder(jx)
  {
    assert LinkOk(ix, 0) && LinkOk(ix, |ix.chain| - 1);
    forall i | 0 <= i < |jx.chain| - 1
      ensures Meets(jx, i)
    {
      assert Meets(ix, i) && LinkOk(ix, i) && LinkOk(ix, i + 1);
    }
  }

  ghost predicate StrictLeaf(ix: Index, c: int)
    requires c in ix.pages && c in ix.lo && c in ix.hi && ix.pages[c].keys != []
  {
    var sep := ix.pages[c].keys[|ix.pages[c].keys| / 2];
    Below(ix.lo[c], At(sep)) && Below(At(sep), ix.hi[c])
  }

  lemma SplitLeafIntervals(ix: Index, c: int)
    requires Ordered(ix) && IsLeaf(ix, c) && |ix.pages[c].keys| == ix.order + 1 && StrictLeaf(ix, c)
    ensures Intervals(SplitLeaf(ix, c))
  {
    var jx := SplitLeaf(ix, c);
    SplitLeafPages(ix, c);
    forall p | p in jx.pages
      ensures InInterval(jx, p)
    {
      assert InInterval(ix, c);
      if p != ix.next {
        assert InInterval(ix, p);
      }
    }
  }

  lemma SplitLeafOrdered(ix: Index, c: int)
    requires Ordered(ix) && IsLeaf(ix, c) && |ix.pages[c].keys| == ix.order + 1 && StrictLeaf(ix, c)
    ensures OrderedBut(SplitLeaf(ix, c), c, ix.next)
  {
    hide Nodes, Down, Up, Sorted, Within, Chained, Intervals, Fits, ChainOrder, SplitLeaf, StrictLeaf;
    SplitLeafTree(ix, c);
    SplitLeafChained(ix, c);
    SplitLeafIntervals(ix, c);
    SplitLeafFits(ix, c);
    SplitLeafChainOrder(ix, c);
  }

  lemma SplitLeafBounds(ix: Index, c: int)
    requires Tree(ix, 0) && Chained(ix) && IsLeaf(ix, c) && |ix.pages[c].keys| == ix.order + 1
    ensures var jx := SplitLeaf(ix, c); var sep := At(ix.pages[c].keys[|ix.pages[c].keys| / 2]);
      jx.root == ix.root && jx.lo == ix.lo[ix.next := sep] && jx.hi == ix.hi[ix.next := ix.hi[c]][c := sep]
  {
    hide Nodes, Down, Up, Chained;
  }

  lemma SplitLeafFits(ix: Index, c: int)
    requires Ordered(ix) && IsLeaf(ix, c) && |ix.pages[c].keys| == ix.order + 1 && Tree(SplitLeaf(ix, c), ix.next)
    ensures Fits(SplitLeaf(ix, c), c, ix.next)
  {
    hide Nodes, Up, Sorted, Within, Intervals, ChainOrder, Chained, SplitLeaf;
    var jx := SplitLeaf(ix, c);
    SplitLeafPages(ix, c);
    SplitLeafBounds(ix, c);
    forall p, i | IsChild(jx, p, i)
      ensures ChildFits(jx, p, i, c, ix.next)
    {
      assert IsChild(ix, p, i) && ChildFits(ix, p, i, 0, 0) && ChildOk(ix, p, ix.pages[p].ptrs[i]);
    }
  }

  lemma SplitLeafChainOrder(ix: Index, c: int)
    requires Ordered(ix) && IsLeaf(ix, c) && |ix.pages[c].keys| == ix.order + 1
    requires Domain(SplitLeaf(ix, c)) && Chained(SplitLeaf(ix, c))
    ensures ChainOrder(SplitLeaf(ix, c))
  {
    var jx := SplitLeaf(ix, c);
    forall i | 0 <= i < |jx.chain| - 1
      ensures Meets(jx, i)
    {
      SplitLeafMeets(ix, c, i);
    }
    LeafLinks(ix, c);
    var last := |ix.chain| - 1;
    assert LinkOk(ix, 0) && LinkOk(ix, last);
    var k := IndexOf(ix.chain, c);
    assert k < last ==> jx.chain[|jx.chain| - 1] == ix.chain[last] && ix.chain[last] != c;
  }

  lemma SplitLeafMeets(ix: Index, c: int, i: nat)
    requires Ordered(ix) && IsLeaf(ix, c) && |ix.pages[c].keys| == ix.order + 1
    requires i + 1 < |SplitLeaf(ix, c).chain|
    ensures Meets(SplitLeaf(ix, c), i)
  {
    LeafLinks(ix, c);
    var k := IndexOf(ix.chain, c);
    var h := if i <= k then i else i - 1;
    assert LinkOk(ix, h);
    if h + 1 < |ix.chain| {
      assert Meets(ix, h) && LinkOk(ix, h + 1);
      assert h != k ==> ix.chain[h] != c;
    }
  }

  // ---- Attaching under the right separator ----

  /** `r` was split off `c`, the `j`th child of `p`, at `sep`. */
  ghost predicate SplitAt(ix: Index, p: int, j: nat, c: int, sep: int, r: int) {
    && r != 0
    && OrderedBut(ix, c, r)
    && IsChild(ix, p, j) && ix.pages[p].ptrs[j] == c
    && ix.level[r] + 1 == ix.level[p]
    && ix.hi[c] == At(sep) && ix.lo[r] == At(sep)
  }

  /** The separator lies strictly between its neighbours in the parent. */
  lemma SplitGap(ix: Index, p: int, j: nat, c: int, sep: int, r: int)
    requires SplitAt(ix, p, j, c, sep, r)
    ensures PageOk(ix, p) && ix.pages[p].Inner? && |ix.pages[p].ptrs| == |ix.pages[p].keys| + 1
    ensures j <= |ix.pages[p].keys| && p in ix.lo && p in ix.hi && Within(ix.pages[p], ix.lo[p], ix.hi[p])
    ensures 0 < j ==> ix.pages[p].keys[j - 1] < sep
    ensures j < |ix.pages[p].keys| ==> sep < ix.pages[p].keys[j]
    ensures Below(ix.lo[p], At(sep)) && Below(At(sep), ix.hi[p])
  {
    hide Chained, ChainOrder;
    assert PageOk(ix, p) && ChildFits(ix, p, j, c, r) && ChildOk(ix, p, c);
    assert InInterval(ix, c) && InInterval(ix, r) && InInterval(ix, p);
    assert 0 < j ==> Below(ix.lo[p], At(ix.pages[p].keys[j - 1]));
    assert j < |ix.pages[p].keys| ==> Below(At(ix.pages[p].keys[j]), ix.hi[p]);
  }

  lemma UpperBoundAt(keys: seq<int>, j: nat, sep: int)
    requires Increasing(keys) && j <= |keys|
    requires 0 < j ==> keys[j - 1] < sep
    requires j < |keys| ==> sep < keys[j]
    ensures UpperBound(keys, sep) == j
  {
    forall i | 0 <= i < j
      ensures keys[i] <= sep
    {
      assert keys[i] <= keys[j - 1];
    }
  }

  lemma InsertIncreasing(keys: seq<int>, j: nat, sep: int)
    requires Increasing(keys) && j <= |keys|
    requires 0 < j ==> keys[j - 1] < sep
    requires j < |keys| ==> sep < keys[j]
    ensures UpperBound(keys, sep) == j && Increasing(InsertAt(keys, j, sep))
  {
    forall a, b | 0 <= a < b < |keys| + 1
      ensures InsertAt(keys, j, sep)[a] < InsertAt(keys, j, sep)[b]
    {
      assert a < j ==> keys[a] <= keys[j - 1];
      assert j < b ==> keys[j] <= keys[b - 1];
    }
    UpperBoundAt(keys, j, sep);
  }

  lemma InsertPlace(n: Node, j: nat, sep: int, r: int, lo: Bound, hi: Bound)
    requires n.Inner? && |n.ptrs| == |n.keys| + 1 && j <= |n.keys| && Within(n, lo, hi)
    requires 0 < j ==> n.keys[j - 1] < sep
    requires j < |n.keys| ==> sep < n.keys[j]
    requires Below(lo, At(sep)) && Below(At(sep), hi)
    ensures UpperBound(n.keys, sep) == j
    ensures Within(InsertPointer(n, sep, r), lo, hi)
  {
    InsertIncreasing(n.keys, j, sep);
    var keys := InsertAt(n.keys, j, sep);
    hide Increasing, UpperBound, Below, InsertAt;
    forall i | 0 <= i < |keys|
      ensures Below(lo, At(keys[i])) && Below(At(keys[i]), hi)
    {
      assert i != j ==> keys[i] == n.keys[if i < j then i else i - 1];
    }
  }

  /** The new page lands right after the page it was split from. */
  lemma AttachPlace(ix: Index, p: int, j: nat, c: int, sep: int, r: int)
    requires SplitAt(ix, p, j, c, sep, r)
    ensures j <= |ix.pages[p].keys| && UpperBound(ix.pages[p].keys, sep) == j
    ensures Within(InsertPointer(ix.pages[p], sep, r), ix.lo[p], ix.hi[p])
  {
    hide SplitAt, Within, InsertPointer;
    SplitGap(ix, p, j, c, sep, r);
    InsertPlace(ix.pages[p], j, sep, r, ix.lo[p], ix.hi[p]);
  }

  lemma AttachChild(ix: Index, p: int, j: nat, c: int, sep: int, r: int, q: int, h: int)
    requires SplitAt(ix, p, j, c, sep, r) && Tree(Attach(ix, p, sep, r), 0) && IsChild(Attach(ix, p, sep, r), q, h)
    ensures ChildFits(Attach(ix, p, sep, r), q, h, 0, 0)
  {
    AttachPlace(ix, p, j, c, sep, r);
    assert ChildFits(ix, p, j, c, r);
    if q != p || h <= j {
      assert IsChild(ix, q, h) && ChildFits(ix, q, h, c, r) && ChildOk(ix, q, ix.pages[q].ptrs[h]);
      assert ChildOk(ix, p, c);
      assert q == p && h < j ==> ix.pages[p].ptrs[h] != c;
    } else if h > j + 1 {
      assert IsChild(ix, p, h - 1) && ChildFits(ix, p, h - 1, c, r);
      assert ix.pages[p].ptrs[h - 1] != c;
    }
  }

  lemma AttachOrdered(ix: Index, p: int, j: nat, c: int, sep: int, r: int)
    requires SplitAt(ix, p, j, c, sep, r)
    ensures PageOk(ix, p) && Ordered(Attach(ix, p, sep, r))
  {
    assert PageOk(ix, p) && ChildOk(ix, p, c);
    var jx := Attach(ix, p, sep, r);
    AttachTree(ix, p, sep, r);
    AttachChained(ix, p, sep, r);
    AttachPlace(ix, p, j, c, sep, r);
    forall q | q in jx.pages
      ensures InInterval(jx, q)
    {
      assert InInterval(ix, q);
    }
    forall q, h | IsChild(jx, q, h)
      ensures ChildFits(jx, q, h, 0, 0)
    {
      AttachChild(ix, p, j, c, sep, r, q, h);
    }
    RootNotChild(ix, r, p, j);
    KeepChainOrder(ix, jx);
  }

  lemma RootNotChild(ix: Index, orphan: int, p: int, j: nat)
    requires Tree(ix, orphan) && IsChild(ix, p, j)
    ensures ix.pages[p].ptrs[j] != ix.root
  {
    assert ChildOk(ix, p, ix.pages[p].ptrs[j]);
  }

  // ---- Splitting an inner page ----

  lemma SplitInnerIntervals(ix: Index, p: int)
    requires Ordered(ix) && Overfull(ix, p)
    ensures Intervals(SplitInner(ix, p, ix.pages[p].keys[|ix.pages[p].keys| / 2]))
  {
    var n := ix.pages[p];
    var s := |n.keys| / 2;
    var jx := SplitInner(ix, p, n.keys[s]);
    assert InInterval(ix, p);
    forall q | q in jx.pages
      ensures InInterval(jx, q)
    {
      if q != p && q != ix.next {
        assert InInterval(ix, q);
      }
    }
  }

  function Middle(n: Node): int
    requires n.keys != []
  {
    n.keys[|n.keys| / 2]
  }

  /** Lower bounds after the split, child by child. */
  lemma SplitInnerLo(ix: Index, p: int, q: int, i: int)
    requires Ordered(ix) && Overfull(ix, p)
    requires var jx := SplitInner(ix, p, Middle(ix.pages[p])); Tree(jx, ix.next) && IsChild(jx, q, i)
    ensures var jx := SplitInner(ix, p, Middle(ix.pages[p])); var x := jx.pages[q].ptrs[i];
      PageOk(jx, q) && x in jx.lo && jx.lo[x] == ChildLo(jx, q, i)
  {
    hide Up, Chained, Intervals, ChainOrder;
    var jx := SplitInner(ix, p, Middle(ix.pages[p]));
    SplitInnerChild(ix, p, Middle(ix.pages[p]), q, i);
    var (h, j) := Before(ix, p, q, i);
    assert ChildFits(ix, h, j, 0, 0) && ChildOk(ix, h, ix.pages[h].ptrs[j]) && PageOk(ix, h) && PageOk(jx, q);
  }

  /** ... and upper bounds, the split page still counting as whole. */
  lemma SplitInnerHi(ix: Index, p: int, q: int, i: int)
    requires Ordered(ix) && Overfull(ix, p)
    requires var jx := SplitInner(ix, p, Middle(ix.pages[p])); Tree(jx, ix.next) && IsChild(jx, q, i)
    ensures var jx := SplitInner(ix, p, Middle(ix.pages[p])); var x := jx.pages[q].ptrs[i];
      PageOk(jx, q) && x in jx.hi && WholeHi(jx, x, p, ix.next) == ChildHi(jx, q, i)
  {
    hide Up, Chained, Intervals, ChainOrder;
    var jx := SplitInner(ix, p, Middle(ix.pages[p]));
    SplitInnerChild(ix, p, Middle(ix.pages[p]), q, i);
    var (h, j) := Before(ix, p, q, i);
    assert ChildFits(ix, h, j, 0, 0) && ChildOk(ix, h, ix.pages[h].ptrs[j]) && PageOk(ix, h) && PageOk(jx, q);
  }

  lemma SplitInnerOrdered(ix: Index, p: int)
    requires Ordered(ix) && Overfull(ix, p)
    ensures OrderedBut(SplitInner(ix, p, ix.pages[p].keys[|ix.pages[p].keys| / 2]), p, ix.next)
  {
    var sep := ix.pages[p].keys[|ix.pages[p].keys| / 2];
    var jx := SplitInner(ix, p, sep);
    SplitInnerTree(ix, p, sep);
    SplitInnerChained(ix, p, sep);
    SplitInnerIntervals(ix, p);
    forall q, i | IsChild(jx, q, i)
      ensures ChildFits(jx, q, i, p, ix.next)
    {
      SplitInnerLo(ix, p, q, i);
      SplitInnerHi(ix, p, q, i);
    }
    KeepChainOrder(ix, jx);
  }

  // ---- Growing a root ----

  lemma GrowRootOrdered(ix: Index, sep: int, r: int)
    requires r != 0 && OrderedBut(ix, ix.root, r) && ix.level[r] == ix.level[ix.root]
    requires ix.hi[ix.root] == At(sep) && ix.lo[r] == At(sep)
    ensures Ordered(GrowRoot(ix, sep, r))
  {
    var jx := GrowRoot(ix, sep, r);
    GrowRootTree(ix, sep, r);
    GrowRootChained(ix, sep, r);
    forall q | q in jx.pages
      ensures InInterval(jx, q)
    {
      assert q != ix.next ==> InInterval(ix, q);
    }
    forall q, i | IsChild(jx, q, i)
      ensures ChildFits(jx, q, i, 0, 0)
    {
      if q != ix.next {
        assert IsChild(ix, q, i) && ChildFits(ix, q, i, ix.root, r) && ChildOk(ix, q, ix.pages[q].ptrs[i]);
      }
    }
    KeepChainOrder(ix, jx);
  }
}
