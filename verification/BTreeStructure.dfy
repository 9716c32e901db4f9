/** Each step of an insert keeps the tree and its leaf chain, whatever the keys are. */
module BTreeStructure {
  import opened BTreeNode
  import opened BTreeModel

  /** Edits that leave the leaves' links alone leave the chain alone. */
  lemma KeepChain(ix: Index, jx: Index)
    requires Chained(ix) && jx.chain == ix.chain
    requires forall q :: IsLeaf(jx, q) <==> IsLeaf(ix, q)
    requires forall q :: IsLeaf(ix, q) && IsLeaf(jx, q) ==> jx.pages[q].next == ix.pages[q].next && jx.pages[q].prev == ix.pages[q].prev
    ensures Chained(jx)
  {
    forall i | 0 <= i < |jx.chain|
      ensures LinkOk(jx, i)
    {
      assert LinkOk(ix, i);
    }
    forall p | IsLeaf(jx, p)
      ensures Listed(jx, p)
    {
      assert Listed(ix, p);
    }
  }

  // ---- Replacing the entries of one leaf ----

  /** Edits to leaves only, and at most one new leaf, keep the tree above them. */
  lemma KeepTree(ix: Index, jx: Index, orphan: int)
    requires Tree(ix, 0) && Domain(jx) && Nodes(jx) && jx.root == ix.root
    requires jx.pages.Keys == ix.pages.Keys + (if orphan == 0 then {} else {orphan}) && orphan !in ix.pages
    requires forall p :: p in ix.pages ==> jx.level[p] == ix.level[p] && jx.parent[p] == ix.parent[p]
    requires forall p :: p in ix.pages && ix.pages[p].Inner? ==> jx.pages[p] == ix.pages[p]
    requires forall p :: p in ix.pages && ix.pages[p].Leaf? ==> jx.pages[p].Leaf?
    requires orphan != 0 ==> jx.pages[orphan].Leaf? && jx.parent[orphan] == 0
    ensures Tree(jx, orphan)
  {
    forall p, i | IsChild(jx, p, i)
      ensures IsChild(ix, p, i) && ChildOk(jx, p, jx.pages[p].ptrs[i])
    {
      assert IsChild(ix, p, i) && ChildOk(ix, p, ix.pages[p].ptrs[i]);
    }
    forall x | x in jx.pages && x != jx.root && x != orphan
      ensures HasParent(jx, x)
    {
      assert HasParent(ix, x);
    }
  }

  lemma PutLeafTree(ix: Index, c: int, n: Node)
    requires Tree(ix, 0) && IsLeaf(ix, c)
    requires n.Leaf? && |n.rids| == |n.keys| && Sorted(n.keys)
    ensures Tree(PutLeaf(ix, c, n), 0)
  {
    var jx := PutLeaf(ix, c, n);
    forall p | p in jx.pages
      ensures PageOk(jx, p)
    {
      assert PageOk(ix, p);
    }
    KeepTree(ix, jx, 0);
  }

  lemma PutLeafChained(ix: Index, c: int, n: Node)
    requires Chained(ix) && IsLeaf(ix, c)
    requires n.Leaf? && n.next == ix.pages[c].next && n.prev == ix.pages[c].prev
    ensures Chained(PutLeaf(ix, c, n))
  {
    var jx := PutLeaf(ix, c, n);
    KeepChain(ix, jx);
  }

  // ---- Splitting a leaf ----

  lemma SplitLeafPages(ix: Index, c: int)
    requires Tree(ix, 0) && Chained(ix) && IsLeaf(ix, c) && |ix.pages[c].keys| == ix.order + 1
    ensures PageOk(ix, c)
    ensures SplitLeaf(ix, c).pages.Keys == ix.pages.Keys + {ix.next}
    ensures var n := ix.pages[c]; var s := |n.keys| / 2;
      && SplitLeaf(ix, c).pages[c] == Leaf(n.keys[..s], n.rids[..s], n.prev, ix.next)
      && SplitLeaf(ix, c).pages[ix.next] == Leaf(n.keys[s..], n.rids[s..], c, n.next)
    ensures var h := ix.pages[c].next;
      h > 0 ==> IsLeaf(ix, h) && h != c && SplitLeaf(ix, c).pages[h] == ix.pages[h].(prev := ix.next)
    ensures forall p :: p in ix.pages && p != c && p != ix.pages[c].next ==> SplitLeaf(ix, c).pages[p] == ix.pages[p]
  {
    LeafLinks(ix, c);
  }

  lemma SplitLeafNodes(ix: Index, c: int)
    requires Tree(ix, 0) && Chained(ix) && IsLeaf(ix, c) && |ix.pages[c].keys| == ix.order + 1
    ensures Domain(SplitLeaf(ix, c)) && Nodes(SplitLeaf(ix, c))
  {
    hide Down, Up, LinkOk, Chained, Sorted, SplitLeaf;
    var jx := SplitLeaf(ix, c);
    SplitLeafPages(ix, c);
    SplitLeafDomain(ix, c);
    forall p | p in jx.pages
      ensures PageOk(jx, p)
    {
      assert p != ix.next ==> PageOk(ix, p);
      if p == c || p == ix.next {
        HalvesSorted(ix.pages[c].keys, |ix.pages[c].keys| / 2);
      }
    }
  }

  lemma SplitLeafDomain(ix: Index, c: int)
    requires Tree(ix, 0) && Chained(ix) && IsLeaf(ix, c) && |ix.pages[c].keys| == ix.order + 1
    ensures Domain(SplitLeaf(ix, c)) && SplitLeaf(ix, c).level == ix.level[ix.next := 0]
  {
    hide Nodes, Down, Up, Chained;
    SplitLeafPages(ix, c);
  }

  lemma HalvesSorted(keys: seq<int>, s: nat)
    requires Sorted(keys) && s <= |keys|
    ensures Sorted(keys[..s]) && Sorted(keys[s..])
  {
  }

  lemma SplitLeafTree(ix: Index, c: int)
    requires Tree(ix, 0) && Chained(ix) && IsLeaf(ix, c) && |ix.pages[c].keys| == ix.order + 1
    ensures Tree(SplitLeaf(ix, c), ix.next)
  {
    var jx := SplitLeaf(ix, c);
    SplitLeafPages(ix, c);
    SplitLeafNodes(ix, c);
    KeepTree(ix, jx, ix.next);
  }

  lemma SplitLeafChained(ix: Index, c: int)
    requires Tree(ix, 0) && Chained(ix) && IsLeaf(ix, c) && |ix.pages[c].keys| == ix.order + 1
    ensures Chained(SplitLeaf(ix, c))
  {
    hide Nodes, Down, Up, LinkOk;
    var jx := SplitLeaf(ix, c);
    SplitLeafPages(ix, c);
    SplitLeafListed(ix, c);
    forall i | 0 <= i < |jx.chain|
      ensures LinkOk(jx, i)
    {
      SplitLeafLink(ix, c, i);
    }
    NewUnlisted(ix);
  }

  lemma NewUnlisted(ix: Index)
    requires Domain(ix) && Chained(ix)
    ensures forall i :: 0 <= i < |ix.chain| ==> ix.chain[i] != ix.next
  {
    forall i | 0 <= i < |ix.chain|
      ensures ix.chain[i] != ix.next
    {
      assert LinkOk(ix, i);
    }
  }

  lemma SplitLeafListed(ix: Index, c: int)
    requires Tree(ix, 0) && Chained(ix) && IsLeaf(ix, c) && |ix.pages[c].keys| == ix.order + 1
    ensures forall p :: IsLeaf(SplitLeaf(ix, c), p) ==> Listed(SplitLeaf(ix, c), p)
  {
    hide Nodes, Down, Up, LinkOk;
    var jx := SplitLeaf(ix, c);
    SplitLeafPages(ix, c);
    LeafLinks(ix, c);
    var k := IndexOf(ix.chain, c);
    forall p | IsLeaf(jx, p)
      ensures Listed(jx, p)
    {
      if p == ix.next {
        assert jx.chain[k + 1] == p;
      } else {
        assert Listed(ix, p);
        var i := IndexOf(ix.chain, p);
        assert jx.chain[if i <= k then i else i + 1] == p;
      }
    }
  }

  lemma SplitLeafLink(ix: Index, c: int, i: nat)
    requires Tree(ix, 0) && Chained(ix) && IsLeaf(ix, c) && |ix.pages[c].keys| == ix.order + 1
    requires i < |SplitLeaf(ix, c).chain|
    ensures LinkOk(SplitLeaf(ix, c), i)
  {
    hide Nodes, Down, Up, ChainNext, ChainPrev, InsertAt, SplitLeaf;
    LeafLinks(ix, c);
    var k := IndexOf(ix.chain, c);
    SplitLeafPages(ix, c);
    SplitLeafChain(ix, c);
    LinksAround(ix.chain, k, ix.next, i);
    assert LinkOk(ix, k);
    if i != k + 1 {
      assert LinkOk(ix, if i <= k then i else i - 1);
    }
  }

  lemma SplitLeafChain(ix: Index, c: int)
    requires Tree(ix, 0) && Chained(ix) && IsLeaf(ix, c) && |ix.pages[c].keys| == ix.order + 1
    ensures c in ix.chain && SplitLeaf(ix, c).chain == InsertAt(ix.chain, IndexOf(ix.chain, c) + 1, ix.next)
    ensures ix.pages[c].next == ChainNext(ix.chain, IndexOf(ix.chain, c))
  {
    hide Nodes, Down, Up, InsertAt;
    LeafLinks(ix, c);
  }

  /** Neighbours in the chain once `r` follows its `k`th leaf. */
  lemma LinksAround(chain: seq<int>, k: nat, r: int, i: nat)
    requires k < |chain| && i <= |chain|
    ensures var longer := InsertAt(chain, k + 1, r);
      && longer[i] == (if i <= k then chain[i] else if i == k + 1 then r else chain[i - 1])
      && (i < k ==> ChainNext(longer, i) == ChainNext(chain, i) && ChainPrev(longer, i) == ChainPrev(chain, i))
      && (i == k ==> ChainNext(longer, i) == r && ChainPrev(longer, i) == ChainPrev(chain, k))
      && (i == k + 1 ==> ChainNext(longer, i) == ChainNext(chain, k) && ChainPrev(longer, i) == chain[k])
      && (i == k + 2 ==> ChainNext(longer, i) == ChainNext(chain, k + 1) && ChainPrev(longer, i) == r)
      && (k + 2 < i ==> ChainNext(longer, i) == ChainNext(chain, i - 1) && ChainPrev(longer, i) == ChainPrev(chain, i - 1))
    ensures k + 1 < |chain| ==> ChainNext(chain, k) == chain[k + 1]
    ensures k + 1 == |chain| ==> ChainNext(chain, k) == -1
  {
  }

  // ---- Hanging the new page into its parent ----

  lemma AttachTree(ix: Index, p: int, sep: int, r: int)
    requires r != 0 && Tree(ix, r)
    requires PageOk(ix, p) && ix.pages[p].Inner? && ix.level[p] == ix.level[r] + 1
    ensures Tree(Attach(ix, p, sep, r), 0)
  {
    AttachNodes(ix, p, sep, r);
    AttachDown(ix, p, sep, r);
    AttachUp(ix, p, sep, r);
  }

  lemma AttachNodes(ix: Index, p: int, sep: int, r: int)
    requires r != 0 && Tree(ix, r) && PageOk(ix, p) && ix.pages[p].Inner?
    ensures Domain(Attach(ix, p, sep, r)) && Nodes(Attach(ix, p, sep, r))
  {
    hide Down, UpperBound;
    var jx := Attach(ix, p, sep, r);
    forall q | q in jx.pages
      ensures PageOk(jx, q)
    {
      assert PageOk(ix, q);
    }
  }

  lemma AttachDown(ix: Index, p: int, sep: int, r: int)
    requires r != 0 && Tree(ix, r) && PageOk(ix, p) && ix.pages[p].Inner? && ix.level[p] == ix.level[r] + 1
    requires Domain(Attach(ix, p, sep, r))
    ensures Down(Attach(ix, p, sep, r))
  {
    hide Nodes, UpperBound;
    var jx := Attach(ix, p, sep, r);
    var at := UpperBound(ix.pages[p].keys, sep) + 1;
    forall q, i | IsChild(jx, q, i)
      ensures ChildOk(jx, q, jx.pages[q].ptrs[i])
    {
      if !(q == p && i == at) {
        var h := if q != p || i < at then i else i - 1;
        assert IsChild(ix, q, h) && ix.pages[q].ptrs[h] == jx.pages[q].ptrs[i];
        assert ChildOk(ix, q, ix.pages[q].ptrs[h]);
      }
    }
    AttachDistinct(ix, p, sep, r);
  }

  lemma AttachUp(ix: Index, p: int, sep: int, r: int)
    requires r != 0 && Tree(ix, r) && PageOk(ix, p) && ix.pages[p].Inner?
    requires Domain(Attach(ix, p, sep, r))
    ensures Up(Attach(ix, p, sep, r), 0)
  {
    hide Nodes, Down, UpperBound;
    var jx := Attach(ix, p, sep, r);
    var at := UpperBound(ix.pages[p].keys, sep) + 1;
    forall x | x in jx.pages && x != jx.root
      ensures HasParent(jx, x)
    {
      if x == r {
        assert jx.pages[p].ptrs[at] == r;
      } else {
        assert HasParent(ix, x);
        if ix.parent[x] == p {
          var i := IndexOf(ix.pages[p].ptrs, x);
          assert jx.pages[p].ptrs[if i < at then i else i + 1] == x;
        }
      }
    }
  }

  lemma AttachDistinct(ix: Index, p: int, sep: int, r: int)
    requires r != 0 && Tree(ix, r)
    requires PageOk(ix, p) && ix.pages[p].Inner?
    ensures var jx := Attach(ix, p, sep, r);
      forall q, i, j :: IsChild(jx, q, i) && IsChild(jx, q, j) && i != j ==> jx.pages[q].ptrs[i] != jx.pages[q].ptrs[j]
  {
    assert PageOk(ix, p);
    var jx := Attach(ix, p, sep, r);
    var at := UpperBound(ix.pages[p].keys, sep) + 1;
    forall q, i, j | IsChild(jx, q, i) && IsChild(jx, q, j) && i != j
      ensures jx.pages[q].ptrs[i] != jx.pages[q].ptrs[j]
    {
      var a := if q != p || i < at then i else i - 1;
      var b := if q != p || j < at then j else j - 1;
      if q == p && (i == at || j == at) {
        var o := if i == at then b else a;
        assert IsChild(ix, p, o) && ChildOk(ix, p, ix.pages[p].ptrs[o]);
      } else {
        assert IsChild(ix, q, a) && IsChild(ix, q, b);
      }
    }
  }

  lemma AttachChained(ix: Index, p: int, sep: int, r: int)
    requires Chained(ix) && p in ix.pages && ix.pages[p].Inner? && |ix.pages[p].ptrs| == |ix.pages[p].keys| + 1
    ensures Chained(Attach(ix, p, sep, r))
  {
    var jx := Attach(ix, p, sep, r);
    KeepChain(ix, jx);
  }

  // ---- Splitting an inner page ----

  ghost predicate Overfull(ix: Index, p: int) {
    p in ix.pages && ix.pages[p].Inner? && |ix.pages[p].ptrs| == |ix.pages[p].keys| + 1 && |ix.pages[p].keys| == ix.order + 1
  }

  /** Where child `i` of page `q` sat before `p` was split. */
  function Before(ix: Index, p: int, q: int, i: int): (int, int)
    requires p in ix.pages
  {
    if q == ix.next then (p, i + |ix.pages[p].keys| / 2 + 1) else (q, i)
  }

  lemma SplitInnerChild(ix: Index, p: int, sep: int, q: int, i: int)
    requires Domain(ix) && Overfull(ix, p)
    requires IsChild(SplitInner(ix, p, sep), q, i)
    ensures var (h, j) := Before(ix, p, q, i);
      IsChild(ix, h, j) && SplitInner(ix, p, sep).pages[q].ptrs[i] == ix.pages[h].ptrs[j]
  {
  }

  lemma SplitInnerDown(ix: Index, p: int, sep: int)
    requires Tree(ix, 0) && Overfull(ix, p)
    ensures Domain(SplitInner(ix, p, sep)) && Down(SplitInner(ix, p, sep))
  {
    var jx := SplitInner(ix, p, sep);
    var s := |ix.pages[p].keys| / 2;
    assert jx.level.Keys == jx.pages.Keys;
    forall q, i | IsChild(jx, q, i)
      ensures ChildOk(jx, q, jx.pages[q].ptrs[i])
    {
      SplitInnerChild(ix, p, sep, q, i);
      SplitInnerParent(ix, p, sep, q, i);
      var (h, j) := Before(ix, p, q, i);
      assert ChildOk(ix, h, ix.pages[h].ptrs[j]);
    }
    forall q, i, j | IsChild(jx, q, i) && IsChild(jx, q, j) && i != j
      ensures jx.pages[q].ptrs[i] != jx.pages[q].ptrs[j]
    {
      SplitInnerChild(ix, p, sep, q, i);
      SplitInnerChild(ix, p, sep, q, j);
    }
  }

  /** A pointer of the upper half, by its place in the unsplit page. */
  lemma MovedChild(ix: Index, p: int, x: int) returns (k: int)
    requires Domain(ix) && Down(ix) && Overfull(ix, p) && x in ix.pages[p].ptrs[|ix.pages[p].keys| / 2 + 1..]
    ensures IsChild(ix, p, k) && |ix.pages[p].keys| / 2 < k && ix.pages[p].ptrs[k] == x && ChildOk(ix, p, x)
  {
    var s := |ix.pages[p].keys| / 2;
    k := IndexOf(ix.pages[p].ptrs[s + 1..], x) + s + 1;
    assert IsChild(ix, p, k);
  }

  lemma SplitInnerParent(ix: Index, p: int, sep: int, q: int, i: int)
    requires Tree(ix, 0) && Overfull(ix, p)
    requires IsChild(SplitInner(ix, p, sep), q, i)
    ensures var jx := SplitInner(ix, p, sep); var x := jx.pages[q].ptrs[i];
      x in jx.parent && jx.parent[x] == q
  {
    var jx := SplitInner(ix, p, sep);
    var s := |ix.pages[p].keys| / 2;
    var right := ix.pages[p].ptrs[s + 1..];
    SplitInnerChild(ix, p, sep, q, i);
    var (h, j) := Before(ix, p, q, i);
    var x := ix.pages[h].ptrs[j];
    assert ChildOk(ix, h, x);
    if q == ix.next {
      assert right[i] == x;
    } else if x in right {
      var k := MovedChild(ix, p, x);
      assert false;
    }
  }

  lemma SplitInnerUp(ix: Index, p: int, sep: int)
    requires Tree(ix, 0) && Overfull(ix, p)
    ensures Domain(SplitInner(ix, p, sep)) && Up(SplitInner(ix, p, sep), ix.next)
  {
    hide Nodes, Down, SplitInner;
    var jx := SplitInner(ix, p, sep);
    SplitInnerShape(ix, p, sep);
    RootStays(ix, p);
    forall x | x in jx.pages && x != jx.root && x != ix.next
      ensures HasParent(jx, x)
    {
      assert HasParent(ix, x);
      SplitKeepsChild(ix, p, x);
    }
  }

  lemma SplitInnerShape(ix: Index, p: int, sep: int)
    requires Domain(ix) && Overfull(ix, p)
    ensures var jx := SplitInner(ix, p, sep); var s := |ix.pages[p].keys| / 2;
      && Domain(jx) && jx.root == ix.root && jx.pages.Keys == ix.pages.Keys + {ix.next}
      && jx.pages[p].Inner? && jx.pages[p].ptrs == ix.pages[p].ptrs[..s + 1]
      && jx.pages[ix.next].Inner? && jx.pages[ix.next].ptrs == ix.pages[p].ptrs[s + 1..]
      && (forall x :: x in ix.pages && x != p ==> jx.pages[x] == ix.pages[x])
      && jx.parent[ix.next] == 0
      && (forall x :: x in ix.pages ==> jx.parent[x] == if x in ix.pages[p].ptrs[s + 1..] then ix.next else ix.parent[x])
  {
  }

  lemma RootStays(ix: Index, p: int)
    requires Tree(ix, 0) && Overfull(ix, p)
    ensures ix.root !in ix.pages[p].ptrs[|ix.pages[p].keys| / 2 + 1..]
  {
    hide Nodes, Down;
    if ix.root in ix.pages[p].ptrs[|ix.pages[p].keys| / 2 + 1..] {
      var k := MovedChild(ix, p, ix.root);
      assert false;
    }
  }

  /** A child of the split page is in one half or the other. */
  lemma SplitKeepsChild(ix: Index, p: int, x: int)
    requires Domain(ix) && Overfull(ix, p)
    ensures var s := |ix.pages[p].keys| / 2;
      x in ix.pages[p].ptrs ==> x in ix.pages[p].ptrs[s + 1..] || x in ix.pages[p].ptrs[..s + 1]
  {
    var ptrs, s := ix.pages[p].ptrs, |ix.pages[p].keys| / 2;
    if x in ptrs {
      var i := IndexOf(ptrs, x);
      assert if i <= s then ptrs[..s + 1][i] == x else ptrs[s + 1..][i - s - 1] == x;
    }
  }

  lemma SplitInnerTree(ix: Index, p: int, sep: int)
    requires Tree(ix, 0) && Overfull(ix, p)
    ensures Tree(SplitInner(ix, p, sep), ix.next)
  {
    SplitInnerDown(ix, p, sep);
    SplitInnerUp(ix, p, sep);
    var jx := SplitInner(ix, p, sep);
    assert forall q :: q in ix.pages ==> PageOk(ix, q);
  }

  lemma SplitInnerChained(ix: Index, p: int, sep: int)
    requires Tree(ix, 0) && Chained(ix) && Overfull(ix, p)
    ensures Chained(SplitInner(ix, p, sep))
  {
    KeepChain(ix, SplitInner(ix, p, sep));
  }

  // ---- Growing a root ----

  lemma GrowRootTree(ix: Index, sep: int, r: int)
    requires r != 0 && Tree(ix, r) && ix.level[r] == ix.level[ix.root]
    ensures Tree(GrowRoot(ix, sep, r), 0)
  {
    hide Nodes, Down, Up;
    GrowRootNodes(ix, sep, r);
    GrowRootDown(ix, sep, r);
    GrowRootUp(ix, sep, r);
  }

  lemma GrowRootNodes(ix: Index, sep: int, r: int)
    requires r != 0 && Tree(ix, r) && ix.level[r] == ix.level[ix.root]
    ensures Domain(GrowRoot(ix, sep, r)) && Nodes(GrowRoot(ix, sep, r))
  {
    hide Down;
    var jx := GrowRoot(ix, sep, r);
    forall p | p in jx.pages
      ensures PageOk(jx, p)
    {
      assert p != ix.next ==> PageOk(ix, p);
    }
  }

  lemma GrowRootDown(ix: Index, sep: int, r: int)
    requires r != 0 && Tree(ix, r) && ix.level[r] == ix.level[ix.root] && Domain(GrowRoot(ix, sep, r))
    ensures Down(GrowRoot(ix, sep, r))
  {
    hide Nodes;
    var jx := GrowRoot(ix, sep, r);
    var t := ix.next;
    forall p, i | IsChild(jx, p, i)
      ensures ChildOk(jx, p, jx.pages[p].ptrs[i])
    {
      if p != t {
        assert IsChild(ix, p, i) && ChildOk(ix, p, ix.pages[p].ptrs[i]);
      }
    }
    assert forall p, i :: IsChild(jx, p, i) && p != t ==> IsChild(ix, p, i);
  }

  lemma GrowRootUp(ix: Index, sep: int, r: int)
    requires r != 0 && Tree(ix, r) && ix.level[r] == ix.level[ix.root] && Domain(GrowRoot(ix, sep, r))
    ensures Up(GrowRoot(ix, sep, r), 0)
  {
    hide Nodes, Down;
    var jx := GrowRoot(ix, sep, r);
    var t := ix.next;
    forall x | x in jx.pages && x != t
      ensures HasParent(jx, x)
    {
      assert jx.pages[t].ptrs[0] == ix.root && jx.pages[t].ptrs[1] == r;
      if x != ix.root && x != r {
        assert HasParent(ix, x);
      }
    }
  }

  lemma GrowRootChained(ix: Index, sep: int, r: int)
    requires Domain(ix) && Chained(ix) && r in ix.pages
    ensures Chained(GrowRoot(ix, sep, r))
  {
    KeepChain(ix, GrowRoot(ix, sep, r));
  }
}
