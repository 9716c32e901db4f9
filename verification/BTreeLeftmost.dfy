/** Page 1 stays the leftmost leaf: splits keep the left half in place and never touch a first child. */
module BTreeLeftmost {
  import opened BTreeNode
  import opened BTreeModel
  import opened BTreeStructure
  import opened BTreeInsert
  import opened BTreeRead
  import opened BTreeDelete

  ghost predicate Descendable(ix: Index) {
    Domain(ix) && Nodes(ix) && Down(ix)
  }

  ghost predicate SameFirst(ix: Index, jx: Index, p: int)
    requires p in ix.pages
  {
    && p in jx.pages
    && (ix.pages[p].Leaf? <==> jx.pages[p].Leaf?)
    && (ix.pages[p].Inner? && ix.pages[p].ptrs != [] ==>
      jx.pages[p].ptrs != [] && jx.pages[p].ptrs[0] == ix.pages[p].ptrs[0])
  }

  lemma {:induction false} FirstLeafSame(ix: Index, jx: Index, p: int)
    requires Descendable(ix) && Descendable(jx) && p in ix.pages
    requires forall q {:trigger SameFirst(ix, jx, q)} :: q in ix.pages ==> SameFirst(ix, jx, q)
    ensures p in jx.pages && FirstLeaf(jx, p) == FirstLeaf(ix, p)
    decreases ix.level[p]
  {
    assert SameFirst(ix, jx, p);
    if ix.pages[p].Inner? {
      FirstChild(ix, p);
      FirstChild(jx, p);
      FirstLeafSame(ix, jx, ix.pages[p].ptrs[0]);
    }
  }

  lemma PutLeafLeftmost(ix: Index, c: int, n: Node)
    requires Leftmost(ix) && IsLeaf(ix, c) && n.Leaf? && Descendable(PutLeaf(ix, c, n))
    ensures Leftmost(PutLeaf(ix, c, n))
  {
    FirstLeafSame(ix, PutLeaf(ix, c, n), ix.root);
  }

  lemma SplitLeafLeftmost(ix: Index, c: int)
    requires Tree(ix, 0) && Chained(ix) && IsLeaf(ix, c) && |ix.pages[c].keys| == ix.order + 1 && Leftmost(ix)
    ensures Leftmost(SplitLeaf(ix, c))
  {
    SplitLeafTree(ix, c);
    SplitLeafPages(ix, c);
    FirstLeafSame(ix, SplitLeaf(ix, c), ix.root);
  }

  lemma AttachLeftmost(ix: Index, p: int, sep: int, r: int)
    requires r != 0 && Tree(ix, r) && Leftmost(ix)
    requires PageOk(ix, p) && ix.pages[p].Inner? && ix.level[p] == ix.level[r] + 1
    ensures Leftmost(Attach(ix, p, sep, r))
  {
    AttachTree(ix, p, sep, r);
    FirstLeafSame(ix, Attach(ix, p, sep, r), ix.root);
  }

  lemma SplitInnerLeftmost(ix: Index, p: int, sep: int)
    requires Tree(ix, 0) && Overfull(ix, p) && Leftmost(ix)
    ensures Leftmost(SplitInner(ix, p, sep))
  {
    SplitInnerTree(ix, p, sep);
    FirstLeafSame(ix, SplitInner(ix, p, sep), ix.root);
  }

  lemma GrowRootLeftmost(ix: Index, sep: int, r: int)
    requires r != 0 && Tree(ix, r) && ix.level[r] == ix.level[ix.root] && Leftmost(ix)
    ensures Leftmost(GrowRoot(ix, sep, r))
  {
    var jx := GrowRoot(ix, sep, r);
    GrowRootTree(ix, sep, r);
    FirstLeafSame(ix, jx, ix.root);
    FirstChild(jx, ix.next);
  }

  lemma {:induction false} HangLeftmost(ix: Index, path: seq<int>, r: int, sep: int)
    requires Pending(ix, path, r) && Leftmost(ix)
    ensures Leftmost(Hang(ix, path, r, sep))
    decreases |path|
  {
    if |path| == 1 {
      assert Rung(ix, path, 0);
      GrowRootLeftmost(ix, sep, r);
    } else {
      ParentReady(ix, path, r);
      var p := ParentOf(path);
      AttachLeftmost(ix, p, sep, r);
      if Full(ix, p) {
        SpiltPending(ix, path, r, sep);
        var jx := Fed(ix, path, r, sep);
        AttachTree(ix, p, sep, r);
        SplitInnerLeftmost(jx, p, Promoted(jx.pages[p], |path| == 2));
        HangLeftmost(Spilt(ix, path, r, sep), path[..|path| - 1], ix.next, Promoted(jx.pages[p], |path| == 2));
      }
    }
  }

  lemma InsertLeftmost(ix: Index, key: int, rid: Rid)
    requires Valid(ix) && Leftmost(ix)
    ensures Leftmost(Insert(ix, key, rid))
  {
    var c := LeafFor(ix, key);
    WithEntryOk(ix, key, rid);
    PutLeafLeftmost(ix, c, InsertEntry(ix.pages[c], key, rid));
    if Full(ix, c) {
      SplitPending(ix, key, rid);
      SplitLeafLeftmost(WithEntry(ix, key, rid), c);
      HangLeftmost(SplitLeaf(WithEntry(ix, key, rid), c), Descend(ix, ix.root, key), ix.next, SplitSep(ix, key, rid));
    }
  }

  lemma DeleteLeftmost(ix: Index, key: int, rid: Rid)
    requires Valid(ix) && Leftmost(ix)
    ensures Leftmost(Delete(ix, key, rid).0)
  {
    var j := DeleteEntries(ix, key, rid);
    match Find(ix, key, rid)
    case None =>
    case Some((i, s)) =>
      assert LinkOk(ix, i);
      PutLeafLeftmost(ix, ix.chain[i], RemoveEntry(ChainLeaf(ix, i), s));
  }
}
