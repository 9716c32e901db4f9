/** A whole insert: descent, leaf insert, and the cascade of splits up the recorded path. */
module BTreeInsert {
  import opened BTreeNode
  import opened BTreeModel
  import opened BTreeStructure
  import opened BTreeOrder

  // ---- The descent ----

  lemma RouteChild(ix: Index, orphan: int, p: int, key: int)
    requires Tree(ix, orphan) && p in ix.pages && ix.pages[p].Inner?
    ensures PageOk(ix, p)
    ensures var i := Route(ix.pages[p].keys, key); IsChild(ix, p, i) && ChildOk(ix, p, ix.pages[p].ptrs[i])
  {
    assert PageOk(ix, p);
    assert IsChild(ix, p, Route(ix.pages[p].keys, key));
  }

  /** The pages visited from `p` down to a leaf, as recorded by the descent. */
  function Descend(ix: Index, p: int, key: int): (path: seq<int>)
    requires Tree(ix, 0) && p in ix.pages
    ensures path != [] && path[0] == p
    ensures IsLeaf(ix, path[|path| - 1])
    decreases ix.level[p]
  {
    if ix.pages[p].Leaf? then [p]
    else
      RouteChild(ix, 0, p, key);
      [p] + Descend(ix, ix.pages[p].ptrs[Route(ix.pages[p].keys, key)], key)
  }

  function LeafFor(ix: Index, key: int): (c: int)
    requires Tree(ix, 0)
    ensures IsLeaf(ix, c)
  {
    var path := Descend(ix, ix.root, key);
    path[|path| - 1]
  }

  ghost predicate Rung(ix: Index, path: seq<int>, i: int)
    requires 0 <= i < |path|
  {
    && path[i] in ix.pages && path[i] in ix.level && path[i] in ix.parent
    && ix.root in ix.level
    && ix.level[path[i]] + i == ix.level[ix.root]
    && (i + 1 < |path| ==> ix.pages[path[i]].Inner? && path[i + 1] in ix.parent && ix.parent[path[i + 1]] == path[i])
  }

  /** `path` leads from the root down the parent links. */
  ghost predicate Ladder(ix: Index, path: seq<int>) {
    && path != []
    && path[0] == ix.root
    && (forall i {:trigger Rung(ix, path, i)} :: 0 <= i < |path| ==> Rung(ix, path, i))
  }

  lemma {:induction false} DescendLadder(ix: Index, p: int, key: int, above: seq<int>)
    requires Tree(ix, 0) && p in ix.pages
    requires Ladder(ix, above + [p])
    ensures Ladder(ix, above + Descend(ix, p, key))
    decreases ix.level[p]
  {
    if ix.pages[p].Inner? {
      RouteChild(ix, 0, p, key);
      var c := ix.pages[p].ptrs[Route(ix.pages[p].keys, key)];
      var up := above + [p];
      forall i | 0 <= i < |up + [c]|
        ensures Rung(ix, up + [c], i)
      {
        assert Rung(ix, up, |above|);
        if i < |up| {
          assert Rung(ix, up, i);
        }
      }
      DescendLadder(ix, c, key, up);
      assert above + Descend(ix, p, key) == up + Descend(ix, c, key);
    }
  }

  lemma PathLadder(ix: Index, key: int)
    requires Tree(ix, 0)
    ensures Ladder(ix, Descend(ix, ix.root, key))
  {
    assert Rung(ix, [ix.root], 0);
    assert [] + [ix.root] == [ix.root];
    assert [] + Descend(ix, ix.root, key) == Descend(ix, ix.root, key);
    DescendLadder(ix, ix.root, key, []);
  }

  lemma LadderKept(ix: Index, jx: Index, path: seq<int>)
    requires Ladder(ix, path) && Domain(ix) && Domain(jx) && jx.root == ix.root
    requires forall p {:trigger p in ix.pages} ::
      p in ix.pages ==> p in jx.pages && jx.level[p] == ix.level[p] && jx.parent[p] == ix.parent[p]
    requires forall p :: p in ix.pages && ix.pages[p].Inner? ==> jx.pages[p].Inner?
    ensures Ladder(jx, path)
  {
    forall i | 0 <= i < |path|
      ensures Rung(jx, path, i)
    {
      assert Rung(ix, path, i);
      var p: int := path[i];
      assert p in ix.pages && ix.root in ix.pages;
      if i + 1 < |path| {
        assert Rung(ix, path, i + 1);
        var q: int := path[i + 1];
        assert q in ix.pages;
      }
    }
  }

  // ---- The cascade ----

  function Last(path: seq<int>): int
    requires path != []
  {
    path[|path| - 1]
  }

  /** The last page of `path` has just been split and `r` is its new sibling, not yet in any parent. */
  ghost predicate Pending(ix: Index, path: seq<int>, r: int) {
    && r != 0
    && Tree(ix, r) && Chained(ix) && Sizes(ix, 0)
    && Ladder(ix, path)
    && Last(path) in ix.pages
    && ix.level[r] == ix.level[Last(path)]
    && (ix.pages[Last(path)].Inner? ==> ix.order / 2 <= |ix.pages[Last(path)].keys|)
  }

  function ParentOf(path: seq<int>): int
    requires 2 <= |path|
  {
    path[|path| - 2]
  }

  lemma ParentReady(ix: Index, path: seq<int>, r: int)
    requires Pending(ix, path, r) && 2 <= |path|
    ensures PageOk(ix, ParentOf(path)) && ix.pages[ParentOf(path)].Inner?
    ensures ix.level[ParentOf(path)] == ix.level[r] + 1
    ensures ix.parent[Last(path)] == ParentOf(path)
    ensures |ix.pages[ParentOf(path)].keys| <= ix.order
  {
    assert Rung(ix, path, |path| - 2) && Rung(ix, path, |path| - 1);
    assert PageOk(ix, ParentOf(path)) && SizeOk(ix, ParentOf(path));
  }

  predicate Full(ix: Index, p: int) {
    p in ix.pages && |ix.pages[p].keys| == ix.order
  }

  /** What goes up: the middle key, except that below the root a middle key of 0 counts as none. */
  function Promoted(n: Node, toRoot: bool): int
    requires 3 <= |n.keys|
  {
    var s := |n.keys| / 2;
    if toRoot || n.keys[s] != 0 then n.keys[s] else n.keys[s + 1]
  }

  /** The parent of the split page after taking in `r`. */
  function Fed(ix: Index, path: seq<int>, r: int, sep: int): Index
    requires Pending(ix, path, r) && 2 <= |path|
  {
    ParentReady(ix, path, r);
    Attach(ix, ParentOf(path), sep, r)
  }

  ghost predicate Spills(ix: Index, path: seq<int>, r: int)
    requires Pending(ix, path, r)
  {
    2 <= |path| && Full(ix, ParentOf(path))
  }

  /** ... and after splitting it in turn. */
  function Spilt(ix: Index, path: seq<int>, r: int, sep: int): Index
    requires Pending(ix, path, r) && Spills(ix, path, r)
  {
    ParentReady(ix, path, r);
    var jx := Fed(ix, path, r, sep);
    AttachTree(ix, ParentOf(path), sep, r);
    SplitInner(jx, ParentOf(path), Promoted(jx.pages[ParentOf(path)], |path| == 2))
  }

  /** A split moves only the split page's own children. */
  lemma SplitKeepsParent(ix: Index, p: int, sep: int, x: int)
    requires Tree(ix, 0) && Overfull(ix, p) && x in ix.pages && ix.parent[x] != p
    ensures x in SplitInner(ix, p, sep).parent && SplitInner(ix, p, sep).parent[x] == ix.parent[x]
  {
    if x in ix.pages[p].ptrs[|ix.pages[p].keys| / 2 + 1..] {
      var k := MovedChild(ix, p, x);
    }
  }

  lemma SpiltRung(ix: Index, path: seq<int>, r: int, sep: int, i: nat)
    requires Pending(ix, path, r) && Spills(ix, path, r) && i + 1 < |path|
    ensures Rung(Spilt(ix, path, r, sep), path[..|path| - 1], i)
  {
    hide Sizes, Chained, Nodes;
    ParentReady(ix, path, r);
    var p := ParentOf(path);
    var up := path[..|path| - 1];
    var jx := Fed(ix, path, r, sep);
    AttachTree(ix, p, sep, r);
    assert Rung(ix, path, i) && Rung(ix, path, |path| - 2);
    assert PageOk(jx, p) && up[i] in jx.pages;
    if i + 1 < |up| {
      assert Rung(ix, path, i + 1);
      assert ix.level[up[i]] != ix.level[p] && ix.level[up[i + 1]] != ix.level[r];
      SplitKeepsParent(jx, p, Promoted(jx.pages[p], |path| == 2), up[i + 1]);
    }
    if i == 0 {
      assert ix.level[up[i]] != ix.level[r] && jx.parent[up[i]] == 0;
      SplitKeepsParent(jx, p, Promoted(jx.pages[p], |path| == 2), up[i]);
    } else {
      assert Rung(ix, path, i - 1);
      assert ix.level[up[i]] != ix.level[r] && jx.parent[up[i]] == up[i - 1] && up[i - 1] != p;
      SplitKeepsParent(jx, p, Promoted(jx.pages[p], |path| == 2), up[i]);
    }
  }

  lemma SpiltLadder(ix: Index, path: seq<int>, r: int, sep: int)
    requires Pending(ix, path, r) && Spills(ix, path, r)
    ensures Ladder(Spilt(ix, path, r, sep), path[..|path| - 1])
  {
    ParentReady(ix, path, r);
    var up := path[..|path| - 1];
    var kx := Spilt(ix, path, r, sep);
    forall i | 0 <= i < |up|
      ensures Rung(kx, up, i)
    {
      SpiltRung(ix, path, r, sep, i);
    }
    assert kx.root == ix.root == up[0];
  }

  /** The parent with `r` in it is sound, though possibly one past `order`. */
  lemma FedOk(ix: Index, path: seq<int>, r: int, sep: int)
    requires Pending(ix, path, r) && 2 <= |path|
    ensures var jx := Fed(ix, path, r, sep);
      && Tree(jx, 0) && Chained(jx) && Sizes(jx, if Full(ix, ParentOf(path)) then ParentOf(path) else 0)
      && jx.level == ix.level && jx.next == ix.next && jx.root == ix.root && jx.order == ix.order
      && (Full(ix, ParentOf(path)) ==> Overfull(jx, ParentOf(path)))
  {
    hide Ladder, Nodes, Down, Up;
    ParentReady(ix, path, r);
    AttachTree(ix, ParentOf(path), sep, r);
    AttachChained(ix, ParentOf(path), sep, r);
    AttachSizes(ix, ParentOf(path), sep, r);
  }

  lemma SpiltPending(ix: Index, path: seq<int>, r: int, sep: int)
    requires Pending(ix, path, r) && Spills(ix, path, r)
    ensures Pending(Spilt(ix, path, r, sep), path[..|path| - 1], ix.next)
  {
    hide Nodes, Down, Up, Ladder, Chained, Sizes, SplitInner, Fed;
    FedOk(ix, path, r, sep);
    SpiltLadder(ix, path, r, sep);
    var p := ParentOf(path);
    var jx := Fed(ix, path, r, sep);
    var up := Promoted(jx.pages[p], |path| == 2);
    SplitInnerTree(jx, p, up);
    SplitInnerChained(jx, p, up);
    SplitInnerSizes(jx, p, up);
    SplitInnerHalf(jx, p, up);
  }

  lemma SplitInnerHalf(ix: Index, p: int, sep: int)
    requires Domain(ix) && Overfull(ix, p)
    ensures var jx := SplitInner(ix, p, sep);
      && p in jx.pages && jx.pages[p].Inner? && ix.next in jx.level && p in jx.level && jx.level[ix.next] == jx.level[p]
      && ix.order / 2 <= |jx.pages[p].keys| && jx.order == ix.order
  {
  }

  /** Hang `r` under `sep` beside the last page of `path`, splitting upwards as long as parents overflow. */
  function Hang(ix: Index, path: seq<int>, r: int, sep: int): Index
    requires Pending(ix, path, r)
    decreases |path|
  {
    if |path| == 1 then GrowRoot(ix, sep, r)
    else if !Full(ix, ParentOf(path)) then Fed(ix, path, r, sep)
    else
      ParentReady(ix, path, r);
      SpiltPending(ix, path, r, sep);
      Hang(Spilt(ix, path, r, sep), path[..|path| - 1], ix.next, Promoted(Fed(ix, path, r, sep).pages[ParentOf(path)], |path| == 2))
  }

  lemma {:induction false} HangValid(ix: Index, path: seq<int>, r: int, sep: int)
    requires Pending(ix, path, r)
    ensures Valid(Hang(ix, path, r, sep))
    decreases |path|
  {
    if |path| == 1 {
      assert Rung(ix, path, 0);
      GrowRootTree(ix, sep, r);
      GrowRootChained(ix, sep, r);
      GrowRootSizes(ix, sep, r);
    } else {
      ParentReady(ix, path, r);
      FedOk(ix, path, r, sep);
      if Full(ix, ParentOf(path)) {
        SpiltPending(ix, path, r, sep);
        HangValid(Spilt(ix, path, r, sep), path[..|path| - 1], ix.next,
          Promoted(Fed(ix, path, r, sep).pages[ParentOf(path)], |path| == 2));
      }
    }
  }

  // ---- The whole insert ----

  /** The leaf for `key` with the new entry in it, possibly one past `order`. */
  function WithEntry(ix: Index, key: int, rid: Rid): Index
    requires Tree(ix, 0)
  {
    var c := LeafFor(ix, key);
    assert PageOk(ix, c);
    PutLeaf(ix, c, InsertEntry(ix.pages[c], key, rid))
  }

  lemma WithEntryOk(ix: Index, key: int, rid: Rid)
    requires Valid(ix)
    ensures var jx := WithEntry(ix, key, rid); var c := LeafFor(ix, key);
      Tree(jx, 0) && Chained(jx) && IsLeaf(jx, c) && PageOk(ix, c) && jx.pages[c] == InsertEntry(ix.pages[c], key, rid)
    ensures Sizes(WithEntry(ix, key, rid), if Full(ix, LeafFor(ix, key)) then LeafFor(ix, key) else 0)
  {
    var c := LeafFor(ix, key);
    var n := ix.pages[c];
    assert PageOk(ix, c) && SizeOk(ix, c);
    InsertSorted(n.keys, key);
    PutLeafTree(ix, c, InsertEntry(n, key, rid));
    PutLeafChained(ix, c, InsertEntry(n, key, rid));
    PutLeafSizes(ix, c, InsertEntry(n, key, rid));
  }

  lemma SplitPending(ix: Index, key: int, rid: Rid)
    requires Valid(ix) && Full(ix, LeafFor(ix, key))
    ensures var jx := WithEntry(ix, key, rid); var c := LeafFor(ix, key);
      Tree(jx, 0) && Chained(jx) && IsLeaf(jx, c) && |jx.pages[c].keys| == jx.order + 1
    ensures Pending(SplitLeaf(WithEntry(ix, key, rid), LeafFor(ix, key)), Descend(ix, ix.root, key), ix.next)
  {
    WithEntryOk(ix, key, rid);
    var c := LeafFor(ix, key);
    var jx := WithEntry(ix, key, rid);
    var path := Descend(ix, ix.root, key);
    var kx := SplitLeaf(jx, c);
    SplitLeafPages(jx, c);
    SplitLeafTree(jx, c);
    SplitLeafChained(jx, c);
    SplitLeafSizes(jx, c);
    PathLadder(ix, key);
    LadderKept(ix, kx, path);
    assert Last(path) == c && kx.level[ix.next] == 0 && kx.level[c] == ix.level[c];
  }

  function SplitSep(ix: Index, key: int, rid: Rid): int
    requires Tree(ix, 0)
  {
    var c := LeafFor(ix, key);
    assert PageOk(ix, c);
    var keys := InsertEntry(ix.pages[c], key, rid).keys;
    keys[|keys| / 2]
  }

  function Insert(ix: Index, key: int, rid: Rid): Index
    requires Valid(ix)
  {
    var c := LeafFor(ix, key);
    if !Full(ix, c) then WithEntry(ix, key, rid)
    else
      SplitPending(ix, key, rid);
      Hang(SplitLeaf(WithEntry(ix, key, rid), c), Descend(ix, ix.root, key), ix.next, SplitSep(ix, key, rid))
  }

  /** Every insert keeps the structure: one parent each, equal leaf depth, fill, and the doubly linked leaf chain. */
  lemma InsertValid(ix: Index, key: int, rid: Rid)
    requires Valid(ix)
    ensures Valid(Insert(ix, key, rid))
  {
    WithEntryOk(ix, key, rid);
    if Full(ix, LeafFor(ix, key)) {
      SplitPending(ix, key, rid);
      HangValid(SplitLeaf(WithEntry(ix, key, rid), LeafFor(ix, key)), Descend(ix, ix.root, key), ix.next, SplitSep(ix, key, rid));
    }
  }
}
