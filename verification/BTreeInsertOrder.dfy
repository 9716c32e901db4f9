/** When an insert keeps the tree ordered: exactly when every separator it adds is strict. */
module BTreeInsertOrder {
  import opened BTreeNode
  import opened BTreeModel
  import opened BTreeStructure
  import opened BTreeOrder
  import opened BTreeInsert

  // ---- Where a key is routed ----

  ghost predicate Holds(ix: Index, p: int, key: int)
    requires p in ix.lo && p in ix.hi
  {
    Below(ix.lo[p], At(key)) && AtMost(At(key), ix.hi[p])
  }

  lemma {:induction false} DescendHolds(ix: Index, p: int, key: int)
    requires Ordered(ix) && p in ix.pages && Holds(ix, p, key)
    ensures Holds(ix, Last(Descend(ix, p, key)), key)
    decreases ix.level[p]
  {
    if ix.pages[p].Inner? {
      RouteChild(ix, 0, p, key);
      var i := Route(ix.pages[p].keys, key);
      assert ChildFits(ix, p, i, 0, 0);
      DescendHolds(ix, ix.pages[p].ptrs[i], key);
    }
  }

  /** The leaf reached for `key` has `key` above its lower bound and no higher than its upper bound. */
  lemma LeafForHolds(ix: Index, key: int)
    requires Ordered(ix)
    ensures Holds(ix, LeafFor(ix, key), key)
  {
    DescendHolds(ix, ix.root, key);
  }

  lemma WithEntryOrdered(ix: Index, key: int, rid: Rid)
    requires Valid(ix) && Ordered(ix)
    ensures Ordered(WithEntry(ix, key, rid))
  {
    var c := LeafFor(ix, key);
    WithEntryOk(ix, key, rid);
    LeafForHolds(ix, key);
    assert InInterval(ix, c);
    PutLeafOrdered(ix, c, InsertEntry(ix.pages[c], key, rid));
  }

  // ---- The cascade ----

  ghost predicate Strict(ix: Index, path: seq<int>, r: int, sep: int)
    requires Pending(ix, path, r)
  {
    OrderedBut(ix, Last(path), r) && ix.hi[Last(path)] == At(sep) && ix.lo[r] == At(sep)
  }

  lemma HungPlace(ix: Index, path: seq<int>, r: int, sep: int) returns (j: nat)
    requires Pending(ix, path, r) && Strict(ix, path, r, sep) && 2 <= |path|
    ensures SplitAt(ix, ParentOf(path), j, Last(path), sep, r)
  {
    ParentReady(ix, path, r);
    assert Rung(ix, path, |path| - 1);
    var c := Last(path);
    assert c != r by {
      assert ix.parent[c] != 0;
    }
    assert HasParent(ix, c);
    j := IndexOf(ix.pages[ParentOf(path)].ptrs, c);
  }

  lemma FedOrdered(ix: Index, path: seq<int>, r: int, sep: int)
    requires Pending(ix, path, r) && Strict(ix, path, r, sep) && 2 <= |path|
    ensures Ordered(Fed(ix, path, r, sep))
  {
    var j := HungPlace(ix, path, r, sep);
    AttachOrdered(ix, ParentOf(path), j, Last(path), sep, r);
  }

  /** A middle key of 0 would be promoted below the root. */
  ghost predicate DropsZero(ix: Index, path: seq<int>, r: int, sep: int)
    requires Pending(ix, path, r) && Spills(ix, path, r)
  {
    var n := Fed(ix, path, r, sep).pages[ParentOf(path)];
    2 < |path| && n.keys[|n.keys| / 2] == 0
  }

  /** ... at some level of the cascade. */
  ghost predicate ZeroPromoted(ix: Index, path: seq<int>, r: int, sep: int)
    requires Pending(ix, path, r)
    decreases |path|
  {
    2 <= |path| && Full(ix, ParentOf(path)) &&
    (DropsZero(ix, path, r, sep) ||
     (SpiltPending(ix, path, r, sep);
      ZeroPromoted(Spilt(ix, path, r, sep), path[..|path| - 1], ix.next, Goes(ix, path, r, sep))))
  }

  /** The separator handed to the next level. */
  ghost function Goes(ix: Index, path: seq<int>, r: int, sep: int): int
    requires Pending(ix, path, r) && Spills(ix, path, r)
  {
    ParentReady(ix, path, r);
    Promoted(Fed(ix, path, r, sep).pages[ParentOf(path)], |path| == 2)
  }

  lemma SpiltStrict(ix: Index, path: seq<int>, r: int, sep: int)
    requires Pending(ix, path, r) && Spills(ix, path, r) && Strict(ix, path, r, sep)
    requires !DropsZero(ix, path, r, sep)
    ensures Pending(Spilt(ix, path, r, sep), path[..|path| - 1], ix.next)
    ensures Strict(Spilt(ix, path, r, sep), path[..|path| - 1], ix.next, Goes(ix, path, r, sep))
  {
    hide Nodes, Down, Up, Chained, Sizes, Pending, OrderedBut, Fed, SplitInner;
    SpiltPending(ix, path, r, sep);
    FedOrdered(ix, path, r, sep);
    ParentReady(ix, path, r);
    FedOk(ix, path, r, sep);
    SplitInnerOrdered(Fed(ix, path, r, sep), ParentOf(path));
    SplitInnerBounds(Fed(ix, path, r, sep), ParentOf(path), Goes(ix, path, r, sep));
    assert Last(path[..|path| - 1]) == ParentOf(path);
  }

  lemma SplitInnerBounds(ix: Index, p: int, sep: int)
    requires Domain(ix) && Overfull(ix, p)
    ensures var jx := SplitInner(ix, p, sep);
      p in jx.hi && jx.hi[p] == At(sep) && ix.next in jx.lo && jx.lo[ix.next] == At(sep)
  {
  }

  /** A page off the path keeps its contents and bounds through the cascade. */
  lemma {:induction false} HangKeeps(ix: Index, path: seq<int>, r: int, sep: int, x: int)
    requires Pending(ix, path, r) && x in ix.pages && x !in path[..|path| - 1]
    ensures var jx := Hang(ix, path, r, sep);
      x in jx.pages && jx.pages[x] == ix.pages[x] && x in jx.lo && jx.lo[x] == ix.lo[x] && x in jx.hi && jx.hi[x] == ix.hi[x]
    decreases |path|
  {
    if 2 <= |path| {
      ParentReady(ix, path, r);
      assert path[..|path| - 1][|path| - 2] == ParentOf(path);
      if Full(ix, ParentOf(path)) {
        SpiltPending(ix, path, r, sep);
        var up := path[..|path| - 1];
        assert forall y :: y in up[..|up| - 1] ==> y in up;
        HangKeeps(Spilt(ix, path, r, sep), up, ix.next, Goes(ix, path, r, sep), x);
      }
    }
  }

  lemma LadderPages(ix: Index, path: seq<int>, x: int)
    requires Ladder(ix, path) && x in path
    ensures x in ix.pages && x in ix.level && ix.root in ix.level
    ensures x in path[..|path| - 1] ==> Last(path) in ix.level && ix.level[x] > ix.level[Last(path)]
  {
    var i := IndexOf(path, x);
    assert Rung(ix, path, i) && Rung(ix, path, |path| - 1);
    if x in path[..|path| - 1] {
      var j := IndexOf(path[..|path| - 1], x);
      assert Rung(ix, path, j);
    }
  }

  /** The dropped zero leaves a page whose first separator equals its lower bound. */
  lemma DroppedZeroBreaks(ix: Index, path: seq<int>, r: int, sep: int)
    requires Pending(ix, path, r) && Spills(ix, path, r) && DropsZero(ix, path, r, sep)
    ensures !Ordered(Hang(ix, path, r, sep))
  {
    ParentReady(ix, path, r);
    SpiltPending(ix, path, r, sep);
    var kx := Spilt(ix, path, r, sep);
    var up := path[..|path| - 1];
    var q := ix.next;
    assert forall y :: y in up ==> y in path;
    assert forall y :: y in up[..|up| - 1] ==> y in up;
    if q in up {
      LadderPages(ix, path, q);
    }
    HangKeeps(kx, up, q, Goes(ix, path, r, sep), q);
    var jx := Hang(ix, path, r, sep);
    assert jx.pages[q].Inner? && jx.lo[q] == At(jx.pages[q].keys[0]);
    assert !InInterval(jx, q);
  }

  lemma {:induction false} HangOrderedIff(ix: Index, path: seq<int>, r: int, sep: int)
    requires Pending(ix, path, r) && Strict(ix, path, r, sep)
    ensures Ordered(Hang(ix, path, r, sep)) <==> !ZeroPromoted(ix, path, r, sep)
    decreases |path|
  {
    if |path| == 1 {
      GrowRootOrdered(ix, sep, r);
    } else if !Full(ix, ParentOf(path)) {
      FedOrdered(ix, path, r, sep);
    } else if DropsZero(ix, path, r, sep) {
      DroppedZeroBreaks(ix, path, r, sep);
    } else {
      SpiltPending(ix, path, r, sep);
      SpiltStrict(ix, path, r, sep);
      HangOrderedIff(Spilt(ix, path, r, sep), path[..|path| - 1], ix.next, Goes(ix, path, r, sep));
    }
  }

  // ---- The whole insert ----

  /** The leaf is full, and the key it would send up equals one of its own bounds. */
  ghost predicate RepeatsBound(ix: Index, key: int, rid: Rid)
    requires Tree(ix, 0)
  {
    var c := LeafFor(ix, key);
    Full(ix, c) && (ix.lo[c] == At(SplitSep(ix, key, rid)) || ix.hi[c] == At(SplitSep(ix, key, rid)))
  }

  /** The leaf is full, and the cascade drops a separator 0. */
  ghost predicate LosesZero(ix: Index, key: int, rid: Rid)
    requires Valid(ix)
  {
    Full(ix, LeafFor(ix, key)) &&
    (SplitPending(ix, key, rid);
     ZeroPromoted(SplitLeaf(WithEntry(ix, key, rid), LeafFor(ix, key)), Descend(ix, ix.root, key), ix.next, SplitSep(ix, key, rid)))
  }

  lemma RepeatBreaks(ix: Index, key: int, rid: Rid)
    requires Valid(ix) && RepeatsBound(ix, key, rid)
    ensures !Ordered(Insert(ix, key, rid))
  {
    hide Sizes, Nodes, Down, Up, Fits, ChainOrder;
    SplitPending(ix, key, rid);
    var c := LeafFor(ix, key);
    var r := ix.next;
    var wx := WithEntry(ix, key, rid);
    var kx := SplitLeaf(wx, c);
    var path := Descend(ix, ix.root, key);
    var sep := SplitSep(ix, key, rid);
    var jx := Insert(ix, key, rid);
    if c in path[..|path| - 1] {
      LadderPages(kx, path, c);
    }
    if r in path[..|path| - 1] {
      LadderPages(kx, path, r);
    }
    HangKeeps(kx, path, r, sep, c);
    HangKeeps(kx, path, r, sep, r);
    assert !InInterval(jx, c) || !InInterval(jx, r);
  }

  /**
   The side conditions, exactly: an insert into an ordered tree leaves it ordered if and only if
   the leaf split does not repeat a bound of the leaf and no separator 0 is dropped on the way up.
   */
  lemma InsertOrderedIff(ix: Index, key: int, rid: Rid)
    requires Valid(ix) && Ordered(ix)
    ensures Ordered(Insert(ix, key, rid)) <==> !RepeatsBound(ix, key, rid) && !LosesZero(ix, key, rid)
  {
    hide Sizes, Down, Up, Pending, Hang, SplitLeaf, Strict, ChainOrder, Fits, Intervals, Nodes, Descend;
    var c := LeafFor(ix, key);
    WithEntryOk(ix, key, rid);
    WithEntryOrdered(ix, key, rid);
    if Full(ix, c) {
      if RepeatsBound(ix, key, rid) {
        RepeatBreaks(ix, key, rid);
      } else {
        SplitPending(ix, key, rid);
        SplitStrict(ix, key, rid);
        HangOrderedIff(SplitLeaf(WithEntry(ix, key, rid), c), Descend(ix, ix.root, key), ix.next, SplitSep(ix, key, rid));
      }
    }
  }

  lemma SplitStrict(ix: Index, key: int, rid: Rid)
    requires Valid(ix) && Ordered(ix) && Full(ix, LeafFor(ix, key)) && !RepeatsBound(ix, key, rid)
    ensures var wx := WithEntry(ix, key, rid); var c := LeafFor(ix, key);
      Tree(wx, 0) && Chained(wx) && IsLeaf(wx, c) && |wx.pages[c].keys| == wx.order + 1
    ensures var kx := SplitLeaf(WithEntry(ix, key, rid), LeafFor(ix, key)); var path := Descend(ix, ix.root, key);
      Pending(kx, path, ix.next) && Strict(kx, path, ix.next, SplitSep(ix, key, rid))
  {
    hide Sizes, Down, Up, Pending, Hang, StrictLeaf, OrderedBut, Nodes, Descend, Chained, SplitLeaf;
    SplitPending(ix, key, rid);
    SepStrict(ix, key, rid);
    WithEntryOk(ix, key, rid);
    WithEntryOrdered(ix, key, rid);
    var wx, c := WithEntry(ix, key, rid), LeafFor(ix, key);
    SplitLeafOrdered(wx, c);
    SplitBounds(wx, c);
  }

  lemma SplitBounds(ix: Index, c: int)
    requires Tree(ix, 0) && Chained(ix) && IsLeaf(ix, c) && |ix.pages[c].keys| == ix.order + 1
    ensures var jx := SplitLeaf(ix, c); var sep := ix.pages[c].keys[|ix.pages[c].keys| / 2];
      c in jx.hi && jx.hi[c] == At(sep) && ix.next in jx.lo && jx.lo[ix.next] == At(sep)
  {
    hide Nodes, Down, Up, Chained;
  }

  lemma SepStrict(ix: Index, key: int, rid: Rid)
    requires Valid(ix) && Ordered(ix) && Full(ix, LeafFor(ix, key)) && !RepeatsBound(ix, key, rid)
    ensures var wx := WithEntry(ix, key, rid); var c := LeafFor(ix, key);
      c in wx.pages && c in wx.lo && c in wx.hi && wx.pages[c].keys != [] && StrictLeaf(wx, c)
  {
    WithEntryOk(ix, key, rid);
    WithEntryOrdered(ix, key, rid);
    assert InInterval(WithEntry(ix, key, rid), LeafFor(ix, key));
  }
}
