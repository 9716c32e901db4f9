/** How large trees get: logarithmic height over every run, and page numbers enough for any index filled from a table. */
module TreeSize {
  import opened BTreeNode
  import opened BTreeModel
  import opened BTreeInsert
  import opened BTreeDelete
  import opened BTreeShape
  import BTreeRuns
  import opened SlottedPage
  import opened HeapPage
  import opened HeapModel
  import IndexPlans
  import opened TableModel

  // ---- One operation ----

  ghost predicate SameLeaves(ix: Index, jx: Index, pages: nat) {
    jx.next <= ix.next + pages && jx.chain == ix.chain && jx.order == ix.order
  }

  lemma FedGrows(ix: Index, path: seq<int>, r: int, sep: int)
    requires Pending(ix, path, r) && 2 <= |path|
    ensures SameLeaves(ix, Fed(ix, path, r, sep), 0)
  {
    hide Tree, Chained, Sizes, Ladder;
  }

  lemma SpiltGrows(ix: Index, path: seq<int>, r: int, sep: int)
    requires Pending(ix, path, r) && Spills(ix, path, r)
    ensures SameLeaves(ix, Spilt(ix, path, r, sep), 1)
    ensures var jx, p := Fed(ix, path, r, sep), ParentOf(path); p in jx.pages && 3 <= |jx.pages[p].keys|
  {
    hide Chained, Sizes, Ladder, Down, Up, Nodes;
    FedOk(ix, path, r, sep);
  }

  lemma {:induction false} HangGrows(ix: Index, path: seq<int>, r: int, sep: int)
    requires Pending(ix, path, r)
    ensures SameLeaves(ix, Hang(ix, path, r, sep), |path|)
    decreases |path|
  {
    hide Tree, Chained, Sizes, Rung, Fed, Spilt, Full, Promoted;
    if 1 < |path| {
      FedGrows(ix, path, r, sep);
      if Full(ix, ParentOf(path)) {
        SpiltGrows(ix, path, r, sep);
        SpiltPending(ix, path, r, sep);
        HangGrows(Spilt(ix, path, r, sep), path[..|path| - 1], ix.next,
          Promoted(Fed(ix, path, r, sep).pages[ParentOf(path)], |path| == 2));
      }
    }
  }

  /** An insert adds at most one leaf, and at most one page for every level and a new root. */
  lemma InsertGrows(ix: Index, key: int, rid: Rid)
    requires Valid(ix)
    ensures var jx := Insert(ix, key, rid);
      && jx.next <= ix.next + ix.level[ix.root] + 2 && |jx.chain| <= |ix.chain| + 1 && jx.order == ix.order
  {
    hide Chained, Sizes, Down, Up, Hang;
    WithEntryOk(ix, key, rid);
    var path := Descend(ix, ix.root, key);
    PathLadder(ix, key);
    assert Rung(ix, path, |path| - 1) && PageOk(ix, Last(path));
    if Full(ix, LeafFor(ix, key)) {
      SplitPending(ix, key, rid);
      HangGrows(SplitLeaf(WithEntry(ix, key, rid), LeafFor(ix, key)), path, ix.next, SplitSep(ix, key, rid));
    }
  }

  // ---- Runs ----

  lemma {:induction false} RunLeaves(order: int, ops: seq<BTreeRuns.Op>)
    requires 2 <= order
    ensures var ix := BTreeRuns.Run(order, ops); |ix.chain| <= |ops| + 1 && ix.order == order
  {
    hide Insert, Delete;
    if ops != [] {
      var before, op := BTreeRuns.Run(order, ops[..|ops| - 1]), ops[|ops| - 1];
      RunLeaves(order, ops[..|ops| - 1]);
      if op.Ins? {
        InsertGrows(before, op.key, op.rid);
      } else {
        DeleteKeepsLeaves(before, op.key, op.rid);
      }
    }
  }

  lemma DeleteKeepsLeaves(ix: Index, key: int, rid: Rid)
    requires Valid(ix)
    ensures var jx := Delete(ix, key, rid).0; jx.chain == ix.chain && jx.order == ix.order
  {
  }

  /** Over every run the height is logarithmic in the number of operations. */
  lemma RunHeight(order: int, ops: seq<BTreeRuns.Op>)
    requires 2 <= order
    ensures var ix := BTreeRuns.Run(order, ops);
      0 < ix.level[ix.root] ==> 2 * Power(order / 2 + 1, ix.level[ix.root] - 1) <= |ops| + 1
  {
    hide BTreeRuns.Run, Power;
    RunLeaves(order, ops);
    var ix := BTreeRuns.Run(order, ops);
    if 0 < ix.level[ix.root] {
      HeightBound(ix);
    }
  }

  // ---- The entries a table can have ----

  lemma SlotsFew(s: seq<Slot>)
    requires SlottedPage.Fits(s)
    ensures |s| <= 681
  {
  }

  lemma {:induction false} LiveFew(s: seq<Slot>, i: nat)
    requires i <= |s|
    ensures |LiveFrom(s, i)| <= |s| - i
    decreases |s| - i
  {
    if i < |s| {
      LiveFew(s, i + 1);
    }
  }

  /** A scan finds at most 681 tuples a page, under rids of those pages. */
  lemma {:induction false} ScanFew(h: Heap, p: nat)
    requires HeapOk(h) && 1 <= p <= |h| + 1
    ensures |ScanFrom(h, p)| <= 681 * (|h| + 1 - p)
    decreases |h| + 1 - p
  {
    if p <= |h| {
      ScanFew(h, p + 1);
      SlotsFew(h[p - 1]);
      LiveFew(h[p - 1], 0);
    }
  }

  const MOST: nat := 464442

  lemma TableFew(h: Heap)
    requires HeapOk(h)
    ensures |Scanned(h)| <= MOST
    ensures forall i :: 0 <= i < |Scanned(h)| ==> 1 <= Scanned(h)[i].0.0 <= MAX_DATA_PAGES && 0 <= Scanned(h)[i].0.1 < 681
  {
    hide ScanFrom, SlottedPage.Fits;
    ScanFew(h, 1);
    ScanExact(h);
    forall i | 0 <= i < |Scanned(h)|
      ensures 1 <= Scanned(h)[i].0.0 <= MAX_DATA_PAGES && 0 <= Scanned(h)[i].0.1 < 681
    {
      assert Scanned(h)[i].0 in Live(h);
      SlotsFew(h[Scanned(h)[i].0.0 - 1]);
    }
  }

  // ---- Filling an index ----

  lemma {:induction false} PowerGrows(b: nat, m: nat, n: nat)
    requires 1 <= b && m <= n
    ensures Power(b, m) <= Power(b, n)
    decreases n - m
  {
    if m < n {
      PowerGrows(b, m, n - 1);
      MulMono(1, b, Power(b, n - 1));
    }
  }

  /** With order 100 that many entries need no more than five levels. */
  lemma LowTree(ix: Index)
    requires Valid(ix) && ix.order == 100 && |ix.chain| <= MOST + 1
    ensures ix.level[ix.root] <= 4
  {
    hide Power;
    var n := ix.level[ix.root];
    if 4 < n {
      HeightBound(ix);
      PowerGrows(51, 4, n - 1);
      FourthPower();
    }
  }

  lemma FourthPower()
    ensures Power(51, 4) == 6765201
  {
    assert Power(51, 0) == 1 && Power(51, 1) == 51 && Power(51, 2) == 2601 && Power(51, 3) == 132651;
  }

  lemma {:induction false} BackfillSmall(rs: IndexPlans.Records, column: nat, n: nat)
    requires n <= |rs| <= MOST && forall i :: 0 <= i < |rs| ==> column < |rs[i].1| && rs[i].1[column].IntVal?
    ensures var ix := Backfill(rs, column, n);
      && ix.order == 100 && |ix.chain| <= n + 1 && ix.root in ix.level && ix.level[ix.root] <= 4 && ix.next <= 2 + 6 * n
  {
    hide Insert;
    if 0 < n {
      BackfillSmall(rs, column, n - 1);
      InsertGrows(Backfill(rs, column, n - 1), rs[n - 1].1[column].i, rs[n - 1].0);
      LowTree(Backfill(rs, column, n));
    }
  }
}
