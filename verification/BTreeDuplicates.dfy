/**
 Why condition (a) is needed: with more copies of one key than half a page, a run of plain inserts loses a
 live key to search. The entries are all still there; only the routing is wrong.
 */
module BTreeDuplicates {
  import opened BTreeNode
  import opened BTreeModel
  import opened BTreeInsert
  import opened BTreeEntries
  import opened BTreeRead
  import opened BTreeRuns

  function Fives(n: nat): (r: seq<int>)
    ensures |r| == n
  {
    seq(n, _ => 5)
  }

  function Pile(n: nat): (ops: seq<Op>) {
    seq(n, _ => Ins(5, (1, 0)))
  }

  /** 101 fives, a six, 51 more fives, a seven. */
  function Fatal(): seq<Op> {
    Pile(101) + [Ins(6, (1, 1))] + Pile(51) + [Ins(7, (1, 2))]
  }

  ghost predicate Holding(ix: Index, p: int, keys: seq<int>) {
    p in ix.pages && ix.pages[p].Leaf? && ix.pages[p].keys == keys && |ix.pages[p].rids| == |keys|
  }

  /** A single leaf. */
  ghost predicate One(ix: Index, keys: seq<int>) {
    Valid(ix) && ix.order == 100 && ix.root == 1 && ix.next == 2 && ix.chain == [1] && Holding(ix, 1, keys)
  }

  /** Two leaves under a root. */
  ghost predicate Two(ix: Index, low: seq<int>, high: seq<int>) {
    && Valid(ix) && ix.order == 100 && ix.root == 3 && ix.next == 4 && ix.chain == [1, 2]
    && Holding(ix, 1, low) && Holding(ix, 2, high)
    && 3 in ix.pages && ix.pages[3] == Inner([5], [1, 2])
  }

  /** Three leaves, the middle one of the chain hung last under the root. */
  ghost predicate Three(ix: Index, low: seq<int>, middle: seq<int>, high: seq<int>) {
    && Valid(ix) && ix.order == 100 && ix.root == 3 && ix.next == 5 && ix.chain == [1, 4, 2]
    && Holding(ix, 1, low) && Holding(ix, 2, high) && Holding(ix, 4, middle)
    && 3 in ix.pages && ix.pages[3] == Inner([5, 5], [1, 2, 4])
  }

  lemma RunStep(ops: seq<Op>, op: Op)
    ensures Run(100, ops + [op]) == Apply(Run(100, ops), op)
  {
    assert (ops + [op])[..|ops|] == ops;
  }

  lemma FivesAt(n: nat, k: int)
    requires 5 <= k
    ensures InsertAt(Fives(n), UpperBound(Fives(n), k), k) == Fives(n) + [k]
  {
  }

  lemma FivesMore(n: nat)
    ensures InsertAt(Fives(n), UpperBound(Fives(n), 5), 5) == Fives(n + 1)
  {
    FivesAt(n, 5);
    assert Fives(n) + [5] == Fives(n + 1);
  }

  lemma FivesCut()
    ensures |Fives(101)| == 101 && Fives(101)[50] == 5
    ensures Fives(101)[..50] == Fives(50) && Fives(101)[50..] == Fives(51)
  {
  }

  lemma RouteTo(keys: seq<int>, k: int, i: nat)
    requires i <= |keys|
    requires 0 < i ==> keys[i - 1] < k
    requires i < |keys| ==> k <= keys[i]
    requires Sorted(keys)
    ensures Route(keys, k) == i
  {
  }

  /** The root, when it is not a leaf, leads to the leaf in one step. */
  lemma ToLeaf(ix: Index, k: int, i: nat)
    requires Tree(ix, 0) && ix.pages[ix.root].Inner? && |ix.pages[ix.root].ptrs| == |ix.pages[ix.root].keys| + 1
    requires Sorted(ix.pages[ix.root].keys) && i <= |ix.pages[ix.root].keys|
    requires 0 < i ==> ix.pages[ix.root].keys[i - 1] < k
    requires i < |ix.pages[ix.root].keys| ==> k <= ix.pages[ix.root].keys[i]
    requires IsLeaf(ix, ix.pages[ix.root].ptrs[i])
    ensures LeafFor(ix, k) == ix.pages[ix.root].ptrs[i]
    ensures Descend(ix, ix.root, k) == [ix.root, ix.pages[ix.root].ptrs[i]]
  {
    var c := ix.pages[ix.root].ptrs[i];
    RouteTo(ix.pages[ix.root].keys, k, i);
    assert Descend(ix, c, k) == [c];
    assert Descend(ix, ix.root, k) == [ix.root] + [c];
  }

  /** A leaf with room takes the entry; nothing else changes. */
  lemma Takes(ix: Index, key: int, rid: Rid, c: int)
    requires Valid(ix) && LeafFor(ix, key) == c && |ix.pages[c].keys| < ix.order
    ensures var jx := Insert(ix, key, rid);
      && Valid(jx) && PageOk(ix, c)
      && jx == ix.(pages := ix.pages[c := InsertEntry(ix.pages[c], key, rid)])
  {
    assert PageOk(ix, c);
    InsertValid(ix, key, rid);
  }

  lemma LeafIsRoot(ix: Index, k: int)
    requires Tree(ix, 0) && IsLeaf(ix, ix.root)
    ensures LeafFor(ix, k) == ix.root && Descend(ix, ix.root, k) == [ix.root]
  {
  }

  lemma {:induction false} FillOne(n: nat)
    requires n <= 100
    ensures One(Run(100, Pile(n)), Fives(n))
  {
    if 0 < n {
      FillOne(n - 1);
      assert Pile(n) == Pile(n - 1) + [Ins(5, (1, 0))];
      RunStep(Pile(n - 1), Ins(5, (1, 0)));
      var ix := Run(100, Pile(n - 1));
      LeafIsRoot(ix, 5);
      Takes(ix, 5, (1, 0), 1);
      FivesMore(n - 1);
      hide Valid, Insert, Run, Fives, UpperBound;
    }
  }

  /** `kx` is `ix` with the 101 `keys` of leaf `c` halved between it and a new page. */
  ghost predicate Halved(ix: Index, kx: Index, c: int, keys: seq<int>) {
    && |keys| == 101 && c in ix.chain && IsLeaf(ix, c)
    && Holding(kx, c, keys[..50]) && Holding(kx, ix.next, keys[50..])
    && kx.order == ix.order && kx.root == ix.root && kx.next == ix.next + 1
    && kx.chain == InsertAt(ix.chain, IndexOf(ix.chain, c) + 1, ix.next)
    && (forall p :: p in ix.pages && p != c && p != ix.pages[c].next ==> p in kx.pages && kx.pages[p] == ix.pages[p])
    && (0 < ix.pages[c].next ==> Relinked(ix, kx, ix.pages[c].next))
  }

  ghost predicate Relinked(ix: Index, kx: Index, p: int) {
    IsLeaf(ix, p) && IsLeaf(kx, p) && kx.pages[p].keys == ix.pages[p].keys && kx.pages[p].rids == ix.pages[p].rids
  }

  lemma Halves(wx: Index, c: int)
    requires Tree(wx, 0) && Chained(wx) && wx.order == 100 && IsLeaf(wx, c) && |wx.pages[c].keys| == 101
    ensures Halved(wx, SplitLeaf(wx, c), c, wx.pages[c].keys)
  {
    LeafLinks(wx, c);
    assert PageOk(wx, c);
    hide Nodes, Down, Up, Chained, IndexOf;
  }

  /** A full leaf with the new entry in it, ready to split. */
  lemma Overfills(ix: Index, key: int, rid: Rid, c: int, keys: seq<int>)
    requires Valid(ix) && ix.order == 100 && LeafFor(ix, key) == c && |ix.pages[c].keys| == 100
    requires keys == InsertAt(ix.pages[c].keys, UpperBound(ix.pages[c].keys, key), key)
    ensures var wx := WithEntry(ix, key, rid);
      && Tree(wx, 0) && Chained(wx) && IsLeaf(wx, c) && wx.pages[c].keys == keys && SplitSep(ix, key, rid) == keys[50]
      && Full(ix, c) && Pending(SplitLeaf(wx, c), Descend(ix, ix.root, key), ix.next)
      && wx == ix.(pages := wx.pages) && wx.pages == ix.pages[c := wx.pages[c]] && wx.pages[c].next == ix.pages[c].next
  {
    WithEntryOk(ix, key, rid);
    SplitPending(ix, key, rid);
    hide Pending, Sizes, Tree, Chained, SplitLeaf, LeafFor, Descend;
  }

  /** The new entry overfills leaf `c`: its upper half moves to a new page, which then waits for a parent. */
  lemma LeafSplits(ix: Index, key: int, rid: Rid, c: int, keys: seq<int>) returns (kx: Index)
    requires Valid(ix) && ix.order == 100 && LeafFor(ix, key) == c && |ix.pages[c].keys| == 100
    requires keys == InsertAt(ix.pages[c].keys, UpperBound(ix.pages[c].keys, key), key)
    ensures Valid(Insert(ix, key, rid))
    ensures Pending(kx, Descend(ix, ix.root, key), ix.next)
    ensures Insert(ix, key, rid) == Hang(kx, Descend(ix, ix.root, key), ix.next, keys[50])
    ensures Halved(ix, kx, c, keys)
  {
    assert Tree(ix, 0) && Chained(ix);
    hide Valid, Tree, Chained, Sizes, Pending, SplitLeaf, LeafFor, WithEntry, Hang, Descend, IndexOf, Halved,
      UpperBound, SplitSep;
    InsertValid(ix, key, rid);
    Overfills(ix, key, rid, c, keys);
    LeafLinks(ix, c);
    var wx := WithEntry(ix, key, rid);
    kx := SplitLeaf(wx, c);
    Halves(wx, c);
    HalvedToo(ix, wx, kx, c, keys);
  }

  lemma HalvedToo(ix: Index, wx: Index, kx: Index, c: int, keys: seq<int>)
    requires Halved(wx, kx, c, keys) && IsLeaf(ix, c) && IsLeaf(wx, c) && wx.pages[c].next == ix.pages[c].next != c
    requires wx == ix.(pages := wx.pages) && wx.pages == ix.pages[c := wx.pages[c]]
    ensures Halved(ix, kx, c, keys)
  {
  }

  /** A full leaf that is the root splits into two under a new root. */
  lemma RootLeafSplits(ix: Index, rid: Rid)
    requires One(ix, Fives(100))
    ensures Two(Insert(ix, 5, rid), Fives(50), Fives(51))
  {
    assert Tree(ix, 0) && IsLeaf(ix, ix.root);
    hide Valid, Tree, Chained, Sizes, Pending, LeafFor, Descend, UpperBound, Fives, IndexOf, Insert, Halved, GrowRoot,
      Two;
    LeafIsRoot(ix, 5);
    FivesMore(100);
    FivesCut();
    var kx := LeafSplits(ix, 5, rid, 1, Fives(101));
    RootGrows(ix, kx, Insert(ix, 5, rid));
  }

  lemma RootGrows(ix: Index, kx: Index, jx: Index)
    requires One(ix, Fives(100)) && Halved(ix, kx, 1, Fives(101)) && Tree(kx, 2)
    requires jx == GrowRoot(kx, 5, 2) && Valid(jx)
    ensures Two(jx, Fives(50), Fives(51))
  {
    hide Valid, Tree, Chained, Fives;
    FivesCut();
    assert InsertAt([1], 1, 2) == [1, 2];
  }

  lemma TwoSix(ix: Index, rid: Rid)
    requires Two(ix, Fives(50), Fives(51))
    ensures Two(Insert(ix, 6, rid), Fives(50), Fives(51) + [6])
  {
    hide Chained, Nodes, Down, Up, Sizes, LeafFor, Descend, UpperBound, Fives, Insert, InsertAt;
    ToLeaf(ix, 6, 1);
    FivesAt(51, 6);
    Takes(ix, 6, rid, 2);
  }

  lemma TwoFive(ix: Index, rid: Rid, n: nat, high: seq<int>)
    requires Two(ix, Fives(n), high) && n < 100
    ensures Two(Insert(ix, 5, rid), Fives(n + 1), high)
  {
    hide Chained, Nodes, Down, Up, Sizes, LeafFor, Descend, UpperBound, Fives, Insert, InsertAt;
    ToLeaf(ix, 5, 0);
    FivesMore(n);
    Takes(ix, 5, rid, 1);
  }

  lemma {:induction false} FillTwo(pre: seq<Op>, n: nat, high: seq<int>)
    requires n <= 50 && Two(Run(100, pre), Fives(50), high)
    ensures Two(Run(100, pre + Pile(n)), Fives(50 + n), high)
  {
    hide Run, Two, Fives, Insert;
    if n == 0 {
      assert pre + Pile(n) == pre;
    } else {
      FillTwo(pre, n - 1, high);
      assert pre + Pile(n) == pre + Pile(n - 1) + [Ins(5, (1, 0))];
      RunStep(pre + Pile(n - 1), Ins(5, (1, 0)));
      TwoFive(Run(100, pre + Pile(n - 1)), (1, 0), 49 + n, high);
    }
  }

  /** The left leaf splits; its upper half, all fives, is hung right of every five. */
  lemma LeftLeafSplits(ix: Index, rid: Rid, high: seq<int>)
    requires Two(ix, Fives(100), high)
    ensures Three(Insert(ix, 5, rid), Fives(50), Fives(51), high)
  {
    hide Chained, Nodes, Down, Up, Sizes, LeafFor, Descend, UpperBound, Fives, IndexOf, Insert, Three;
    LeftWay(ix, Fives(100), high);
    FivesMore(100);
    FivesCut();
    var kx := LeafSplits(ix, 5, rid, 1, Fives(101));
    RootTakes(ix, kx, Insert(ix, 5, rid), high);
  }

  lemma LeftWay(ix: Index, low: seq<int>, high: seq<int>)
    requires Two(ix, low, high)
    ensures Tree(ix, 0) && Chained(ix) && LeafFor(ix, 5) == 1 && Descend(ix, ix.root, 5) == [3, 1] && ix.pages[1].next == 2
  {
    hide Nodes, Down, Up, Sizes, LeafFor, Descend;
    ToLeaf(ix, 5, 0);
    assert LinkOk(ix, 0);
  }

  lemma RootTakes(ix: Index, kx: Index, jx: Index, high: seq<int>)
    requires Two(ix, Fives(100), high) && Halved(ix, kx, 1, Fives(101)) && ix.pages[1].next == 2
    requires Pending(kx, [3, 1], 4) && kx.pages.Keys >= {3} && jx == Fed(kx, [3, 1], 4, 5) && Valid(jx)
    ensures Three(jx, Fives(50), Fives(51), high)
  {
    hide Valid, Tree, Chained, Fives, Pending;
    FivesCut();
    assert InsertAt([1, 2], 1, 4) == [1, 4, 2];
    assert UpperBound([5], 5) == 1;
    assert InsertAt([5], 1, 5) == [5, 5] && InsertAt([1, 2], 2, 4) == [1, 2, 4];
  }

  lemma ThreeSeven(ix: Index, rid: Rid, high: seq<int>)
    requires Three(ix, Fives(50), Fives(51), high)
    ensures Three(Insert(ix, 7, rid), Fives(50), Fives(51) + [7], high)
  {
    hide Chained, Nodes, Down, Up, Sizes, LeafFor, Descend, UpperBound, Fives, Insert, InsertAt;
    ToLeaf(ix, 7, 2);
    FivesAt(51, 7);
    Takes(ix, 7, rid, 4);
  }

  /** The search for 6 is routed past leaf 2's predecessor and stops at the 7, one leaf early. */
  lemma ThreeMisses(ix: Index, high: seq<int>)
    requires Three(ix, Fives(50), Fives(51) + [7], high)
    ensures Search(ix, 6) == []
  {
    ToLeaf(ix, 6, 2);
    var i := Position(ix, 4);
    assert i == 1;
    var n := ChainLeaf(ix, 1);
    LookupMisses(n, 0);
  }

  lemma {:induction false} LookupMisses(n: Node, i: nat)
    requires n.Leaf? && |n.rids| == |n.keys| && i <= |n.keys| && forall j :: 0 <= j < |n.keys| ==> n.keys[j] != 6
    ensures Lookup(n, 6, i) == []
    decreases |n.keys| - i
  {
    if i < |n.keys| {
      LookupMisses(n, i + 1);
    }
  }

  lemma {:induction false} InsertsKept(ops: seq<Op>, i: nat)
    requires i < |ops| && forall j :: 0 <= j < |ops| ==> ops[j].Ins?
    ensures (ops[i].key, ops[i].rid) in Kept(100, ops)
  {
    if i + 1 < |ops| {
      InsertsKept(ops[..|ops| - 1], i);
    }
  }

  lemma SixKept()
    ensures (6, (1, 1)) in Entries(Run(100, Fatal()))
  {
    hide Run, Kept, Entries;
    InsertsKept(Fatal(), 101);
    RunConserves(100, Fatal());
  }

  /**
   At ORDER 100, after 154 plain inserts the entry (6, (1, 1)) is stored, the open range scan returns it,
   and the search for 6 answers nothing.
   */
  lemma DuplicatesBreakSearch()
    ensures var ix := Run(100, Fatal());
      && (6, (1, 1)) in Entries(ix)
      && Search(ix, 6) == []
  {
    hide Run, Insert, One, Two, Three, Fives, Search, Entries;
    FillOne(100);
    assert Pile(101) == Pile(100) + [Ins(5, (1, 0))];
    RunStep(Pile(100), Ins(5, (1, 0)));
    RootLeafSplits(Run(100, Pile(100)), (1, 0));
    RunStep(Pile(101), Ins(6, (1, 1)));
    TwoSix(Run(100, Pile(101)), (1, 1));
    var pre := Pile(101) + [Ins(6, (1, 1))];
    FillTwo(pre, 50, Fives(51) + [6]);
    assert pre + Pile(51) == pre + Pile(50) + [Ins(5, (1, 0))];
    RunStep(pre + Pile(50), Ins(5, (1, 0)));
    LeftLeafSplits(Run(100, pre + Pile(50)), (1, 0), Fives(51) + [6]);
    RunStep(pre + Pile(51), Ins(7, (1, 2)));
    ThreeSeven(Run(100, pre + Pile(51)), (1, 2), Fives(51) + [6]);
    ThreeMisses(Run(100, Fatal()), Fives(51) + [6]);
    SixKept();
  }
}
