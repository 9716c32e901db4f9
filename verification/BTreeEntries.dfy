/** The entries of an index: what the leaf chain holds, read left to right. */
module BTreeEntries {
  import opened BTreeNode
  import opened BTreeModel
  import opened BTreeStructure
  import opened BTreeInsert

  type Entry = (int, Rid)

  ghost predicate LeafPage(pages: map<int, Node>, p: int) {
    p in pages && pages[p].Leaf? && |pages[p].rids| == |pages[p].keys|
  }

  ghost predicate LeafPages(pages: map<int, Node>, leaves: seq<int>) {
    forall i :: 0 <= i < |leaves| ==> LeafPage(pages, leaves[i])
  }

  ghost predicate SamePairs(pages: map<int, Node>, pages': map<int, Node>, p: int) {
    LeafPage(pages, p) && LeafPage(pages', p) && pages[p].keys == pages'[p].keys && pages[p].rids == pages'[p].rids
  }

  function Pairs(n: Node): (es: seq<Entry>)
    requires n.Leaf? && |n.rids| == |n.keys|
    ensures |es| == |n.keys|
    ensures forall i :: 0 <= i < |es| ==> es[i] == (n.keys[i], n.rids[i])
  {
    seq(|n.keys|, i requires 0 <= i < |n.keys| => (n.keys[i], n.rids[i]))
  }

  function EntriesOf(pages: map<int, Node>, leaves: seq<int>): seq<Entry>
    requires LeafPages(pages, leaves)
  {
    if leaves == [] then [] else Pairs(pages[leaves[0]]) + EntriesOf(pages, leaves[1..])
  }

  lemma ChainLeaves(ix: Index)
    requires Nodes(ix) && Chained(ix)
    ensures LeafPages(ix.pages, ix.chain)
    ensures forall i :: 0 <= i < |ix.chain| ==> IsLeaf(ix, ix.chain[i])
  {
    forall i | 0 <= i < |ix.chain|
      ensures IsLeaf(ix, ix.chain[i]) && LeafPage(ix.pages, ix.chain[i])
    {
      assert LinkOk(ix, i);
      assert PageOk(ix, ix.chain[i]);
    }
  }

  function Entries(ix: Index): seq<Entry>
    requires Nodes(ix) && Chained(ix)
  {
    ChainLeaves(ix);
    EntriesOf(ix.pages, ix.chain)
  }

  lemma {:induction false} EntriesConcat(pages: map<int, Node>, a: seq<int>, b: seq<int>)
    requires LeafPages(pages, a)
    requires LeafPages(pages, b)
    ensures EntriesOf(pages, a + b) == EntriesOf(pages, a) + EntriesOf(pages, b)
  {
    if a == [] {
      assert a + b == b;
    } else {
      assert (a + b)[1..] == a[1..] + b;
      EntriesConcat(pages, a[1..], b);
    }
  }

  lemma {:induction false} EntriesSame(pages: map<int, Node>, pages': map<int, Node>, leaves: seq<int>)
    requires LeafPages(pages, leaves) && LeafPages(pages', leaves)
    requires forall i :: 0 <= i < |leaves| ==> SamePairs(pages, pages', leaves[i])
    ensures EntriesOf(pages, leaves) == EntriesOf(pages', leaves)
  {
    if leaves != [] {
      assert SamePairs(pages, pages', leaves[0]);
      assert Pairs(pages[leaves[0]]) == Pairs(pages'[leaves[0]]);
      EntriesSame(pages, pages', leaves[1..]);
    }
  }

  /** The entries before, in, and after the `k`th leaf. */
  lemma EntriesAround(pages: map<int, Node>, leaves: seq<int>, k: nat)
    requires k < |leaves| && LeafPages(pages, leaves)
    ensures EntriesOf(pages, leaves) ==
      EntriesOf(pages, leaves[..k]) + Pairs(pages[leaves[k]]) + EntriesOf(pages, leaves[k + 1..])
  {
    assert leaves == leaves[..k] + leaves[k..];
    EntriesConcat(pages, leaves[..k], leaves[k..]);
    assert leaves[k..][1..] == leaves[k + 1..];
  }

  /** Entries ahead of leaf `c`, and after it. */
  function Ahead(ix: Index, c: int): seq<Entry>
    requires Nodes(ix) && Chained(ix) && IsLeaf(ix, c)
  {
    LeafLinks(ix, c);
    ChainLeaves(ix);
    EntriesOf(ix.pages, ix.chain[..IndexOf(ix.chain, c)])
  }

  function Behind(ix: Index, c: int): seq<Entry>
    requires Nodes(ix) && Chained(ix) && IsLeaf(ix, c)
  {
    LeafLinks(ix, c);
    ChainLeaves(ix);
    EntriesOf(ix.pages, ix.chain[IndexOf(ix.chain, c) + 1..])
  }

  /** Pages that agree on every leaf but the `k`th agree on the entries before and after it. */
  lemma EntriesElsewhere(pages: map<int, Node>, pages': map<int, Node>, leaves: seq<int>, k: nat)
    requires k < |leaves| && LeafPages(pages, leaves) && LeafPages(pages', leaves)
    requires forall i :: 0 <= i < |leaves| && i != k ==> SamePairs(pages, pages', leaves[i])
    ensures EntriesOf(pages', leaves[..k]) == EntriesOf(pages, leaves[..k])
    ensures EntriesOf(pages', leaves[k + 1..]) == EntriesOf(pages, leaves[k + 1..])
  {
    EntriesSame(pages, pages', leaves[..k]);
    EntriesSame(pages, pages', leaves[k + 1..]);
  }

  /** Rewriting one leaf rewrites its stretch of the entries and nothing else. */
  lemma PutLeafEntries(ix: Index, c: int, n: Node)
    requires Nodes(ix) && Chained(ix) && IsLeaf(ix, c)
    requires n.Leaf? && |n.rids| == |n.keys|
    requires Nodes(PutLeaf(ix, c, n)) && Chained(PutLeaf(ix, c, n))
    ensures PageOk(ix, c)
    ensures Entries(ix) == Ahead(ix, c) + Pairs(ix.pages[c]) + Behind(ix, c)
    ensures Entries(PutLeaf(ix, c, n)) == Ahead(ix, c) + Pairs(n) + Behind(ix, c)
  {
    var pages' := PutLeaf(ix, c, n).pages;
    assert PageOk(ix, c);
    LeafLinks(ix, c);
    ChainLeaves(ix);
    ChainLeaves(PutLeaf(ix, c, n));
    var k := IndexOf(ix.chain, c);
    EntriesElsewhere(ix.pages, pages', ix.chain, k);
    EntriesAround(ix.pages, ix.chain, k);
    EntriesAround(pages', ix.chain, k);
  }

  lemma SplitLeafEntries(ix: Index, c: int)
    requires Tree(ix, 0) && Chained(ix) && IsLeaf(ix, c) && |ix.pages[c].keys| == ix.order + 1
    requires Nodes(SplitLeaf(ix, c)) && Chained(SplitLeaf(ix, c))
    ensures Entries(SplitLeaf(ix, c)) == Entries(ix)
  {
    LeafLinks(ix, c);
    ChainLeaves(ix);
    var k := IndexOf(ix.chain, c);
    EntriesAround(ix.pages, ix.chain, k);
    SplitLeafElsewhere(ix, c);
    SplitLeafHalves(ix, c);
  }

  lemma SplitLeafHalves(ix: Index, c: int)
    requires Tree(ix, 0) && Chained(ix) && IsLeaf(ix, c) && |ix.pages[c].keys| == ix.order + 1
    requires Nodes(SplitLeaf(ix, c)) && Chained(SplitLeaf(ix, c))
    requires c in ix.chain && PageOk(ix, c) && LeafPages(SplitLeaf(ix, c).pages, ix.chain)
    ensures var jx := SplitLeaf(ix, c); var k := IndexOf(ix.chain, c);
      Entries(jx) == EntriesOf(jx.pages, ix.chain[..k]) + Pairs(ix.pages[c]) + EntriesOf(jx.pages, ix.chain[k + 1..])
  {
    hide Sizes, Down, Up, Chained, Pairs;
    var jx := SplitLeaf(ix, c);
    ChainLeaves(jx);
    SplitLeafPages(ix, c);
    var k := IndexOf(ix.chain, c);
    SplitChain(ix.chain, k, ix.next);
    assert PageOk(jx, c) && PageOk(jx, ix.next);
    TwoLeaves(jx.pages, ix.chain[..k], c, ix.next, ix.chain[k + 1..]);
    HalvedPairs(ix.pages[c], |ix.pages[c].keys| / 2, jx.pages[c], jx.pages[ix.next]);
  }

  lemma SplitChain(chain: seq<int>, k: nat, r: int)
    requires k < |chain|
    ensures InsertAt(chain, k + 1, r) == chain[..k] + [chain[k], r] + chain[k + 1..]
  {
  }

  lemma TwoLeaves(pages: map<int, Node>, a: seq<int>, c: int, r: int, b: seq<int>)
    requires LeafPages(pages, a) && LeafPage(pages, c) && LeafPage(pages, r) && LeafPages(pages, b)
    ensures LeafPages(pages, a + [c, r] + b)
    ensures EntriesOf(pages, a + [c, r] + b) == EntriesOf(pages, a) + (Pairs(pages[c]) + Pairs(pages[r])) + EntriesOf(pages, b)
  {
    EntriesConcat(pages, a + [c, r], b);
    EntriesConcat(pages, a, [c, r]);
    assert [c, r][1..] == [r] && [r][1..] == [];
    assert EntriesOf(pages, []) == [];
    assert EntriesOf(pages, [r]) == Pairs(pages[r]);
    assert EntriesOf(pages, [c, r]) == Pairs(pages[c]) + Pairs(pages[r]);
  }

  lemma HalvedPairs(n: Node, s: nat, left: Node, right: Node)
    requires n.Leaf? && |n.rids| == |n.keys| && s <= |n.keys|
    requires left.Leaf? && left.keys == n.keys[..s] && left.rids == n.rids[..s]
    requires right.Leaf? && right.keys == n.keys[s..] && right.rids == n.rids[s..]
    ensures Pairs(left) + Pairs(right) == Pairs(n)
  {
  }

  lemma PageFine(ix: Index, p: int)
    requires Nodes(ix) && p in ix.pages
    ensures PageOk(ix, p)
  {
  }

  lemma SplitLeafElsewhere(ix: Index, c: int)
    requires Tree(ix, 0) && Chained(ix) && IsLeaf(ix, c) && |ix.pages[c].keys| == ix.order + 1
    requires c in ix.chain && LeafPages(ix.pages, ix.chain)
    requires Nodes(SplitLeaf(ix, c)) && Chained(SplitLeaf(ix, c))
    ensures LeafPages(SplitLeaf(ix, c).pages, ix.chain)
    ensures var pages' := SplitLeaf(ix, c).pages; var k := IndexOf(ix.chain, c);
      && EntriesOf(pages', ix.chain[..k]) == EntriesOf(ix.pages, ix.chain[..k])
      && EntriesOf(pages', ix.chain[k + 1..]) == EntriesOf(ix.pages, ix.chain[k + 1..])
  {
    hide Down, Up, SplitLeaf, EntriesOf, Nodes;
    var jx := SplitLeaf(ix, c);
    SplitLeafPages(ix, c);
    var k := IndexOf(ix.chain, c);
    forall i | 0 <= i < |ix.chain|
      ensures LeafPage(jx.pages, ix.chain[i])
      ensures i != k ==> SamePairs(ix.pages, jx.pages, ix.chain[i])
    {
      assert LinkOk(ix, i);
      PageFine(jx, ix.chain[i]);
    }
    EntriesElsewhere(ix.pages, jx.pages, ix.chain, k);
  }

  /** Steps that leave the chain and the leaves alone leave the entries alone. */
  lemma SameEntries(ix: Index, jx: Index)
    requires Nodes(ix) && Chained(ix) && Nodes(jx) && Chained(jx) && jx.chain == ix.chain
    requires forall p :: IsLeaf(ix, p) ==> IsLeaf(jx, p) && jx.pages[p] == ix.pages[p]
    ensures Entries(jx) == Entries(ix)
  {
    ChainLeaves(ix);
    ChainLeaves(jx);
    EntriesSame(ix.pages, jx.pages, ix.chain);
  }

  lemma GrowEntries(ix: Index, sep: int, r: int)
    requires Tree(ix, r) && Chained(ix) && r in ix.pages && Nodes(GrowRoot(ix, sep, r)) && Chained(GrowRoot(ix, sep, r))
    ensures Entries(GrowRoot(ix, sep, r)) == Entries(ix)
  {
    hide Down, Up, Entries;
    SameEntries(ix, GrowRoot(ix, sep, r));
  }

  lemma FedEntries(ix: Index, path: seq<int>, r: int, sep: int)
    requires Pending(ix, path, r) && 2 <= |path|
    ensures var jx := Fed(ix, path, r, sep); Nodes(jx) && Chained(jx) && Entries(jx) == Entries(ix)
  {
    hide Ladder, Sizes, Entries;
    ParentReady(ix, path, r);
    AttachTree(ix, ParentOf(path), sep, r);
    AttachChained(ix, ParentOf(path), sep, r);
    SameEntries(ix, Fed(ix, path, r, sep));
  }

  lemma SpiltEntries(ix: Index, path: seq<int>, r: int, sep: int)
    requires Pending(ix, path, r) && Spills(ix, path, r)
    requires Pending(Spilt(ix, path, r, sep), path[..|path| - 1], ix.next)
    ensures Entries(Spilt(ix, path, r, sep)) == Entries(ix)
  {
    hide Ladder, Sizes, Entries, Down, Up;
    ParentReady(ix, path, r);
    SameEntries(ix, Spilt(ix, path, r, sep));
  }

  /** The cascade above the leaves moves no entry. */
  lemma {:induction false} HangEntries(ix: Index, path: seq<int>, r: int, sep: int)
    requires Pending(ix, path, r)
    ensures var jx := Hang(ix, path, r, sep); Nodes(jx) && Chained(jx) && Entries(jx) == Entries(ix)
    decreases |path|
  {
    hide Entries, Sizes;
    HangValid(ix, path, r, sep);
    if |path| == 1 {
      GrowEntries(ix, sep, r);
    } else if !Full(ix, ParentOf(path)) {
      FedEntries(ix, path, r, sep);
    } else {
      SpiltPending(ix, path, r, sep);
      SpiltEntries(ix, path, r, sep);
      ParentReady(ix, path, r);
      HangEntries(Spilt(ix, path, r, sep), path[..|path| - 1], ix.next, Promoted(Fed(ix, path, r, sep).pages[ParentOf(path)], |path| == 2));
    }
  }

  lemma PairsInsert(n: Node, key: int, rid: Rid)
    requires n.Leaf? && |n.rids| == |n.keys|
    ensures Pairs(InsertEntry(n, key, rid)) == InsertAt(Pairs(n), UpperBound(n.keys, key), (key, rid))
  {
  }

  lemma WithEntryEntries(ix: Index, key: int, rid: Rid) returns (j: nat)
    requires Valid(ix)
    requires Nodes(WithEntry(ix, key, rid)) && Chained(WithEntry(ix, key, rid))
    ensures j <= |Entries(ix)| && Entries(WithEntry(ix, key, rid)) == InsertAt(Entries(ix), j, (key, rid))
  {
    var c := LeafFor(ix, key);
    assert PageOk(ix, c);
    var n := ix.pages[c];
    PutLeafEntries(ix, c, InsertEntry(n, key, rid));
    PairsInsert(n, key, rid);
    var i := UpperBound(n.keys, key);
    j := |Ahead(ix, c)| + i;
    InsertInside(Ahead(ix, c), Pairs(n), Behind(ix, c), i, (key, rid));
  }

  lemma InsertInside<T>(a: seq<T>, b: seq<T>, c: seq<T>, i: nat, x: T)
    requires i <= |b|
    ensures a + InsertAt(b, i, x) + c == InsertAt(a + b + c, |a| + i, x)
  {
  }

  /** Conservation: an insert adds its one entry and keeps every other, in order, whatever the keys are. */
  lemma InsertEntries(ix: Index, key: int, rid: Rid) returns (j: nat)
    requires Valid(ix)
    ensures Valid(Insert(ix, key, rid))
    ensures j <= |Entries(ix)| && Entries(Insert(ix, key, rid)) == InsertAt(Entries(ix), j, (key, rid))
  {
    InsertValid(ix, key, rid);
    WithEntryOk(ix, key, rid);
    j := WithEntryEntries(ix, key, rid);
    var c := LeafFor(ix, key);
    if Full(ix, c) {
      SplitPending(ix, key, rid);
      SplitLeafEntries(WithEntry(ix, key, rid), c);
      HangEntries(SplitLeaf(WithEntry(ix, key, rid), c), Descend(ix, ix.root, key), ix.next, SplitSep(ix, key, rid));
    }
  }
}
