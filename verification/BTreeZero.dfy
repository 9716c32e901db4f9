/**
 Why condition (b) is needed: in a tree of order 100, even keys put in ascending order from -10200 make the first inner
 page to split below the root promote the separator after 0 in place of 0. One key more, the 1, then lands on the wrong
 side of 0, and the search for 0 stops short.
 */
module BTreeZero {
  import opened BTreeNode
  import opened BTreeModel
  import opened BTreeInsert
  import opened BTreeEntries
  import opened BTreeRead
  import opened BTreeRuns
  import opened BTreeDuplicates

  /** The `i`th key of the run; 0 is the 5100th. */
  function Key(i: int): int {
    2 * i - 10200
  }

  /** The first `n` inserts. */
  function Climb(n: nat): (ops: seq<Op>)
    ensures |ops| == n && forall i :: 0 <= i < n ==> ops[i] == Ins(Key(i), (1, i))
  {
    seq(n, i requires 0 <= i < n => Ins(Key(i), (1, i)))
  }

  /** The whole run: 7651 ascending even keys, then a 1. */
  function Whole(): seq<Op> {
    Climb(7651) + [Ins(1, (1, 7651))]
  }

  /** `m` consecutive keys from the `a`th on. */
  function Keys(a: int, m: nat): (s: seq<int>)
    ensures |s| == m && forall i :: 0 <= i < m ==> s[i] == Key(a + i)
  {
    seq(m, i requires 0 <= i < m => Key(a + i))
  }

  // ---- The right edge of the tree, where everything happens ----

  ghost predicate Sound(ix: Index) {
    BTreeModel.Valid(ix) && ix.order == 100
  }

  ghost predicate LeafKeys(ix: Index, c: int, a: int, m: nat) {
    c in ix.pages && ix.pages[c].Leaf? && ix.pages[c].keys == Keys(a, m) && |ix.pages[c].rids| == m
  }

  /** The last leaf of the chain. */
  ghost predicate Tip(ix: Index, c: int, a: int, m: nat) {
    LeafKeys(ix, c, a, m) && ix.pages[c].next == -1
  }

  /** An inner page whose `j` separators are every 50th key after the `50 * base`th. */
  ghost predicate Edge(n: Node, base: nat, j: nat) {
    && n.Inner? && |n.keys| == j && |n.ptrs| == j + 1
    && forall i :: 0 <= i < j ==> n.keys[i] == Key(50 * (base + 1 + i))
  }

  function LastPtr(n: Node): int
    requires n.Inner? && n.ptrs != []
  {
    n.ptrs[|n.ptrs| - 1]
  }

  /** One leaf. */
  ghost predicate Flat(ix: Index, n: nat) {
    Sound(ix) && ix.root in ix.pages && Tip(ix, ix.root, 0, n)
  }

  /** A root over leaves, split `j` times. */
  ghost predicate Low(ix: Index, j: nat, m: nat) {
    Sound(ix) && ix.root in ix.pages && Edge(ix.pages[ix.root], 0, j) && Tip(ix, LastPtr(ix.pages[ix.root]), 50 * j, m)
  }

  /** The right of two inner pages under the root, after `51 + j` leaf splits; its 51st leaf ends just before 0. */
  ghost predicate RightPage(ix: Index, b: int, j: nat, m: nat) {
    && b in ix.pages && Edge(ix.pages[b], 51, j) && Tip(ix, LastPtr(ix.pages[b]), 50 * (51 + j), m)
    && (51 <= j ==> LeafKeys(ix, ix.pages[b].ptrs[50], 5050, 50))
  }

  ghost predicate High(ix: Index, j: nat, m: nat) {
    && Sound(ix) && ix.root in ix.pages && ix.pages[ix.root].Inner?
    && ix.pages[ix.root].keys == [Key(2550)] && |ix.pages[ix.root].ptrs| == 2
    && RightPage(ix, ix.pages[ix.root].ptrs[1], j, m)
  }

  /** After the wrong promotion: the page that ends before 0 is bounded by 100, the separator after it. */
  ghost predicate Wrong(ix: Index) {
    && Sound(ix) && ix.root in ix.pages && ix.pages[ix.root].Inner?
    && ix.pages[ix.root].keys == [Key(2550), 100] && |ix.pages[ix.root].ptrs| == 3
    && var b := ix.pages[ix.root].ptrs[1];
      b in ix.pages && Edge(ix.pages[b], 51, 50) && LeafKeys(ix, LastPtr(ix.pages[b]), 5050, 50)
  }

  // ---- Growing a page at its end ----

  lemma KeysMore(a: int, m: nat)
    ensures InsertAt(Keys(a, m), UpperBound(Keys(a, m), Key(a + m)), Key(a + m)) == Keys(a, m + 1)
  {
    assert UpperBound(Keys(a, m), Key(a + m)) == m;
  }

  lemma KeysCut(a: int)
    ensures Keys(a, 101)[..50] == Keys(a, 50) && Keys(a, 101)[50..] == Keys(a + 50, 51) && Keys(a, 101)[50] == Key(a + 50)
  {
  }

  /** The next separator goes last, and its page with it. */
  lemma EdgeMore(n: Node, base: nat, j: nat, r: int)
    requires Edge(n, base, j)
    ensures var k := Key(50 * (base + 1 + j));
      InsertPointer(n, k, r) == Inner(n.keys + [k], n.ptrs + [r]) && Edge(InsertPointer(n, k, r), base, j + 1)
  {
    var k := Key(50 * (base + 1 + j));
    assert UpperBound(n.keys, k) == j;
    assert InsertAt(n.keys, j, k) == n.keys + [k];
    assert InsertAt(n.ptrs, j + 1, r) == n.ptrs + [r];
  }

  lemma EdgeRoute(n: Node, base: nat, j: nat, k: int)
    requires Edge(n, base, j) && Key(50 * (base + j)) < k
    ensures Route(n.keys, k) == j
  {
  }

  // ---- The ways down ----

  lemma Down2(ix: Index, k: int)
    requires Tree(ix, 0) && ix.pages[ix.root].Inner? && Route(ix.pages[ix.root].keys, k) < |ix.pages[ix.root].ptrs|
    requires IsLeaf(ix, ix.pages[ix.root].ptrs[Route(ix.pages[ix.root].keys, k)])
    ensures var c := ix.pages[ix.root].ptrs[Route(ix.pages[ix.root].keys, k)]; Descend(ix, ix.root, k) == [ix.root, c] && LeafFor(ix, k) == c
  {
    hide Nodes, Down, Up;
    var c := ix.pages[ix.root].ptrs[Route(ix.pages[ix.root].keys, k)];
    assert Descend(ix, c, k) == [c];
    assert Descend(ix, ix.root, k) == [ix.root] + [c];
  }

  lemma Down3(ix: Index, k: int, b: int)
    requires Tree(ix, 0) && ix.pages[ix.root].Inner? && Route(ix.pages[ix.root].keys, k) < |ix.pages[ix.root].ptrs|
    requires b == ix.pages[ix.root].ptrs[Route(ix.pages[ix.root].keys, k)]
    requires b in ix.pages && ix.pages[b].Inner? && Route(ix.pages[b].keys, k) < |ix.pages[b].ptrs|
    requires IsLeaf(ix, ix.pages[b].ptrs[Route(ix.pages[b].keys, k)])
    ensures var c := ix.pages[b].ptrs[Route(ix.pages[b].keys, k)]; Descend(ix, ix.root, k) == [ix.root, b, c] && LeafFor(ix, k) == c
  {
    hide Nodes, Down, Up;
    var c := ix.pages[b].ptrs[Route(ix.pages[b].keys, k)];
    assert Descend(ix, c, k) == [c];
    assert Descend(ix, b, k) == [b] + [c];
    assert Descend(ix, ix.root, k) == [ix.root] + [b, c];
  }

  // ---- An insert at the tip ----

  /** A leaf with room takes the next key, and nothing else changes. */
  lemma TipTakes(ix: Index, c: int, a: int, m: nat, rid: Rid)
    requires Sound(ix) && Tip(ix, c, a, m) && m < 100 && LeafFor(ix, Key(a + m)) == c
    ensures var jx := Insert(ix, Key(a + m), rid);
      && Sound(jx) && jx.root == ix.root && Tip(jx, c, a, m + 1)
      && jx.pages.Keys == ix.pages.Keys && forall p :: p in ix.pages && p != c ==> jx.pages[p] == ix.pages[p]
  {
    hide Nodes, Down, Up, Chained, Sizes;
    Takes(ix, Key(a + m), rid, c);
    KeysMore(a, m);
  }

  /** A full leaf is halved; the upper half waits to be hung under its first key. */
  lemma TipSplits(ix: Index, c: int, a: int, rid: Rid) returns (kx: Index)
    requires Sound(ix) && Tip(ix, c, a, 100) && LeafFor(ix, Key(a + 100)) == c
    ensures Sound(Insert(ix, Key(a + 100), rid))
    ensures Pending(kx, Descend(ix, ix.root, Key(a + 100)), ix.next)
    ensures Insert(ix, Key(a + 100), rid) == Hang(kx, Descend(ix, ix.root, Key(a + 100)), ix.next, Key(a + 50))
    ensures kx.order == 100 && kx.root == ix.root && kx.next == ix.next + 1 && ix.next !in ix.pages
    ensures LeafKeys(kx, c, a, 50) && Tip(kx, ix.next, a + 50, 51)
    ensures kx.pages.Keys == ix.pages.Keys + {ix.next} && forall p :: p in ix.pages && p != c ==> kx.pages[p] == ix.pages[p]
  {
    hide Nodes, Down, Up, Sizes, Hang, Pending, Chained;
    var k := Key(a + 100);
    InsertValid(ix, k, rid);
    InsertOrder(ix, k, rid);
    SplitPending(ix, k, rid);
    KeysMore(a, 100);
    KeysCut(a);
    kx := SplitLeaf(WithEntry(ix, k, rid), c);
  }

  // ---- Each kind of step ----

  lemma FlatGrows(ix: Index, n: nat, rid: Rid)
    requires Flat(ix, n) && n < 100
    ensures Flat(Insert(ix, Key(n), rid), n + 1)
  {
    hide Nodes, Down, Up, Chained, Sizes, Insert;
    LeafIsRoot(ix, Key(n));
    TipTakes(ix, ix.root, 0, n, rid);
  }

  lemma FlatSplits(ix: Index, rid: Rid)
    requires Flat(ix, 100)
    ensures Low(Insert(ix, Key(100), rid), 1, 51)
  {
    hide Nodes, Down, Up, Chained, Sizes, Insert, Pending;
    LeafIsRoot(ix, Key(100));
    var kx := TipSplits(ix, ix.root, 0, rid);
    assert Key(50) == Key(50 * (0 + 1 + 0));
  }

  lemma LowWay(ix: Index, j: nat, m: nat, k: int)
    requires Low(ix, j, m) && Key(50 * j) < k
    ensures ix.pages[ix.root].Inner? && |ix.pages[ix.root].keys| == j && |ix.pages[ix.root].ptrs| == j + 1
    ensures var c := LastPtr(ix.pages[ix.root]); Descend(ix, ix.root, k) == [ix.root, c] && LeafFor(ix, k) == c && c != ix.root
  {
    hide Nodes, Down, Up, Chained, Sizes;
    EdgeRoute(ix.pages[ix.root], 0, j, k);
    Down2(ix, k);
  }

  lemma LowGrows(ix: Index, j: nat, m: nat, rid: Rid)
    requires Low(ix, j, m) && 1 <= m < 100
    ensures Low(Insert(ix, Key(50 * j + m), rid), j, m + 1)
  {
    hide Nodes, Down, Up, Chained, Sizes, Insert;
    LowWay(ix, j, m, Key(50 * j + m));
    TipTakes(ix, LastPtr(ix.pages[ix.root]), 50 * j, m, rid);
  }

  lemma LowSplits(ix: Index, j: nat, rid: Rid)
    requires Low(ix, j, 100) && 1 <= j < 100
    ensures Low(Insert(ix, Key(50 * j + 100), rid), j + 1, 51)
  {
    hide Nodes, Down, Up, Chained, Sizes, Insert, Pending, Hang, InsertPointer, Keys;
    var k := Key(50 * j + 100);
    LowWay(ix, j, 100, k);
    var c := LastPtr(ix.pages[ix.root]);
    var kx := TipSplits(ix, c, 50 * j, rid);
    EdgeMore(kx.pages[ix.root], 0, j, ix.next);
    HangBeside(kx, [ix.root, c], ix.next, Key(50 * j + 50));
  }

  /** A parent with room takes the new page in. */
  lemma HangBeside(kx: Index, path: seq<int>, r: int, sep: int)
    requires Pending(kx, path, r) && 2 <= |path| && ParentOf(path) in kx.pages && |kx.pages[ParentOf(path)].keys| < kx.order
    ensures kx.pages[ParentOf(path)].Inner? && |kx.pages[ParentOf(path)].ptrs| == |kx.pages[ParentOf(path)].keys| + 1
    ensures Hang(kx, path, r, sep).root == kx.root
    ensures Hang(kx, path, r, sep).pages == kx.pages[ParentOf(path) := InsertPointer(kx.pages[ParentOf(path)], sep, r)]
  {
    hide Pending;
    ParentReady(kx, path, r);
  }

  /** A full parent is halved; its upper half goes on to the page above. */
  lemma HangAbove(kx: Index, path: seq<int>, r: int, sep: int) returns (lx: Index)
    requires Pending(kx, path, r) && 2 <= |path| && Full(kx, ParentOf(path))
    ensures kx.pages[ParentOf(path)].Inner? && |kx.pages[ParentOf(path)].ptrs| == |kx.pages[ParentOf(path)].keys| + 1
    ensures 2 <= kx.order && kx.next !in kx.pages
    ensures Pending(lx, path[..|path| - 1], kx.next)
    ensures var n := InsertPointer(kx.pages[ParentOf(path)], sep, r);
      && |n.keys| == kx.order + 1 && |n.ptrs| == |n.keys| + 1
      && Hang(kx, path, r, sep) == Hang(lx, path[..|path| - 1], kx.next, Promoted(n, |path| == 2))
      && HalvedInner(kx, lx, ParentOf(path), n)
  {
    hide Nodes, Down, Up, Chained, Sizes, Ladder, Spilt, Pending;
    ParentReady(kx, path, r);
    SpiltPending(kx, path, r, sep);
    SpiltPages(kx, path, r, sep);
    lx := Spilt(kx, path, r, sep);
  }

  /** `lx` is `kx` with page `p`, now `n`, halved. */
  ghost predicate HalvedInner(kx: Index, lx: Index, p: int, n: Node) {
    && n.Inner? && |n.ptrs| == |n.keys| + 1 && n.keys != []
    && lx.root == kx.root && lx.order == kx.order && lx.next == kx.next + 1
    && var s := |n.keys| / 2;
      lx.pages == kx.pages[p := Inner(n.keys[..s], n.ptrs[..s + 1])][kx.next := Inner(n.keys[s + 1..], n.ptrs[s + 1..])]
  }

  lemma SpiltPages(kx: Index, path: seq<int>, r: int, sep: int)
    requires Pending(kx, path, r) && 2 <= |path| && Full(kx, ParentOf(path))
    ensures kx.pages[ParentOf(path)].Inner? && |kx.pages[ParentOf(path)].ptrs| == |kx.pages[ParentOf(path)].keys| + 1
    ensures 2 <= kx.order && kx.next !in kx.pages
    ensures HalvedInner(kx, Spilt(kx, path, r, sep), ParentOf(path), InsertPointer(kx.pages[ParentOf(path)], sep, r))
    ensures Fed(kx, path, r, sep).pages[ParentOf(path)] == InsertPointer(kx.pages[ParentOf(path)], sep, r)
  {
    hide Nodes, Down, Up, Chained, Sizes, Ladder, InsertPointer;
    ParentReady(kx, path, r);
    FedOk(kx, path, r, sep);
    FedPages(kx, path, r, sep);
  }

  lemma FedPages(kx: Index, path: seq<int>, r: int, sep: int)
    requires Pending(kx, path, r) && 2 <= |path|
    ensures ParentOf(path) in kx.pages && kx.pages[ParentOf(path)].Inner? && |kx.pages[ParentOf(path)].ptrs| == |kx.pages[ParentOf(path)].keys| + 1
    ensures Fed(kx, path, r, sep).pages == kx.pages[ParentOf(path) := InsertPointer(kx.pages[ParentOf(path)], sep, r)]
  {
    hide InsertPointer;
    ParentReady(kx, path, r);
  }

  /** With nothing above, a new root takes both pages. */
  lemma HangRoot(kx: Index, c: int, r: int, sep: int)
    requires Pending(kx, [c], r) && kx.root == c
    ensures var jx := Hang(kx, [c], r, sep);
      jx.root == kx.next && jx.pages == kx.pages[kx.next := Inner([sep], [c, r])]
  {
  }

  /** The root over leaves overflows: a new root above its two halves. */
  lemma LowOverflows(ix: Index, rid: Rid)
    requires Low(ix, 100, 100)
    ensures High(Insert(ix, Key(5100), rid), 50, 51)
  {
    hide Nodes, Down, Up, Chained, Sizes, Insert, Pending, Hang, InsertPointer, Edge, Promoted;
    LowWay(ix, 100, 100, Key(5100));
    var c := LastPtr(ix.pages[ix.root]);
    var kx := TipSplits(ix, c, 5000, rid);
    EdgeMore(kx.pages[ix.root], 0, 100, ix.next);
    var n := InsertPointer(kx.pages[ix.root], Key(5050), ix.next);
    var lx := HangAbove(kx, [ix.root, c], ix.next, Key(5050));
    EdgeHalves(n, 0);
    assert [ix.root, c][..1] == [ix.root];
    HangRoot(lx, ix.root, kx.next, Key(2550));
    PromotedMiddle(n, true);
    assert Insert(ix, Key(5100), rid) == Hang(lx, [ix.root], kx.next, Key(2550));
  }

  lemma PromotedMiddle(n: Node, toRoot: bool)
    requires |n.keys| == 101
    ensures Promoted(n, toRoot) == if toRoot || n.keys[50] != 0 then n.keys[50] else n.keys[51]
  {
  }

  /** The upper half of a page of 101 separators. */
  lemma EdgeHalves(n: Node, base: nat)
    requires Edge(n, base, 101)
    ensures n.keys[50] == Key(50 * (base + 51)) && n.keys[51] == Key(50 * (base + 52))
    ensures Edge(Inner(n.keys[..50], n.ptrs[..51]), base, 50) && LastPtr(Inner(n.keys[..50], n.ptrs[..51])) == n.ptrs[50]
    ensures Edge(Inner(n.keys[51..], n.ptrs[51..]), base + 51, 50) && LastPtr(Inner(n.keys[51..], n.ptrs[51..])) == LastPtr(n)
  {
  }

  lemma HighWay(ix: Index, j: nat, m: nat, k: int)
    requires High(ix, j, m) && Key(50 * (51 + j)) < k
    ensures var b := ix.pages[ix.root].ptrs[1]; b in ix.pages && ix.pages[b].Inner? && |ix.pages[b].keys| == j && |ix.pages[b].ptrs| == j + 1
    ensures var b := ix.pages[ix.root].ptrs[1]; var c := LastPtr(ix.pages[b]);
      Descend(ix, ix.root, k) == [ix.root, b, c] && LeafFor(ix, k) == c && b != ix.root
  {
    hide Nodes, Up, Chained, Sizes;
    var b := ix.pages[ix.root].ptrs[1];
    EdgeRoute(ix.pages[b], 51, j, k);
    assert Route(ix.pages[ix.root].keys, k) == 1;
    Down3(ix, k, b);
    assert IsChild(ix, ix.root, 1);
  }

  lemma HighGrows(ix: Index, j: nat, m: nat, rid: Rid)
    requires High(ix, j, m) && 50 <= j && 1 <= m < 100
    ensures High(Insert(ix, Key(50 * (51 + j) + m), rid), j, m + 1)
  {
    hide Nodes, Down, Up, Chained, Sizes, Insert;
    HighWay(ix, j, m, Key(50 * (51 + j) + m));
    var b := ix.pages[ix.root].ptrs[1];
    TipTakes(ix, LastPtr(ix.pages[b]), 50 * (51 + j), m, rid);
    if 51 <= j {
      TipApart(ix, b, j, m);
    }
  }

  /** The leaf before 0 is not the last one, by its keys. */
  lemma TipApart(ix: Index, b: int, j: nat, m: nat)
    requires RightPage(ix, b, j, m) && 1 <= m && 51 <= j
    ensures ix.pages[b].ptrs[50] != LastPtr(ix.pages[b])
  {
    assert Keys(5050, 50)[0] != Keys(50 * (51 + j), m)[0];
  }

  lemma HighSplits(ix: Index, j: nat, rid: Rid)
    requires High(ix, j, 100) && 50 <= j < 100
    ensures High(Insert(ix, Key(50 * (51 + j) + 100), rid), j + 1, 51)
  {
    hide Nodes, Down, Up, Chained, Sizes, Insert, Pending, Hang, InsertPointer;
    var a := 50 * (51 + j);
    HighWay(ix, j, 100, Key(a + 100));
    var b := ix.pages[ix.root].ptrs[1];
    var c := LastPtr(ix.pages[b]);
    if 51 <= j {
      TipApart(ix, b, j, 100);
    }
    var kx := TipSplits(ix, c, a, rid);
    HangBeside(kx, [ix.root, b, c], ix.next, Key(a + 50));
    RightGrows(ix, kx, Insert(ix, Key(a + 100), rid), b, c, j);
  }

  /** The right page with one more leaf behind its last. */
  lemma RightGrows(ix: Index, kx: Index, jx: Index, b: int, c: int, j: nat)
    requires RightPage(ix, b, j, 100) && c == LastPtr(ix.pages[b]) && 50 <= j && (51 <= j ==> ix.pages[b].ptrs[50] != c)
    requires LeafKeys(kx, c, 50 * (51 + j), 50) && Tip(kx, ix.next, 50 * (52 + j), 51) && ix.next !in ix.pages
    requires forall p :: p in ix.pages && p != c ==> p in kx.pages && kx.pages[p] == ix.pages[p]
    requires jx.pages == kx.pages[b := InsertPointer(ix.pages[b], Key(50 * (52 + j)), ix.next)]
    ensures RightPage(jx, b, j + 1, 51)
  {
    hide Keys, InsertPointer;
    EdgeMore(ix.pages[b], 51, j, ix.next);
    assert b != c;
  }

  /** The page below the root overflows with 0 in the middle, and 100 goes up in its place. */
  lemma HighOverflows(ix: Index, rid: Rid)
    requires High(ix, 100, 100)
    ensures Wrong(Insert(ix, Key(7650), rid))
  {
    hide Nodes, Down, Up, Chained, Sizes, Insert, Pending, Hang, InsertPointer, Promoted, Edge, Keys, Tip, LeafKeys,
      Wrong, Descend, LeafFor;
    HighWay(ix, 100, 100, Key(7650));
    var b := ix.pages[ix.root].ptrs[1];
    var c := LastPtr(ix.pages[b]);
    TipApart(ix, b, 100, 100);
    var kx := TipSplits(ix, c, 7550, rid);
    EdgeMore(kx.pages[b], 51, 100, ix.next);
    var n := InsertPointer(kx.pages[b], Key(7600), ix.next);
    var lx := HangAbove(kx, [ix.root, b, c], ix.next, Key(7600));
    EdgeHalves(n, 51);
    assert [ix.root, b, c][..2] == [ix.root, b];
    PromotedMiddle(n, false);
    HangBeside(lx, [ix.root, b], kx.next, 100);
    RootMore(lx.pages[ix.root], kx.next);
    NowWrong(ix, kx, lx, Insert(ix, Key(7650), rid), b, c, n);
  }

  /** What is left of the pages after both splits. */
  lemma NowWrong(ix: Index, kx: Index, lx: Index, jx: Index, b: int, c: int, n: Node)
    requires High(ix, 100, 100) && b == ix.pages[ix.root].ptrs[1] && b != ix.root && c == LastPtr(ix.pages[b]) && c != ix.pages[b].ptrs[50]
    requires kx.root == ix.root && kx.next !in kx.pages && forall p :: p in ix.pages && p != c ==> p in kx.pages && kx.pages[p] == ix.pages[p]
    requires n.Inner? && |n.keys| == 101 && |n.ptrs| == 102 && n.ptrs[50] == ix.pages[b].ptrs[50]
    requires Edge(Inner(n.keys[..50], n.ptrs[..51]), 51, 50) && HalvedInner(kx, lx, b, n)
    requires jx.root == lx.root && jx.pages == lx.pages[ix.root := Inner([Key(2550), 100], lx.pages[ix.root].ptrs + [kx.next])]
    requires lx.pages[ix.root].Inner? && Sound(jx)
    ensures Wrong(jx)
  {
    hide Key, Keys, Sound;
    var half := Inner(n.keys[..50], n.ptrs[..51]);
    assert LastPtr(half) == ix.pages[b].ptrs[50];
    assert jx.pages[b] == half && jx.pages[ix.root].ptrs[1] == b;
  }

  lemma RootMore(n: Node, r: int)
    requires n.Inner? && n.keys == [Key(2550)] && |n.ptrs| == 2
    ensures InsertPointer(n, 100, r) == Inner([Key(2550), 100], n.ptrs + [r])
  {
    assert InsertAt([Key(2550)], 1, 100) == [Key(2550), 100];
    assert InsertAt(n.ptrs, 2, r) == n.ptrs + [r];
  }

  // ---- The run ----

  /** Where the climb stands after `n` inserts, with `j` leaf splits behind it. */
  ghost predicate Stands(ix: Index, n: nat) {
    var j := (n - 51) / 50;
    if n <= 100 then Flat(ix, n)
    else if j <= 100 then Low(ix, j, n - 50 * j)
    else High(ix, j - 51, n - 50 * j)
  }

  lemma RunClimb(n: nat)
    ensures Run(100, Climb(n + 1)) == Insert(Run(100, Climb(n)), Key(n), (1, n))
  {
    assert Climb(n + 1)[..n] == Climb(n);
  }

  lemma {:induction false} ClimbStands(n: nat)
    requires n <= 7650
    ensures Stands(Run(100, Climb(n)), n)
  {
    hide Run, Insert, Flat, Low, High, Climb;
    if n == 0 {
      StartFlat();
    } else {
      ClimbStands(n - 1);
      RunClimb(n - 1);
      StandsNext(Run(100, Climb(n - 1)), n - 1);
    }
  }

  lemma StartFlat()
    ensures Flat(Run(100, Climb(0)), 0)
  {
    NewOk(100);
    assert Keys(0, 0) == [];
  }

  lemma StandsNext(ix: Index, n: nat)
    requires Stands(ix, n) && n < 7650
    ensures BTreeModel.Valid(ix) && Stands(Insert(ix, Key(n), (1, n)), n + 1)
  {
    hide Insert, Flat, Low, High, Key;
    StandsValid(ix, n);
    var j, m, rid := (n - 51) / 50, n - 50 * ((n - 51) / 50), (1, n);
    if n < 100 {
      FlatGrows(ix, n, rid);
    } else if n == 100 {
      FlatSplits(ix, rid);
    } else if j <= 100 {
      if m < 100 {
        LowGrows(ix, j, m, rid);
      } else if j < 100 {
        LowSplits(ix, j, rid);
      } else {
        LowOverflows(ix, rid);
      }
    } else if m < 100 {
      HighGrows(ix, j - 51, m, rid);
    } else {
      HighSplits(ix, j - 51, rid);
    }
  }

  lemma StandsValid(ix: Index, n: nat)
    requires Stands(ix, n)
    ensures BTreeModel.Valid(ix)
  {
  }

  // ---- The last key, and the search ----

  lemma WrongWay(ix: Index, k: int)
    requires Wrong(ix) && 0 <= k <= 100
    ensures var b := ix.pages[ix.root].ptrs[1]; var c := LastPtr(ix.pages[b]);
      LeafFor(ix, k) == c && b != c && c != ix.root
  {
    hide Nodes, Down, Up, Chained, Sizes;
    var b := ix.pages[ix.root].ptrs[1];
    EdgeRoute(ix.pages[b], 51, 50, k);
    RouteTo(ix.pages[ix.root].keys, k, 1);
    Down3(ix, k, b);
  }

  /** The 1 goes after the keys below 0, where a search for 0 then sees a larger key and stops. */
  lemma MissesZero(ix: Index, rid: Rid)
    requires Wrong(ix)
    ensures Tree(Insert(ix, 1, rid), 0) && Chained(Insert(ix, 1, rid)) && Search(Insert(ix, 1, rid), 0) == []
  {
    hide Nodes, Down, Up, Sizes, Chained, Insert, Search, Keys, Edge, Key;
    var c := TakesOne(ix, rid);
    StopsShort(Insert(ix, 1, rid), c);
  }

  lemma TakesOne(ix: Index, rid: Rid) returns (c: int)
    requires Wrong(ix)
    ensures Tree(Insert(ix, 1, rid), 0) && Chained(Insert(ix, 1, rid)) && LeafFor(Insert(ix, 1, rid), 0) == c
    ensures Insert(ix, 1, rid).pages[c].keys == Keys(5050, 50) + [1]
  {
    hide Nodes, Down, Up, Sizes, Chained, Insert, Keys, LeafFor, InsertAt, UpperBound, Route, Descend;
    var b := ix.pages[ix.root].ptrs[1];
    c := LastPtr(ix.pages[b]);
    WrongWay(ix, 1);
    Takes(ix, 1, rid, c);
    KeysNegative();
    ZeroWay(ix, Insert(ix, 1, rid));
  }

  /** The way to 0 leads through the same inner pages. */
  lemma ZeroWay(ix: Index, jx: Index)
    requires Wrong(ix) && Tree(jx, 0) && jx.root == ix.root
    requires var c := LastPtr(ix.pages[ix.pages[ix.root].ptrs[1]]);
      IsLeaf(jx, c) && forall p :: p in ix.pages && p != c ==> p in jx.pages && jx.pages[p] == ix.pages[p]
    ensures LeafFor(jx, 0) == LastPtr(ix.pages[ix.pages[ix.root].ptrs[1]])
  {
    hide Nodes, Down, Up, Sizes, Chained;
    var b := ix.pages[ix.root].ptrs[1];
    EdgeRoute(jx.pages[b], 51, 50, 0);
    RouteTo(jx.pages[jx.root].keys, 0, 1);
    Down3(jx, 0, b);
  }

  lemma KeysNegative()
    ensures InsertAt(Keys(5050, 50), UpperBound(Keys(5050, 50), 1), 1) == Keys(5050, 50) + [1]
  {
    assert UpperBound(Keys(5050, 50), 1) == 50;
  }

  lemma StopsShort(ix: Index, c: int)
    requires Tree(ix, 0) && Chained(ix) && LeafFor(ix, 0) == c && ix.pages[c].keys == Keys(5050, 50) + [1]
    ensures Search(ix, 0) == []
  {
    hide Nodes, Down, Up, LeafFor;
    var i := Position(ix, c);
    var n := ChainLeaf(ix, i);
    assert n.keys[50] == 1;
    NothingBelow(n, 0);
  }

  lemma {:induction false} NothingBelow(n: Node, i: nat)
    requires n.Leaf? && |n.rids| == |n.keys| && n.keys == Keys(5050, 50) + [1] && i <= 51
    ensures Lookup(n, 0, i) == []
    decreases 51 - i
  {
    if i < 51 {
      NothingBelow(n, i + 1);
    }
  }

  /** At order 100, 7652 inserts of distinct keys store an entry under 0, and the search for 0 answers nothing. */
  lemma ZeroBreaksSearch()
    ensures forall i, j :: 0 <= i < j < |Whole()| ==> Whole()[i].Ins? && Whole()[j].Ins? && Whole()[i].key != Whole()[j].key
    ensures var ix := Run(100, Whole());
      && (0, (1, 5100)) in Entries(ix)
      && Search(ix, 0) == []
  {
    hide Run, Insert, Search, Entries, Kept, Stands;
    var ix := Run(100, Climb(7651));
    ClimbWrong();
    RunStep(Climb(7651), Ins(1, (1, 7651)));
    MissesZero(ix, (1, 7651));
    assert Whole()[5100] == Ins(0, (1, 5100));
    InsertsKept(Whole(), 5100);
    RunConserves(100, Whole());
  }

  lemma ClimbWrong()
    ensures Wrong(Run(100, Climb(7651)))
  {
    hide Run, Insert, Climb, Wrong, Flat, Low, High;
    ClimbStands(7650);
    RunClimb(7650);
    HighOverflows(Run(100, Climb(7650)), (1, 7650));
  }
}
