/**
 A B+ tree file as a value: the decoded pages, and beside them the layout the pages imply
 (levels, parents, key bounds, left-to-right leaf order).
 The layout is never stored on disk; the predicates below tie it to the pages.
 */
module BTreeModel {
  import opened BTreeNode

  /** The end of a page's key interval. */
  datatype Bound = NegInf | At(key: int) | PosInf

  predicate Below(a: Bound, b: Bound) {
    match a
    case NegInf => b != NegInf
    case At(x) => b.PosInf? || (b.At? && x < b.key)
    case PosInf => false
  }

  predicate AtMost(a: Bound, b: Bound) {
    a == b || Below(a, b)
  }

  /** Page 0 is the header, so 0 can stand for "no page"; the pages are exactly 1 .. next - 1. */
  datatype Index = Index(
    order: int,
    root: int,
    next: int,
    pages: map<int, Node>,
    level: map<int, nat>,
    parent: map<int, int>,
    lo: map<int, Bound>,
    hi: map<int, Bound>,
    chain: seq<int>)

  // ---- Structure, kept whatever the keys are ----

  ghost predicate Domain(ix: Index) {
    && 2 <= ix.order
    && 1 < ix.next
    && (forall p :: p in ix.pages <==> 1 <= p < ix.next)
    && ix.level.Keys == ix.pages.Keys
    && ix.parent.Keys == ix.pages.Keys
    && ix.lo.Keys == ix.pages.Keys
    && ix.hi.Keys == ix.pages.Keys
    && ix.root in ix.pages
  }

  ghost predicate NodeOk(n: Node, level: nat) {
    && (n.Leaf? <==> level == 0)
    && (n.Leaf? ==> |n.rids| == |n.keys| && Sorted(n.keys))
    && (n.Inner? ==> |n.ptrs| == |n.keys| + 1)
  }

  ghost predicate PageOk(ix: Index, p: int) {
    p in ix.pages && p in ix.level && NodeOk(ix.pages[p], ix.level[p])
  }

  ghost predicate Nodes(ix: Index) {
    forall p {:trigger PageOk(ix, p)} {:trigger ix.pages[p]} :: p in ix.pages ==> PageOk(ix, p)
  }

  ghost predicate IsChild(ix: Index, p: int, i: int) {
    && p in ix.pages
    && ix.pages[p].Inner?
    && 0 <= i < |ix.pages[p].ptrs|
  }

  ghost predicate ChildOk(ix: Index, p: int, c: int)
    requires Domain(ix) && p in ix.pages
  {
    c in ix.pages && ix.level[c] + 1 == ix.level[p] && ix.parent[c] == p
  }

  /** Every child knows its one parent, one level up. */
  ghost predicate Down(ix: Index)
    requires Domain(ix)
  {
    && (forall p, i {:trigger IsChild(ix, p, i)} :: IsChild(ix, p, i) ==> ChildOk(ix, p, ix.pages[p].ptrs[i]))
    && (forall p, i, j {:trigger IsChild(ix, p, i), IsChild(ix, p, j)} ::
      IsChild(ix, p, i) && IsChild(ix, p, j) && i != j ==> ix.pages[p].ptrs[i] != ix.pages[p].ptrs[j])
  }

  ghost predicate HasParent(ix: Index, c: int)
    requires Domain(ix) && c in ix.pages
  {
    var p := ix.parent[c];
    p in ix.pages && ix.pages[p].Inner? && c in ix.pages[p].ptrs
  }

  /** Every page but the root, and the page a split has not hung up yet, is a child of its parent. */
  ghost predicate Up(ix: Index, orphan: int)
    requires Domain(ix)
  {
    && ix.parent[ix.root] == 0
    && (orphan != 0 ==> orphan in ix.pages && orphan != ix.root && ix.parent[orphan] == 0)
    && (forall c {:trigger HasParent(ix, c)} :: c in ix.pages && c != ix.root && c != orphan ==> HasParent(ix, c))
  }

  ghost predicate Tree(ix: Index, orphan: int) {
    Domain(ix) && Nodes(ix) && Down(ix) && Up(ix, orphan)
  }

  function ChainNext(chain: seq<int>, i: nat): int
    requires i < |chain|
  {
    if i + 1 < |chain| then chain[i + 1] else -1
  }

  function ChainPrev(chain: seq<int>, i: nat): int
    requires i < |chain|
  {
    if i == 0 then -1 else chain[i - 1]
  }

  ghost predicate IsLeaf(ix: Index, p: int) {
    p in ix.pages && ix.pages[p].Leaf?
  }

  /** The `i`th leaf of the chain, with its links to both sides. */
  ghost predicate LinkOk(ix: Index, i: int)
    requires 0 <= i < |ix.chain|
  {
    && IsLeaf(ix, ix.chain[i])
    && ix.pages[ix.chain[i]].next == ChainNext(ix.chain, i)
    && ix.pages[ix.chain[i]].prev == ChainPrev(ix.chain, i)
  }

  ghost predicate Listed(ix: Index, p: int) {
    p in ix.chain
  }

  /** `chain` lists each leaf once, from page 1, and the pages are doubly linked in that order. */
  ghost predicate Chained(ix: Index) {
    && 1 <= |ix.chain|
    && ix.chain[0] == 1
    && (forall i, j :: 0 <= i < j < |ix.chain| ==> ix.chain[i] != ix.chain[j])
    && (forall i {:trigger LinkOk(ix, i)} :: 0 <= i < |ix.chain| ==> LinkOk(ix, i))
    && (forall p {:trigger Listed(ix, p)} :: IsLeaf(ix, p) ==> Listed(ix, p))
  }

  ghost predicate SizeOk(ix: Index, p: int)
    requires p in ix.pages
  {
    var n := ix.pages[p];
    && |n.keys| <= ix.order
    && (n.Inner? ==> 1 <= |n.keys| && (p != ix.root ==> ix.order / 2 <= |n.keys|))
  }

  /** Fill of every page except `over`, which is one key past `order`. */
  ghost predicate Sizes(ix: Index, over: int) {
    && (forall p :: p in ix.pages && p != over ==> SizeOk(ix, p))
    && (over != 0 ==> over in ix.pages && |ix.pages[over].keys| == ix.order + 1)
  }

  ghost predicate Valid(ix: Index) {
    Tree(ix, 0) && Chained(ix) && Sizes(ix, 0)
  }

  // ---- Order, kept when separators stay strict ----

  function ChildLo(ix: Index, p: int, i: nat): Bound
    requires p in ix.pages && p in ix.lo && i <= |ix.pages[p].keys|
  {
    if i == 0 then ix.lo[p] else At(ix.pages[p].keys[i - 1])
  }

  function ChildHi(ix: Index, p: int, i: nat): Bound
    requires p in ix.pages && p in ix.hi && i <= |ix.pages[p].keys|
  {
    if i == |ix.pages[p].keys| then ix.hi[p] else At(ix.pages[p].keys[i])
  }

  /** The upper bound of the interval `c` had before `orphan` was split off it. */
  function WholeHi(ix: Index, c: int, split: int, orphan: int): Bound
    requires c in ix.hi && (orphan != 0 ==> orphan in ix.hi)
  {
    if orphan != 0 && c == split then ix.hi[orphan] else ix.hi[c]
  }

  /** The keys of a page inside its interval: leaf keys may equal a bound, separators may not. */
  ghost predicate Within(n: Node, lo: Bound, hi: Bound) {
    && Below(lo, hi)
    && (n.Leaf? ==> forall i :: 0 <= i < |n.keys| ==> AtMost(lo, At(n.keys[i])) && AtMost(At(n.keys[i]), hi))
    && (n.Inner? ==> forall i :: 0 <= i < |n.keys| ==> Below(lo, At(n.keys[i])) && Below(At(n.keys[i]), hi))
    && (n.Inner? ==> Increasing(n.keys))
  }

  ghost predicate InInterval(ix: Index, p: int) {
    p in ix.pages && p in ix.lo && p in ix.hi && Within(ix.pages[p], ix.lo[p], ix.hi[p])
  }

  ghost predicate Intervals(ix: Index) {
    forall p {:trigger InInterval(ix, p)} :: p in ix.pages ==> InInterval(ix, p)
  }

  ghost predicate ChildFits(ix: Index, p: int, i: int, split: int, orphan: int)
    requires Tree(ix, orphan) && IsChild(ix, p, i)
  {
    assert PageOk(ix, p) && ChildOk(ix, p, ix.pages[p].ptrs[i]);
    && ix.lo[ix.pages[p].ptrs[i]] == ChildLo(ix, p, i)
    && WholeHi(ix, ix.pages[p].ptrs[i], split, orphan) == ChildHi(ix, p, i)
  }

  /** Each child's interval is the gap its parent's separators leave it. */
  ghost predicate Fits(ix: Index, split: int, orphan: int)
    requires Tree(ix, orphan)
  {
    && ix.lo[ix.root] == NegInf
    && WholeHi(ix, ix.root, split, orphan) == PosInf
    && (forall p, i {:trigger IsChild(ix, p, i)} :: IsChild(ix, p, i) ==> ChildFits(ix, p, i, split, orphan))
  }

  /** Neighbouring leaves of the chain share a bound. */
  ghost predicate Meets(ix: Index, i: int)
    requires 0 <= i < |ix.chain| - 1
  {
    && ix.chain[i] in ix.hi
    && ix.chain[i + 1] in ix.lo
    && ix.hi[ix.chain[i]] == ix.lo[ix.chain[i + 1]]
  }

  ghost predicate ChainOrder(ix: Index)
    requires Domain(ix) && Chained(ix)
  {
    && ChainEnds(ix)
    && (forall i {:trigger Meets(ix, i)} :: 0 <= i < |ix.chain| - 1 ==> Meets(ix, i))
  }

  ghost predicate ChainEnds(ix: Index)
    requires Domain(ix) && Chained(ix)
  {
    assert LinkOk(ix, 0) && LinkOk(ix, |ix.chain| - 1);
    && ix.lo[ix.chain[0]] == NegInf
    && ix.hi[ix.chain[|ix.chain| - 1]] == PosInf
  }

  /** Order of the whole tree while `orphan`, split off `split`, waits for its parent. */
  ghost predicate OrderedBut(ix: Index, split: int, orphan: int) {
    Tree(ix, orphan) && Chained(ix) && Intervals(ix) && Fits(ix, split, orphan) && ChainOrder(ix)
  }

  ghost predicate Ordered(ix: Index) {
    OrderedBut(ix, 0, 0)
  }

  // ---- The steps of an insert ----

  function PutLeaf(ix: Index, c: int, n: Node): Index {
    ix.(pages := ix.pages[c := n])
  }

  function IndexOf(s: seq<int>, x: int): (i: nat)
    requires x in s
    ensures i < |s| && s[i] == x
  {
    if s[0] == x then 0 else 1 + IndexOf(s[1..], x)
  }

  lemma LeafLinks(ix: Index, c: int)
    requires Chained(ix) && IsLeaf(ix, c)
    ensures c in ix.chain
    ensures ix.pages[c].next == ChainNext(ix.chain, IndexOf(ix.chain, c))
    ensures ix.pages[c].next != -1 ==> IsLeaf(ix, ix.pages[c].next) && ix.pages[c].next != c
    ensures Domain(ix) ==> (ix.pages[c].next > 0 <==> ix.pages[c].next != -1)
  {
    assert Listed(ix, c);
    var i := IndexOf(ix.chain, c);
    assert LinkOk(ix, i);
    if i + 1 < |ix.chain| {
      assert LinkOk(ix, i + 1);
    }
  }

  /** Halve leaf `c`: the upper half goes to a new page spliced after `c` in the leaf chain. */
  function SplitLeaf(ix: Index, c: int): Index
    requires Tree(ix, 0) && Chained(ix) && IsLeaf(ix, c) && |ix.pages[c].keys| == ix.order + 1
  {
    LeafLinks(ix, c);
    assert PageOk(ix, c);
    var n := ix.pages[c];
    var s := |n.keys| / 2;
    var r := ix.next;
    var pages := ix.pages[c := Leaf(n.keys[..s], n.rids[..s], n.prev, r)][r := Leaf(n.keys[s..], n.rids[s..], c, n.next)];
    var i := IndexOf(ix.chain, c);
    ix.(next := r + 1,
        pages := if n.next > 0 then pages[n.next := pages[n.next].(prev := r)] else pages,
        level := ix.level[r := 0],
        parent := ix.parent[r := 0],
        lo := ix.lo[r := At(n.keys[s])],
        hi := ix.hi[r := ix.hi[c]][c := At(n.keys[s])],
        chain := InsertAt(ix.chain, i + 1, r))
  }

  /** Hang page `r` into inner page `p` under separator `sep`. */
  function Attach(ix: Index, p: int, sep: int, r: int): Index
    requires p in ix.pages && ix.pages[p].Inner? && |ix.pages[p].ptrs| == |ix.pages[p].keys| + 1
  {
    ix.(pages := ix.pages[p := InsertPointer(ix.pages[p], sep, r)],
        parent := ix.parent[r := p])
  }

  /** Halve inner page `p`: the upper half goes to a new page, the middle key leaves both; `sep` bounds them. */
  function SplitInner(ix: Index, p: int, sep: int): Index
    requires Domain(ix) && p in ix.pages && ix.pages[p].Inner? && |ix.pages[p].ptrs| == |ix.pages[p].keys| + 1
    requires |ix.pages[p].keys| == ix.order + 1
  {
    var n := ix.pages[p];
    var s := |n.keys| / 2;
    var q := ix.next;
    var right := n.ptrs[s + 1..];
    ix.(next := q + 1,
        pages := ix.pages[p := Inner(n.keys[..s], n.ptrs[..s + 1])][q := Inner(n.keys[s + 1..], right)],
        level := ix.level[q := ix.level[p]],
        parent := map x | x in ix.parent.Keys + {q} :: if x == q then 0 else if x in right then q else ix.parent[x],
        lo := ix.lo[q := At(sep)],
        hi := ix.hi[q := ix.hi[p]][p := At(sep)])
  }

  /** A new root above the old root and page `r`. */
  function GrowRoot(ix: Index, sep: int, r: int): Index
    requires Domain(ix) && r in ix.pages
  {
    var c := ix.root;
    var t := ix.next;
    ix.(root := t,
        next := t + 1,
        pages := ix.pages[t := Inner([sep], [c, r])],
        level := ix.level[t := ix.level[c] + 1],
        parent := ix.parent[c := t][r := t][t := 0],
        lo := ix.lo[t := NegInf],
        hi := ix.hi[t := PosInf])
  }
}
