/** The global shape the local invariants add up to: left-to-right leaves, reachability, and height. */
module BTreeShape {
  import opened BTreeModel
  import opened BTreeRead

  // ---- Left-to-right leaves ----

  /** The leaves under `p` from left to right. */
  function InOrder(ix: Index, p: int): seq<int>
    requires Tree(ix, 0) && p in ix.pages
    decreases ix.level[p]
  {
    if ix.pages[p].Leaf? then [p] else InOrderFrom(ix, p, 0)
  }

  /** ... and under its children from the `i`th on. */
  function InOrderFrom(ix: Index, p: int, i: nat): seq<int>
    requires Tree(ix, 0) && p in ix.pages && ix.pages[p].Inner? && i <= |ix.pages[p].ptrs|
    decreases ix.level[p], |ix.pages[p].ptrs| - i
  {
    if i == |ix.pages[p].ptrs| then []
    else
      ChildBelow(ix, p, i);
      InOrder(ix, ix.pages[p].ptrs[i]) + InOrderFrom(ix, p, i + 1)
  }

  lemma ChildBelow(ix: Index, p: int, i: nat)
    requires Domain(ix) && Down(ix) && p in ix.pages && ix.pages[p].Inner? && i < |ix.pages[p].ptrs|
    ensures IsChild(ix, p, i) && ChildOk(ix, p, ix.pages[p].ptrs[i])
  {
    assert IsChild(ix, p, i);
  }

  /** Lower bounds strictly increase along the chain. */
  lemma {:induction false} LoIncreases(ix: Index, i: nat, j: nat)
    requires Ordered(ix) && i < j < |ix.chain|
    ensures ix.chain[i] in ix.hi && ix.chain[j] in ix.lo && ix.chain[i] in ix.lo
    ensures AtMost(ix.hi[ix.chain[i]], ix.lo[ix.chain[j]]) && Below(ix.lo[ix.chain[i]], ix.lo[ix.chain[j]])
    decreases j
  {
    LeafWithin(ix, i);
    LeafWithin(ix, j - 1);
    LeafWithin(ix, j);
    assert Meets(ix, j - 1);
    if i < j - 1 {
      LoIncreases(ix, i, j - 1);
    }
  }

  /** A stretch of the chain that covers the interval from `lo` to `hi`. */
  ghost predicate Covers(ix: Index, a: nat, leaves: seq<int>, lo: Bound, hi: Bound) {
    && leaves != []
    && a + |leaves| <= |ix.chain|
    && leaves == ix.chain[a..a + |leaves|]
    && ix.chain[a] in ix.lo && ix.lo[ix.chain[a]] == lo
    && ix.chain[a + |leaves| - 1] in ix.hi && ix.hi[ix.chain[a + |leaves| - 1]] == hi
  }

  lemma CoversJoin(ix: Index, a: nat, x: seq<int>, b: nat, y: seq<int>, lo: Bound, mid: Bound, hi: Bound)
    requires Ordered(ix) && Covers(ix, a, x, lo, mid) && Covers(ix, b, y, mid, hi)
    ensures Covers(ix, a, x + y, lo, hi)
  {
    hide Tree, Fits, Intervals, ChainEnds, Chained;
    var e := a + |x|;
    LeafWithin(ix, e - 1);
    LeafWithin(ix, b);
    LeafWithin(ix, b + |y| - 1);
    if b < e {
      if b < e - 1 {
        LoIncreases(ix, b, e - 1);
      }
    } else if e < b {
      LeafWithin(ix, e);
      assert Meets(ix, e - 1);
      LoIncreases(ix, e, b);
    }
  }

  lemma {:induction false} InOrderCovers(ix: Index, p: int) returns (a: nat)
    requires Ordered(ix) && p in ix.pages
    ensures Covers(ix, a, InOrder(ix, p), ix.lo[p], ix.hi[p])
    decreases ix.level[p]
  {
    if ix.pages[p].Leaf? {
      a := Position(ix, p);
    } else {
      assert PageOk(ix, p);
      a := InOrderFromCovers(ix, p, 0);
    }
  }

  lemma {:induction false} InOrderFromCovers(ix: Index, p: int, i: nat) returns (a: nat)
    requires Ordered(ix) && p in ix.pages && ix.pages[p].Inner? && PageOk(ix, p) && i < |ix.pages[p].ptrs|
    ensures Covers(ix, a, InOrderFrom(ix, p, i), ChildLo(ix, p, i), ix.hi[p])
    decreases ix.level[p], |ix.pages[p].ptrs| - i
  {
    ChildBelow(ix, p, i);
    assert ChildFits(ix, p, i, 0, 0);
    var c := ix.pages[p].ptrs[i];
    a := InOrderCovers(ix, c);
    if i + 1 == |ix.pages[p].ptrs| {
      assert InOrderFrom(ix, p, i) == InOrder(ix, c);
    } else {
      var b := InOrderFromCovers(ix, p, i + 1);
      CoversJoin(ix, a, InOrder(ix, c), b, InOrderFrom(ix, p, i + 1), ChildLo(ix, p, i), ChildHi(ix, p, i), ix.hi[p]);
    }
  }

  /** In an ordered tree the leaf chain is exactly the left-to-right leaves. */
  lemma ChainIsInOrder(ix: Index)
    requires Ordered(ix)
    ensures InOrder(ix, ix.root) == ix.chain
  {
    var a := InOrderCovers(ix, ix.root);
    var n := |InOrder(ix, ix.root)|;
    LeafWithin(ix, 0);
    if 0 < a {
      LoIncreases(ix, 0, a);
    }
    if a + n < |ix.chain| {
      LeafWithin(ix, a + n);
      LoIncreases(ix, a + n - 1, a + n);
    }
    assert ix.chain[0..|ix.chain|] == ix.chain;
  }

  // ---- Reachability and height, for any keys ----

  /** The leaves under `p`, as a set. */
  function Under(ix: Index, p: int): set<int>
    requires Tree(ix, 0) && p in ix.pages
    decreases ix.level[p]
  {
    if ix.pages[p].Leaf? then {p} else UnderFrom(ix, p, 0)
  }

  function UnderFrom(ix: Index, p: int, i: nat): set<int>
    requires Tree(ix, 0) && p in ix.pages && ix.pages[p].Inner? && i <= |ix.pages[p].ptrs|
    decreases ix.level[p], |ix.pages[p].ptrs| - i
  {
    if i == |ix.pages[p].ptrs| then {}
    else
      ChildBelow(ix, p, i);
      Under(ix, ix.pages[p].ptrs[i]) + UnderFrom(ix, p, i + 1)
  }

  /** The page reached from `x` by `n` parent links. */
  function Ancestor(ix: Index, x: int, n: nat): int {
    if n == 0 then x
    else
      var y := Ancestor(ix, x, n - 1);
      if y in ix.parent then ix.parent[y] else 0
  }

  lemma {:induction false} UnderAncestor(ix: Index, p: int, x: int)
    requires Tree(ix, 0) && p in ix.pages && x in Under(ix, p)
    ensures IsLeaf(ix, x) && Ancestor(ix, x, ix.level[p]) == p
    decreases ix.level[p]
  {
    assert PageOk(ix, p);
    if ix.pages[p].Inner? {
      var i := UnderFromAncestor(ix, p, 0, x);
    }
  }

  lemma {:induction false} UnderFromAncestor(ix: Index, p: int, i: nat, x: int) returns (j: nat)
    requires Tree(ix, 0) && p in ix.pages && ix.pages[p].Inner? && i <= |ix.pages[p].ptrs| && x in UnderFrom(ix, p, i)
    ensures i <= j < |ix.pages[p].ptrs| && 0 < ix.level[p] && IsLeaf(ix, x)
    ensures Ancestor(ix, x, ix.level[p] - 1) == ix.pages[p].ptrs[j] && Ancestor(ix, x, ix.level[p]) == p
    decreases ix.level[p], |ix.pages[p].ptrs| - i
  {
    ChildBelow(ix, p, i);
    if x in Under(ix, ix.pages[p].ptrs[i]) {
      UnderAncestor(ix, ix.pages[p].ptrs[i], x);
      j := i;
    } else {
      j := UnderFromAncestor(ix, p, i + 1, x);
    }
  }

  lemma {:induction false} UnderChild(ix: Index, p: int, i: nat, j: nat)
    requires Tree(ix, 0) && p in ix.pages && ix.pages[p].Inner? && i <= j < |ix.pages[p].ptrs|
    ensures IsChild(ix, p, j) && ChildOk(ix, p, ix.pages[p].ptrs[j])
    ensures Under(ix, ix.pages[p].ptrs[j]) <= UnderFrom(ix, p, i)
    decreases j - i
  {
    ChildBelow(ix, p, i);
    ChildBelow(ix, p, j);
    if i < j {
      UnderChild(ix, p, i + 1, j);
    }
  }

  /** A page at level `n` has a page at every level below it, so levels stay under the page count. */
  lemma LevelSmall(ix: Index, p: int, n: nat)
    requires Tree(ix, 0) && p in ix.pages && ix.level[p] == n
    ensures n < ix.next - 1
  {
    var s := LowerPages(ix, p, n);
    PagesFit(s, ix.next);
  }

  lemma {:induction false} LowerPages(ix: Index, p: int, n: nat) returns (s: set<int>)
    requires Tree(ix, 0) && p in ix.pages && ix.level[p] == n
    ensures |s| == n + 1 && forall x :: x in s ==> 1 <= x < ix.next && x in ix.pages && ix.level[x] <= n
    decreases n
  {
    assert PageOk(ix, p);
    if n == 0 {
      s := {p};
    } else {
      ChildBelow(ix, p, 0);
      var t := LowerPages(ix, ix.pages[p].ptrs[0], n - 1);
      assert p !in t;
      s := t + {p};
    }
  }

  lemma {:induction false} PagesFit(s: set<int>, n: int)
    requires 1 <= n && forall x :: x in s ==> 1 <= x < n
    ensures |s| <= n - 1
    decreases n
  {
    if n == 1 {
      assert forall x :: x !in s;
      assert s == {};
    } else {
      var t := s - {n - 1};
      PagesFit(t, n - 1);
      assert s <= t + {n - 1};
    }
  }

  /** Everything under a page is under the root. */
  lemma {:induction false} UnderRoot(ix: Index, p: int)
    requires Tree(ix, 0) && p in ix.pages
    ensures Under(ix, p) <= Under(ix, ix.root)
    decreases ix.next - ix.level[p]
  {
    LevelSmall(ix, p, ix.level[p]);
    if p != ix.root {
      assert HasParent(ix, p);
      var q := ix.parent[p];
      var i := IndexOf(ix.pages[q].ptrs, p);
      UnderChild(ix, q, 0, i);
      UnderRoot(ix, q);
    }
  }

  /** For any keys: the leaves the tree reaches are exactly the leaves on the chain, all at the same depth. */
  lemma ChainReachesLeaves(ix: Index)
    requires Valid(ix)
    ensures forall x :: x in Under(ix, ix.root) <==> x in ix.chain
    ensures forall x :: x in ix.chain ==> Ancestor(ix, x, ix.level[ix.root]) == ix.root
  {
    forall x
      ensures x in Under(ix, ix.root) <==> x in ix.chain
      ensures x in ix.chain ==> Ancestor(ix, x, ix.level[ix.root]) == ix.root
    {
      if x in ix.chain {
        assert LinkOk(ix, IndexOf(ix.chain, x));
        UnderRoot(ix, x);
      }
      if x in Under(ix, ix.root) {
        UnderAncestor(ix, ix.root, x);
        assert Listed(ix, x);
      }
    }
  }

  function Power(b: nat, n: nat): nat {
    if n == 0 then 1 else b * Power(b, n - 1)
  }

  lemma UnderDisjoint(ix: Index, p: int, i: nat)
    requires Tree(ix, 0) && p in ix.pages && ix.pages[p].Inner? && i < |ix.pages[p].ptrs|
    ensures IsChild(ix, p, i) && ChildOk(ix, p, ix.pages[p].ptrs[i])
    ensures Under(ix, ix.pages[p].ptrs[i]) !! UnderFrom(ix, p, i + 1)
  {
    ChildBelow(ix, p, i);
    forall x | x in Under(ix, ix.pages[p].ptrs[i])
      ensures x !in UnderFrom(ix, p, i + 1)
    {
      UnderAncestor(ix, ix.pages[p].ptrs[i], x);
      if x in UnderFrom(ix, p, i + 1) {
        var j := UnderFromAncestor(ix, p, i + 1, x);
        ChildBelow(ix, p, j);
        assert false;
      }
    }
  }

  lemma {:induction false} ManyLeaves(ix: Index, p: int)
    requires Valid(ix) && p in ix.pages
    ensures p != ix.root ==> Power(ix.order / 2 + 1, ix.level[p]) <= |Under(ix, p)|
    ensures 0 < ix.level[p] ==> 2 * Power(ix.order / 2 + 1, ix.level[p] - 1) <= |Under(ix, p)|
    decreases ix.level[p]
  {
    assert PageOk(ix, p) && SizeOk(ix, p);
    if ix.pages[p].Inner? {
      ManyLeavesFrom(ix, p, 0);
      var m := Power(ix.order / 2 + 1, ix.level[p] - 1);
      MulMono(2, |ix.pages[p].ptrs|, m);
      if p != ix.root {
        MulMono(ix.order / 2 + 1, |ix.pages[p].ptrs|, m);
      }
    }
  }

  lemma MulMono(a: nat, b: nat, m: nat)
    requires a <= b
    ensures a * m <= b * m
  {
  }

  lemma AddUp(a: set<int>, b: set<int>, k: nat, m: nat)
    requires a !! b && m <= |a| && k * m <= |b|
    ensures (k + 1) * m <= |a + b|
  {
    assert |a + b| == |a| + |b|;
    assert (k + 1) * m == k * m + m;
  }

  lemma {:induction false} ManyLeavesFrom(ix: Index, p: int, i: nat)
    requires Valid(ix) && p in ix.pages && ix.pages[p].Inner? && i <= |ix.pages[p].ptrs| && 0 < ix.level[p]
    ensures (|ix.pages[p].ptrs| - i) * Power(ix.order / 2 + 1, ix.level[p] - 1) <= |UnderFrom(ix, p, i)|
    decreases ix.level[p], |ix.pages[p].ptrs| - i
  {
    if i < |ix.pages[p].ptrs| {
      ChildBelow(ix, p, i);
      var c := ix.pages[p].ptrs[i];
      var m := Power(ix.order / 2 + 1, ix.level[p] - 1);
      ManyLeaves(ix, c);
      ManyLeavesFrom(ix, p, i + 1);
      UnderDisjoint(ix, p, i);
      AddUp(Under(ix, c), UnderFrom(ix, p, i + 1), |ix.pages[p].ptrs| - i - 1, m);
    }
  }

  /** The height is logarithmic in the number of leaves: 2 * (order / 2 + 1)^(height - 1) leaves at least. */
  lemma HeightBound(ix: Index)
    requires Valid(ix) && 0 < ix.level[ix.root]
    ensures 2 * Power(ix.order / 2 + 1, ix.level[ix.root] - 1) <= |ix.chain|
  {
    ManyLeaves(ix, ix.root);
    ChainReachesLeaves(ix);
    SetFits(Under(ix, ix.root), ix.chain);
  }

  lemma {:induction false} SetFits(s: set<int>, xs: seq<int>)
    requires forall x :: x in s ==> x in xs
    ensures |s| <= |xs|
    decreases |xs|
  {
    if xs == [] {
      assert forall x :: x !in s;
      assert s == {};
    } else {
      var last := xs[|xs| - 1];
      var t := s - {last};
      forall x | x in t
        ensures x in xs[..|xs| - 1]
      {
        assert xs[IndexOf(xs, x)] == x;
      }
      SetFits(t, xs[..|xs| - 1]);
      assert s <= t + {last};
    }
  }
}
