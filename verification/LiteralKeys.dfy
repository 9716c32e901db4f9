/** The walks of an index for the keys that SQL text gives them: numbers of any kind, or no key at all. */
module LiteralKeys {
  import opened Options
  import opened BTreeNode
  import opened BTreeModel
  import opened BTreeInsert
  import opened BTreeEntries
  import opened BTreeRead
  import opened BTreeShape

  predicate Whole(v: real) {
    v == v.Floor as real
  }

  function Ceiling(v: real): int {
    -((-v).Floor)
  }

  lemma FloorBounds(v: real, k: int)
    ensures v <= k as real <==> Ceiling(v) <= k
    ensures k as real <= v <==> k <= v.Floor
    ensures Whole(v) <==> Ceiling(v) == v.Floor
  {
    var f, g := v.Floor, (-v).Floor;
    assert f as real <= v < f as real + 1.0;
    assert g as real <= -v < g as real + 1.0;
    IntReal(k, f);
    IntReal(-g, k);
    IntReal(f + 1, k);
    IntReal(k, -g - 1);
    if Whole(v) {
      assert -v == (-f) as real;
    }
  }

  lemma IntReal(a: int, b: int)
    ensures a <= b <==> a as real <= b as real
  {
  }

  // ---- The descent ----

  /** Right of the last separator smaller than `v`. */
  function RouteReal(keys: seq<int>, v: real): (i: nat)
    ensures i <= |keys|
  {
    if keys == [] then 0
    else if keys[|keys| - 1] as real < v then |keys|
    else RouteReal(keys[..|keys| - 1], v)
  }

  lemma {:induction false} RouteCeiling(keys: seq<int>, v: real)
    ensures RouteReal(keys, v) == Route(keys, Ceiling(v))
  {
    if keys != [] {
      FloorBounds(v, keys[|keys| - 1]);
      RouteCeiling(keys[..|keys| - 1], v);
    }
  }

  function DescendReal(ix: Index, p: int, v: real): (c: int)
    requires Tree(ix, 0) && p in ix.pages
    ensures IsLeaf(ix, c)
    decreases ix.level[p]
  {
    if ix.pages[p].Leaf? then p
    else
      RouteCeiling(ix.pages[p].keys, v);
      RouteChild(ix, 0, p, Ceiling(v));
      DescendReal(ix, ix.pages[p].ptrs[RouteReal(ix.pages[p].keys, v)], v)
  }

  lemma {:induction false} DescendCeiling(ix: Index, p: int, v: real)
    requires Tree(ix, 0) && p in ix.pages
    ensures var path := Descend(ix, p, Ceiling(v)); DescendReal(ix, p, v) == path[|path| - 1]
    decreases ix.level[p]
  {
    if ix.pages[p].Inner? {
      RouteCeiling(ix.pages[p].keys, v);
      RouteChild(ix, 0, p, Ceiling(v));
      DescendCeiling(ix, ix.pages[p].ptrs[RouteReal(ix.pages[p].keys, v)], v);
    }
  }

  // ---- Search for a number ----

  function LookupReal(n: Node, v: real, i: nat): seq<Rid>
    requires n.Leaf? && |n.rids| == |n.keys| && i <= |n.keys|
    decreases |n.keys| - i
  {
    if i == |n.keys| || v < n.keys[i] as real then []
    else (if v == n.keys[i] as real then [n.rids[i]] else []) + LookupReal(n, v, i + 1)
  }

  lemma {:induction false} LookupWhole(n: Node, v: real, i: nat)
    requires n.Leaf? && |n.rids| == |n.keys| && i <= |n.keys|
    ensures LookupReal(n, v, i) == if Whole(v) then Lookup(n, v.Floor, i) else []
    decreases |n.keys| - i
  {
    if i < |n.keys| {
      FloorBounds(v, n.keys[i]);
      LookupWhole(n, v, i + 1);
    }
  }

  predicate PassedReal(n: Node, v: real) {
    n.keys != [] && n.keys[|n.keys| - 1] as real > v
  }

  function SearchRealFrom(ix: Index, i: nat, v: real): seq<Rid>
    requires Walkable(ix) && i < |ix.chain|
    decreases |ix.chain| - i
  {
    var n := ChainLeaf(ix, i);
    LookupReal(n, v, 0) + if PassedReal(n, v) || i + 1 == |ix.chain| then [] else SearchRealFrom(ix, i + 1, v)
  }

  function SearchReal(ix: Index, v: real): seq<Rid>
    requires Tree(ix, 0) && Chained(ix)
  {
    SearchRealFrom(ix, Position(ix, DescendReal(ix, ix.root, v)), v)
  }

  lemma {:induction false} SearchFromWhole(ix: Index, i: nat, v: real)
    requires Walkable(ix) && i < |ix.chain|
    ensures SearchRealFrom(ix, i, v) == if Whole(v) then SearchFrom(ix, i, v.Floor) else []
    decreases |ix.chain| - i
  {
    var n := ChainLeaf(ix, i);
    LookupWhole(n, v, 0);
    if n.keys != [] {
      FloorBounds(v, n.keys[|n.keys| - 1]);
    }
    if i + 1 < |ix.chain| {
      SearchFromWhole(ix, i + 1, v);
    }
  }

  /** Searching for a number finds what its integer has, and nothing when it is not whole. */
  lemma SearchWhole(ix: Index, v: real)
    requires Tree(ix, 0) && Chained(ix)
    ensures SearchReal(ix, v) == if Whole(v) then Search(ix, v.Floor) else []
  {
    DescendCeiling(ix, ix.root, v);
    FloorBounds(v, 0);
    SearchFromWhole(ix, Position(ix, DescendReal(ix, ix.root, v)), v);
  }

  // ---- Scan between numbers ----

  function ScanLeafReal(n: Node, lo: Option<real>, hi: Option<real>, i: nat): (seq<Rid>, bool)
    requires n.Leaf? && |n.rids| == |n.keys| && i <= |n.keys|
    decreases |n.keys| - i
  {
    if i == |n.keys| then ([], false)
    else if lo.Some? && n.keys[i] as real < lo.value then ScanLeafReal(n, lo, hi, i + 1)
    else if hi.Some? && n.keys[i] as real > hi.value then ([], true)
    else
      var (rest, stop) := ScanLeafReal(n, lo, hi, i + 1);
      ([n.rids[i]] + rest, stop)
  }

  function CeilingOf(v: Option<real>): Option<int> {
    if v.None? then None else Some(Ceiling(v.value))
  }

  function FloorOf(v: Option<real>): Option<int> {
    if v.None? then None else Some(v.value.Floor)
  }

  lemma {:induction false} ScanLeafWhole(n: Node, lo: Option<real>, hi: Option<real>, i: nat)
    requires n.Leaf? && |n.rids| == |n.keys| && i <= |n.keys|
    ensures ScanLeafReal(n, lo, hi, i) == ScanLeaf(n, CeilingOf(lo), FloorOf(hi), i)
    decreases |n.keys| - i
  {
    if i < |n.keys| {
      if lo.Some? {
        FloorBounds(lo.value, n.keys[i]);
      }
      if hi.Some? {
        FloorBounds(hi.value, n.keys[i]);
      }
      ScanLeafWhole(n, lo, hi, i + 1);
    }
  }

  function ScanRealFrom(ix: Index, i: nat, lo: Option<real>, hi: Option<real>): seq<Rid>
    requires Walkable(ix) && i < |ix.chain|
    decreases |ix.chain| - i
  {
    var (rids, stop) := ScanLeafReal(ChainLeaf(ix, i), lo, hi, 0);
    if stop || i + 1 == |ix.chain| then rids else rids + ScanRealFrom(ix, i + 1, lo, hi)
  }

  function RangeScanReal(ix: Index, lo: Option<real>, hi: Option<real>): seq<Rid>
    requires Tree(ix, 0) && Chained(ix)
  {
    var c := if lo.Some? then DescendReal(ix, ix.root, lo.value) else FirstLeaf(ix, ix.root);
    ScanRealFrom(ix, Position(ix, c), lo, hi)
  }

  lemma {:induction false} ScanFromWhole(ix: Index, i: nat, lo: Option<real>, hi: Option<real>)
    requires Walkable(ix) && i < |ix.chain|
    ensures ScanRealFrom(ix, i, lo, hi) == ScanFrom(ix, i, CeilingOf(lo), FloorOf(hi))
    decreases |ix.chain| - i
  {
    ScanLeafWhole(ChainLeaf(ix, i), lo, hi, 0);
    if i + 1 < |ix.chain| {
      ScanFromWhole(ix, i + 1, lo, hi);
    }
  }

  /** Scanning between two numbers is scanning between the integers just inside them. */
  lemma RangeScanWhole(ix: Index, lo: Option<real>, hi: Option<real>)
    requires Tree(ix, 0) && Chained(ix)
    ensures RangeScanReal(ix, lo, hi) == RangeScan(ix, CeilingOf(lo), FloorOf(hi))
  {
    if lo.Some? {
      DescendCeiling(ix, ix.root, lo.value);
    }
    ScanFromWhole(ix, Position(ix, if lo.Some? then DescendReal(ix, ix.root, lo.value) else FirstLeaf(ix, ix.root)), lo, hi);
  }

  // ---- Search for no key ----

  /** Comparing nothing with a key raises, so the walk gets by only where there is no key to compare with. */
  function SearchNothingFrom(ix: Index, i: nat): Option<seq<Rid>>
    requires Walkable(ix) && i < |ix.chain|
    decreases |ix.chain| - i
  {
    if ChainLeaf(ix, i).keys != [] then None
    else if i + 1 == |ix.chain| then Some([])
    else SearchNothingFrom(ix, i + 1)
  }

  function DescendNothing(ix: Index, p: int): (c: Option<int>)
    requires Tree(ix, 0) && p in ix.pages
    ensures c.Some? ==> IsLeaf(ix, c.value)
    decreases ix.level[p]
  {
    if ix.pages[p].Leaf? then Some(p)
    else if ix.pages[p].keys != [] then None
    else
      FirstChild(ix, p);
      DescendNothing(ix, ix.pages[p].ptrs[0])
  }

  function SearchNothing(ix: Index): Option<seq<Rid>>
    requires Tree(ix, 0) && Chained(ix)
  {
    var c := DescendNothing(ix, ix.root);
    if c.None? then None else SearchNothingFrom(ix, Position(ix, c.value))
  }

  /** An index whose root is a leaf without keys: never filled, or emptied before it split. */
  predicate Hollow(ix: Index) {
    ix.root in ix.pages && ix.pages[ix.root].Leaf? && ix.pages[ix.root].keys == []
  }

  lemma RootLeafAlone(ix: Index)
    requires BTreeModel.Valid(ix) && ix.pages[ix.root].Leaf?
    ensures ix.chain == [ix.root]
  {
    ChainReachesLeaves(ix);
    assert Under(ix, ix.root) == {ix.root};
    forall i | 0 <= i < |ix.chain|
      ensures ix.chain[i] == ix.root
    {
      assert ix.chain[i] in Under(ix, ix.root);
    }
    var last := |ix.chain| - 1;
    assert ix.chain[0] == ix.root && ix.chain[last] == ix.root;
  }

  /** Searching for no key answers, and then with nothing, exactly on a hollow index. */
  lemma SearchNothingIff(ix: Index)
    requires BTreeModel.Valid(ix)
    ensures SearchNothing(ix) == if Hollow(ix) then Some([]) else None
    ensures Hollow(ix) ==> Entries(ix) == []
  {
    if ix.pages[ix.root].Leaf? {
      RootLeafAlone(ix);
      var n := ChainLeaf(ix, 0);
      TailStep(ix, 0);
      EntriesCut(ix, 0);
      HeadStep(ix, 0);
    } else {
      assert SizeOk(ix, ix.root);
    }
  }
}
