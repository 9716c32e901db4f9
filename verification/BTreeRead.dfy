/** Searches, range scans and deletes: walks along the leaf chain, and what they find in an ordered tree. */
module BTreeRead {
  import opened Options
  import opened BTreeNode
  import opened BTreeModel
  import opened BTreeInsert
  import opened BTreeInsertOrder
  import opened BTreeEntries

  // ---- The reference: filtering the entries ----

  predicate InRange(k: int, lo: Option<int>, hi: Option<int>) {
    (lo.Some? ==> lo.value <= k) && (hi.Some? ==> k <= hi.value)
  }

  /** The rids of the entries with a key in [lo, hi], in entry order; None leaves a side open. */
  function RidsIn(es: seq<Entry>, lo: Option<int>, hi: Option<int>): seq<Rid> {
    if es == [] then []
    else (if InRange(es[0].0, lo, hi) then [es[0].1] else []) + RidsIn(es[1..], lo, hi)
  }

  lemma {:induction false} RidsConcat(a: seq<Entry>, b: seq<Entry>, lo: Option<int>, hi: Option<int>)
    ensures RidsIn(a + b, lo, hi) == RidsIn(a, lo, hi) + RidsIn(b, lo, hi)
  {
    if a == [] {
      assert a + b == b;
    } else {
      assert (a + b)[0] == a[0] && (a + b)[1..] == a[1..] + b;
      RidsConcat(a[1..], b, lo, hi);
      var first := if InRange(a[0].0, lo, hi) then [a[0].1] else [];
      assert first + (RidsIn(a[1..], lo, hi) + RidsIn(b, lo, hi)) == (first + RidsIn(a[1..], lo, hi)) + RidsIn(b, lo, hi);
    }
  }

  lemma {:induction false} RidsNone(es: seq<Entry>, lo: Option<int>, hi: Option<int>)
    requires forall i :: 0 <= i < |es| ==> !InRange(es[i].0, lo, hi)
    ensures RidsIn(es, lo, hi) == []
  {
    if es != [] {
      RidsNone(es[1..], lo, hi);
    }
  }

  // ---- The walks ----

  /** The rids under `key` in one leaf, stopping at the first larger key. */
  function Lookup(n: Node, key: int, i: nat): seq<Rid>
    requires n.Leaf? && |n.rids| == |n.keys| && i <= |n.keys|
    decreases |n.keys| - i
  {
    if i == |n.keys| || key < n.keys[i] then []
    else (if key == n.keys[i] then [n.rids[i]] else []) + Lookup(n, key, i + 1)
  }

  predicate Passed(n: Node, key: int) {
    n.keys != [] && n.keys[|n.keys| - 1] > key
  }

  ghost predicate Walkable(ix: Index) {
    Nodes(ix) && Chained(ix)
  }

  function ChainLeaf(ix: Index, i: nat): (n: Node)
    requires Walkable(ix) && i < |ix.chain|
    ensures n.Leaf? && |n.rids| == |n.keys| && Sorted(n.keys)
    ensures LinkOk(ix, i) && n == ix.pages[ix.chain[i]]
  {
    assert LinkOk(ix, i);
    assert PageOk(ix, ix.chain[i]);
    ix.pages[ix.chain[i]]
  }

  function SearchFrom(ix: Index, i: nat, key: int): seq<Rid>
    requires Walkable(ix) && i < |ix.chain|
    decreases |ix.chain| - i
  {
    var n := ChainLeaf(ix, i);
    Lookup(n, key, 0) + if Passed(n, key) || i + 1 == |ix.chain| then [] else SearchFrom(ix, i + 1, key)
  }

  function Position(ix: Index, c: int): (i: nat)
    requires Chained(ix) && IsLeaf(ix, c)
    ensures i < |ix.chain| && ix.chain[i] == c
  {
    LeafLinks(ix, c);
    IndexOf(ix.chain, c)
  }

  function Search(ix: Index, key: int): seq<Rid>
    requires Tree(ix, 0) && Chained(ix)
  {
    SearchFrom(ix, Position(ix, LeafFor(ix, key)), key)
  }

  /** One leaf of a range scan from slot `i`: the rids taken, and whether a key above the range ended it. */
  function ScanLeaf(n: Node, lo: Option<int>, hi: Option<int>, i: nat): (seq<Rid>, bool)
    requires n.Leaf? && |n.rids| == |n.keys| && i <= |n.keys|
    decreases |n.keys| - i
  {
    if i == |n.keys| then ([], false)
    else if lo.Some? && n.keys[i] < lo.value then ScanLeaf(n, lo, hi, i + 1)
    else if hi.Some? && n.keys[i] > hi.value then ([], true)
    else
      var (rest, stop) := ScanLeaf(n, lo, hi, i + 1);
      ([n.rids[i]] + rest, stop)
  }

  function ScanFrom(ix: Index, i: nat, lo: Option<int>, hi: Option<int>): seq<Rid>
    requires Walkable(ix) && i < |ix.chain|
    decreases |ix.chain| - i
  {
    var (rids, stop) := ScanLeaf(ChainLeaf(ix, i), lo, hi, 0);
    if stop || i + 1 == |ix.chain| then rids else rids + ScanFrom(ix, i + 1, lo, hi)
  }

  // ---- The leftmost leaf ----

  lemma FirstChild(ix: Index, p: int)
    requires Domain(ix) && Nodes(ix) && Down(ix) && p in ix.pages && ix.pages[p].Inner?
    ensures PageOk(ix, p) && IsChild(ix, p, 0) && ChildOk(ix, p, ix.pages[p].ptrs[0])
  {
    assert PageOk(ix, p);
    assert IsChild(ix, p, 0);
  }

  function FirstLeaf(ix: Index, p: int): (c: int)
    requires Domain(ix) && Nodes(ix) && Down(ix) && p in ix.pages
    ensures IsLeaf(ix, c)
    decreases ix.level[p]
  {
    if ix.pages[p].Leaf? then p
    else
      FirstChild(ix, p);
      FirstLeaf(ix, ix.pages[p].ptrs[0])
  }

  function RangeScan(ix: Index, lo: Option<int>, hi: Option<int>): seq<Rid>
    requires Tree(ix, 0) && Chained(ix)
  {
    var c := if lo.Some? then LeafFor(ix, lo.value) else FirstLeaf(ix, ix.root);
    ScanFrom(ix, Position(ix, c), lo, hi)
  }

  // ---- What the walks see of the entries ----

  /** The entries from the `i`th leaf on. */
  function Tail(ix: Index, i: nat): seq<Entry>
    requires Walkable(ix) && i <= |ix.chain|
  {
    ChainLeaves(ix);
    EntriesOf(ix.pages, ix.chain[i..])
  }

  function Head(ix: Index, i: nat): seq<Entry>
    requires Walkable(ix) && i <= |ix.chain|
  {
    ChainLeaves(ix);
    EntriesOf(ix.pages, ix.chain[..i])
  }

  lemma EntriesCut(ix: Index, i: nat)
    requires Walkable(ix) && i <= |ix.chain|
    ensures Entries(ix) == Head(ix, i) + Tail(ix, i)
  {
    ChainLeaves(ix);
    assert ix.chain == ix.chain[..i] + ix.chain[i..];
    EntriesConcat(ix.pages, ix.chain[..i], ix.chain[i..]);
  }

  lemma TailStep(ix: Index, i: nat)
    requires Walkable(ix) && i < |ix.chain|
    ensures Tail(ix, i) == Pairs(ChainLeaf(ix, i)) + Tail(ix, i + 1)
    ensures Tail(ix, |ix.chain|) == []
  {
    ChainLeaves(ix);
    assert ix.chain[i..][1..] == ix.chain[i + 1..];
  }

  lemma HeadStep(ix: Index, i: nat)
    requires Walkable(ix) && i < |ix.chain|
    ensures Head(ix, i + 1) == Head(ix, i) + Pairs(ChainLeaf(ix, i))
    ensures Head(ix, 0) == []
  {
    ChainLeaves(ix);
    assert ix.chain[..i + 1] == ix.chain[..i] + [ix.chain[i]];
    EntriesConcat(ix.pages, ix.chain[..i], [ix.chain[i]]);
    assert [ix.chain[i]][1..] == [];
    assert EntriesOf(ix.pages, []) == [];
    assert EntriesOf(ix.pages, [ix.chain[i]]) == Pairs(ix.pages[ix.chain[i]]);
  }

  ghost predicate AllBelow(es: seq<Entry>, b: Bound) {
    forall i :: 0 <= i < |es| ==> AtMost(At(es[i].0), b)
  }

  ghost predicate AllAbove(es: seq<Entry>, b: Bound) {
    forall i :: 0 <= i < |es| ==> AtMost(b, At(es[i].0))
  }

  lemma LeafWithin(ix: Index, i: nat)
    requires Ordered(ix) && i < |ix.chain|
    ensures ix.chain[i] in ix.lo && ix.chain[i] in ix.hi
    ensures Below(ix.lo[ix.chain[i]], ix.hi[ix.chain[i]])
    ensures AllAbove(Pairs(ChainLeaf(ix, i)), ix.lo[ix.chain[i]])
    ensures AllBelow(Pairs(ChainLeaf(ix, i)), ix.hi[ix.chain[i]])
  {
    var n := ChainLeaf(ix, i);
    assert InInterval(ix, ix.chain[i]);
  }

  /** Everything ahead of a leaf is at most its lower bound. */
  lemma {:induction false} HeadBelow(ix: Index, i: nat)
    requires Ordered(ix) && i < |ix.chain|
    ensures ix.chain[i] in ix.lo && AllBelow(Head(ix, i), ix.lo[ix.chain[i]])
  {
    LeafWithin(ix, i);
    HeadStep(ix, i);
    if 0 < i {
      LeafWithin(ix, i - 1);
      HeadBelow(ix, i - 1);
      HeadStep(ix, i - 1);
      assert Meets(ix, i - 1);
    }
  }

  /** Everything after a leaf is at least its upper bound. */
  lemma {:induction false} TailAbove(ix: Index, i: nat)
    requires Ordered(ix) && i < |ix.chain|
    ensures ix.chain[i] in ix.hi && AllAbove(Tail(ix, i + 1), ix.hi[ix.chain[i]])
    decreases |ix.chain| - i
  {
    LeafWithin(ix, i);
    TailStep(ix, i);
    if i + 1 < |ix.chain| {
      LeafWithin(ix, i + 1);
      TailAbove(ix, i + 1);
      TailStep(ix, i + 1);
      assert Meets(ix, i);
    }
  }

  // ---- Search ----

  lemma {:induction false} LookupExact(n: Node, key: int, i: nat)
    requires n.Leaf? && |n.rids| == |n.keys| && Sorted(n.keys) && i <= |n.keys|
    ensures Lookup(n, key, i) == RidsIn(Pairs(n)[i..], Some(key), Some(key))
    decreases |n.keys| - i
  {
    var es := Pairs(n)[i..];
    if i < |n.keys| {
      if key < n.keys[i] {
        RidsNone(es, Some(key), Some(key));
      } else {
        assert es[1..] == Pairs(n)[i + 1..];
        LookupExact(n, key, i + 1);
      }
    }
  }

  lemma {:induction false} SearchTail(ix: Index, i: nat, key: int)
    requires Ordered(ix) && i < |ix.chain|
    ensures SearchFrom(ix, i, key) == RidsIn(Tail(ix, i), Some(key), Some(key))
    decreases |ix.chain| - i
  {
    var n := ChainLeaf(ix, i);
    TailStep(ix, i);
    LookupExact(n, key, 0);
    assert Pairs(n)[0..] == Pairs(n);
    RidsConcat(Pairs(n), Tail(ix, i + 1), Some(key), Some(key));
    if Passed(n, key) {
      LeafWithin(ix, i);
      TailAbove(ix, i);
      assert Pairs(n)[|n.keys| - 1].0 == n.keys[|n.keys| - 1];
      RidsNone(Tail(ix, i + 1), Some(key), Some(key));
    } else if i + 1 < |ix.chain| {
      SearchTail(ix, i + 1, key);
    }
  }

  /** In an ordered tree, search finds every rid under the key, wherever its copies lie, and nothing else. */
  lemma SearchExact(ix: Index, key: int)
    requires Ordered(ix)
    ensures Search(ix, key) == RidsIn(Entries(ix), Some(key), Some(key))
  {
    LeafForHolds(ix, key);
    var i := Position(ix, LeafFor(ix, key));
    SearchTail(ix, i, key);
    HeadBelow(ix, i);
    RidsNone(Head(ix, i), Some(key), Some(key));
    EntriesCut(ix, i);
    RidsConcat(Head(ix, i), Tail(ix, i), Some(key), Some(key));
  }

  // ---- Range scan ----

  lemma {:induction false} ScanLeafExact(n: Node, lo: Option<int>, hi: Option<int>, i: nat)
    requires n.Leaf? && |n.rids| == |n.keys| && Sorted(n.keys) && i <= |n.keys|
    ensures ScanLeaf(n, lo, hi, i).0 == RidsIn(Pairs(n)[i..], lo, hi)
    ensures ScanLeaf(n, lo, hi, i).1 ==> hi.Some? && i < |n.keys| && hi.value < n.keys[|n.keys| - 1]
    decreases |n.keys| - i
  {
    var es := Pairs(n)[i..];
    if i < |n.keys| {
      assert es[1..] == Pairs(n)[i + 1..];
      ScanLeafExact(n, lo, hi, i + 1);
      if hi.Some? && n.keys[i] > hi.value {
        RidsNone(es, lo, hi);
      }
    }
  }

  lemma {:induction false} ScanTail(ix: Index, i: nat, lo: Option<int>, hi: Option<int>)
    requires Walkable(ix) && i < |ix.chain| && (hi.Some? ==> Ordered(ix))
    ensures ScanFrom(ix, i, lo, hi) == RidsIn(Tail(ix, i), lo, hi)
    decreases |ix.chain| - i
  {
    var n := ChainLeaf(ix, i);
    TailStep(ix, i);
    ScanLeafExact(n, lo, hi, 0);
    assert Pairs(n)[0..] == Pairs(n);
    RidsConcat(Pairs(n), Tail(ix, i + 1), lo, hi);
    if ScanLeaf(n, lo, hi, 0).1 {
      LeafWithin(ix, i);
      TailAbove(ix, i);
      assert Pairs(n)[|n.keys| - 1].0 == n.keys[|n.keys| - 1];
      RidsNone(Tail(ix, i + 1), lo, hi);
    } else if i + 1 < |ix.chain| {
      ScanTail(ix, i + 1, lo, hi);
    }
  }

  /** Page 1 is where the leftmost descent ends. */
  ghost predicate Leftmost(ix: Index) {
    Domain(ix) && Nodes(ix) && Down(ix) && FirstLeaf(ix, ix.root) == 1
  }

  /** A range scan takes exactly the entries in range, for either side open and for empty ranges. */
  lemma RangeExact(ix: Index, lo: Option<int>, hi: Option<int>)
    requires Ordered(ix) && Leftmost(ix)
    ensures RangeScan(ix, lo, hi) == RidsIn(Entries(ix), lo, hi)
  {
    var c := if lo.Some? then LeafFor(ix, lo.value) else FirstLeaf(ix, ix.root);
    var i := Position(ix, c);
    ScanTail(ix, i, lo, hi);
    EntriesCut(ix, i);
    RidsConcat(Head(ix, i), Tail(ix, i), lo, hi);
    if lo.Some? {
      LeafForHolds(ix, lo.value);
      HeadBelow(ix, i);
      RidsNone(Head(ix, i), lo, hi);
    } else {
      assert i == 0;
      HeadStep(ix, 0);
    }
  }

  /** Without any condition on the keys, the open range scan returns every entry. */
  lemma FullScan(ix: Index)
    requires Tree(ix, 0) && Chained(ix) && Leftmost(ix)
    ensures RangeScan(ix, None, None) == RidsIn(Entries(ix), None, None)
  {
    ScanTail(ix, 0, None, None);
    EntriesCut(ix, 0);
    HeadStep(ix, 0);
    assert Position(ix, 1) == 0;
  }

  // ---- The entries of an ordered tree are sorted ----

  ghost predicate SortedEntries(es: seq<Entry>) {
    forall i, j :: 0 <= i < j < |es| ==> es[i].0 <= es[j].0
  }

  lemma {:induction false} HeadSorted(ix: Index, i: nat)
    requires Ordered(ix) && i <= |ix.chain|
    ensures SortedEntries(Head(ix, i))
  {
    if 0 < i {
      HeadSorted(ix, i - 1);
      HeadBelow(ix, i - 1);
      LeafWithin(ix, i - 1);
      HeadStep(ix, i - 1);
      SortedAround(Head(ix, i - 1), Pairs(ChainLeaf(ix, i - 1)), ix.lo[ix.chain[i - 1]]);
    } else {
      ChainLeaves(ix);
    }
  }

  lemma SortedAround(a: seq<Entry>, b: seq<Entry>, mid: Bound)
    requires SortedEntries(a) && SortedEntries(b) && AllBelow(a, mid) && AllAbove(b, mid)
    ensures SortedEntries(a + b)
  {
    forall i, j | 0 <= i < |a| && 0 <= j < |b|
      ensures a[i].0 <= b[j].0
    {
      assert AtMost(At(a[i].0), mid) && AtMost(mid, At(b[j].0));
    }
  }

  /** An ordered tree keeps its entries in key order along the chain. */
  lemma EntriesSorted(ix: Index)
    requires Ordered(ix)
    ensures SortedEntries(Entries(ix))
  {
    HeadSorted(ix, |ix.chain|);
    EntriesCut(ix, |ix.chain|);
    TailStep(ix, 0);
  }
}
