/** Whole sessions: any run of inserts and deletes on a new index. */
module BTreeRuns {
  import opened Options
  import opened BTreeNode
  import opened BTreeModel
  import opened BTreeStructure
  import opened BTreeInsert
  import opened BTreeInsertOrder
  import opened BTreeEntries
  import opened BTreeRead
  import opened BTreeDelete
  import opened BTreeLeftmost

  datatype Op = Ins(key: int, rid: Rid) | Del(key: int, rid: Rid)

  function New(order: int): Index {
    Index(order, 1, 2, map[1 := Leaf([], [], -1, -1)], map[1 := 0], map[1 := 0], map[1 := NegInf], map[1 := PosInf], [1])
  }

  lemma NewOk(order: int)
    requires 2 <= order
    ensures Valid(New(order)) && Leftmost(New(order)) && Ordered(New(order)) && Entries(New(order)) == []
  {
    var ix := New(order);
    assert PageOk(ix, 1);
    assert LinkOk(ix, 0);
    assert InInterval(ix, 1);
    assert EntriesOf(ix.pages, []) == [];
    assert ix.chain[1..] == [];
  }

  function Apply(ix: Index, op: Op): Index
    requires Valid(ix)
  {
    match op
    case Ins(key, rid) => Insert(ix, key, rid)
    case Del(key, rid) => Delete(ix, key, rid).0
  }

  lemma ApplyOk(ix: Index, op: Op)
    requires Valid(ix) && Leftmost(ix)
    ensures Valid(Apply(ix, op)) && Leftmost(Apply(ix, op))
    ensures Apply(ix, op).order == ix.order
  {
    match op
    case Ins(key, rid) =>
      InsertValid(ix, key, rid);
      InsertLeftmost(ix, key, rid);
      InsertOrder(ix, key, rid);
    case Del(key, rid) =>
      var j := DeleteEntries(ix, key, rid);
      DeleteLeftmost(ix, key, rid);
  }

  lemma {:induction false} HangOrder(ix: Index, path: seq<int>, r: int, sep: int)
    requires Pending(ix, path, r)
    ensures Hang(ix, path, r, sep).order == ix.order
    decreases |path|
  {
    if 2 <= |path| && Full(ix, ParentOf(path)) {
      ParentReady(ix, path, r);
      SpiltPending(ix, path, r, sep);
      HangOrder(Spilt(ix, path, r, sep), path[..|path| - 1], ix.next, Goes(ix, path, r, sep));
    }
  }

  lemma InsertOrder(ix: Index, key: int, rid: Rid)
    requires Valid(ix)
    ensures Insert(ix, key, rid).order == ix.order
  {
    if Full(ix, LeafFor(ix, key)) {
      SplitPending(ix, key, rid);
      HangOrder(SplitLeaf(WithEntry(ix, key, rid), LeafFor(ix, key)), Descend(ix, ix.root, key), ix.next, SplitSep(ix, key, rid));
    }
  }

  /** The index after `ops`, from a new one. */
  function Run(order: int, ops: seq<Op>): (ix: Index)
    requires 2 <= order
    ensures Valid(ix) && Leftmost(ix) && ix.order == order
  {
    NewOk(order);
    if ops == [] then New(order)
    else
      var before := Run(order, ops[..|ops| - 1]);
      ApplyOk(before, ops[|ops| - 1]);
      Apply(before, ops[|ops| - 1])
  }

  // ---- Conservation, with no condition on the keys ----

  /** What the answers of the deletes say should be in the index. */
  function Kept(order: int, ops: seq<Op>): multiset<Entry>
    requires 2 <= order
  {
    if ops == [] then multiset{}
    else
      var kept := Kept(order, ops[..|ops| - 1]);
      match ops[|ops| - 1]
      case Ins(key, rid) => kept + multiset{(key, rid)}
      case Del(key, rid) => if Delete(Run(order, ops[..|ops| - 1]), key, rid).1 then kept - multiset{(key, rid)} else kept
  }

  lemma InsertBag<T>(s: seq<T>, j: nat, x: T)
    requires j <= |s|
    ensures multiset(InsertAt(s, j, x)) == multiset(s) + multiset{x}
  {
    assert s == s[..j] + s[j..];
  }

  lemma RemoveBag<T>(s: seq<T>, j: nat)
    requires j < |s|
    ensures multiset(RemoveAt(s, j)) == multiset(s) - multiset{s[j]}
    ensures multiset(s) == multiset(RemoveAt(s, j)) + multiset{s[j]}
  {
    assert s == s[..j] + [s[j]] + s[j + 1..];
  }

  lemma {:induction false} RunConserves(order: int, ops: seq<Op>)
    requires 2 <= order
    ensures multiset(Entries(Run(order, ops))) == Kept(order, ops)
  {
    if ops == [] {
      NewOk(order);
    } else {
      var before := Run(order, ops[..|ops| - 1]);
      RunConserves(order, ops[..|ops| - 1]);
      match ops[|ops| - 1]
      case Ins(key, rid) =>
        var j := InsertEntries(before, key, rid);
        InsertBag(Entries(before), j, (key, rid));
      case Del(key, rid) =>
        var j := DeleteEntries(before, key, rid);
        if Delete(before, key, rid).1 {
          RemoveBag(Entries(before), j);
        }
    }
  }

  function Rids(es: seq<Entry>): seq<Rid> {
    seq(|es|, i requires 0 <= i < |es| => es[i].1)
  }

  lemma {:induction false} AllRids(es: seq<Entry>)
    ensures RidsIn(es, None, None) == Rids(es)
  {
    if es != [] {
      AllRids(es[1..]);
      assert Rids(es) == [es[0].1] + Rids(es[1..]);
    }
  }

  /**
   With no condition on the keys: after any run the open range scan returns the rids of exactly the inserted
   entries minus those whose delete answered true.
   */
  lemma RunScansAll(order: int, ops: seq<Op>)
    requires 2 <= order
    ensures var ix := Run(order, ops);
      RangeScan(ix, None, None) == Rids(Entries(ix)) && multiset(Entries(ix)) == Kept(order, ops)
  {
    var ix := Run(order, ops);
    FullScan(ix);
    AllRids(Entries(ix));
    RunConserves(order, ops);
  }

  // ---- Runs that meet the side conditions ----

  /** The entries a plain bag would hold. */
  function Live(ops: seq<Op>): multiset<Entry> {
    if ops == [] then multiset{}
    else
      match ops[|ops| - 1]
      case Ins(key, rid) => Live(ops[..|ops| - 1]) + multiset{(key, rid)}
      case Del(key, rid) => Live(ops[..|ops| - 1]) - multiset{(key, rid)}
  }

  /** How many of them have key `k`. */
  function LiveCopies(ops: seq<Op>, k: int): int {
    if ops == [] then 0
    else
      var before := ops[..|ops| - 1];
      match ops[|ops| - 1]
      case Ins(key, rid) => LiveCopies(before, k) + if key == k then 1 else 0
      case Del(key, rid) => LiveCopies(before, k) - if key == k && (key, rid) in Live(before) then 1 else 0
  }

  /** Condition (a): at no time has a key more than half a page of live copies. */
  ghost predicate FewCopies(order: int, ops: seq<Op>) {
    forall n, k :: 0 <= n <= |ops| ==> LiveCopies(ops[..n], k) <= order / 2
  }

  /** Condition (b): the inserted keys are all non-negative, or all non-zero. */
  ghost predicate ZeroSafe(ops: seq<Op>) {
    || (forall i :: 0 <= i < |ops| && ops[i].Ins? ==> 0 <= ops[i].key)
    || (forall i :: 0 <= i < |ops| && ops[i].Ins? ==> ops[i].key != 0)
  }

  function Copies(es: seq<Entry>, k: int): nat {
    if es == [] then 0 else (if es[0].0 == k then 1 else 0) + Copies(es[1..], k)
  }

  lemma {:induction false} CopiesConcat(a: seq<Entry>, b: seq<Entry>, k: int)
    ensures Copies(a + b, k) == Copies(a, k) + Copies(b, k)
  {
    if a == [] {
      assert a + b == b;
    } else {
      assert (a + b)[1..] == a[1..] + b;
      CopiesConcat(a[1..], b, k);
    }
  }

  lemma CopiesInsert(es: seq<Entry>, j: nat, e: Entry, k: int)
    requires j <= |es|
    ensures Copies(InsertAt(es, j, e), k) == Copies(es, k) + if e.0 == k then 1 else 0
  {
    assert es == es[..j] + es[j..];
    CopiesConcat(es[..j], es[j..], k);
    CopiesConcat(es[..j] + [e], es[j..], k);
    CopiesConcat(es[..j], [e], k);
  }

  lemma CopiesRemove(es: seq<Entry>, j: nat, k: int)
    requires j < |es|
    ensures Copies(RemoveAt(es, j), k) == Copies(es, k) - if es[j].0 == k then 1 else 0
  {
    CopiesInsert(RemoveAt(es, j), j, es[j], k);
    assert InsertAt(RemoveAt(es, j), j, es[j]) == es;
  }

  lemma {:induction false} CopiesAll(es: seq<Entry>, k: int)
    requires forall i :: 0 <= i < |es| ==> es[i].0 == k
    ensures Copies(es, k) == |es|
  {
    if es != [] {
      CopiesAll(es[1..], k);
    }
  }

  /** A stretch of equal keys inside a sequence is counted in full. */
  lemma CopiesStretch(es: seq<Entry>, a: nat, b: nat, k: int)
    requires a <= b <= |es| && forall i :: a <= i < b ==> es[i].0 == k
    ensures b - a <= Copies(es, k)
  {
    assert es == es[..a] + (es[a..b] + es[b..]);
    CopiesConcat(es[..a], es[a..b] + es[b..], k);
    CopiesConcat(es[a..b], es[b..], k);
    CopiesAll(es[a..b], k);
  }

  // ---- Few copies make every separator strict ----

  ghost predicate AtMostHalf(ix: Index) {
    Walkable(ix) && forall k :: Copies(Entries(ix), k) <= ix.order / 2
  }

  /** The entries right after the leaf insert are already those after the whole insert. */
  lemma WithEntryFinal(ix: Index, key: int, rid: Rid)
    requires Valid(ix)
    ensures Walkable(WithEntry(ix, key, rid)) && Valid(Insert(ix, key, rid))
    ensures Entries(WithEntry(ix, key, rid)) == Entries(Insert(ix, key, rid))
  {
    WithEntryOk(ix, key, rid);
    InsertValid(ix, key, rid);
    var c := LeafFor(ix, key);
    if Full(ix, c) {
      SplitPending(ix, key, rid);
      SplitLeafEntries(WithEntry(ix, key, rid), c);
      HangEntries(SplitLeaf(WithEntry(ix, key, rid), c), Descend(ix, ix.root, key), ix.next, SplitSep(ix, key, rid));
    }
  }

  /** The full leaf's keys up to the middle, or from the middle on, cannot all be equal. */
  lemma FullLeafCopies(ix: Index, key: int, rid: Rid)
    requires Valid(ix) && Full(ix, LeafFor(ix, key)) && AtMostHalf(Insert(ix, key, rid))
    ensures PageOk(ix, LeafFor(ix, key))
    ensures var keys := InsertEntry(ix.pages[LeafFor(ix, key)], key, rid).keys;
      Sorted(keys) && |keys| == ix.order + 1 && keys[0] < keys[|keys| / 2] < keys[|keys| - 1]
  {
    var c := LeafFor(ix, key);
    WithEntryOk(ix, key, rid);
    InsertOrder(ix, key, rid);
    WithEntryFinal(ix, key, rid);
    InsertSorted(ix.pages[c].keys, key);
    var n := WithEntry(ix, key, rid).pages[c];
    LeafCopies(WithEntry(ix, key, rid), c, n.keys[|n.keys| / 2]);
    HalfSpread(n, ix.order);
  }

  lemma HalfSpread(n: Node, order: int)
    requires 2 <= order && n.Leaf? && |n.rids| == |n.keys| == order + 1 && Sorted(n.keys)
    requires Copies(Pairs(n), n.keys[|n.keys| / 2]) <= order / 2
    ensures n.keys[0] < n.keys[|n.keys| / 2] < n.keys[|n.keys| - 1]
  {
    var s := |n.keys| / 2;
    if n.keys[0] == n.keys[s] {
      CopiesStretch(Pairs(n), 0, s + 1, n.keys[s]);
    }
    if n.keys[s] == n.keys[|n.keys| - 1] {
      CopiesStretch(Pairs(n), s, |n.keys|, n.keys[s]);
    }
  }

  lemma LeafCopies(ix: Index, c: int, k: int)
    requires Walkable(ix) && IsLeaf(ix, c)
    ensures PageOk(ix, c) && Copies(Pairs(ix.pages[c]), k) <= Copies(Entries(ix), k)
  {
    assert PageOk(ix, c);
    assert PutLeaf(ix, c, ix.pages[c]) == ix by {
      assert ix.pages[c := ix.pages[c]] == ix.pages;
    }
    PutLeafEntries(ix, c, ix.pages[c]);
    CopiesConcat(Ahead(ix, c) + Pairs(ix.pages[c]), Behind(ix, c), k);
    CopiesConcat(Ahead(ix, c), Pairs(ix.pages[c]), k);
  }

  lemma FewCopiesStrict(ix: Index, key: int, rid: Rid)
    requires Valid(ix) && Ordered(ix) && AtMostHalf(Insert(ix, key, rid))
    ensures !RepeatsBound(ix, key, rid)
  {
    hide Sizes, Down, Up, Chained, ChainOrder, Fits, Insert, AtMostHalf;
    var c := LeafFor(ix, key);
    if Full(ix, c) {
      FullLeafCopies(ix, key, rid);
      WithEntryOk(ix, key, rid);
      WithEntryOrdered(ix, key, rid);
      assert InInterval(WithEntry(ix, key, rid), c);
    }
  }

  // ---- No separator 0 is ever stored ----

  ghost predicate NonzeroKeys(ix: Index, p: int) {
    p in ix.pages && (ix.pages[p].Inner? ==> forall i :: 0 <= i < |ix.pages[p].keys| ==> ix.pages[p].keys[i] != 0)
  }

  ghost predicate NonzeroSeps(ix: Index) {
    forall p {:trigger NonzeroKeys(ix, p)} :: p in ix.pages ==> NonzeroKeys(ix, p)
  }

  lemma FedNonzero(ix: Index, path: seq<int>, r: int, sep: int)
    requires Pending(ix, path, r) && NonzeroSeps(ix) && sep != 0 && 2 <= |path|
    ensures NonzeroSeps(Fed(ix, path, r, sep))
  {
    ParentReady(ix, path, r);
    var jx := Fed(ix, path, r, sep);
    forall p | p in jx.pages
      ensures NonzeroKeys(jx, p)
    {
      assert NonzeroKeys(ix, p);
    }
  }

  lemma {:induction false} HangNonzero(ix: Index, path: seq<int>, r: int, sep: int)
    requires Pending(ix, path, r) && NonzeroSeps(ix) && sep != 0
    ensures NonzeroSeps(Hang(ix, path, r, sep)) && !ZeroPromoted(ix, path, r, sep)
    decreases |path|
  {
    if |path| == 1 {
      var jx := GrowRoot(ix, sep, r);
      forall p | p in jx.pages
        ensures NonzeroKeys(jx, p)
      {
        assert p != ix.next ==> NonzeroKeys(ix, p);
      }
    } else {
      ParentReady(ix, path, r);
      FedNonzero(ix, path, r, sep);
      if Full(ix, ParentOf(path)) {
        SpiltPending(ix, path, r, sep);
        SpiltNonzero(ix, path, r, sep);
        HangNonzero(Spilt(ix, path, r, sep), path[..|path| - 1], ix.next, Goes(ix, path, r, sep));
      }
    }
  }

  lemma SpiltNonzero(ix: Index, path: seq<int>, r: int, sep: int)
    requires Pending(ix, path, r) && Spills(ix, path, r)
    requires NonzeroSeps(Fed(ix, path, r, sep))
    ensures NonzeroSeps(Spilt(ix, path, r, sep)) && Goes(ix, path, r, sep) != 0 && !DropsZero(ix, path, r, sep)
  {
    ParentReady(ix, path, r);
    var jx := Fed(ix, path, r, sep);
    var kx := Spilt(ix, path, r, sep);
    assert NonzeroKeys(jx, ParentOf(path));
    forall p | p in kx.pages
      ensures NonzeroKeys(kx, p)
    {
      if p != ParentOf(path) && p != ix.next {
        assert NonzeroKeys(jx, p);
      }
    }
  }

  lemma WithEntryNonzero(ix: Index, key: int, rid: Rid)
    requires Valid(ix) && NonzeroSeps(ix)
    ensures NonzeroSeps(WithEntry(ix, key, rid))
  {
    hide Nodes, Down, Up, Chained, Sizes, InsertEntry;
    WithEntryOk(ix, key, rid);
    var wx := WithEntry(ix, key, rid);
    forall p | p in wx.pages
      ensures NonzeroKeys(wx, p)
    {
      assert NonzeroKeys(ix, p);
    }
  }

  lemma SplitLeafNonzero(ix: Index, c: int)
    requires Tree(ix, 0) && Chained(ix) && IsLeaf(ix, c) && |ix.pages[c].keys| == ix.order + 1 && NonzeroSeps(ix)
    ensures NonzeroSeps(SplitLeaf(ix, c))
  {
    hide Nodes, Down, Up, Chained, SplitLeaf;
    SplitLeafPages(ix, c);
    var jx := SplitLeaf(ix, c);
    forall p | p in jx.pages
      ensures NonzeroKeys(jx, p)
    {
      assert p != ix.next ==> NonzeroKeys(ix, p);
    }
  }

  lemma InsertNonzero(ix: Index, key: int, rid: Rid)
    requires Valid(ix) && NonzeroSeps(ix)
    requires Full(ix, LeafFor(ix, key)) ==> SplitSep(ix, key, rid) != 0
    ensures NonzeroSeps(Insert(ix, key, rid)) && !LosesZero(ix, key, rid)
  {
    hide Nodes, Down, Up, Chained, Sizes, WithEntry, SplitLeaf, NonzeroSeps, Pending, Hang;
    var c := LeafFor(ix, key);
    WithEntryOk(ix, key, rid);
    WithEntryNonzero(ix, key, rid);
    if Full(ix, c) {
      SplitPending(ix, key, rid);
      var kx := SplitLeaf(WithEntry(ix, key, rid), c);
      SplitLeafNonzero(WithEntry(ix, key, rid), c);
      HangNonzero(kx, Descend(ix, ix.root, key), ix.next, SplitSep(ix, key, rid));
    }
  }

  /** Every key stored is non-negative, or every key stored is non-zero. */
  ghost predicate SafeKeys(es: seq<Entry>) {
    || (forall i :: 0 <= i < |es| ==> 0 <= es[i].0)
    || (forall i :: 0 <= i < |es| ==> es[i].0 != 0)
  }

  lemma SepNonzero(ix: Index, key: int, rid: Rid)
    requires Valid(ix) && Full(ix, LeafFor(ix, key)) && AtMostHalf(Insert(ix, key, rid))
    requires SafeKeys(Entries(Insert(ix, key, rid)))
    ensures SplitSep(ix, key, rid) != 0
  {
    var c := LeafFor(ix, key);
    FullLeafCopies(ix, key, rid);
    WithEntryOk(ix, key, rid);
    var wx := WithEntry(ix, key, rid);
    var n := wx.pages[c];
    WithEntryFinal(ix, key, rid);
    LeafEntryAt(wx, c, 0);
    LeafEntryAt(wx, c, |n.keys| / 2);
  }

  lemma LeafEntryAt(ix: Index, c: int, i: nat)
    requires Walkable(ix) && IsLeaf(ix, c) && i < |ix.pages[c].keys|
    ensures exists j :: 0 <= j < |Entries(ix)| && Entries(ix)[j].0 == ix.pages[c].keys[i]
  {
    assert PageOk(ix, c);
    assert PutLeaf(ix, c, ix.pages[c]) == ix by {
      assert ix.pages[c := ix.pages[c]] == ix.pages;
    }
    PutLeafEntries(ix, c, ix.pages[c]);
    assert Entries(ix)[|Ahead(ix, c)| + i] == Pairs(ix.pages[c])[i];
  }

  // ---- The two conditions are enough ----

  lemma {:induction false} CopiesOfLive(order: int, ops: seq<Op>, k: int)
    requires 2 <= order && multiset(Entries(Run(order, ops))) == Live(ops)
    requires ops != [] ==> multiset(Entries(Run(order, ops[..|ops| - 1]))) == Live(ops[..|ops| - 1])
    requires ops != [] ==> Copies(Entries(Run(order, ops[..|ops| - 1])), k) == LiveCopies(ops[..|ops| - 1], k)
    ensures Copies(Entries(Run(order, ops)), k) == LiveCopies(ops, k)
  {
    hide Insert, Delete, Sizes, Down, Up, Leftmost, Entries, InsertAt, RemoveAt, FewCopies;
    if ops == [] {
      NewOk(order);
    } else {
      var before := Run(order, ops[..|ops| - 1]);
      match ops[|ops| - 1]
      case Ins(key, rid) =>
        var j := InsertEntries(before, key, rid);
        CopiesInsert(Entries(before), j, (key, rid), k);
      case Del(key, rid) =>
        var j := DeleteEntries(before, key, rid);
        if Delete(before, key, rid).1 {
          CopiesRemove(Entries(before), j, k);
          assert (key, rid) in multiset(Entries(before));
        } else {
          assert multiset(Entries(before)) == Live(ops);
        }
    }
  }

  ghost predicate AllKeys(es: seq<Entry>, ok: int -> bool) {
    forall i :: 0 <= i < |es| ==> ok(es[i].0)
  }

  lemma AllKeysInsert(es: seq<Entry>, j: nat, e: Entry, ok: int -> bool)
    requires j <= |es| && AllKeys(es, ok) && ok(e.0)
    ensures AllKeys(InsertAt(es, j, e), ok)
  {
  }

  lemma AllKeysRemove(es: seq<Entry>, j: nat, ok: int -> bool)
    requires j < |es| && AllKeys(es, ok)
    ensures AllKeys(RemoveAt(es, j), ok)
  {
  }

  /** Only inserted keys are stored. */
  lemma {:induction false} StoredKeys(order: int, ops: seq<Op>, ok: int -> bool)
    requires 2 <= order
    requires forall i :: 0 <= i < |ops| && ops[i].Ins? ==> ok(ops[i].key)
    ensures AllKeys(Entries(Run(order, ops)), ok)
  {
    if ops == [] {
      NewOk(order);
    } else {
      var before := Run(order, ops[..|ops| - 1]);
      StoredKeys(order, ops[..|ops| - 1], ok);
      match ops[|ops| - 1]
      case Ins(key, rid) =>
        var j := InsertEntries(before, key, rid);
        AllKeysInsert(Entries(before), j, (key, rid), ok);
      case Del(key, rid) =>
        var j := DeleteEntries(before, key, rid);
        if Delete(before, key, rid).1 {
          AllKeysRemove(Entries(before), j, ok);
        }
    }
  }

  lemma StoredSafe(order: int, ops: seq<Op>)
    requires 2 <= order && ZeroSafe(ops)
    ensures SafeKeys(Entries(Run(order, ops)))
  {
    if forall i :: 0 <= i < |ops| && ops[i].Ins? ==> 0 <= ops[i].key {
      StoredKeys(order, ops, k => 0 <= k);
    } else {
      StoredKeys(order, ops, k => k != 0);
    }
  }

  /** Under the two conditions an insert keeps the order and stores no separator 0. */
  lemma GentleInsert(ix: Index, key: int, rid: Rid)
    requires Valid(ix) && Ordered(ix) && NonzeroSeps(ix)
    requires AtMostHalf(Insert(ix, key, rid)) && SafeKeys(Entries(Insert(ix, key, rid)))
    ensures Ordered(Insert(ix, key, rid)) && NonzeroSeps(Insert(ix, key, rid))
  {
    FewCopiesStrict(ix, key, rid);
    if Full(ix, LeafFor(ix, key)) {
      SepNonzero(ix, key, rid);
    }
    InsertNonzero(ix, key, rid);
    InsertOrderedIff(ix, key, rid);
  }

  /** The index holds exactly the live entries. */
  ghost predicate Agrees(ix: Index, ops: seq<Op>) {
    && Walkable(ix)
    && multiset(Entries(ix)) == Live(ops)
    && (forall k :: Copies(Entries(ix), k) == LiveCopies(ops, k))
  }

  lemma GentleAgrees(order: int, ops: seq<Op>)
    requires 2 <= order && ops != []
    requires Ordered(Run(order, ops[..|ops| - 1])) && Agrees(Run(order, ops[..|ops| - 1]), ops[..|ops| - 1])
    ensures Agrees(Run(order, ops), ops)
  {
    GentleBag(order, ops);
    forall k
      ensures Copies(Entries(Run(order, ops)), k) == LiveCopies(ops, k)
    {
      CopiesOfLive(order, ops, k);
    }
  }

  /** One more operation of a run that meets the conditions. */
  lemma GentleStep(order: int, ops: seq<Op>)
    requires 2 <= order && ops != [] && ZeroSafe(ops)
    requires forall k :: LiveCopies(ops, k) <= order / 2
    requires Ordered(Run(order, ops[..|ops| - 1])) && NonzeroSeps(Run(order, ops[..|ops| - 1]))
    requires Agrees(Run(order, ops), ops)
    ensures Ordered(Run(order, ops)) && NonzeroSeps(Run(order, ops))
  {
    var before := Run(order, ops[..|ops| - 1]);
    match ops[|ops| - 1]
    case Ins(key, rid) =>
      StoredSafe(order, ops);
      GentleInsert(before, key, rid);
    case Del(key, rid) =>
      var j := DeleteEntries(before, key, rid);
      DeleteNonzero(before, key, rid);
  }

  lemma DeleteNonzero(ix: Index, key: int, rid: Rid)
    requires Valid(ix) && NonzeroSeps(ix)
    ensures NonzeroSeps(Delete(ix, key, rid).0)
  {
    var jx := Delete(ix, key, rid).0;
    forall p | p in jx.pages
      ensures NonzeroKeys(jx, p)
    {
      if Find(ix, key, rid).Some? {
        assert LinkOk(ix, Find(ix, key, rid).value.0);
      }
      assert NonzeroKeys(ix, p);
    }
  }

  lemma GentleBag(order: int, ops: seq<Op>)
    requires 2 <= order && ops != []
    requires Ordered(Run(order, ops[..|ops| - 1]))
    requires multiset(Entries(Run(order, ops[..|ops| - 1]))) == Live(ops[..|ops| - 1])
    ensures multiset(Entries(Run(order, ops))) == Live(ops)
  {
    hide Insert, Delete, Sizes, Down, Up, Leftmost, Entries, InsertAt, RemoveAt, Intervals, Fits, ChainOrder;
    var before := Run(order, ops[..|ops| - 1]);
    match ops[|ops| - 1]
    case Ins(key, rid) =>
      var j := InsertEntries(before, key, rid);
      InsertBag(Entries(before), j, (key, rid));
    case Del(key, rid) =>
      var j := DeleteEntries(before, key, rid);
      DeleteExact(before, key, rid);
      if Delete(before, key, rid).1 {
        RemoveBag(Entries(before), j);
      } else {
        assert (key, rid) !in multiset(Entries(before));
      }
  }

  /**
   The invariant of every session: with at most order / 2 live copies of a key at any time, and keys all
   non-negative or all non-zero, the tree stays ordered and holds exactly the live entries.
   */
  lemma {:induction false} RunOrdered(order: int, ops: seq<Op>)
    requires 2 <= order && FewCopies(order, ops) && ZeroSafe(ops)
    ensures Ordered(Run(order, ops)) && NonzeroSeps(Run(order, ops)) && Agrees(Run(order, ops), ops)
  {
    if ops == [] {
      NewOk(order);
      assert NonzeroKeys(New(order), 1);
    } else {
      var m := |ops| - 1;
      assert forall n :: 0 <= n <= m ==> ops[..m][..n] == ops[..n];
      RunOrdered(order, ops[..m]);
      assert ops[..|ops|] == ops;
      GentleAgrees(order, ops);
      GentleStep(order, ops);
    }
  }

  lemma {:induction false} RidsCount(es: seq<Entry>, key: int, rid: Rid)
    ensures multiset(RidsIn(es, Some(key), Some(key)))[rid] == multiset(es)[(key, rid)]
  {
    if es != [] {
      RidsCount(es[1..], key, rid);
      assert es == [es[0]] + es[1..];
      var first := if InRange(es[0].0, Some(key), Some(key)) then [es[0].1] else [];
      assert multiset(RidsIn(es, Some(key), Some(key))) == multiset(first) + multiset(RidsIn(es[1..], Some(key), Some(key)));
      assert multiset(es) == multiset{es[0]} + multiset(es[1..]);
    }
  }

  /**
   What a session's user sees: each rid comes back from a search as often as it is live under the key,
   a delete answers true exactly when its entry is live, and a range scan yields exactly the
   live entries in range, sorted by key.
   */
  lemma RunAnswers(order: int, ops: seq<Op>, key: int, rid: Rid, lo: Option<int>, hi: Option<int>)
    requires 2 <= order && FewCopies(order, ops) && ZeroSafe(ops)
    ensures multiset(Search(Run(order, ops), key))[rid] == Live(ops)[(key, rid)]
    ensures Delete(Run(order, ops), key, rid).1 <==> (key, rid) in Live(ops)
    ensures RangeScan(Run(order, ops), lo, hi) == RidsIn(Entries(Run(order, ops)), lo, hi)
    ensures SortedEntries(Entries(Run(order, ops))) && multiset(Entries(Run(order, ops))) == Live(ops)
  {
    var ix := Run(order, ops);
    RunOrdered(order, ops);
    SearchExact(ix, key);
    RidsCount(Entries(ix), key, rid);
    DeleteExact(ix, key, rid);
    assert (key, rid) in Entries(ix) <==> (key, rid) in multiset(Entries(ix));
    RangeExact(ix, lo, hi);
    EntriesSorted(ix);
  }
}
