/** The B+ tree over a file of pages in the buffer pool. */
module BPlusTree {
  import opened Options
  import opened Disk
  import opened Bytes
  import opened LruKReplacer
  import opened PoolState
  import opened BufferPool
  import opened BTreeNode
  import opened BTreeModel
  import opened BTreeStructure
  import opened BTreeInsert
  import opened BTreeEntries
  import BTreeRead
  import BTreeDelete
  import BTreeLeftmost
  import BTreeRuns
  import opened BTreeCodec
  import opened BTreePage
  import opened TreeStore
  import opened PageAccess

  class BPlusTree {
    const bpm: BufferPoolManager
    const fileId: int
    var rootPageId: int
    var numKeys: int
    ghost var ix: Index
    ghost var stored: int // the key count in the header page
    ghost var counted: bool // this session started on a new index

    ghost function St(): Pool
      reads bpm
    {
      bpm.State()
    }

    function PageKey(p: nat): Key {
      Key(fileId, p)
    }

    ghost predicate IndexOk()
      reads `ix
    {
      BTreeModel.Valid(ix) && BTreeRead.Leftmost(ix) && ix.order == ORDER
    }

    ghost predicate CountOk()
      reads `ix, `numKeys, `counted
    {
      IsU32(numKeys) && (counted ==> BTreeRead.Walkable(ix) && numKeys == |Entries(ix)|)
    }

    /** The file shows a well-formed index, and the root id in memory is the one in the header page. */
    ghost predicate WellFormed()
      reads this, bpm, bpm.replacer
    {
      && bpm.Valid() && Sound(St()) && IndexOk()
      && Matches(St(), fileId, ix, stored)
      && rootPageId == ix.root
    }

    /** Also, the key count can be written; in a session started on a new index it is exact. */
    ghost predicate Valid()
      reads this, bpm, bpm.replacer
    {
      WellFormed() && CountOk()
    }

    ghost predicate At(l: Ledger)
      reads bpm, bpm.replacer
    {
      Tracks(bpm, fileId, l)
    }

    // ---- Pages in and out ----

    /** Pins page `p` and decodes it. */
    method ReadPage(p: nat, ghost n: Node, ghost l: Ledger) returns (node: BTreePage)
      requires At(l) && Room(l) && PageKey(p) !in l.held && Shows(St(), fileId, p, NodeImage(n))
      modifies bpm, bpm.replacer
      ensures At(l.Hold(PageKey(p)))
      ensures fresh(node) && fresh(node.pageRaw) && node.pageRaw.Length == PAGE_SIZE
      ensures node.Valid() && node.pageId == p && node.Contents() == n && Packable(p, n)
      ensures forall k :: View(St(), k) == old(View(St(), k))
      ensures bpm.unmarked <= old(bpm.unmarked)
    {
      hide Effect, Consistent, TablesOk, Safe, View, Shows, Decode, Packable, BufferPoolManager.Valid;
      EffectSound(l.start, St(), fileId, l.grown, l.writes, l.held);
      ShownNode(St(), fileId, p, n);
      var data := FetchPage(bpm, fileId, p, l);
      DecodedPackable(data, p, n);
      node := Load(data, p, n);
    }

    /** A page object over a copy of the page's bytes. */
    method Load(data: Page, p: nat, ghost n: Node) returns (node: BTreePage)
      requires Decode(data) == Some((p as int, n))
      ensures fresh(node) && fresh(node.pageRaw) && node.pageRaw.Length == PAGE_SIZE
      ensures node.Valid() && node.pageId == p && node.Contents() == n
    {
      hide Decode;
      var raw := new byte[PAGE_SIZE](i requires 0 <= i < PAGE_SIZE => data[i]);
      assert raw[..] == data;
      node := new BTreePage.FromBytes(raw, p, n);
    }

    /** Allocates the next page of the file and pins it as a new node. */
    method NewPage(leaf: bool, ghost l: Ledger) returns (node: BTreePage)
      requires At(l) && Room(l) && PageKey(NumPages(bpm.disk, fileId)) !in l.held
      modifies bpm, bpm.replacer
      ensures node.pageId == old(NumPages(bpm.disk, fileId)) && node.pageId >= 0
      ensures At(l.Grew().Hold(PageKey(node.pageId)))
      ensures fresh(node) && fresh(node.pageRaw) && node.pageRaw.Length == PAGE_SIZE
      ensures node.isLeaf == leaf && node.numKeys == 0
      ensures node.keys == [] && node.pointers == [] && node.RIDs == [] && (leaf ==> node.nextLeaf == -1 && node.prevLeaf == -1)
      ensures forall k :: View(St(), k) == old(View(St(), k))
    {
      hide Effect, Consistent, TablesOk, Safe, View;
      var p := AllocatePage(bpm, fileId, l);
      var data := FetchPage(bpm, fileId, p, l.Grew());
      var raw := new byte[PAGE_SIZE](i requires 0 <= i < PAGE_SIZE => data[i]);
      node := new BTreePage.New(raw, p, leaf);
    }

    /** `node` is a page of the file that is held and fits its bytes. */
    ghost predicate Savable(node: BTreePage, l: Ledger)
      reads node
    {
      && 0 <= node.pageId && PageKey(node.pageId) in l.held
      && node.pageId < NumPages(l.start.disk, fileId) + l.grown
      && node.Valid() && Packable(node.pageId, node.Contents()) && |node.keys| <= 340
      && node.pageRaw.Length == PAGE_SIZE
    }

    /** Serializes a held page into its buffer. */
    method WritePage(node: BTreePage, ghost l: Ledger)
      requires At(l) && Savable(node, l)
      modifies bpm, node.pageRaw
      ensures At(l.Wrote(node.pageId, NodeImage(node.Contents())))
    {
      hide Effect, Consistent, TablesOk, Safe, Packable, Encode, Decode;
      EncodeFits(node.pageId, node.Contents());
      DecodeEncode(node.pageId, node.Contents(), node.pageRaw[..]);
      node.Serialize();
      EffectWrite(l.start, St(), fileId, l.grown, l.writes, l.held, node.pageId, node.pageRaw[..], NodeImage(node.Contents()));
      bpm.ChangePage(PageKey(node.pageId), node.pageRaw[..]);
    }

    /** Serializes a held page and gives back its pin, marked dirty. */
    method Save(node: BTreePage, ghost l: Ledger)
      requires At(l) && Savable(node, l)
      modifies bpm, bpm.replacer, node.pageRaw
      ensures At(l.Wrote(node.pageId, NodeImage(node.Contents())).Drop(PageKey(node.pageId)))
    {
      hide Effect, Consistent, TablesOk, Safe, View, Packable, Shows, ShowsAll;
      WritePage(node, l);
      ghost var l1 := l.Wrote(node.pageId, NodeImage(node.Contents()));
      SavedPage(l1, node.pageId);
      ReleasePage(bpm, fileId, node.pageId, true, l1);
    }

    lemma SavedPage(l: Ledger, p: nat)
      requires At(l) && p < NumPages(l.start.disk, fileId) + l.grown
      ensures p < NumPages(bpm.disk, fileId)
    {
    }

    /**
     Writes the root id and the key count into the header page. A count below zero does not pack: the root id is in
     by then, and the pin is never returned.
     */
    method WriteMetadata(ghost c: int, ghost l: Ledger) returns (ok: bool)
      requires At(l) && Room(l) && PageKey(0) !in l.held && 0 < NumPages(bpm.disk, fileId)
      requires IsU32(rootPageId) && numKeys < U32_LIMIT
      requires numKeys < 0 ==> U32At(View(St(), PageKey(0)), 4) == c
      modifies bpm, bpm.replacer
      ensures ok <==> 0 <= numKeys
      ensures ok ==> At(l.Hold(PageKey(0)).Wrote(0, HeaderImage(rootPageId, numKeys)).Drop(PageKey(0)))
      ensures !ok ==> At(l.Hold(PageKey(0)).Wrote(0, HeaderImage(rootPageId, c)))
    {
      hide Effect, Consistent, TablesOk, Safe, View;
      EffectSound(l.start, St(), fileId, l.grown, l.writes, l.held);
      var raw := FetchPage(bpm, fileId, 0, l);
      ghost var l1 := l.Hold(PageKey(0));
      EffectSound(l.start, St(), fileId, l1.grown, l1.writes, l1.held);
      var data := Put(raw, 0, U32(rootPageId));
      HeaderRoot(raw, rootPageId);
      if numKeys < 0 {
        RewritePage(bpm, fileId, 0, data, HeaderImage(rootPageId, c), l1);
        return false;
      }
      data := Put(data, 4, U32(numKeys));
      HeaderCount(Put(raw, 0, U32(rootPageId)), rootPageId, numKeys);
      RewritePage(bpm, fileId, 0, data, HeaderImage(rootPageId, numKeys), l1);
      ReleasePage(bpm, fileId, 0, true, l1.Wrote(0, HeaderImage(rootPageId, numKeys)));
      ok := true;
    }

    lemma HeaderRoot(raw: Page, root: int)
      requires IsU32(root)
      ensures U32At(Put(raw, 0, U32(root)), 0) == root && U32At(Put(raw, 0, U32(root)), 4) == U32At(raw, 4)
    {
      var b := Put(raw, 0, U32(root));
      assert b[0..4] == U32(root);
      U32Back(b, 0, root);
    }

    lemma HeaderCount(raw: Page, root: int, count: int)
      requires U32At(raw, 0) == root && IsU32(count)
      ensures U32At(Put(raw, 4, U32(count)), 0) == root && U32At(Put(raw, 4, U32(count)), 4) == count
    {
      var b := Put(raw, 4, U32(count));
      assert b[4..8] == U32(count);
      U32Back(b, 4, count);
    }

    /** A new index in an empty file: the header page, then page 1 as an empty root leaf. */
    constructor New(pool: BufferPoolManager, file: int)
      requires pool.Valid() && Sound(pool.State()) && NumPages(pool.disk, file) == 0
      requires |Pinned(pool.State())| < NUM_FRAMES
      modifies pool, pool.replacer
      ensures bpm == pool && fileId == file && Valid() && counted && numKeys == 0 && stored == 0
      ensures ix == BTreeRuns.New(ORDER)
      ensures Settled(old(pool.State()), St(), file)
    {
      bpm := pool;
      fileId := file;
      rootPageId := 1;
      numKeys := 0;
      ix := BTreeRuns.New(ORDER);
      counted := true;
      stored := 0;
      new;
      InitFile();
    }

    /** An existing index: the root and the stored key count come from the header page. */
    constructor Open(pool: BufferPoolManager, file: int, ghost jx: Index, ghost count: int)
      requires pool.Valid() && Sound(pool.State()) && Matches(pool.State(), file, jx, count)
      requires BTreeModel.Valid(jx) && BTreeRead.Leftmost(jx) && jx.order == ORDER
      requires |Pinned(pool.State())| < NUM_FRAMES
      modifies pool, pool.replacer
      ensures bpm == pool && fileId == file && Valid() && !counted && ix == jx
      ensures numKeys == count && stored == count
      ensures Settled(old(pool.State()), St(), file)
    {
      bpm := pool;
      fileId := file;
      ix := jx;
      counted := false;
      stored := count;
      rootPageId, numKeys := 0, 0;
      new;
      ReadMetadata();
    }

    method ReadMetadata()
      requires bpm.Valid() && Sound(St()) && Matches(St(), fileId, ix, stored) && IndexOk() && !counted
      requires |Pinned(St())| < NUM_FRAMES
      modifies `rootPageId, `numKeys, bpm, bpm.replacer
      ensures Valid() && Settled(old(St()), St(), fileId) && numKeys == stored
    {
      hide Effect, Consistent, TablesOk, Safe, View, Settled, BufferPoolManager.Valid, Matches, BTreeModel.Valid,
        BTreeRead.Leftmost, Entries, Shows;
      ghost var l := Ledger(St(), 0, map[], {});
      EffectNone(St(), fileId);
      EffectSound(l.start, St(), fileId, 0, map[], {});
      HeaderShown();
      var raw := FetchPage(bpm, fileId, 0, l);
      rootPageId := U32At(raw, 0);
      numKeys := U32At(raw, 4);
      ghost var l1 := l.Hold(PageKey(0));
      assert l1.Drop(PageKey(0)) == l;
      EffectSound(l.start, St(), fileId, 0, map[], l1.held);
      ReleasePage(bpm, fileId, 0, false, l1);
      ReadOnlyMatches(l.start, St(), fileId, {}, ix, stored);
      EffectSound(l.start, St(), fileId, 0, map[], {});
      EffectSettled(l, St(), fileId);
    }

    lemma HeaderShown()
      requires TablesOk(St()) && Matches(St(), fileId, ix, stored) && IndexOk()
      ensures U32At(View(St(), PageKey(0)), 0) == ix.root && U32At(View(St(), PageKey(0)), 4) == stored
    {
      assert Images(ix, stored)[0] == HeaderImage(ix.root, stored);
      assert Shows(St(), fileId, 0, Images(ix, stored)[0]);
    }

    method InitFile()
      requires bpm.Valid() && Sound(St()) && NumPages(bpm.disk, fileId) == 0
      requires |Pinned(St())| < NUM_FRAMES
      requires rootPageId == 1 && ix == BTreeRuns.New(ORDER) && numKeys == 0 && stored == 0
      modifies bpm, bpm.replacer
      ensures Valid() && Settled(old(St()), St(), fileId)
    {
      hide Effect, Consistent, TablesOk, Safe, View, Settled, Matches, BTreeRuns.New, Valid, BufferPoolManager.Valid;
      ghost var l := Ledger(St(), 0, map[], {});
      EffectNone(St(), fileId);
      EffectSound(St(), St(), fileId, 0, map[], {});
      var header := AllocatePage(bpm, fileId, l);
      EffectSound(l.start, St(), fileId, 1, map[], {});
      var ok := WriteMetadata(0, l.Grew());
      ghost var l1 := l.Grew().Hold(PageKey(0)).Wrote(0, HeaderImage(1, 0)).Drop(PageKey(0));
      assert l1.writes == map[0 := HeaderImage(1, 0)] && l1.held == {};
      InitRoot(l1);
    }

    method InitRoot(ghost l: Ledger)
      requires At(l) && l.writes == map[0 := HeaderImage(1, 0)] && l.held == {} && Room(l) && l.grown == 1
      requires NumPages(l.start.disk, fileId) == 0
      requires rootPageId == 1 && ix == BTreeRuns.New(ORDER) && numKeys == 0 && stored == 0
      modifies bpm, bpm.replacer
      ensures Valid() && Settled(l.start, St(), fileId)
    {
      EmptyPackable();
      hide Effect, Consistent, TablesOk, Safe, View, Settled, Matches, Images, Valid, BufferPoolManager.Valid,
        ShowsAll, Packable, BTreeRuns.New;
      EffectSound(l.start, St(), fileId, 1, l.writes, l.held);
      var root := NewPage(true, l);
      assert root.pageId == 1;
      ghost var l1 := l.Grew().Hold(PageKey(1));
      Save(root, l1);
      ghost var l2 := l1.Wrote(1, NodeImage(root.Contents()));
      InitMatches(l2.Drop(PageKey(1)), root.Contents());
    }

    lemma EmptyPackable()
      ensures Packable(1, Leaf([], [], -1, -1))
    {
    }

    lemma InitMatches(l: Ledger, root: Node)
      requires At(l) && l.held == {} && l.grown == 2 && NumPages(l.start.disk, fileId) == 0
      requires root == Leaf([], [], -1, -1) && l.writes == map[0 := HeaderImage(1, 0)][1 := NodeImage(root)]
      requires rootPageId == 1 && ix == BTreeRuns.New(ORDER) && numKeys == 0 && stored == 0
      ensures Valid() && Settled(l.start, St(), fileId)
    {
      hide Effect, Consistent, TablesOk, Safe, View, Settled, BTreeModel.Valid, BTreeRead.Leftmost, Matches, Entries,
        BTreeRuns.New;
      EffectSettled(l, St(), fileId);
      NewImages(l.start, St(), l.writes);
    }

    lemma NewImages(p: Pool, q: Pool, writes: map<int, Image>)
      requires Effect(p, q, fileId, 2, writes, {}) && NumPages(p.disk, fileId) == 0
      requires writes == map[0 := HeaderImage(1, 0)][1 := NodeImage(Leaf([], [], -1, -1))]
      ensures var nx := BTreeRuns.New(ORDER);
        && BTreeModel.Valid(nx) && BTreeRead.Leftmost(nx) && BTreeRead.Walkable(nx) && Entries(nx) == [] && nx.root == 1 && nx.order == ORDER
        && Sound(q) && Matches(q, fileId, nx, 0)
    {
      hide Effect, BTreeRuns.New, Matches, Sound, BTreeModel.Valid, BTreeRead.Leftmost, Entries;
      BTreeRuns.NewOk(ORDER);
      NewShape();
      EffectFresh(p, q, fileId, 2, writes, {}, BTreeRuns.New(ORDER), 0);
      EffectSound(p, q, fileId, 2, writes, {});
    }

    lemma NewShape()
      ensures var nx := BTreeRuns.New(ORDER);
        && Images(nx, 0) == map[0 := HeaderImage(1, 0)][1 := NodeImage(Leaf([], [], -1, -1))]
        && nx.next == 2 && nx.root == 1 && nx.order == ORDER
    {
    }
  
    // ---- Reading ----

    /** Only reads so far: the file still shows `ix`, and at most one frame is needed. */
    ghost predicate Reading(l: Ledger)
      reads `ix, `stored, `rootPageId, bpm, bpm.replacer
    {
      && At(l) && l.grown == 0 && l.writes == map[] && |l.held| <= 1
      && IndexOk() && Matches(l.start, fileId, ix, stored) && rootPageId == ix.root
      && |Pinned(l.start)| + 2 <= NUM_FRAMES
    }

    /** `node` is page `p` of the index, read and held. */
    ghost predicate Holding(node: BTreePage, p: int, l: Ledger)
      reads `ix, `stored, `rootPageId, bpm, bpm.replacer, node
    {
      && 0 <= p && p in ix.pages && l.held == {} && Reading(l.Hold(PageKey(p)))
      && node.Valid() && node.pageId == p && node.Contents() == ix.pages[p] && node.pageRaw.Length == PAGE_SIZE
      && Packable(p, ix.pages[p])
      && bpm.unmarked <= l.start.unmarked
    }

    /** `node` holds changed contents of page `p`. */
    ghost predicate Edited(node: BTreePage, p: int, n: Node, l: Ledger)
      reads `ix, `stored, `rootPageId, bpm, bpm.replacer, node
    {
      && 0 <= p && p in ix.pages && l.held == {} && Reading(l.Hold(PageKey(p)))
      && node.Valid() && node.pageId == p && node.Contents() == n && node.pageRaw.Length == PAGE_SIZE
      && Packable(p, ix.pages[p])
    }

    /** Pins and decodes a page of the index. */
    method Get(p: int, ghost l: Ledger) returns (node: BTreePage)
      requires Reading(l) && l.held == {} && p in ix.pages
      modifies bpm, bpm.replacer
      ensures fresh(node) && fresh(node.pageRaw) && Holding(node, p, l)
    {
      hide Effect, Consistent, TablesOk, Safe, View, Shows, Matches, Packable, BufferPoolManager.Valid,
        BTreeModel.Valid, BTreeRead.Leftmost;
      EffectSound(l.start, St(), fileId, 0, map[], {});
      ReadOnlyMatches(l.start, St(), fileId, {}, ix, stored);
      MatchesNode(St(), fileId, ix, stored, p);
      node := ReadPage(p, ix.pages[p], l);
    }

    /** Gives back a page that was only read. */
    method Leave(node: BTreePage, ghost l: Ledger)
      requires Holding(node, node.pageId, l)
      modifies bpm, bpm.replacer
      ensures Reading(l) && bpm.unmarked <= l.start.unmarked
    {
      hide Effect, Consistent, TablesOk, Safe, View, Matches, Packable, BufferPoolManager.Valid, BTreeModel.Valid,
        BTreeRead.Leftmost;
      ghost var l1 := l.Hold(PageKey(node.pageId));
      assert l1.Drop(PageKey(node.pageId)) == l;
      ReleasePage(bpm, fileId, node.pageId, false, l1);
      EffectSound(l.start, St(), fileId, 0, map[], {});
      ReadOnlyMatches(l.start, St(), fileId, {}, ix, stored);
    }

    /** The child for `key`: the scan runs from the right to the last separator below it. */
    method Choose(node: BTreePage, key: int) returns (page: int)
      requires node.Valid() && !node.isLeaf
      ensures page == node.pointers[Route(node.keys, key)]
    {
      page := node.pointers[0];
      var i := node.numKeys - 1;
      while 0 <= i
        invariant -1 <= i < |node.keys| && page == node.pointers[0]
        invariant forall j :: i < j < |node.keys| ==> key <= node.keys[j]
      {
        if key > node.keys[i] {
          page := node.pointers[i + 1];
          assert Route(node.keys, key) == i + 1;
          return;
        }
        i := i - 1;
      }
      assert Route(node.keys, key) == 0;
    }

    /** One level down. */
    method StepDown(node: BTreePage, key: int, ghost l: Ledger) returns (child: BTreePage)
      requires Holding(node, node.pageId, l) && !node.isLeaf
      modifies bpm, bpm.replacer
      ensures fresh(child) && fresh(child.pageRaw)
      ensures var n := ix.pages[node.pageId];
        n.Inner? && Route(n.keys, key) < |n.ptrs| && Holding(child, n.ptrs[Route(n.keys, key)], l)
    {
      hide Effect, Consistent, TablesOk, Safe, View, Matches, Packable, BufferPoolManager.Valid, Reading;
      ChildPage(node.pageId, key, l);
      var page := Choose(node, key);
      Leave(node, l);
      child := Get(page, l);
    }

    lemma ChildPage(p: int, key: int, l: Ledger)
      requires p in ix.pages && ix.pages[p].Inner? && 0 <= p && Reading(l.Hold(PageKey(p)))
      ensures Tree(ix, 0)
      ensures var n := ix.pages[p]; var i := Route(n.keys, key);
        i < |n.ptrs| && n.ptrs[i] in ix.pages && n.ptrs[i] in ix.level && p in ix.level && ix.level[n.ptrs[i]] < ix.level[p]
      ensures Descend(ix, p, key) == [p] + Descend(ix, ix.pages[p].ptrs[Route(ix.pages[p].keys, key)], key)
    {
      hide Effect, Matches, BufferPoolManager.Valid;
      RouteChild(ix, 0, p, key);
    }

    lemma PathStep(path: seq<int>, p: int, c: int, below: seq<int>)
      requires path != [] && path[|path| - 1] == p
      ensures path[..|path| - 1] + ([p] + below) == path + below
      ensures (path + [c])[..|path + [c]| - 1] == path
    {
    }

    lemma PathEnds(p: int, key: int, path: seq<int>)
      requires Tree(ix, 0) && p in ix.pages && ix.pages[p].Leaf? && path != [] && path[|path| - 1] == p
      requires path[..|path| - 1] + Descend(ix, p, key) == Descend(ix, ix.root, key)
      ensures path == Descend(ix, ix.root, key) && p == LeafFor(ix, key)
    {
    }

    lemma RootPage(l: Ledger)
      requires Reading(l)
      ensures Tree(ix, 0) && Chained(ix) && ix.root in ix.pages && ix.level.Keys == ix.pages.Keys
      ensures BTreeRead.Walkable(ix) && BTreeLeftmost.Descendable(ix)
    {
      hide Effect, Matches, BufferPoolManager.Valid;
    }

    /** The leaf for `key`, held, and the pages on the way to it. */
    method FindLeaf(key: int, ghost l: Ledger) returns (leaf: BTreePage, path: seq<int>)
      requires Reading(l) && l.held == {}
      modifies bpm, bpm.replacer
      ensures fresh(leaf) && fresh(leaf.pageRaw)
      ensures Tree(ix, 0) && path == Descend(ix, ix.root, key) && Holding(leaf, LeafFor(ix, key), l) && leaf.isLeaf
    {
      hide Effect, Consistent, Safe, View, Matches, Packable, BufferPoolManager.Valid, BTreeModel.Valid,
        BTreeRead.Leftmost, Tree, TablesOk, Descend, Route;
      RootPage(l);
      leaf := Get(rootPageId, l);
      path := [rootPageId];
      while !leaf.isLeaf
        invariant fresh(leaf) && fresh(leaf.pageRaw) && Holding(leaf, leaf.pageId, l)
        invariant path != [] && path[|path| - 1] == leaf.pageId
        invariant path[..|path| - 1] + Descend(ix, leaf.pageId, key) == Descend(ix, ix.root, key)
        decreases ix.level[leaf.pageId]
      {
        ghost var above := leaf.pageId;
        ChildPage(above, key, l);
        leaf := StepDown(leaf, key, l);
        PathStep(path, above, leaf.pageId, Descend(ix, leaf.pageId, key));
        path := path + [leaf.pageId];
      }
      PathEnds(leaf.pageId, key, path);
    }
  
    /** The leftmost leaf, held. */
    method FindLeftmostLeaf(ghost l: Ledger) returns (leaf: BTreePage)
      requires Reading(l) && l.held == {}
      modifies bpm, bpm.replacer
      ensures fresh(leaf) && fresh(leaf.pageRaw)
      ensures BTreeLeftmost.Descendable(ix) && ix.root in ix.pages
      ensures Holding(leaf, BTreeRead.FirstLeaf(ix, ix.root), l) && leaf.isLeaf
    {
      hide Effect, Consistent, Safe, View, Matches, Packable, BufferPoolManager.Valid, BTreeModel.Valid,
        BTreeRead.Leftmost, Tree, TablesOk;
      RootPage(l);
      leaf := Get(rootPageId, l);
      while !leaf.isLeaf
        invariant fresh(leaf) && fresh(leaf.pageRaw) && Holding(leaf, leaf.pageId, l)
        invariant BTreeRead.FirstLeaf(ix, leaf.pageId) == BTreeRead.FirstLeaf(ix, ix.root)
        decreases ix.level[leaf.pageId]
      {
        BTreeRead.FirstChild(ix, leaf.pageId);
        var page := leaf.pointers[0];
        Leave(leaf, l);
        leaf := Get(page, l);
      }
    }

    /** `leaf` is the `i`th leaf of the chain, read and held. */
    ghost predicate AtLeaf(leaf: BTreePage, i: nat, l: Ledger)
      requires BTreeRead.Walkable(ix)
      reads `ix, `stored, `rootPageId, bpm, bpm.replacer, leaf
    {
      i < |ix.chain| && leaf.isLeaf && Holding(leaf, ix.chain[i], l)
    }

    lemma AtLeafFacts(leaf: BTreePage, i: nat, l: Ledger)
      requires BTreeRead.Walkable(ix) && AtLeaf(leaf, i, l)
      ensures Edited(leaf, ix.chain[i], BTreeRead.ChainLeaf(ix, i), l) && Holding(leaf, leaf.pageId, l)
      ensures leaf.Contents() == BTreeRead.ChainLeaf(ix, i)
      ensures leaf.Valid() && leaf.nextLeaf == ChainNext(ix.chain, i)
      ensures i + 1 < |ix.chain| ==> ix.chain[i + 1] in ix.pages
      ensures leaf.nextLeaf > 0 <==> i + 1 < |ix.chain|
    {
      hide Effect, Matches, BufferPoolManager.Valid, BTreeRead.Leftmost, Sizes, Nodes, Down, Up, Packable;
      var n := BTreeRead.ChainLeaf(ix, i);
      if i + 1 < |ix.chain| {
        var m := BTreeRead.ChainLeaf(ix, i + 1);
      }
    }

    /** On to the next leaf of the chain. */
    method NextLeaf(leaf: BTreePage, ghost i: nat, ghost l: Ledger) returns (next: BTreePage)
      requires BTreeRead.Walkable(ix) && AtLeaf(leaf, i, l) && leaf.nextLeaf > 0
      modifies bpm, bpm.replacer
      ensures fresh(next) && fresh(next.pageRaw) && AtLeaf(next, i + 1, l)
    {
      hide Effect, Matches, BufferPoolManager.Valid, BTreeRead.Leftmost, BTreeModel.Valid, Packable, Consistent, Safe,
        View, TablesOk, Reading;
      AtLeafFacts(leaf, i, l);
      var page := leaf.nextLeaf;
      Leave(leaf, l);
      next := Get(page, l);
      var m := BTreeRead.ChainLeaf(ix, i + 1);
    }

    /** Every rid stored under `key`, in chain order. */
    method Search(key: int) returns (rids: seq<Rid>)
      requires Valid() && |Pinned(St())| + 2 <= NUM_FRAMES
      modifies bpm, bpm.replacer
      ensures Valid() && Settled(old(St()), St(), fileId)
      ensures rids == BTreeRead.Search(ix, key)
    {
      hide Effect, Matches, BufferPoolManager.Valid, BTreeRead.Leftmost, BTreeModel.Valid, Packable, Consistent, Safe,
        View, TablesOk, Settled, Holding, Valid, BTreeRead.SearchFrom, BTreeRead.Lookup, Nodes, Chained, LeafFor, Tree,
        CountOk, Descend, Route;
      ghost var l := StartReading();
      RootPage(l);
      var leaf, path := FindLeaf(key, l);
      ghost var i := BTreeRead.Position(ix, LeafFor(ix, key));
      rids := [];
      while true
        invariant fresh(leaf) && fresh(leaf.pageRaw) && AtLeaf(leaf, i, l)
        invariant rids + BTreeRead.SearchFrom(ix, i, key) == BTreeRead.Search(ix, key)
        decreases |ix.chain| - i
      {
        AtLeafFacts(leaf, i, l);
        SearchStep(i, key, rids);
        var found := leaf.Lookup(key);
        rids := rids + found;
        var passed := leaf.keys != [] && leaf.keys[|leaf.keys| - 1] > key;
        if passed || leaf.nextLeaf <= 0 {
          break;
        }
        leaf := NextLeaf(leaf, i, l);
        i := i + 1;
      }
      Leave(leaf, l);
      FinishReading(l);
    }

    lemma SearchStep(i: nat, key: int, rids: seq<Rid>)
      requires BTreeRead.Walkable(ix) && i < |ix.chain|
      ensures var n := BTreeRead.ChainLeaf(ix, i);
        if BTreeRead.Passed(n, key) || i + 1 == |ix.chain|
        then rids + BTreeRead.SearchFrom(ix, i, key) == rids + BTreeRead.Lookup(n, key, 0)
        else rids + BTreeRead.SearchFrom(ix, i, key) == rids + BTreeRead.Lookup(n, key, 0) + BTreeRead.SearchFrom(ix, i + 1, key)
    {
    }

    ghost method StartReading() returns (l: Ledger)
      requires Valid() && |Pinned(St())| + 2 <= NUM_FRAMES
      ensures Reading(l) && l == Ledger(St(), 0, map[], {})
      ensures CountOk()
    {
      hide Effect, Matches, BTreeRead.Leftmost, BTreeModel.Valid, Consistent, Safe, View;
      l := Ledger(St(), 0, map[], {});
      EffectNone(St(), fileId);
    }

    lemma FinishReading(l: Ledger)
      requires Reading(l) && l.held == {} && CountOk()
      ensures Valid() && Settled(l.start, St(), fileId)
    {
      hide Matches, BTreeRead.Leftmost, BTreeModel.Valid, Consistent, Safe, View;
      ReadOnlyMatches(l.start, St(), fileId, {}, ix, stored);
      EffectSettled(l, St(), fileId);
    }
  
    /** The rids of one leaf inside the range; `stop` when a key above it ended the scan. */
    method ScanPage(leaf: BTreePage, lo: Option<int>, hi: Option<int>) returns (rids: seq<Rid>, stop: bool)
      requires leaf.Valid() && leaf.isLeaf
      ensures (rids, stop) == BTreeRead.ScanLeaf(leaf.Contents(), lo, hi, 0)
    {
      ghost var n := leaf.Contents();
      rids := [];
      var i := 0;
      while i < leaf.numKeys
        invariant 0 <= i <= |leaf.keys|
        invariant rids + BTreeRead.ScanLeaf(n, lo, hi, i).0 == BTreeRead.ScanLeaf(n, lo, hi, 0).0
        invariant BTreeRead.ScanLeaf(n, lo, hi, i).1 == BTreeRead.ScanLeaf(n, lo, hi, 0).1
      {
        var key := leaf.keys[i];
        if lo.Some? && key < lo.value {
          i := i + 1;
          continue;
        }
        if hi.Some? && key > hi.value {
          assert rids + [] == rids;
          return rids, true;
        }
        rids := rids + [leaf.RIDs[i]];
        i := i + 1;
      }
      assert rids + [] == rids;
      stop := false;
    }

    /** The rids with a key between `lo` and `hi`, both inclusive, None leaving a side open. */
    method RangeScan(lo: Option<int>, hi: Option<int>) returns (rids: seq<Rid>)
      requires Valid() && |Pinned(St())| + 2 <= NUM_FRAMES
      modifies bpm, bpm.replacer
      ensures Valid() && Settled(old(St()), St(), fileId)
      ensures rids == BTreeRead.RangeScan(ix, lo, hi)
    {
      hide Effect, Matches, BufferPoolManager.Valid, BTreeRead.Leftmost, BTreeModel.Valid, Packable, Consistent, Safe,
        View, TablesOk, Settled, Holding, Valid, BTreeRead.ScanFrom, BTreeRead.ScanLeaf, Nodes, Chained, LeafFor, Tree,
        CountOk, Descend, Route, BTreeRead.FirstLeaf, Down, Domain;
      ghost var l := StartReading();
      RootPage(l);
      var leaf;
      ghost var i;
      if lo.Some? {
        var path;
        leaf, path := FindLeaf(lo.value, l);
        i := BTreeRead.Position(ix, LeafFor(ix, lo.value));
      } else {
        leaf := FindLeftmostLeaf(l);
        i := BTreeRead.Position(ix, BTreeRead.FirstLeaf(ix, ix.root));
      }
      rids := ScanLeaves(leaf, i, lo, hi, l);
      FinishReading(l);
    }

    /** The scan from the held leaf on, along the chain. */
    method ScanLeaves(first: BTreePage, ghost start: nat, lo: Option<int>, hi: Option<int>, ghost l: Ledger) returns (rids: seq<Rid>)
      requires BTreeRead.Walkable(ix) && AtLeaf(first, start, l)
      modifies bpm, bpm.replacer
      ensures Reading(l) && rids == BTreeRead.ScanFrom(ix, start, lo, hi)
    {
      hide Effect, Matches, BufferPoolManager.Valid, BTreeRead.Leftmost, BTreeModel.Valid, Packable, Consistent, Safe,
        View, TablesOk, Holding, BTreeRead.ScanFrom, BTreeRead.ScanLeaf, Nodes, Chained, Down, Domain, Reading, Edited;
      var leaf := first;
      ghost var i := start;
      rids := [];
      while true
        invariant AtLeaf(leaf, i, l)
        invariant rids + BTreeRead.ScanFrom(ix, i, lo, hi) == BTreeRead.ScanFrom(ix, start, lo, hi)
        decreases |ix.chain| - i
      {
        AtLeafFacts(leaf, i, l);
        ScanStep(i, lo, hi, rids);
        var found, stop := ScanPage(leaf, lo, hi);
        rids := rids + found;
        if stop || leaf.nextLeaf <= 0 {
          break;
        }
        leaf := NextLeaf(leaf, i, l);
        i := i + 1;
      }
      Leave(leaf, l);
    }

    lemma ScanStep(i: nat, lo: Option<int>, hi: Option<int>, rids: seq<Rid>)
      requires BTreeRead.Walkable(ix) && i < |ix.chain|
      ensures var (found, stop) := BTreeRead.ScanLeaf(BTreeRead.ChainLeaf(ix, i), lo, hi, 0);
        if stop || i + 1 == |ix.chain|
        then rids + BTreeRead.ScanFrom(ix, i, lo, hi) == rids + found
        else rids + BTreeRead.ScanFrom(ix, i, lo, hi) == rids + found + BTreeRead.ScanFrom(ix, i + 1, lo, hi)
    {
    }

    // ---- Deleting ----

    /**
     Removes one entry (key, rid) and answers whether there was one. The header then takes the lower key count; a
     count of 0, which a reopened index may well have, does not go any lower. None stands for that failure: the
     entry is gone, but its leaf and the header stay pinned.
     */
    method Delete(key: int, rid: Rid) returns (answer: Option<bool>)
      requires Valid() && |Pinned(St())| + 2 <= NUM_FRAMES
      modifies this, bpm, bpm.replacer
      ensures answer.None? <==> old(numKeys) == 0 && BTreeDelete.Delete(old(ix), key, rid).1
      ensures WellFormed() && counted == old(counted)
      ensures ix == BTreeDelete.Delete(old(ix), key, rid).0
      ensures numKeys == old(numKeys) - if BTreeDelete.Delete(old(ix), key, rid).1 then 1 else 0
      ensures stored == if answer == Some(true) then numKeys else old(stored)
      ensures answer.Some? ==> Valid() && Settled(old(St()), St(), fileId) && answer.value == BTreeDelete.Delete(old(ix), key, rid).1
      ensures answer.None? ==> Stranded(old(St()), old(ix), key, rid)
      ensures answer.None? ==> !counted
    {
      hide Effect, Matches, BufferPoolManager.Valid, BTreeRead.Leftmost, BTreeModel.Valid, Packable, Consistent, Safe,
        View, TablesOk, Settled, Holding, Valid, WellFormed, BTreeDelete.FindFrom, BTreeDelete.FindSlot, Nodes,
        Chained, LeafFor, Tree, CountOk, Descend, Route, Down, Domain, Edited, BTreeDelete.Remove, Stranded;
      ghost var l := StartReading();
      RootPage(l);
      var leaf, removed;
      ghost var found;
      leaf, removed, found := SeekEntry(key, rid, l);
      if !removed {
        Leave(leaf, l);
        FinishReading(l);
        ValidParts();
        return Some(false);
      }
      answer := DropEntry(leaf, found.0, found.1, l);
      StrandedAt(l.start, old(ix), key, rid);
    }

    /** Walks to the first leaf with the entry and takes it out in memory, or to where the walk gives up. */
    method SeekEntry(key: int, rid: Rid, ghost l: Ledger) returns (leaf: BTreePage, removed: bool, ghost found: (nat, nat))
      requires Reading(l) && l.held == {} && Tree(ix, 0) && Chained(ix)
      modifies bpm, bpm.replacer
      ensures fresh(leaf) && fresh(leaf.pageRaw) && removed == BTreeDelete.Find(ix, key, rid).Some?
      ensures removed ==> BTreeDelete.Find(ix, key, rid) == Some(found)
      ensures removed ==> Edited(leaf, ix.chain[found.0], BTreeDelete.RemoveEntry(BTreeRead.ChainLeaf(ix, found.0), found.1), l)
      ensures !removed ==> Holding(leaf, leaf.pageId, l)
    {
      hide Effect, Matches, BufferPoolManager.Valid, BTreeRead.Leftmost, BTreeModel.Valid, Packable, Consistent, Safe,
        View, TablesOk, Settled, Holding, BTreeDelete.FindFrom, BTreeDelete.FindSlot, Nodes, Chained, LeafFor, Tree,
        Descend, Route, Down, Domain, Edited, Reading;
      RootPage(l);
      var path;
      leaf, path := FindLeaf(key, l);
      ghost var i := BTreeRead.Position(ix, LeafFor(ix, key));
      while true
        invariant fresh(leaf) && fresh(leaf.pageRaw) && AtLeaf(leaf, i, l)
        invariant BTreeDelete.FindFrom(ix, i, key, rid) == BTreeDelete.Find(ix, key, rid)
        decreases |ix.chain| - i
      {
        DeleteStep(i, key, rid);
        removed := TakeOut(leaf, i, key, rid, l);
        if removed {
          found := (i, BTreeDelete.FindSlot(BTreeRead.ChainLeaf(ix, i), key, rid, 0).value);
          return;
        }
        AtLeafFacts(leaf, i, l);
        var passed := leaf.keys != [] && leaf.keys[|leaf.keys| - 1] > key;
        if passed || leaf.nextLeaf <= 0 {
          found := (0, 0);
          return;
        }
        leaf := NextLeaf(leaf, i, l);
        i := i + 1;
      }
    }

    /** A delete that could not write its count: the leaf of the entry and the header are pinned for good. */
    ghost predicate Stranded(p: Pool, jx: Index, key: int, rid: Rid)
      requires BTreeModel.Valid(jx)
      reads bpm
    {
      var found := BTreeDelete.Find(jx, key, rid);
      found.Some? && Held(p, jx, found.value.0)
    }

    ghost predicate Held(p: Pool, jx: Index, i: nat)
      reads bpm
    {
      i < |jx.chain| && 0 < jx.chain[i] && Abandoned(p, St(), fileId, {PageKey(jx.chain[i]), PageKey(0)})
    }

    lemma StrandedAt(p: Pool, jx: Index, key: int, rid: Rid)
      requires BTreeModel.Valid(jx) && BTreeDelete.Find(jx, key, rid).Some?
      ensures Stranded(p, jx, key, rid) <==> Held(p, jx, BTreeDelete.Find(jx, key, rid).value.0)
    {
    }

    lemma ValidParts()
      requires Valid()
      ensures WellFormed()
    {
    }

    /** Tries the removal in the held leaf. */
    method TakeOut(leaf: BTreePage, ghost i: nat, key: int, rid: Rid, ghost l: Ledger) returns (removed: bool)
      requires BTreeRead.Walkable(ix) && AtLeaf(leaf, i, l)
      modifies leaf
      ensures var n := BTreeRead.ChainLeaf(ix, i); var s := BTreeDelete.FindSlot(n, key, rid, 0);
        && removed == s.Some?
        && (removed ==> Edited(leaf, ix.chain[i], BTreeDelete.RemoveEntry(n, s.value), l))
        && (!removed ==> AtLeaf(leaf, i, l))
    {
      hide Reading, BTreeDelete.FindSlot, Chained, Nodes, Packable;
      AtLeafFacts(leaf, i, l);
      removed := leaf.RemoveKey(key, rid);
    }

    lemma DeleteStep(i: nat, key: int, rid: Rid)
      requires BTreeRead.Walkable(ix) && i < |ix.chain|
      ensures var n := BTreeRead.ChainLeaf(ix, i); var s := BTreeDelete.FindSlot(n, key, rid, 0);
        BTreeDelete.FindFrom(ix, i, key, rid) ==
        if s.Some? then Some((i, s.value))
        else if BTreeRead.Passed(n, key) || i + 1 == |ix.chain| then None
        else BTreeDelete.FindFrom(ix, i + 1, key, rid)
    {
    }
  
    /** Writes the leaf without its entry, and the lower count if there is one. */
    method DropEntry(leaf: BTreePage, ghost i: nat, ghost s: nat, ghost l: Ledger) returns (answer: Option<bool>)
      requires BTreeRead.Walkable(ix) && i < |ix.chain| && s < |BTreeRead.ChainLeaf(ix, i).keys|
      requires Edited(leaf, ix.chain[i], BTreeDelete.RemoveEntry(BTreeRead.ChainLeaf(ix, i), s), l)
      requires CountOk()
      modifies this, bpm, bpm.replacer, leaf.pageRaw
      ensures answer == if old(numKeys) == 0 then None else Some(true)
      ensures WellFormed() && counted == old(counted)
      ensures ix == BTreeDelete.Remove(old(ix), i, s) && numKeys == old(numKeys) - 1
      ensures stored == if answer.Some? then numKeys else old(stored)
      ensures answer.Some? ==> Valid() && Settled(l.start, St(), fileId)
      ensures answer.None? ==> !counted && Held(l.start, old(ix), i)
    {
      hide Effect, Matches, BufferPoolManager.Valid, BTreeModel.Valid, BTreeRead.Leftmost, Packable, Consistent, Safe,
        View, TablesOk, Settled, Nodes, Chained, Entries, BTreeDelete.RemoveEntry, Abandoned;
      DropReady(leaf, i, s, l);
      ghost var k := PageKey(leaf.pageId);
      ghost var l1 := l.Hold(k);
      WritePage(leaf, l1);
      numKeys := numKeys - 1;
      ghost var l2 := l1.Wrote(leaf.pageId, NodeImage(leaf.Contents()));
      HeaderReady(l2);
      HeaderKept(l2);
      var ok := WriteMetadata(stored, l2);
      if !ok {
        ghost var l4 := l2.Hold(PageKey(0)).Wrote(0, HeaderImage(rootPageId, stored));
        assert l4.held == {k, PageKey(0)};
        DropDone(i, s, stored, l4);
        EffectAbandoned(l4, St(), fileId);
        ix := BTreeDelete.Remove(ix, i, s);
        return None;
      }
      ghost var l3 := l2.Wrote(0, HeaderImage(rootPageId, numKeys));
      assert l2.Hold(PageKey(0)).Wrote(0, HeaderImage(rootPageId, numKeys)).Drop(PageKey(0)) == l3;
      SavedPage(l3, leaf.pageId);
      ReleasePage(bpm, fileId, leaf.pageId, true, l3);
      assert l3.Drop(k).held == {};
      DropDone(i, s, numKeys, l3.Drop(k));
      EffectSettled(l3.Drop(k), St(), fileId);
      ix := BTreeDelete.Remove(ix, i, s);
      stored := numKeys;
      answer := Some(true);
    }

    /** The header still shows what it did. */
    lemma HeaderKept(l: Ledger)
      requires At(l) && 0 !in l.writes && TablesOk(l.start) && Matches(l.start, fileId, ix, stored) && IndexOk()
      ensures TablesOk(St()) && U32At(View(St(), PageKey(0)), 4) == stored
    {
      assert Images(ix, stored)[0] == HeaderImage(ix.root, stored);
      assert Shows(l.start, fileId, 0, Images(ix, stored)[0]);
      EffectShows(l.start, St(), fileId, l.grown, l.writes, l.held, 0, HeaderImage(ix.root, stored));
    }

    lemma HeaderReady(l: Ledger)
      requires At(l)
      ensures 0 < NumPages(l.start.disk, fileId) ==> 0 < NumPages(bpm.disk, fileId)
    {
    }

    lemma DropReady(leaf: BTreePage, i: nat, s: nat, l: Ledger)
      requires BTreeRead.Walkable(ix) && i < |ix.chain| && s < |BTreeRead.ChainLeaf(ix, i).keys|
      requires Edited(leaf, ix.chain[i], BTreeDelete.RemoveEntry(BTreeRead.ChainLeaf(ix, i), s), l)
      requires CountOk()
      ensures Savable(leaf, l.Hold(PageKey(leaf.pageId))) && Room(l.Hold(PageKey(leaf.pageId)))
      ensures IsU32(rootPageId) && (counted ==> 0 < numKeys) && 0 < NumPages(l.start.disk, fileId) && 0 < leaf.pageId
    {
      hide Effect, BufferPoolManager.Valid, Entries, Packable, BTreeDelete.RemoveEntry, Nodes, Chained, Down, Up,
        BTreeRead.Leftmost;
      StillPackable(leaf.pageId, BTreeRead.ChainLeaf(ix, i), s);
      assert SizeOk(ix, ix.chain[i]);
      EffectSound(l.start, St(), fileId, 0, map[], {PageKey(leaf.pageId)});
      RootFits(l);
      if counted {
        var j := BTreeDelete.RemoveEntries(ix, i, s);
      }
    }

    lemma StillPackable(p: int, n: Node, s: nat)
      requires n.Leaf? && |n.rids| == |n.keys| && s < |n.keys| && Packable(p, n)
      ensures Packable(p, BTreeDelete.RemoveEntry(n, s)) && |BTreeDelete.RemoveEntry(n, s).keys| < |n.keys|
    {
      LeafPackable(p, n);
      LeafPackable(p, BTreeDelete.RemoveEntry(n, s));
    }

    lemma RootFits(l: Ledger)
      requires TablesOk(l.start) && IndexOk() && Matches(l.start, fileId, ix, stored) && rootPageId == ix.root
      ensures IsU32(rootPageId)
    {
      assert Shows(l.start, fileId, 0, Images(ix, stored)[0]);
    }

    lemma DropDone(i: nat, s: nat, c: int, l: Ledger)
      requires At(l) && l.grown == 0
      requires IndexOk() && Matches(l.start, fileId, ix, stored) && rootPageId == ix.root
      requires i < |ix.chain| && s < |BTreeRead.ChainLeaf(ix, i).keys|
      requires l.writes == map[ix.chain[i] := NodeImage(BTreeDelete.RemoveEntry(BTreeRead.ChainLeaf(ix, i), s))][0 := HeaderImage(rootPageId, c)]
      requires counted ==> numKeys == |Entries(ix)| - 1
      ensures var jx := BTreeDelete.Remove(ix, i, s);
        && BTreeModel.Valid(jx) && BTreeRead.Leftmost(jx) && BTreeRead.Walkable(jx) && jx.order == ORDER && jx.root == rootPageId
        && Matches(St(), fileId, jx, c) && (counted ==> numKeys == |Entries(jx)|)
      ensures Sound(St())
    {
      hide Effect, BufferPoolManager.Valid;
      var j := BTreeDelete.RemoveEntries(ix, i, s);
      RemoveLeftmost(i, s);
      RemoveImages(i, s, c);
      EffectMatches(l.start, St(), fileId, 0, l.writes, l.held, ix, stored, BTreeDelete.Remove(ix, i, s), c);
      EffectSound(l.start, St(), fileId, 0, l.writes, l.held);
    }

    lemma RemoveLeftmost(i: nat, s: nat)
      requires IndexOk() && i < |ix.chain| && s < |BTreeRead.ChainLeaf(ix, i).keys|
      ensures BTreeRead.Leftmost(BTreeDelete.Remove(ix, i, s))
    {
      BTreeDelete.RemoveValid(ix, i, s);
      BTreeLeftmost.PutLeafLeftmost(ix, ix.chain[i], BTreeDelete.RemoveEntry(BTreeRead.ChainLeaf(ix, i), s));
    }

    lemma RemoveImages(i: nat, s: nat, c: int)
      requires BTreeRead.Walkable(ix) && Domain(ix) && i < |ix.chain| && s < |BTreeRead.ChainLeaf(ix, i).keys|
      ensures Images(BTreeDelete.Remove(ix, i, s), c) ==
        Images(ix, stored) + map[ix.chain[i] := NodeImage(BTreeDelete.RemoveEntry(BTreeRead.ChainLeaf(ix, i), s))][0 := HeaderImage(ix.root, c)]
    {
    }
  
    // ---- Inserting: the cascade, from the root down to the leaf ----

    /** The file shows `jx`, a tree whose page `r` still waits for its parent, and the header the count `c`. */
    ghost predicate Shown(jx: Index, c: int)
      reads `rootPageId, `numKeys, bpm, bpm.replacer
    {
      && bpm.Valid() && Sound(St()) && Matches(St(), fileId, jx, c) && rootPageId == jx.root && jx.order == ORDER
      && IsU32(numKeys) && |Pinned(St())| + 3 <= NUM_FRAMES
    }

    /** The count in the header after the step from `jx` to `kx`: only a new root writes it. */
    ghost function CountAfter(jx: Index, kx: Index, c: int): int
      reads `numKeys
    {
      if kx.root == jx.root then c else numKeys
    }

    /** A new root above the old root `node` and its new sibling `sibling`. */
    method SplitRoot(node: int, sibling: int, separator: int, ghost jx: Index, ghost c: int)
      requires Shown(jx, c) && Pending(jx, [jx.root], sibling) && node == jx.root
      requires IsI32(separator) && jx.next < I32_LIMIT
      modifies this`rootPageId, bpm, bpm.replacer
      ensures Settled(old(St()), St(), fileId)
      ensures Shown(GrowRoot(jx, separator, sibling), numKeys)
    {
      hide Effect, Consistent, TablesOk, Safe, View, Matches, BufferPoolManager.Valid, Settled, Packable, Pending,
        GrowRoot;
      ghost var l := StartShown(jx, c);
      GrowFacts(jx, sibling, separator);
      var root := NewPage(false, l);
      rootPageId := root.pageId;
      root.pointers := root.pointers + [node];
      root.InsertPointer(separator, sibling);
      ghost var n := Inner([separator], [node, sibling]);
      assert root.Contents() == n;
      ghost var k := PageKey(root.pageId);
      ghost var l1 := l.Grew().Hold(k);
      Save(root, l1);
      ghost var l2 := l1.Wrote(root.pageId, NodeImage(n)).Drop(k);
      assert l2.held == {};
      HeaderReady(l2);
      var ok := WriteMetadata(c, l2);
      ghost var l3 := l2.Wrote(0, HeaderImage(rootPageId, numKeys));
      assert l2.Hold(PageKey(0)).Wrote(0, HeaderImage(rootPageId, numKeys)).Drop(PageKey(0)) == l3;
      GrowImages(jx, sibling, separator, c);
      FinishShown(jx, c, GrowRoot(jx, separator, sibling), numKeys, l3);
    }

    ghost method StartShown(jx: Index, c: int) returns (l: Ledger)
      requires Shown(jx, c)
      ensures At(l) && Room(l) && l == Ledger(St(), 0, map[], {}) && TablesOk(l.start) && Matches(l.start, fileId, jx, c)
      ensures |Pinned(l.start)| + 3 <= NUM_FRAMES && NumPages(bpm.disk, fileId) == jx.next
    {
      hide Effect, Safe, View;
      l := Ledger(St(), 0, map[], {});
      EffectNone(St(), fileId);
      assert |l.held| == 0;
    }

    /** The pages written so far turn `jx` into `kx`. */
    lemma FinishShown(jx: Index, c: int, kx: Index, d: int, l: Ledger)
      requires At(l) && l.held == {} && Matches(l.start, fileId, jx, c) && rootPageId == kx.root && kx.order == ORDER
      requires Images(kx, d) == Images(jx, c) + l.writes && kx.next == jx.next + l.grown
      requires IsU32(numKeys) && |Pinned(l.start)| + 3 <= NUM_FRAMES
      ensures Shown(kx, d) && Settled(l.start, St(), fileId)
    {
      hide Effect, Matches, Images, View, Consistent, Safe, BufferPoolManager.Valid;
      EffectMatches(l.start, St(), fileId, l.grown, l.writes, {}, jx, c, kx, d);
      EffectSettled(l, St(), fileId);
      EffectSound(l.start, St(), fileId, l.grown, l.writes, {});
      SettledRoom(l.start, St(), fileId);
    }

    lemma GrowFacts(jx: Index, r: int, sep: int)
      requires Pending(jx, [jx.root], r) && jx.next < I32_LIMIT && IsI32(sep)
      ensures 1 < jx.next && 1 <= jx.root < jx.next && 1 <= r < jx.next && r in jx.pages && Domain(jx)
      ensures Packable(jx.next, Inner([sep], [jx.root, r]))
      ensures var kx := GrowRoot(jx, sep, r);
        && kx.root == jx.next && kx.next == jx.next + 1 && kx.order == jx.order
    {
    }

    lemma GrowImages(jx: Index, r: int, sep: int, c: int)
      requires Domain(jx) && r in jx.pages
      ensures Images(GrowRoot(jx, sep, r), numKeys) ==
        Images(jx, c) + map[jx.next := NodeImage(Inner([sep], [jx.root, r]))][0 := HeaderImage(jx.next, numKeys)]
    {
    }
  
    /** The separator a parent takes for `newNode`: a given 0 counts as none. */
    function MinKey(separator: Option<int>, first: int): int {
      if separator.Some? && separator.value != 0 then separator.value else first
    }

    /** `newNode` is the page `r` of `jx`, decoded and not empty. */
    ghost predicate Newcomer(newNode: BTreePage, jx: Index)
      reads newNode
    {
      && newNode.Valid() && newNode.keys != [] && newNode.pageId in jx.pages
      && newNode.Contents() == jx.pages[newNode.pageId] && Packable(newNode.pageId, newNode.Contents())
    }

    /** Hangs `newNode` into the page at `path[idx]`, splitting it in turn when it overflows. */
    method UpdateParent(path: seq<int>, idx: nat, newNode: BTreePage, separator: Option<int>, ghost jx: Index, ghost c: int)
      requires Shown(jx, c) && idx + 1 < |path| && Pending(jx, path[..idx + 2], newNode.pageId) && Newcomer(newNode, jx)
      requires jx.next + idx + 2 <= I32_LIMIT && (separator.Some? ==> IsI32(separator.value))
      modifies this`rootPageId, bpm, bpm.replacer
      ensures Settled(old(St()), St(), fileId)
      ensures var kx := Hang(jx, path[..idx + 2], newNode.pageId, MinKey(separator, newNode.keys[0])); Shown(kx, CountAfter(jx, kx, c))
      decreases idx, 1
    {
      hide Effect, Consistent, TablesOk, Safe, View, Matches, BufferPoolManager.Valid, Settled, Packable, Pending,
        Hang, Fed, Spilt, Attach, Promoted, InsertPointer, Shows;
      ghost var up := path[..idx + 2];
      ghost var r := newNode.pageId;
      ghost var l := StartShown(jx, c);
      ParentFacts(jx, c, up, r);
      var node := ReadPage(path[idx], jx.pages[path[idx]], l);
      var minKey := MinKey(separator, newNode.keys[0]);
      FirstKeyFits(newNode, jx);
      FedFacts(jx, c, up, r, minKey, newNode);
      node.InsertPointer(minKey, newNode.pageId);
      var overflow := node.IsOverflow();
      if !overflow {
        ghost var k := PageKey(node.pageId);
        Save(node, l.Hold(k));
        FinishShown(jx, c, Fed(jx, up, r, minKey), c, l.Hold(k).Wrote(node.pageId, NodeImage(node.Contents())).Drop(k));
        return;
      }
      OverflowFacts(jx, up, r, minKey, l);
      SplitInternal(node, path, idx, jx, c, r, minKey, l);
    }

    lemma FirstKeyFits(newNode: BTreePage, jx: Index)
      requires Newcomer(newNode, jx)
      ensures IsI32(newNode.keys[0])
    {
      assert IsI32(newNode.Contents().keys[0]);
    }

    lemma ParentFacts(jx: Index, c: int, up: seq<int>, r: int)
      requires 2 <= |up| && Pending(jx, up, r) && Shown(jx, c)
      ensures ParentOf(up) in jx.pages && 0 <= ParentOf(up) && jx.pages[ParentOf(up)].Inner? && PageOk(jx, ParentOf(up))
      ensures Shows(St(), fileId, ParentOf(up), NodeImage(jx.pages[ParentOf(up)]))
      ensures ParentOf(up) < jx.next && |jx.pages[ParentOf(up)].keys| <= ORDER
    {
      ParentReady(jx, up, r);
      MatchesNode(St(), fileId, jx, c, ParentOf(up));
    }

    lemma FedFacts(jx: Index, c: int, up: seq<int>, r: int, sep: int, newNode: BTreePage)
      requires 2 <= |up| && Pending(jx, up, r) && ParentOf(up) in jx.pages && jx.pages[ParentOf(up)].Inner? && PageOk(jx, ParentOf(up))
      requires Packable(ParentOf(up), jx.pages[ParentOf(up)]) && IsI32(sep) && Newcomer(newNode, jx) && newNode.pageId == r
      requires |jx.pages[ParentOf(up)].keys| <= ORDER
      ensures var p := ParentOf(up); var n := InsertPointer(jx.pages[p], sep, r);
        && Packable(p, n) && |n.keys| == |jx.pages[p].keys| + 1
        && p in Fed(jx, up, r, sep).pages && Fed(jx, up, r, sep).pages[p] == n
        && Images(Fed(jx, up, r, sep), c) == Images(jx, c) + map[p := NodeImage(n)]
        && (Fed(jx, up, r, sep)).root == jx.root && Fed(jx, up, r, sep).order == jx.order && Fed(jx, up, r, sep).next == jx.next
        && (|jx.pages[p].keys| < jx.order ==> Hang(jx, up, r, sep) == Fed(jx, up, r, sep))
    {
      hide Nodes, Down, Up, Chained, Ladder, Sizes, Packable, InsertPointer, Spilt;
      assert Domain(jx) && Fed(jx, up, r, sep).pages == jx.pages[ParentOf(up) := InsertPointer(jx.pages[ParentOf(up)], sep, r)];
      PointerFits(ParentOf(up), jx.pages[ParentOf(up)], sep, newNode, jx);
    }

    lemma PointerFits(p: int, n: Node, sep: int, newNode: BTreePage, jx: Index)
      requires n.Inner? && |n.ptrs| == |n.keys| + 1 && Packable(p, n) && IsI32(sep) && Newcomer(newNode, jx) && |n.keys| <= ORDER
      ensures Packable(p, InsertPointer(n, sep, newNode.pageId)) && |InsertPointer(n, sep, newNode.pageId).keys| == |n.keys| + 1
    {
      hide UpperBound;
    }
  
    /** Splits the overfull page at `path[idx]`, which has just taken in page `r`, and carries on above it. */
    method SplitInternal(node: BTreePage, path: seq<int>, idx: nat, ghost jx: Index, ghost c: int, ghost r: int, ghost sep: int, ghost l: Ledger)
      requires idx + 1 < |path| && Pending(jx, path[..idx + 2], r) && Spills(jx, path[..idx + 2], r)
      requires Splitting(node, path[..idx + 2], jx, c, r, sep, l)
      requires jx.next + idx + 2 <= I32_LIMIT
      modifies this`rootPageId, bpm, bpm.replacer, node, node.pageRaw
      ensures Settled(l.start, St(), fileId)
      ensures var kx := Hang(jx, path[..idx + 2], r, sep); Shown(kx, CountAfter(jx, kx, c))
      decreases idx, 0
    {
      hide Effect, Consistent, TablesOk, Safe, View, Matches, BufferPoolManager.Valid, Settled, Packable, Pending,
        Hang, Fed, Spilt, Promoted, Shows, Spills, Shown, Newcomer;
      ghost var up := path[..idx + 2];
      var newNode, splitKey := Divide(node, up, jx, c, r, sep, l);
      ghost var kx := Spilt(jx, up, r, sep);
      SpiltFacts(jx, up, r, sep);
      assert up[..|up| - 1] == path[..idx + 1];
      ghost var mid := St();
      if idx == 0 {
        assert up[..1] == [up[0]];
        SplitRoot(node.pageId, newNode.pageId, splitKey, kx, c);
      } else {
        assert path[..idx + 1] == path[..(idx - 1) + 2];
        UpdateParent(path, idx - 1, newNode, Some(splitKey), kx, c);
      }
      SettledChain(l.start, mid, St(), fileId);
    }

    /** `node` is the overfull parent, in memory only, held. */
    ghost predicate Splitting(node: BTreePage, up: seq<int>, jx: Index, c: int, r: int, sep: int, l: Ledger)
      requires 2 <= |up| && Pending(jx, up, r)
      reads `rootPageId, `numKeys, bpm, bpm.replacer, node
    {
      && 0 <= ParentOf(up) && l == Ledger(l.start, 0, map[], {}) && At(l.Hold(PageKey(ParentOf(up))))
      && TablesOk(l.start) && Matches(l.start, fileId, jx, c) && |Pinned(l.start)| + 3 <= NUM_FRAMES
      && rootPageId == jx.root && jx.order == ORDER && IsU32(numKeys)
      && node.Valid() && !node.isLeaf && node.pageId == ParentOf(up) && node.pageRaw.Length == PAGE_SIZE
      && ParentOf(up) in Fed(jx, up, r, sep).pages && node.Contents() == Fed(jx, up, r, sep).pages[ParentOf(up)]
      && Packable(node.pageId, node.Contents()) && |node.keys| == ORDER + 1
    }

    lemma SpiltFacts(jx: Index, up: seq<int>, r: int, sep: int)
      requires 2 <= |up| && Pending(jx, up, r) && Spills(jx, up, r)
      ensures Pending(Spilt(jx, up, r, sep), up[..|up| - 1], jx.next) && up[0] == jx.root && jx.root < jx.next
      ensures 3 <= |Fed(jx, up, r, sep).pages[ParentOf(up)].keys|
      ensures var n := Fed(jx, up, r, sep).pages[ParentOf(up)];
        Hang(jx, up, r, sep) == Hang(Spilt(jx, up, r, sep), up[..|up| - 1], jx.next, Promoted(n, |up| == 2))
      ensures var n := Fed(jx, up, r, sep).pages[ParentOf(up)]; var s := |n.keys| / 2;
        && s + 1 < |n.keys|
        && Promoted(n, true) == n.keys[s]
        && Promoted(n, false) == MinKey(Some(n.keys[s]), n.keys[s + 1])
      ensures var n := Fed(jx, up, r, sep).pages[ParentOf(up)];
        |up| == 2 ==> Hang(jx, up, r, sep) == GrowRoot(Spilt(jx, up, r, sep), Promoted(n, true), jx.next)
      ensures Spilt(jx, up, r, sep).root == jx.root && Spilt(jx, up, r, sep).next == jx.next + 1
    {
      SpiltPending(jx, up, r, sep);
    }
  
    lemma OverflowFacts(jx: Index, up: seq<int>, r: int, sep: int, l: Ledger)
      requires 2 <= |up| && Pending(jx, up, r) && jx.order == ORDER
      ensures ParentOf(up) in jx.pages && ORDER == |jx.pages[ParentOf(up)].keys| ==> Spills(jx, up, r)
    {
    }

    /** The upper half of the page's keys and pointers moves to a new page; the middle key leaves both. */
    method Divide(node: BTreePage, ghost up: seq<int>, ghost jx: Index, ghost c: int, ghost r: int, ghost sep: int, ghost l: Ledger)
      returns (newNode: BTreePage, splitKey: int)
      requires 2 <= |up| && Pending(jx, up, r) && Spills(jx, up, r) && Splitting(node, up, jx, c, r, sep, l)
      requires jx.next < I32_LIMIT
      modifies bpm, bpm.replacer, node, node.pageRaw
      ensures Settled(l.start, St(), fileId) && Shown(Spilt(jx, up, r, sep), c)
      ensures fresh(newNode) && fresh(newNode.pageRaw) && node.pageId == ParentOf(up)
      ensures newNode.pageId == jx.next && Newcomer(newNode, Spilt(jx, up, r, sep)) && IsI32(splitKey)
      ensures var n := Fed(jx, up, r, sep).pages[ParentOf(up)]; var s := |n.keys| / 2;
        1 <= s && s + 1 < |n.keys| && splitKey == n.keys[s] && newNode.keys[0] == n.keys[s + 1]
    {
      hide Effect, Consistent, TablesOk, Safe, View, Matches, BufferPoolManager.Valid, Settled, Packable, Pending,
        Hang, Fed, Spilt, Promoted, Shows, Spills, Shown, Images;
      ghost var n := node.Contents();
      DividedPages(jx, c, up, r, sep, l, n);
      HalvesPackable(ParentOf(up), jx.next, n);
      ghost var k := PageKey(node.pageId);
      EffectSound(l.start, St(), fileId, l.grown, l.writes, l.Hold(k).held);
      newNode := NewPage(false, l.Hold(k));
      ghost var q := PageKey(newNode.pageId);
      splitKey := HalveInner(node, newNode);
      ghost var l1 := l.Hold(k).Grew().Hold(q);
      Save(node, l1);
      ghost var l2 := l1.Wrote(node.pageId, NodeImage(node.Contents())).Drop(k);
      Save(newNode, l2);
      ghost var l3 := l2.Wrote(newNode.pageId, NodeImage(newNode.Contents())).Drop(q);
      assert l3.held == {};
      FinishShown(jx, c, Spilt(jx, up, r, sep), c, l3);
    }

    lemma HalvesPackable(p: int, q: int, n: Node)
      requires n.Inner? && Packable(p, n) && 0 <= q < I32_LIMIT && |n.keys| == ORDER + 1
      ensures IsI32(n.keys[|n.keys| / 2])
      ensures Packable(p, LeftHalf(n)) && Packable(q, RightHalf(n))
    {
    }

    function LeftHalf(n: Node): Node
      requires n.Inner? && |n.ptrs| == |n.keys| + 1
    {
      Inner(n.keys[..|n.keys| / 2], n.ptrs[..|n.keys| / 2 + 1])
    }

    function RightHalf(n: Node): Node
      requires n.Inner? && |n.ptrs| == |n.keys| + 1 && n.keys != []
    {
      Inner(n.keys[|n.keys| / 2 + 1..], n.ptrs[|n.keys| / 2 + 1..])
    }

    method HalveInner(node: BTreePage, newNode: BTreePage) returns (splitKey: int)
      requires node.Valid() && !node.isLeaf && 3 <= |node.keys| && !newNode.isLeaf && node != newNode
      modifies node`keys, node`pointers, node`numKeys, newNode`keys, newNode`pointers, newNode`numKeys
      ensures node.Valid() && newNode.Valid()
      ensures var n := old(node.Contents()); var s := |n.keys| / 2;
        && splitKey == n.keys[s]
        && node.Contents() == LeftHalf(n) && newNode.Contents() == RightHalf(n)
    {
      var splitIndex := node.numKeys / 2;
      newNode.keys := node.keys[splitIndex + 1..];
      newNode.pointers := node.pointers[splitIndex + 1..];
      splitKey := node.keys[splitIndex];
      node.keys := node.keys[..splitIndex];
      node.pointers := node.pointers[..splitIndex + 1];
      node.numKeys := |node.keys|;
      newNode.numKeys := |newNode.keys|;
    }

    lemma DividedPages(jx: Index, c: int, up: seq<int>, r: int, sep: int, l: Ledger, n: Node)
      requires 2 <= |up| && Pending(jx, up, r) && Spills(jx, up, r) && TablesOk(l.start) && Matches(l.start, fileId, jx, c)
      requires ParentOf(up) in Fed(jx, up, r, sep).pages && n == Fed(jx, up, r, sep).pages[ParentOf(up)]
      requires n.Inner? && |n.ptrs| == |n.keys| + 1 && |n.keys| == ORDER + 1
      ensures NumPages(l.start.disk, fileId) == jx.next && 1 <= ParentOf(up) < jx.next
      ensures var kx := Spilt(jx, up, r, sep);
        && kx.pages == jx.pages[ParentOf(up) := LeftHalf(n)][jx.next := RightHalf(n)]
        && kx.root == jx.root && kx.order == jx.order && kx.next == jx.next + 1
      ensures Images(Spilt(jx, up, r, sep), c) ==
        Images(jx, c) + map[ParentOf(up) := NodeImage(LeftHalf(n))][jx.next := NodeImage(RightHalf(n))]
    {
      hide Sizes, Chained, Ladder, Nodes, Down, Up, Matches;
      ParentReady(jx, up, r);
      AttachTree(jx, ParentOf(up), sep, r);
      var kx := Spilt(jx, up, r, sep);
      assert kx.pages == jx.pages[ParentOf(up) := LeftHalf(n)][jx.next := RightHalf(n)];
      NextPage(jx, c, l.start);
      TwoImages(jx, kx, c, ParentOf(up), LeftHalf(n), jx.next, RightHalf(n));
    }

    lemma NextPage(jx: Index, c: int, st: Pool)
      requires TablesOk(st) && Matches(st, fileId, jx, c)
      ensures NumPages(st.disk, fileId) == jx.next
    {
    }

    lemma TwoImages(jx: Index, kx: Index, c: int, p: int, n: Node, q: int, m: Node)
      requires kx.pages == jx.pages[p := n][q := m] && kx.root == jx.root && p != 0 && q != 0
      ensures Images(kx, c) == Images(jx, c) + map[p := NodeImage(n)][q := NodeImage(m)]
    {
    }
  
    // ---- Inserting: the leaf ----

    /** Adds the entry, whatever the key's copies so far. */
    method Insert(key: int, rid: Rid)
      requires Valid() && |Pinned(St())| + 3 <= NUM_FRAMES
      requires IsI32(key) && IsU32(rid.0) && IsU32(rid.1) && IsU32(numKeys + 1)
      requires ix.next + ix.level[ix.root] + 2 <= I32_LIMIT
      modifies this, bpm, bpm.replacer
      ensures Valid() && Settled(old(St()), St(), fileId) && counted == old(counted)
      ensures ix == BTreeInsert.Insert(old(ix), key, rid) && numKeys == old(numKeys) + 1
      ensures stored == if ix.root == old(ix).root then old(stored) else numKeys
    {
      hide Effect, Consistent, TablesOk, Safe, View, Matches, BufferPoolManager.Valid, Settled, Packable,
        BTreeModel.Valid, BTreeRead.Leftmost, Holding, InsertEntry, Descend, Tree, Entries, BTreeInsert.Insert,
        CountOk, CountAhead, Edited, Added;
      ghost var l := StartReading();
      RootPage(l);
      var leaf, path := FindLeaf(key, l);
      AddEntry(leaf, key, rid, l);
      CountUp();
      var overflow := leaf.IsOverflow();
      if !overflow {
        SaveLeaf(leaf, key, rid, l);
        return;
      }
      SplitLeaf(leaf, path, key, rid, l);
    }

    /** The count is one ahead of the entries while the new one is not stored. */
    ghost predicate CountAhead()
      reads `ix, `numKeys, `counted
    {
      IsU32(numKeys) && (counted ==> BTreeRead.Walkable(ix) && numKeys == |Entries(ix)| + 1)
    }

    method CountUp()
      requires CountOk() && IsU32(numKeys + 1)
      modifies `numKeys
      ensures CountAhead() && numKeys == old(numKeys) + 1
    {
      numKeys := numKeys + 1;
    }

    /** `leaf` holds the leaf for `key` with the new entry in it, in memory only. */
    ghost predicate Added(leaf: BTreePage, key: int, rid: Rid, l: Ledger)
      reads `ix, `stored, `rootPageId, bpm, bpm.replacer, leaf
    {
      && Tree(ix, 0) && Chained(ix) && PageOk(ix, LeafFor(ix, key)) && leaf.isLeaf
      && Edited(leaf, LeafFor(ix, key), InsertEntry(ix.pages[LeafFor(ix, key)], key, rid), l)
      && Packable(leaf.pageId, leaf.Contents()) && |leaf.keys| <= ORDER + 1
      && |Pinned(l.start)| + 3 <= NUM_FRAMES
    }

    method AddEntry(leaf: BTreePage, key: int, rid: Rid, ghost l: Ledger)
      requires Tree(ix, 0) && Holding(leaf, LeafFor(ix, key), l) && |Pinned(l.start)| + 3 <= NUM_FRAMES
      requires IsI32(key) && IsU32(rid.0) && IsU32(rid.1)
      modifies leaf
      ensures Added(leaf, key, rid, l) && leaf.Valid() && |leaf.keys| <= ORDER + 1
    {
      hide Effect, Consistent, TablesOk, Safe, View, Matches, BufferPoolManager.Valid, Packable, BTreeRead.Leftmost,
        InsertEntry, LeafFor, Nodes, Down, Up;
      ghost var n := leaf.Contents();
      assert PageOk(ix, leaf.pageId) && SizeOk(ix, leaf.pageId) by { LeafOk(leaf.pageId); }
      EntryPackable(leaf.pageId, n, key, rid);
      leaf.Insert(key, rid);
    }

    lemma LeafOk(p: int)
      requires IndexOk() && p in ix.pages
      ensures PageOk(ix, p) && SizeOk(ix, p)
    {
    }

    lemma EntryPackable(p: int, n: Node, key: int, rid: Rid)
      requires n.Leaf? && |n.rids| == |n.keys| && |n.keys| <= ORDER && Packable(p, n)
      requires IsI32(key) && IsU32(rid.0) && IsU32(rid.1)
      ensures Packable(p, InsertEntry(n, key, rid)) && |InsertEntry(n, key, rid).keys| == |n.keys| + 1
    {
      LeafPackable(p, n);
      LeafPackable(p, InsertEntry(n, key, rid));
    }

    /** The leaf has room: it is written back and the insert is over. */
    method SaveLeaf(leaf: BTreePage, ghost key: int, ghost rid: Rid, ghost l: Ledger)
      requires Added(leaf, key, rid, l) && |leaf.keys| <= ORDER && CountAhead()
      modifies `ix, bpm, bpm.replacer, leaf.pageRaw
      ensures Valid() && Settled(l.start, St(), fileId)
      ensures BTreeModel.Valid(old(ix)) && ix == BTreeInsert.Insert(old(ix), key, rid) && ix.root == old(ix).root
    {
      hide Effect, Consistent, TablesOk, Safe, View, Matches, BufferPoolManager.Valid, Settled, Packable,
        BTreeModel.Valid, BTreeRead.Leftmost, InsertEntry, Descend, Tree, Chained, Entries, BTreeInsert.Insert,
        CountAhead, WithEntry;
      ghost var k := PageKey(leaf.pageId);
      SaveReady(leaf, key, rid, l);
      Save(leaf, l.Hold(k));
      ghost var l1 := l.Hold(k).Wrote(leaf.pageId, NodeImage(leaf.Contents())).Drop(k);
      assert l1.held == {};
      SaveDone(key, rid, l1);
      ix := BTreeInsert.Insert(ix, key, rid);
    }

    lemma SaveReady(leaf: BTreePage, key: int, rid: Rid, l: Ledger)
      requires Added(leaf, key, rid, l)
      ensures BTreeModel.Valid(ix) && leaf.pageId == LeafFor(ix, key) && 1 <= leaf.pageId < ix.next
      ensures Savable(leaf, l.Hold(PageKey(leaf.pageId)))
      ensures NumPages(l.start.disk, fileId) == ix.next
      ensures |leaf.keys| == ORDER + 1 <==> Full(ix, LeafFor(ix, key))
    {
      hide Effect, Consistent, Safe, View, BufferPoolManager.Valid, Packable, BTreeRead.Leftmost, Nodes, Down, Up,
        Chained, Sizes;
      EffectSound(l.start, St(), fileId, 0, map[], {PageKey(leaf.pageId)});
      NextPage(ix, stored, l.start);
    }

    /** The index after the insert, and the count. */
    lemma InsertDone(key: int, rid: Rid)
      requires IndexOk() && CountAhead()
      ensures var jx := BTreeInsert.Insert(ix, key, rid);
        && BTreeModel.Valid(jx) && BTreeRead.Leftmost(jx) && BTreeRead.Walkable(jx) && jx.order == ORDER
        && IsU32(numKeys) && (counted ==> numKeys == |Entries(jx)|)
    {
      hide BTreeRead.Leftmost, BTreeInsert.Insert;
      var j := InsertEntries(ix, key, rid);
      BTreeLeftmost.InsertLeftmost(ix, key, rid);
      BTreeRuns.InsertOrder(ix, key, rid);
    }

    lemma SaveDone(key: int, rid: Rid, l: Ledger)
      requires At(l) && l.held == {} && l.grown == 0 && IndexOk() && CountAhead()
      requires Matches(l.start, fileId, ix, stored) && rootPageId == ix.root && !Full(ix, LeafFor(ix, key)) && PageOk(ix, LeafFor(ix, key))
      requires l.writes == map[LeafFor(ix, key) := NodeImage(InsertEntry(ix.pages[LeafFor(ix, key)], key, rid))]
      ensures var jx := BTreeInsert.Insert(ix, key, rid);
        && BTreeModel.Valid(jx) && BTreeRead.Leftmost(jx) && BTreeRead.Walkable(jx) && jx.order == ORDER && jx.root == rootPageId
        && Matches(St(), fileId, jx, stored) && IsU32(numKeys) && (counted ==> numKeys == |Entries(jx)|)
      ensures Sound(St()) && Settled(l.start, St(), fileId)
    {
      hide Effect, BufferPoolManager.Valid, Matches, CountAhead, BTreeRead.Leftmost, Consistent, Safe, View;
      InsertDone(key, rid);
      EntryImages(key, rid);
      EffectMatches(l.start, St(), fileId, 0, l.writes, {}, ix, stored, BTreeInsert.Insert(ix, key, rid), stored);
      EffectSettled(l, St(), fileId);
      EffectSound(l.start, St(), fileId, 0, l.writes, {});
    }

    lemma EntryImages(key: int, rid: Rid)
      requires BTreeModel.Valid(ix) && !Full(ix, LeafFor(ix, key)) && PageOk(ix, LeafFor(ix, key))
      ensures BTreeInsert.Insert(ix, key, rid).root == ix.root && BTreeInsert.Insert(ix, key, rid).next == ix.next
      ensures Images(BTreeInsert.Insert(ix, key, rid), stored) ==
        Images(ix, stored) + map[LeafFor(ix, key) := NodeImage(InsertEntry(ix.pages[LeafFor(ix, key)], key, rid))]
    {
      hide Nodes, Down, Up, Chained, Sizes, InsertEntry, Domain;
    }
  
    /** The overfull leaf gives its upper half to a new page, which then goes up the path. */
    method SplitLeaf(leaf: BTreePage, path: seq<int>, ghost key: int, ghost rid: Rid, ghost l: Ledger)
      requires Added(leaf, key, rid, l) && |leaf.keys| == ORDER + 1 && CountAhead()
      requires path == Descend(ix, ix.root, key) && ix.next + ix.level[ix.root] + 2 <= I32_LIMIT
      modifies `ix, `stored, `rootPageId, bpm, bpm.replacer, leaf, leaf.pageRaw
      ensures Valid() && Settled(l.start, St(), fileId)
      ensures BTreeModel.Valid(old(ix)) && ix == BTreeInsert.Insert(old(ix), key, rid)
      ensures stored == if ix.root == old(ix).root then old(stored) else numKeys
    {
      hide Effect, Consistent, TablesOk, Safe, View, Matches, BufferPoolManager.Valid, Settled, Packable,
        BTreeModel.Valid, BTreeRead.Leftmost, InsertEntry, Descend, Tree, Chained, Entries, BTreeInsert.Insert,
        CountAhead, WithEntry, Shown, Pending, Hang, Newcomer, Added, BTreeModel.SplitLeaf, GrowRoot;
      SplitFacts(leaf, key, rid, l);
      var newNode := DivideLeaf(leaf, key, rid, l);
      ghost var kx := BTreeModel.SplitLeaf(WithEntry(ix, key, rid), leaf.pageId);
      ghost var mid := St();
      NewFirst(newNode, kx, key, rid);
      var indexOfParent := |path| - 2;
      if indexOfParent >= 0 {
        assert path[..indexOfParent + 2] == path;
        UpdateParent(path, indexOfParent, newNode, None, kx, stored);
      } else {
        assert path == [path[0]];
        SplitRoot(leaf.pageId, newNode.pageId, newNode.keys[0], kx, stored);
      }
      SettledChain(l.start, mid, St(), fileId);
      InsertDone(key, rid);
      ghost var jx := BTreeInsert.Insert(ix, key, rid);
      ShownFacts(jx, CountAfter(ix, jx, stored));
      stored := CountAfter(ix, jx, stored);
      ix := jx;
    }

    lemma ShownFacts(jx: Index, c: int)
      requires Shown(jx, c)
      ensures bpm.Valid() && Sound(St()) && Matches(St(), fileId, jx, c) && rootPageId == jx.root
    {
    }

    /** The facts about the split the method needs. */
    lemma SplitFacts(leaf: BTreePage, key: int, rid: Rid, l: Ledger)
      requires Added(leaf, key, rid, l) && |leaf.keys| == ORDER + 1
      ensures BTreeModel.Valid(ix) && IndexOk() && Domain(ix) && Tree(ix, 0) && leaf.pageId == LeafFor(ix, key) && Full(ix, LeafFor(ix, key))
      ensures var wx := WithEntry(ix, key, rid);
        Tree(wx, 0) && Chained(wx) && IsLeaf(wx, leaf.pageId) && |wx.pages[leaf.pageId].keys| == wx.order + 1
      ensures var kx := BTreeModel.SplitLeaf(WithEntry(ix, key, rid), leaf.pageId); var path := Descend(ix, ix.root, key);
        && Pending(kx, path, ix.next) && kx.next == ix.next + 1 && kx.root == ix.root
        && BTreeInsert.Insert(ix, key, rid) == Hang(kx, path, ix.next, SplitSep(ix, key, rid))
        && (|path| == 1 ==> Hang(kx, path, ix.next, SplitSep(ix, key, rid)) == GrowRoot(kx, SplitSep(ix, key, rid), ix.next))
        && (|path| == 1 ==> GrowRoot(kx, SplitSep(ix, key, rid), ix.next).root != ix.root)
        && |path| == ix.level[ix.root] + 1 && path[0] == ix.root && path[|path| - 1] == leaf.pageId
    {
      hide Effect, Matches, BufferPoolManager.Valid, BTreeRead.Leftmost, Packable, Sizes, Nodes, Down, Up, Chained,
        Hang, Pending;
      SplitPending(ix, key, rid);
      PathLadder(ix, key);
      SplitFactsTop(key, rid);
    }

    lemma SplitFactsTop(key: int, rid: Rid)
      requires BTreeModel.Valid(ix) && Full(ix, LeafFor(ix, key)) && Ladder(ix, Descend(ix, ix.root, key))
      requires Tree(WithEntry(ix, key, rid), 0) && Chained(WithEntry(ix, key, rid)) && IsLeaf(WithEntry(ix, key, rid), LeafFor(ix, key))
      requires |WithEntry(ix, key, rid).pages[LeafFor(ix, key)].keys| == ix.order + 1
      requires Pending(BTreeModel.SplitLeaf(WithEntry(ix, key, rid), LeafFor(ix, key)), Descend(ix, ix.root, key), ix.next)
      ensures var kx := BTreeModel.SplitLeaf(WithEntry(ix, key, rid), LeafFor(ix, key)); var path := Descend(ix, ix.root, key);
        && kx.next == ix.next + 1 && kx.root == ix.root
        && (|path| == 1 ==> Hang(kx, path, ix.next, SplitSep(ix, key, rid)) == GrowRoot(kx, SplitSep(ix, key, rid), ix.next))
        && (|path| == 1 ==> GrowRoot(kx, SplitSep(ix, key, rid), ix.next).root != ix.root)
        && |path| == ix.level[ix.root] + 1
    {
      hide Sizes, Down, Up, Chained, Pending;
      var path := Descend(ix, ix.root, key);
      assert Rung(ix, path, |path| - 1);
      assert PageOk(ix, LeafFor(ix, key));
    }

    lemma NewFirst(newNode: BTreePage, kx: Index, key: int, rid: Rid)
      requires BTreeModel.Valid(ix) && Newcomer(newNode, kx) && newNode.Contents() == UpperLeaf(ix, key, rid)
      ensures newNode.keys != []
      ensures MinKey(None, newNode.keys[0]) == SplitSep(ix, key, rid) == newNode.keys[0] && IsI32(newNode.keys[0])
    {
      FirstKeyFits(newNode, kx);
    }

    /** The upper half of the overfull leaf. */
    function UpperLeaf(jx: Index, key: int, rid: Rid): Node
      requires Tree(jx, 0)
    {
      assert PageOk(jx, LeafFor(jx, key));
      var n := InsertEntry(jx.pages[LeafFor(jx, key)], key, rid);
      Leaf(n.keys[|n.keys| / 2..], n.rids[|n.keys| / 2..], LeafFor(jx, key), n.next)
    }

    function LowerLeaf(jx: Index, key: int, rid: Rid): Node
      requires Tree(jx, 0)
    {
      assert PageOk(jx, LeafFor(jx, key));
      var n := InsertEntry(jx.pages[LeafFor(jx, key)], key, rid);
      Leaf(n.keys[..|n.keys| / 2], n.rids[..|n.keys| / 2], n.prev, jx.next)
    }

    /** In memory: keys and rids from the middle on, and the links on both sides of the new page. */
    method HalveLeaf(leaf: BTreePage, newNode: BTreePage)
      requires leaf.Valid() && leaf.isLeaf && newNode.isLeaf && leaf != newNode
      modifies leaf`keys, leaf`RIDs, leaf`numKeys, leaf`nextLeaf
      modifies newNode`keys, newNode`RIDs, newNode`numKeys, newNode`nextLeaf, newNode`prevLeaf
      ensures leaf.Valid() && newNode.Valid()
      ensures var n := old(leaf.Contents()); var s := |n.keys| / 2;
        && leaf.Contents() == Leaf(n.keys[..s], n.rids[..s], n.prev, newNode.pageId)
        && newNode.Contents() == Leaf(n.keys[s..], n.rids[s..], leaf.pageId, n.next)
    {
      var splitIndex := leaf.numKeys / 2;
      newNode.keys := leaf.keys[splitIndex..];
      newNode.RIDs := leaf.RIDs[splitIndex..];
      leaf.keys := leaf.keys[..splitIndex];
      leaf.RIDs := leaf.RIDs[..splitIndex];
      newNode.numKeys := |newNode.keys|;
      leaf.numKeys := |leaf.keys|;
      newNode.nextLeaf := leaf.nextLeaf;
      leaf.nextLeaf := newNode.pageId;
      newNode.prevLeaf := leaf.pageId;
    }

    /** The leaf after the new page points back to it. */
    method FixNext(next: int, r: int, ghost l: Ledger)
      requires At(l) && Room(l) && l.writes == map[] && 0 < next && next in ix.pages && ix.pages[next].Leaf? && IsI32(r)
      requires TablesOk(l.start) && Matches(l.start, fileId, ix, stored) && Domain(ix) && PageKey(next) !in l.held
      requires |ix.pages[next].keys| <= ORDER
      modifies bpm, bpm.replacer
      ensures At(l.Wrote(next, NodeImage(ix.pages[next].(prev := r))))
    {
      hide Effect, Consistent, TablesOk, Safe, View, Matches, BufferPoolManager.Valid, Packable, Shows;
      ghost var n := ix.pages[next];
      MatchesNode(l.start, fileId, ix, stored, next);
      EffectShows(l.start, St(), fileId, l.grown, l.writes, l.held, next, NodeImage(n));
      NextPage(ix, stored, l.start);
      var node := ReadPage(next, n, l);
      node.prevLeaf := r;
      LeafPackable(next, n);
      LeafPackable(next, n.(prev := r));
      ghost var k := PageKey(next);
      Save(node, l.Hold(k));
      assert l.Hold(k).Wrote(next, NodeImage(n.(prev := r))).Drop(k) == l.Wrote(next, NodeImage(n.(prev := r)));
    }

    method DivideLeaf(leaf: BTreePage, ghost key: int, ghost rid: Rid, ghost l: Ledger) returns (newNode: BTreePage)
      requires Added(leaf, key, rid, l) && |leaf.keys| == ORDER + 1 && CountAhead()
      requires ix.next < I32_LIMIT
      modifies bpm, bpm.replacer, leaf, leaf.pageRaw
      ensures fresh(newNode) && fresh(newNode.pageRaw) && leaf.pageId == old(leaf.pageId)
      ensures BTreeModel.Valid(ix) && leaf.pageId == LeafFor(ix, key) && Full(ix, LeafFor(ix, key))
      ensures var wx := WithEntry(ix, key, rid);
        Tree(wx, 0) && Chained(wx) && IsLeaf(wx, leaf.pageId) && |wx.pages[leaf.pageId].keys| == wx.order + 1
      ensures Shown(BTreeModel.SplitLeaf(WithEntry(ix, key, rid), leaf.pageId), stored) && Settled(l.start, St(), fileId)
      ensures newNode.pageId == ix.next && newNode.Contents() == UpperLeaf(ix, key, rid)
      ensures Newcomer(newNode, BTreeModel.SplitLeaf(WithEntry(ix, key, rid), leaf.pageId))
    {
      hide Effect, Consistent, TablesOk, Safe, View, Matches, BufferPoolManager.Valid, Settled, Packable,
        BTreeModel.Valid, BTreeRead.Leftmost, InsertEntry, Descend, Tree, Chained, Entries, BTreeInsert.Insert,
        WithEntry, Shown, Pending, Hang, BTreeModel.SplitLeaf, UpperLeaf, LowerLeaf, Images;
      SplitFacts(leaf, key, rid, l);
      SaveReady(leaf, key, rid, l);
      LeafHalves(leaf, key, rid, l);
      SplitImages(key, rid);
      ghost var k := PageKey(leaf.pageId);
      EffectSound(l.start, St(), fileId, l.grown, l.writes, l.Hold(k).held);
      newNode := NewPage(true, l.Hold(k));
      ghost var q := PageKey(newNode.pageId);
      HalveLeaf(leaf, newNode);
      ghost var l1 := l.Hold(k).Grew().Hold(q);
      var nextLeafPageId := newNode.nextLeaf;
      if nextLeafPageId > 0 {
        assert PageKey(nextLeafPageId) != k && PageKey(nextLeafPageId) != q;
        FixNext(nextLeafPageId, newNode.pageId, l1);
        l1 := l1.Wrote(nextLeafPageId, NodeImage(ix.pages[nextLeafPageId].(prev := newNode.pageId)));
      }
      Save(leaf, l1);
      ghost var l2 := l1.Wrote(leaf.pageId, NodeImage(leaf.Contents())).Drop(k);
      Save(newNode, l2);
      ghost var l3 := l2.Wrote(newNode.pageId, NodeImage(newNode.Contents())).Drop(q);
      assert l3.held == {};
      FinishShown(ix, stored, BTreeModel.SplitLeaf(WithEntry(ix, key, rid), leaf.pageId), stored, l3);
    }

    lemma LeafHalves(leaf: BTreePage, key: int, rid: Rid, l: Ledger)
      requires Added(leaf, key, rid, l) && |leaf.keys| == ORDER + 1 && ix.next < I32_LIMIT && 1 <= ix.next
      ensures Packable(leaf.pageId, LowerLeaf(ix, key, rid)) && Packable(ix.next, UpperLeaf(ix, key, rid))
      ensures UpperLeaf(ix, key, rid).keys != []
      ensures var n := leaf.Contents(); var s := |n.keys| / 2;
        && LowerLeaf(ix, key, rid) == Leaf(n.keys[..s], n.rids[..s], n.prev, ix.next)
        && UpperLeaf(ix, key, rid) == Leaf(n.keys[s..], n.rids[s..], leaf.pageId, n.next)
      ensures leaf.nextLeaf > 0 ==> leaf.nextLeaf in ix.pages && ix.pages[leaf.nextLeaf].Leaf? && |ix.pages[leaf.nextLeaf].keys| <= ORDER
      ensures leaf.nextLeaf != leaf.pageId && leaf.nextLeaf < ix.next && leaf.nextLeaf == ix.pages[leaf.pageId].next
    {
      hide Effect, Matches, BufferPoolManager.Valid, BTreeRead.Leftmost, Nodes, Down, Up;
      var n := leaf.Contents();
      LeafPackable(leaf.pageId, n);
      LeafPackable(leaf.pageId, LowerLeaf(ix, key, rid));
      LeafPackable(ix.next, UpperLeaf(ix, key, rid));
      LeafLinks(ix, leaf.pageId);
    }

    lemma SplitImages(key: int, rid: Rid)
      requires BTreeModel.Valid(ix) && Full(ix, LeafFor(ix, key))
      requires var wx := WithEntry(ix, key, rid); var c := LeafFor(ix, key);
        Tree(wx, 0) && Chained(wx) && IsLeaf(wx, c) && |wx.pages[c].keys| == wx.order + 1
      ensures PageOk(ix, LeafFor(ix, key))
      ensures var kx := BTreeModel.SplitLeaf(WithEntry(ix, key, rid), LeafFor(ix, key));
        && kx.root == ix.root && kx.next == ix.next + 1 && kx.order == ix.order
        && ix.next in kx.pages && kx.pages[ix.next] == UpperLeaf(ix, key, rid)
        && Images(kx, stored) == Images(ix, stored) + SplitWrites(ix, key, rid)
    {
      hide Sizes, Down, Up, Nodes, Chained, InsertAt, UpperBound, LeafFor;
      var c := LeafFor(ix, key);
      LeafFine(ix, c);
      SplitLeafPages(WithEntry(ix, key, rid), c);
      var kx := BTreeModel.SplitLeaf(WithEntry(ix, key, rid), c);
      LeafLinks(WithEntry(ix, key, rid), c);
      var h := ix.pages[c].next;
      if h > 0 {
        var n := ix.pages[h].(prev := ix.next);
        assert kx.pages == ix.pages[h := n][c := LowerLeaf(ix, key, rid)][ix.next := UpperLeaf(ix, key, rid)];
        ThreeImages(ix, kx, stored, h, n, c, LowerLeaf(ix, key, rid), ix.next, UpperLeaf(ix, key, rid));
      } else {
        assert kx.pages == ix.pages[c := LowerLeaf(ix, key, rid)][ix.next := UpperLeaf(ix, key, rid)];
        TwoImages(ix, kx, stored, c, LowerLeaf(ix, key, rid), ix.next, UpperLeaf(ix, key, rid));
      }
    }

    lemma LeafFine(jx: Index, c: int)
      requires BTreeModel.Valid(jx) && c in jx.pages
      ensures PageOk(jx, c) && (forall p :: p in jx.pages <==> 1 <= p < jx.next)
    {
    }

    /** The pages a leaf split writes. */
    ghost function SplitWrites(jx: Index, key: int, rid: Rid): map<int, Image>
      requires Tree(jx, 0) && PageOk(jx, LeafFor(jx, key))
    {
      var c := LeafFor(jx, key);
      var h := jx.pages[c].next;
      var next := if h > 0 && h in jx.pages && jx.pages[h].Leaf? then map[h := NodeImage(jx.pages[h].(prev := jx.next))] else map[];
      next[c := NodeImage(LowerLeaf(jx, key, rid))][jx.next := NodeImage(UpperLeaf(jx, key, rid))]
    }

    lemma ThreeImages(jx: Index, kx: Index, c: int, h: int, m: Node, p: int, n: Node, q: int, o: Node)
      requires kx.pages == jx.pages[h := m][p := n][q := o] && kx.root == jx.root && h != 0 && p != 0 && q != 0
      ensures Images(kx, c) == Images(jx, c) + map[h := NodeImage(m)][p := NodeImage(n)][q := NodeImage(o)]
    {
    }
  }

  // ---- Closing and reopening ----

  /**
   Shutting down and starting again: everything dirty is flushed, and a new pool over the same disk opens an index
   with the very pages of the old one. What need not come back is the key count: the new one is the one last stored.
   */
  method Restart(tree: BPlusTree) returns (pool: BufferPoolManager, again: BPlusTree)
    requires tree.WellFormed() && tree.bpm.unmarked == {}
    modifies tree.bpm
    ensures fresh(pool) && fresh(pool.replacer) && pool.Valid() && Pinned(pool.State()) == {} && pool.unmarked == {}
    ensures fresh(again) && again.bpm == pool && again.fileId == tree.fileId
    ensures again.Valid() && again.ix == old(tree.ix) && !again.counted
    ensures again.numKeys == again.stored == old(tree.stored)
  {
    hide Effect, BTreeModel.Valid, BTreeRead.Leftmost, Entries, Consistent, Shows, Settled;
    ghost var before := tree.St();
    tree.bpm.FlushAll();
    pool := new BufferPoolManager(tree.bpm.disk);
    EmptyOk(tree.bpm.disk);
    ghost var empty := pool.State();
    MatchesMoved(before, pool.State(), tree.fileId, tree.ix, tree.stored);
    again := new BPlusTree.Open(pool, tree.fileId, tree.ix, tree.stored);
    SettledRoom(empty, pool.State(), tree.fileId);
    SettledMarks(empty, pool.State(), tree.fileId);
  }

  lemma SettledMarks(p: Pool, q: Pool, file: int)
    requires Settled(p, q, file)
    ensures q.unmarked <= p.unmarked
  {
  }

  /** A pool that shows the same pages shows the same index. */
  lemma MatchesMoved(p: Pool, q: Pool, file: int, jx: Index, count: int)
    requires TablesOk(p) && TablesOk(q) && Matches(p, file, jx, count) && SameViews(p, q) && SameSizes(p, q)
    ensures Matches(q, file, jx, count)
  {
    forall c | c in Images(jx, count)
      ensures Shows(q, file, c, Images(jx, count)[c])
    {
      assert Shows(p, file, c, Images(jx, count)[c]);
    }
  }

  /** Reopening changes no answer: a search and a scan before and after it agree. */
  method SearchTwice(tree: BPlusTree, key: int, lo: Option<int>, hi: Option<int>)
    returns (before: seq<Rid>, after: seq<Rid>, scanned: seq<Rid>, rescanned: seq<Rid>)
    requires tree.Valid() && tree.bpm.unmarked == {} && |Pinned(tree.St())| + 2 <= NUM_FRAMES
    modifies tree.bpm, tree.bpm.replacer
    ensures before == after == BTreeRead.Search(old(tree.ix), key)
    ensures scanned == rescanned == BTreeRead.RangeScan(old(tree.ix), lo, hi)
  {
    hide Settled, BPlusTree.WellFormed, BTreeModel.Valid, BTreeRead.Search, BTreeRead.RangeScan, Pinned;
    ghost var p := tree.St();
    before := tree.Search(key);
    SettledRoom(p, tree.St(), tree.fileId);
    SettledMarks(p, tree.St(), tree.fileId);
    ghost var q := tree.St();
    scanned := tree.RangeScan(lo, hi);
    SettledMarks(q, tree.St(), tree.fileId);
    var pool, again := Restart(tree);
    ghost var r := again.St();
    after := again.Search(key);
    SettledRoom(r, again.St(), again.fileId);
    rescanned := again.RangeScan(lo, hi);
  }

  /**
   A delete after reopening fails on the simplest index there is: one key, inserted once. The insert has split
   no root, so the header still says 0 keys.
   */
  method DeleteAfterReopening(pool: BufferPoolManager, file: int, key: int, rid: Rid) returns (again: BPlusTree, answer: Option<bool>)
    requires pool.Valid() && Sound(pool.State()) && NumPages(pool.disk, file) == 0 && pool.unmarked == {}
    requires |Pinned(pool.State())| + 3 <= NUM_FRAMES && IsI32(key) && IsU32(rid.0) && IsU32(rid.1)
    modifies pool, pool.replacer
    ensures answer == None && TablesOk(again.St()) && Pinned(again.St()) == {again.PageKey(0), again.PageKey(1)}
  {
    hide Settled, Abandoned, BTreeModel.Valid, BTreeRuns.New, BTreeInsert.Insert, BTreeDelete.Delete, BTreeDelete.Find, Pinned, Matches,
      BPlusTree.Valid, BPlusTree.WellFormed, BPlusTree.CountOk, Consistent, Safe, TablesOk, View;
    FirstInsert(key, rid);
    var tree := FirstKey(pool, file, key, rid);
    var reopened;
    reopened, again := Restart(tree);
    ghost var r := again.St();
    answer := again.Delete(key, rid);
    again.StrandedAt(r, BTreeInsert.Insert(BTreeRuns.New(ORDER), key, rid), key, rid);
    AbandonedPins(r, again.St(), file, {again.PageKey(1), again.PageKey(0)});
  }

  /** A new index with one key. */
  method FirstKey(pool: BufferPoolManager, file: int, key: int, rid: Rid) returns (tree: BPlusTree)
    requires pool.Valid() && Sound(pool.State()) && NumPages(pool.disk, file) == 0 && pool.unmarked == {}
    requires |Pinned(pool.State())| + 3 <= NUM_FRAMES && IsI32(key) && IsU32(rid.0) && IsU32(rid.1)
    modifies pool, pool.replacer
    ensures fresh(tree) && tree.bpm == pool && tree.fileId == file && tree.WellFormed() && pool.unmarked == {}
    ensures BTreeModel.Valid(BTreeRuns.New(ORDER)) && tree.ix == BTreeInsert.Insert(BTreeRuns.New(ORDER), key, rid)
    ensures tree.stored == 0 && tree.numKeys == 1
  {
    hide Settled, BTreeModel.Valid, BTreeRuns.New, BTreeInsert.Insert, BTreeDelete.Delete, BTreeDelete.Find, Matches,
      BPlusTree.WellFormed, BPlusTree.CountOk, Consistent, Safe, TablesOk, View, Pinned;
    FirstInsert(key, rid);
    ghost var p := pool.State();
    tree := new BPlusTree.New(pool, file);
    SettledRoom(p, tree.St(), file);
    SettledMarks(p, tree.St(), file);
    ghost var q := tree.St();
    tree.Insert(key, rid);
    SettledMarks(q, tree.St(), file);
  }

  lemma AbandonedPins(p: Pool, q: Pool, file: int, held: set<Key>)
    requires Abandoned(p, q, file, held) && Pinned(p) == {}
    ensures TablesOk(q) && Pinned(q) == held
  {
    forall k
      ensures k in Pinned(q) <==> k in held
    {
      assert Pins(q, k) == Pins(p, k) + if k in held then 1 else 0;
      assert k !in Pinned(p);
    }
  }

  lemma FirstInsert(key: int, rid: Rid)
    ensures var nx := BTreeRuns.New(ORDER); BTreeModel.Valid(nx) && nx.next == 2 && nx.root in nx.level && nx.level[nx.root] == 0
    ensures var jx := BTreeInsert.Insert(BTreeRuns.New(ORDER), key, rid);
      && BTreeModel.Valid(jx) && jx.root == BTreeRuns.New(ORDER).root && jx.chain == [1]
      && BTreeDelete.Delete(jx, key, rid).1 && BTreeDelete.Find(jx, key, rid) == Some((0, 0))
  {
    BTreeRuns.NewOk(ORDER);
    InsertValid(BTreeRuns.New(ORDER), key, rid);
  }
}
