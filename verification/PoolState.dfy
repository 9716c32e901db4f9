/** The buffer pool's tables as a value, and what each operation does to every page's visible contents. */
module PoolState {
  import opened Disk
  import opened LruKReplacer

  /** `unmarked` holds the resident pages changed in place since they were last marked dirty or written out. */
  datatype Pool = Pool(
    frames: seq<Page>,
    pageTable: map<Key, int>,
    frameTable: map<int, Key>,
    freeFrames: set<int>,
    pinCount: seq<nat>,
    dirty: seq<bool>,
    disk: Disk,
    unmarked: set<Key>)

  predicate IsFrame(f: int) {
    0 <= f < NUM_FRAMES
  }

  /** The two tables are inverse to each other, and the free frames are the rest. */
  ghost predicate TablesOk(p: Pool) {
    && |p.frames| == |p.pinCount| == |p.dirty| == NUM_FRAMES
    && (forall k :: k in p.pageTable ==> p.pageTable[k] in p.frameTable && p.frameTable[p.pageTable[k]] == k)
    && (forall f :: f in p.frameTable ==> IsFrame(f) && p.frameTable[f] in p.pageTable && p.pageTable[p.frameTable[f]] == f)
    && (forall f {:trigger f in p.freeFrames} {:trigger IsFrame(f)} :: f in p.freeFrames <==> IsFrame(f) && f !in p.frameTable)
    && (forall f :: f in p.freeFrames ==> p.pinCount[f] == 0 && !p.dirty[f])
  }

  /** A resident page that differs from the disk is dirty, or its holder has yet to say so. */
  ghost predicate BytesOk(p: Pool)
    requires TablesOk(p)
  {
    && (forall k :: k in p.unmarked ==> k in p.pageTable)
    && (forall k :: k in p.pageTable && k !in p.unmarked && !p.dirty[p.pageTable[k]] ==>
      p.frames[p.pageTable[k]] == Read(p.disk, k))
  }

  ghost predicate Consistent(p: Pool) {
    TablesOk(p) && BytesOk(p)
  }

  /** The current contents of a page, wherever they are. */
  function View(p: Pool, k: Key): Page
    requires TablesOk(p)
  {
    if k in p.pageTable then p.frames[p.pageTable[k]] else Read(p.disk, k)
  }

  function Pins(p: Pool, k: Key): nat
    requires TablesOk(p)
  {
    if k in p.pageTable then p.pinCount[p.pageTable[k]] else 0
  }

  function Pinned(p: Pool): set<Key>
    requires TablesOk(p)
  {
    set k | k in p.pageTable && Pins(p, k) > 0
  }

  /**
   The clients' protocol: whoever changed a page still pins it, or has marked it dirty;
   and only pages that were allocated are marked dirty.
   */
  ghost predicate Safe(p: Pool)
    requires TablesOk(p)
  {
    && (forall k :: k in p.unmarked ==> Pins(p, k) > 0)
    && (forall k :: k in p.pageTable && p.dirty[p.pageTable[k]] ==> InFile(p, k))
  }

  predicate InFile(p: Pool, k: Key) {
    k.page < NumPages(p.disk, k.file)
  }

  ghost predicate SameSizes(p: Pool, q: Pool) {
    forall f :: NumPages(q.disk, f) == NumPages(p.disk, f)
  }

  /** Nothing anybody sees differs between `p` and `q`. */
  ghost predicate SameViews(p: Pool, q: Pool) {
    TablesOk(p) && TablesOk(q) && forall k :: View(q, k) == View(p, k)
  }

  /** Every pin taken in between has been given back. */
  ghost predicate SamePins(p: Pool, q: Pool) {
    TablesOk(p) && TablesOk(q) && forall k :: Pins(q, k) == Pins(p, k)
  }

  lemma SamePinned(p: Pool, q: Pool)
    requires SamePins(p, q)
    ensures Pinned(q) == Pinned(p)
  {
    forall k
      ensures k in Pinned(q) <==> k in Pinned(p)
    {
      assert Pins(q, k) == Pins(p, k);
    }
  }

  lemma SamePinsChain(p: Pool, q: Pool, r: Pool)
    requires SamePins(p, q) && SamePins(q, r)
    ensures SamePins(p, r)
  {
    forall k
      ensures Pins(r, k) == Pins(p, k)
    {
      assert Pins(q, k) == Pins(p, k);
    }
  }

  // ---- A fresh pool ----

  function Empty(d: Disk): Pool {
    Pool(seq(NUM_FRAMES, _ => ZeroPage()), map[], map[], set f {:trigger IsFrame(f)} | 0 <= f < NUM_FRAMES && IsFrame(f),
         seq(NUM_FRAMES, _ => 0), seq(NUM_FRAMES, _ => false), d, {})
  }

  lemma EmptyOk(d: Disk)
    ensures Consistent(Empty(d)) && Safe(Empty(d)) && Pinned(Empty(d)) == {}
    ensures forall k :: View(Empty(d), k) == Read(d, k)
  {
  }

  // ---- Fetching ----

  /** A cache hit pins once more. */
  function Hit(p: Pool, k: Key): Pool
    requires TablesOk(p) && k in p.pageTable
  {
    p.(pinCount := p.pinCount[p.pageTable[k] := p.pinCount[p.pageTable[k]] + 1])
  }

  lemma HitOk(p: Pool, k: Key)
    requires Consistent(p) && k in p.pageTable
    ensures Consistent(Hit(p, k)) && SameViews(p, Hit(p, k))
    ensures forall j :: Pins(Hit(p, k), j) == Pins(p, j) + if j == k then 1 else 0
    ensures Safe(p) ==> Safe(Hit(p, k))
  {
  }

  /** The disk after frame `f` gives up its page: written back only when dirty. */
  function WriteBack(p: Pool, f: int): Disk
    requires TablesOk(p) && f in p.frameTable
  {
    if p.dirty[f] then Write(p.disk, p.frameTable[f], p.frames[f]) else p.disk
  }

  /** The pool without the page of frame `f`. */
  function Evicted(p: Pool, f: int): Pool
    requires TablesOk(p) && f in p.frameTable
  {
    p.(pageTable := p.pageTable - {p.frameTable[f]},
       frameTable := p.frameTable - {f},
       freeFrames := p.freeFrames + {f},
       pinCount := p.pinCount[f := 0],
       dirty := p.dirty[f := false],
       disk := WriteBack(p, f),
       unmarked := p.unmarked - {p.frameTable[f]})
  }

  lemma EvictedTables(p: Pool, f: int)
    requires TablesOk(p) && f in p.frameTable
    ensures TablesOk(Evicted(p, f))
  {
    var q := Evicted(p, f);
    assert forall j :: j in q.pageTable ==> j in p.pageTable && j != p.frameTable[f];
    assert forall g :: g in q.frameTable ==> g in p.frameTable && g != f;
  }

  lemma EvictedBytes(p: Pool, f: int)
    requires Consistent(p) && f in p.frameTable
    ensures Consistent(Evicted(p, f))
  {
    EvictedTables(p, f);
    var q := Evicted(p, f);
    assert forall j :: j in q.pageTable ==> j in p.pageTable && j != p.frameTable[f] && p.pageTable[j] != f;
  }

  /** An eviction loses a page's contents exactly when the frame differs from the disk and is not dirty. */
  lemma EvictionLosesIff(p: Pool, f: int)
    requires TablesOk(p) && f in p.frameTable
    ensures TablesOk(Evicted(p, f))
    ensures SameViews(p, Evicted(p, f)) <==> p.dirty[f] || p.frames[f] == Read(p.disk, p.frameTable[f])
    ensures forall k :: k != p.frameTable[f] ==> View(Evicted(p, f), k) == View(p, k)
  {
    EvictedTables(p, f);
    var k := p.frameTable[f];
    assert View(p, k) == p.frames[f];
    assert View(Evicted(p, f), k) == Read(WriteBack(p, f), k);
  }

  lemma EvictedPins(p: Pool, f: int)
    requires TablesOk(p) && f in p.frameTable && p.pinCount[f] == 0
    ensures TablesOk(Evicted(p, f))
    ensures forall j :: Pins(Evicted(p, f), j) == Pins(p, j)
    ensures Safe(p) ==> Safe(Evicted(p, f)) && SameSizes(p, Evicted(p, f))
  {
    EvictedTables(p, f);
    var q := Evicted(p, f);
    forall j
      ensures Pins(q, j) == Pins(p, j)
    {
      assert j in q.pageTable <==> j in p.pageTable && j != p.frameTable[f];
    }
  }

  /** Page `k` read into the free frame `f` and pinned once. */
  function Loaded(p: Pool, f: int, k: Key): Pool
    requires TablesOk(p) && f in p.freeFrames
  {
    p.(frames := p.frames[f := Read(p.disk, k)],
       pageTable := p.pageTable[k := f],
       frameTable := p.frameTable[f := k],
       freeFrames := p.freeFrames - {f},
       pinCount := p.pinCount[f := 1],
       dirty := p.dirty[f := false])
  }

  lemma LoadedOk(p: Pool, f: int, k: Key)
    requires Consistent(p) && f in p.freeFrames && k !in p.pageTable
    ensures Consistent(Loaded(p, f, k)) && SameViews(p, Loaded(p, f, k))
    ensures forall j :: Pins(Loaded(p, f, k), j) == Pins(p, j) + if j == k then 1 else 0
    ensures Safe(p) ==> Safe(Loaded(p, f, k)) && SameSizes(p, Loaded(p, f, k))
  {
    var q := Loaded(p, f, k);
    assert forall j :: j in p.pageTable ==> p.pageTable[j] != f;
    assert TablesOk(q);
    assert BytesOk(q);
  }

  /** What a fetch of the absent page `k` does with frame `f`, free or given up by the replacer. */
  function Brought(p: Pool, f: int, k: Key): Pool
    requires TablesOk(p) && IsFrame(f)
  {
    if f in p.frameTable then EvictedTables(p, f); Loaded(Evicted(p, f), f, k) else Loaded(p, f, k)
  }

  /**
   Transparency of a fetch: under the protocol, bringing a page in changes no page's contents, whichever
   unpinned frame it takes, and pins exactly the page fetched.
   */
  lemma BroughtOk(p: Pool, f: int, k: Key)
    requires Consistent(p) && IsFrame(f) && p.pinCount[f] == 0 && k !in p.pageTable
    ensures Consistent(Brought(p, f, k)) && k in Brought(p, f, k).pageTable
    ensures Safe(p) ==> SameViews(p, Brought(p, f, k)) && Safe(Brought(p, f, k)) && SameSizes(p, Brought(p, f, k))
    ensures Brought(p, f, k).unmarked <= p.unmarked
    ensures forall j :: Pins(Brought(p, f, k), j) == Pins(p, j) + if j == k then 1 else 0
  {
    if f in p.frameTable {
      EvictedBytes(p, f);
      EvictionLosesIff(p, f);
      EvictedPins(p, f);
      var q := Evicted(p, f);
      LoadedOk(q, f, k);
      if Safe(p) {
        assert p.frameTable[f] !in p.unmarked by {
          assert Pins(p, p.frameTable[f]) == 0;
        }
        assert SameViews(p, q);
      }
    } else {
      LoadedOk(p, f, k);
    }
  }

  /** A page pinned by anyone stays in its frame. */
  lemma BroughtKeepsPinned(p: Pool, f: int, k: Key, j: Key)
    requires Consistent(p) && IsFrame(f) && p.pinCount[f] == 0 && k !in p.pageTable && Pins(p, j) > 0
    ensures j in Brought(p, f, k).pageTable && Brought(p, f, k).pageTable[j] == p.pageTable[j]
    ensures Brought(p, f, k).frames[p.pageTable[j]] == p.frames[p.pageTable[j]]
  {
  }

  // ---- Unpinning, writing in place, flushing ----

  function Unpinned(p: Pool, k: Key, isDirty: bool): Pool
    requires TablesOk(p)
  {
    if k !in p.pageTable || p.pinCount[p.pageTable[k]] == 0 then p
    else
      var f := p.pageTable[k];
      p.(pinCount := p.pinCount[f := p.pinCount[f] - 1],
         dirty := if isDirty then p.dirty[f := true] else p.dirty,
         unmarked := if isDirty then p.unmarked - {k} else p.unmarked)
  }

  lemma UnpinnedOk(p: Pool, k: Key, isDirty: bool)
    requires Consistent(p)
    ensures Consistent(Unpinned(p, k, isDirty)) && SameViews(p, Unpinned(p, k, isDirty))
    ensures forall j :: Pins(Unpinned(p, k, isDirty), j) == if j == k && Pins(p, k) > 0 then Pins(p, j) - 1 else Pins(p, j)
  {
    if k in p.pageTable {
      var f := p.pageTable[k];
      assert forall j :: j in p.pageTable && j != k ==> p.pageTable[j] != f;
      assert f !in p.freeFrames;
    }
  }

  /**
   An unpin of an allocated page breaks the protocol exactly when it drops the last pin of a changed page
   without saying so.
   */
  lemma UnpinSafeIff(p: Pool, k: Key, isDirty: bool)
    requires Consistent(p) && Safe(p) && (isDirty ==> InFile(p, k))
    ensures Consistent(Unpinned(p, k, isDirty))
    ensures Safe(Unpinned(p, k, isDirty)) <==> !(k in p.unmarked && !isDirty && Pins(p, k) == 1)
  {
    UnpinnedOk(p, k, isDirty);
    var q := Unpinned(p, k, isDirty);
    if k in p.unmarked && !isDirty && Pins(p, k) == 1 {
      assert k in q.unmarked && Pins(q, k) == 0;
    }
  }

  /** A client changing a page it holds, through the fetched buffer. */
  function Changed(p: Pool, k: Key, data: Page): Pool
    requires TablesOk(p) && k in p.pageTable
  {
    p.(frames := p.frames[p.pageTable[k] := data], unmarked := p.unmarked + {k})
  }

  lemma ChangedOk(p: Pool, k: Key, data: Page)
    requires Consistent(p) && k in p.pageTable
    ensures Consistent(Changed(p, k, data))
    ensures forall j :: View(Changed(p, k, data), j) == if j == k then data else View(p, j)
    ensures forall j :: Pins(Changed(p, k, data), j) == Pins(p, j)
    ensures Safe(p) && Pins(p, k) > 0 ==> Safe(Changed(p, k, data))
  {
    assert forall j :: j in p.pageTable && j != k ==> p.pageTable[j] != p.pageTable[k];
  }

  function Flushed(p: Pool, k: Key): Pool
    requires TablesOk(p)
  {
    if k !in p.pageTable then p
    else
      var f := p.pageTable[k];
      p.(disk := Write(p.disk, k, p.frames[f]), dirty := p.dirty[f := false], unmarked := p.unmarked - {k})
  }

  lemma FlushedOk(p: Pool, k: Key)
    requires Consistent(p)
    ensures Consistent(Flushed(p, k)) && SameViews(p, Flushed(p, k))
    ensures forall j :: Pins(Flushed(p, k), j) == Pins(p, j)
    ensures k in p.pageTable ==> Read(Flushed(p, k).disk, k) == View(p, k)
    ensures forall j :: j in Flushed(p, k).unmarked <==> j in p.unmarked && j != k
    ensures InFile(p, k) ==> SameSizes(p, Flushed(p, k)) && (Safe(p) ==> Safe(Flushed(p, k)))
  {
    hide BytesOk, Safe, Read, Write, View;
    FlushedTables(p, k);
    FlushedViews(p, k);
    if InFile(p, k) {
      FlushedSafe(p, k);
    }
  }

  lemma FlushedTables(p: Pool, k: Key)
    requires Consistent(p)
    ensures TablesOk(Flushed(p, k)) && forall j :: Pins(Flushed(p, k), j) == Pins(p, j)
  {
    hide BytesOk, Write;
  }

  lemma FlushedViews(p: Pool, k: Key)
    requires Consistent(p) && TablesOk(Flushed(p, k))
    ensures BytesOk(Flushed(p, k)) && forall j :: View(Flushed(p, k), j) == View(p, j)
    ensures k in p.pageTable ==> Read(Flushed(p, k).disk, k) == View(p, k)
  {
    if k in p.pageTable {
      assert forall j :: j in p.pageTable && j != k ==> p.pageTable[j] != p.pageTable[k];
    }
  }

  lemma FlushedSafe(p: Pool, k: Key)
    requires Consistent(p) && TablesOk(Flushed(p, k)) && InFile(p, k)
    ensures SameSizes(p, Flushed(p, k)) && (Safe(p) ==> Safe(Flushed(p, k)))
  {
    if k in p.pageTable {
      assert forall j :: j in p.pageTable && j != k ==> p.pageTable[j] != p.pageTable[k];
    }
  }

  /** With no frame dirty and no change unmarked, the disk holds everything. */
  lemma CleanPoolOnDisk(p: Pool)
    requires Consistent(p) && p.unmarked == {}
    requires forall f :: f in p.frameTable ==> !p.dirty[f]
    ensures forall k :: Read(p.disk, k) == View(p, k)
  {
  }

  lemma AllocatedOk(p: Pool, file: int)
    requires Consistent(p)
    ensures var q := p.(disk := Allocate(p.disk, file).0);
      Consistent(q) && SameViews(p, q) && (forall j :: Pins(q, j) == Pins(p, j)) && (Safe(p) ==> Safe(q))
  {
  }

  // ---- Room for one more page ----

  /** Distinct pinned pages occupy distinct frames. */
  lemma {:induction false} PinnedFrames(p: Pool, keys: set<Key>) returns (used: set<int>)
    requires TablesOk(p) && keys <= p.pageTable.Keys
    ensures |used| == |keys| && forall f :: f in used <==> f in p.frameTable && p.frameTable[f] in keys
    decreases |keys|
  {
    if keys == {} {
      used := {};
    } else {
      var k :| k in keys;
      var rest := PinnedFrames(p, keys - {k});
      var f: int := p.pageTable[k];
      assert f in p.frameTable && p.frameTable[f] == k;
      assert f !in rest;
      used := rest + {f};
    }
  }

  lemma {:induction false} FramesBelow(n: nat) returns (all: set<int>)
    ensures |all| == n && forall f :: f in all <==> 0 <= f < n
  {
    if n == 0 {
      all := {};
    } else {
      var rest := FramesBelow(n - 1);
      all := rest + {n - 1};
    }
  }

  lemma {:induction false} StrictSubset(a: set<int>, b: set<int>)
    requires |a| < |b|
    ensures exists x :: x in b && x !in a
    decreases |b|
  {
    if forall x :: x in b ==> x in a {
      SubsetSize(b, a);
      assert false;
    }
  }

  lemma {:induction false} SubsetSize(a: set<int>, b: set<int>)
    requires forall x :: x in a ==> x in b
    ensures |a| <= |b|
  {
    if a != {} {
      SomeFrame(a);
      var x :| x in a;
      SubsetSize(a - {x}, b - {x});
    }
  }

  /** A new pool holds 1024 pages before it gives one up. */
  lemma EmptyRoom(d: Disk)
    ensures |Empty(d).freeFrames| == 1024
  {
    var all := FramesBelow(NUM_FRAMES);
    forall f
      ensures f in all <==> f in Empty(d).freeFrames
    {
      assert f in all ==> IsFrame(f);
    }
    assert Empty(d).freeFrames == all;
  }

  /** As long as fewer than NUM_FRAMES pages are pinned, some frame is free or evictable. */
  lemma RoomLeft(p: Pool)
    requires TablesOk(p) && |Pinned(p)| < NUM_FRAMES
    ensures exists f :: IsFrame(f) && p.pinCount[f] == 0
  {
    var used := PinnedFrames(p, Pinned(p));
    var all := FramesBelow(NUM_FRAMES);
    StrictSubset(used, all);
    var f :| f in all && f !in used;
    assert IsFrame(f);
    if f !in p.freeFrames {
      assert f in p.frameTable;
    }
  }

  /** ... and with every frame pinned there is none. */
  lemma NoRoom(p: Pool)
    requires TablesOk(p) && NUM_FRAMES <= |Pinned(p)|
    ensures forall f :: IsFrame(f) ==> p.pinCount[f] > 0
  {
    var used := PinnedFrames(p, Pinned(p));
    var all := FramesBelow(NUM_FRAMES);
    forall f | IsFrame(f)
      ensures p.pinCount[f] > 0
    {
      if f !in used {
        SubsetSize(used, all - {f});
      }
    }
  }
}
