/** A heap file over the buffer pool: a directory page and slotted data pages. */
module HeapFile {
  import opened Options
  import opened Disk
  import opened Bytes
  import opened LruKReplacer
  import opened PoolState
  import opened BufferPool
  import opened BTreeNode
  import opened SlottedPage
  import opened HeapPage
  import opened HeapModel
  import opened HeapDirectory
  import opened TreeStore
  import opened PageAccess

  /** The directory lists each data page's own room and slot count. */
  function Directory(h: Heap): (es: seq<Entry>)
    ensures |es| == |h|
  {
    seq(|h|, i requires 0 <= i < |h| => Entry(FreeSpace(h[i]), |h[i]|))
  }

  lemma DirectoryEntered(h: Heap)
    requires HeapOk(h)
    ensures Entered(Directory(h))
  {
    forall i | 0 <= i < |h|
      ensures EntryOk(Directory(h)[i])
    {
      assert Fits(h[i]);
    }
  }

  /** The bytes of page `p`. */
  function PageOf(h: Heap, p: int): Page
    requires HeapOk(h) && 0 <= p <= |h|
  {
    if p == 0 then DirectoryEntered(h); DirectoryBytes(Directory(h)) else PageBytes(h[p - 1])
  }

  function HeapImages(h: Heap): map<int, Image>
    requires HeapOk(h)
  {
    map p | 0 <= p <= |h| :: BytesImage(PageOf(h, p))
  }

  /** The file is exactly the directory and the pages of `h`, byte for byte. */
  ghost predicate HeapMatches(st: Pool, file: int, h: Heap)
    requires TablesOk(st)
  {
    HeapOk(h) && NumPages(st.disk, file) == |h| + 1 && ShowsAll(st, file, HeapImages(h))
  }

  lemma HeapEffect(p: Pool, q: Pool, file: int, grown: nat, writes: map<int, Image>, h: Heap, h': Heap)
    requires Effect(p, q, file, grown, writes, {}) && HeapMatches(p, file, h) && HeapOk(h')
    requires HeapImages(h') == HeapImages(h) + writes && |h'| == |h| + grown
    ensures HeapMatches(q, file, h')
  {
    forall x | x in HeapImages(h')
      ensures Shows(q, file, x, HeapImages(h')[x])
    {
      if x in writes {
        assert Shows(q, file, x, writes[x]);
      } else {
        assert Shows(p, file, x, HeapImages(h)[x]);
      }
    }
  }

  lemma DirectoryShown(st: Pool, file: int, h: Heap)
    requires TablesOk(st) && HeapMatches(st, file, h)
    ensures Entered(Directory(h)) && View(st, Key(file, 0)) == DirectoryBytes(Directory(h))
  {
    hide DirectoryBytes, PageBytes;
    DirectoryEntered(h);
    assert Shows(st, file, 0, HeapImages(h)[0]);
    assert HeapImages(h)[0] == BytesImage(PageOf(h, 0));
  }

  lemma PageShown(st: Pool, file: int, h: Heap, p: nat)
    requires TablesOk(st) && HeapMatches(st, file, h) && 1 <= p <= |h|
    ensures Fits(h[p - 1]) && View(st, Key(file, p)) == PageBytes(h[p - 1])
  {
    hide DirectoryBytes, PageBytes;
    assert Shows(st, file, p, HeapImages(h)[p]);
    assert HeapImages(h)[p] == BytesImage(PageOf(h, p));
  }

  // ---- What the writes of an operation make of the file ----

  /** A tuple added to page `p`, present or new, and the directory entry brought up to date. */
  lemma InsertImages(h: Heap, data: seq<byte>)
    requires HeapOk(h) && Insertable(h, data)
    ensures var (h', r) := Inserted(h, data);
      && HeapOk(h') && Entered(Directory(h')) && 1 <= r.0 <= |h'|
      && HeapImages(h') == HeapImages(h)[r.0 := BytesImage(PageBytes(h'[r.0 - 1]))][0 := BytesImage(DirectoryBytes(Directory(h')))]
  {
    hide DirectoryBytes, PageBytes, Fits, FreeSpace;
    InsertedOk(h, data);
    var (h', r) := Inserted(h, data);
    DirectoryEntered(h');
    forall x | 0 < x <= |h'| && x != r.0
      ensures x <= |h| && PageOf(h', x) == PageOf(h, x)
    {
      assert h'[x - 1] == h[x - 1];
    }
  }

  /** Page `p` before the insert; a page just allocated is empty. */
  function SlotsOf(h: Heap, p: nat): seq<Slot>
    requires 1 <= p
  {
    if p <= |h| then h[p - 1] else []
  }

  /** The directory's entries once page `p` is listed. */
  function EntriesFor(h: Heap, p: nat): seq<Entry> {
    if p <= |h| then Directory(h) else Directory(h) + [Entry(PAGE_SIZE, 0)]
  }

  lemma InsertDirectory(h: Heap, data: seq<byte>)
    requires HeapOk(h) && Insertable(h, data)
    ensures var (h', r) := Inserted(h, data); var s := SlotsOf(h, r.0);
      && 1 <= r.0 <= |h'| == (if r.0 <= |h| then |h| else |h| + 1) && r.1 == |s|
      && Fits(s) && |data| + HEADER_SIZE <= FreeSpace(s) && h'[r.0 - 1] == Added(s, data) && |EntriesFor(h, r.0)| == |h'|
      && Directory(h') == EntriesFor(h, r.0)[r.0 - 1 := Entry(FreeSpace(Added(s, data)), |Added(s, data)|)]
  {
    hide FreeSpace, Fits, Added, Place;
    EmptyFits();
    var (h', r) := Inserted(h, data);
    assert h'[r.0 - 1] == Added(SlotsOf(h, r.0), data);
    var es := EntriesFor(h, r.0);
    forall i | 0 <= i < |h'| && i != r.0 - 1
      ensures Directory(h')[i] == es[i]
    {
      assert h'[i] == h[i];
    }
  }

  lemma EmptyFits()
    ensures Fits([]) && FreeSpace([]) == MAX_TUPLE + HEADER_SIZE
  {
  }

  lemma SmallNumbers(s: seq<Slot>)
    requires Fits(s)
    ensures FreeSpace(s) < U16_LIMIT && |s| < U16_LIMIT
  {
  }

  lemma DeleteImages(h: Heap, r: Rid)
    requires HeapOk(h) && Used(h, r)
    ensures var h' := Deleted(h, r).0;
      && HeapOk(h') && |h'| == |h| && h'[r.0 - 1] == Dead(h[r.0 - 1], r.1)
      && HeapImages(h') == HeapImages(h)[r.0 := BytesImage(PageBytes(h'[r.0 - 1]))]
  {
    hide DirectoryBytes, PageBytes, Fits, Taken;
    DeletedOk(h, r);
    var h' := Deleted(h, r).0;
    DeadSame(h[r.0 - 1], r.1);
    assert Directory(h') == Directory(h);
    forall x | 0 <= x <= |h| && x != r.0
      ensures PageOf(h', x) == PageOf(h, x)
    {
    }
  }

  // ---- The object ----

  method CopyOf(data: Page) returns (raw: array<byte>)
    ensures fresh(raw) && raw[..] == data
  {
    raw := new byte[PAGE_SIZE](i requires 0 <= i < PAGE_SIZE => data[i]);
  }

  /** A page's bytes after the delete of one slot. */
  method DeleteIn(data: Page, slot: nat, ghost s: seq<Slot>) returns (deleted: bool, data': Page)
    requires Fits(s) && data == PageBytes(s) && FlagAt(slot) + 2 <= PAGE_SIZE
    requires slot < |s| || U16At(data, FlagAt(slot)) == 0
    ensures deleted <==> slot < |s| && s[slot].live
    ensures deleted ==> Fits(Dead(s, slot)) && data' == PageBytes(Dead(s, slot))
  {
    hide PageBytes, U16At, Put, U16, Dead;
    var raw := CopyOf(data);
    var page := new SlotPage(raw, false, s);
    deleted := page.DeleteTuple(slot, s);
    data' := raw[..];
  }

  /** A page's bytes after an insert, with its new room and slot count. */
  method InsertIn(data: Page, newPage: bool, tuple: seq<byte>, ghost s: seq<Slot>)
    returns (slot: nat, data': Page, room: int, slots: int)
    requires Fits(s) && |tuple| + HEADER_SIZE <= FreeSpace(s)
    requires if newPage then data == ZeroPage() && s == [] else data == PageBytes(s)
    ensures slot == |s| && Fits(Added(s, tuple)) && data' == PageBytes(Added(s, tuple))
    ensures room == FreeSpace(Added(s, tuple)) && slots == |Added(s, tuple)|
  {
    hide PageBytes, FreeSpace, Fits, FreePointer;
    var raw := CopyOf(data);
    assert ZeroPage() == Zeros(PAGE_SIZE);
    var page := new SlotPage(raw, newPage, s);
    slot := page.InsertTuple(tuple, s);
    data', room, slots := raw[..], page.freeSpace, page.numSlots;
  }

  /** The page an insert goes to: the directory's first with room; none means a new one. */
  method FindPage(directory: DirectoryPage, tuple: seq<byte>, ghost h: Heap) returns (page: Option<int>)
    requires directory.Holds(Directory(h))
    ensures page == if PlaceFor(h, tuple) < |h| then Some(PlaceFor(h, tuple) + 1) else None
  {
    hide DirectoryBytes, FreeSpace;
    var size := |tuple| + HEADER_SIZE;
    page := directory.FindPageWithEnoughSpace(size, Directory(h));
    ghost var p := PlaceFor(h, tuple);
    if p < |h| {
      assert RoomOf(Directory(h), p + 1) == FreeSpace(h[p]);
    }
    if page.Some? {
      assert RoomOf(Directory(h), page.value) == FreeSpace(h[page.value - 1]);
    }
  }

  /** A page past the end of its file that nobody is changing shows zeros. */
  lemma PastEnd(st: Pool, k: Key)
    requires Sound(st) && k !in st.unmarked && !InFile(st, k)
    ensures View(st, k) == ZeroPage()
  {
  }

  class HeapFile {
    const bpm: BufferPoolManager
    const fileId: int
    ghost var h: Heap

    ghost function St(): Pool
      reads bpm
    {
      bpm.State()
    }

    /** The pool keeps its protocol and the file shows exactly `h`. */
    ghost predicate Valid()
      reads this, bpm, bpm.replacer
    {
      bpm.Valid() && Sound(St()) && HeapMatches(St(), fileId, h) && Unwritten()
    }

    /** Nobody holds changes to this file that are not marked dirty yet. */
    ghost predicate Unwritten()
      reads bpm`unmarked
    {
      forall k :: k in bpm.unmarked ==> k.file != fileId
    }

    /** A heap file opened on a file that already holds one. */
    constructor (pool: BufferPoolManager, file: int, ghost h0: Heap)
      requires forall k :: k in pool.unmarked ==> k.file != file
      requires pool.Valid() && Sound(pool.State()) && HeapMatches(pool.State(), file, h0)
      ensures bpm == pool && fileId == file && h == h0 && Valid()
    {
      bpm := pool;
      fileId := file;
      h := h0;
    }

    ghost method Start() returns (l: Ledger)
      requires Valid()
      ensures l == Ledger(St(), 0, map[], {}) && Tracks(bpm, fileId, l) && TablesOk(St()) && Sound(St())
    {
      l := Ledger(St(), 0, map[], {});
      EffectNone(St(), fileId);
    }

    /** Pins a page, takes its bytes and gives the pin back. */
    method Peek(p: nat) returns (data: Page)
      requires Valid() && |Pinned(St())| < NUM_FRAMES && p <= |h|
      modifies bpm, bpm.replacer
      ensures Valid() && Settled(old(St()), St(), fileId) && data == PageOf(h, p)
    {
      hide Effect, Consistent, Safe, TablesOk, View, Settled, DirectoryBytes, PageBytes, BufferPoolManager.Valid, Fits;
      ghost var l := Start();
      Shown(p);
      data := FetchPage(bpm, fileId, p, l);
      ghost var l1 := l.Hold(Key(fileId, p));
      assert l1.Drop(Key(fileId, p)) == l;
      ReleasePage(bpm, fileId, p, false, l1);
      Finish(l, h);
    }

    lemma Shown(p: nat)
      requires TablesOk(St()) && HeapMatches(St(), fileId, h) && p <= |h|
      ensures View(St(), Key(fileId, p)) == PageOf(h, p)
    {
      hide DirectoryBytes, PageBytes, View;
      if p == 0 {
        DirectoryShown(St(), fileId, h);
      } else {
        PageShown(St(), fileId, h, p);
      }
    }

    /** All pins are back and the writes make the file show `h'`. */
    lemma Finish(l: Ledger, h': Heap)
      requires Tracks(bpm, fileId, l) && l.held == {} && HeapMatches(l.start, fileId, h) && HeapOk(h')
      requires HeapImages(h') == HeapImages(h) + l.writes && |h'| == |h| + l.grown
      requires forall k :: k in l.start.unmarked ==> k.file != fileId
      ensures bpm.Valid() && Sound(St()) && HeapMatches(St(), fileId, h') && Unwritten() && Settled(l.start, St(), fileId)
    {
      hide HeapMatches, HeapImages, Sound, ShowsAll, View;
      EffectSound(l.start, St(), fileId, l.grown, l.writes, {});
      HeapEffect(l.start, St(), fileId, l.grown, l.writes, h, h');
      EffectSettled(l, St(), fileId);
    }

    /** The tuple under a rid of this file; nothing when its slot was never used or is deleted. */
    method GetTuple(rid: Rid) returns (r: Option<seq<byte>>)
      requires Valid() && |Pinned(St())| < NUM_FRAMES && 1 <= rid.0 <= |h| && 0 <= rid.1
      modifies bpm, bpm.replacer
      ensures Valid() && Settled(old(St()), St(), fileId)
      ensures r == Get(h, rid)
    {
      hide Settled, Sound, View, DirectoryBytes, PageBytes, BufferPoolManager.Valid, HeapImages, Fits;
      var data := Peek(rid.0);
      var raw := CopyOf(data);
      var page := new SlotPage(raw, false, h[rid.0 - 1]);
      r := page.GetTuple(rid.1, h[rid.0 - 1]);
    }

    /** The answer tells whether the tuple was live; its slot stays taken. */
    method DeleteTuple(rid: Rid) returns (deleted: bool)
      requires Valid() && |Pinned(St())| < NUM_FRAMES && Deletable(h, rid)
      modifies `h, bpm, bpm.replacer
      ensures Valid() && Settled(old(St()), St(), fileId)
      ensures (h, deleted) == Deleted(old(h), rid)
    {
      hide Effect, Consistent, Safe, TablesOk, View, Settled, DirectoryBytes, PageBytes, BufferPoolManager.Valid,
        HeapImages, Dead, U16, Put;
      ghost var l := Start();
      Shown(rid.0);
      var data := FetchPage(bpm, fileId, rid.0, l);
      ghost var l1 := l.Hold(Key(fileId, rid.0));
      deleted, data := DeleteIn(data, rid.1, h[rid.0 - 1]);
      if deleted {
        DeleteImages(h, rid);
        assert HeapImages(h) + l1.writes[rid.0 := BytesImage(data)] == HeapImages(h)[rid.0 := BytesImage(data)];
        Store(rid.0, data, Deleted(h, rid).0, l1);
      } else {
        NotDeleted(rid);
        assert l1.Drop(Key(fileId, rid.0)) == l;
        ReleasePage(bpm, fileId, rid.0, false, l1);
        Finish(l, h);
      }
    }

    lemma NotDeleted(rid: Rid)
      requires Used(h, rid) ==> !SlotOf(h, rid).live
      ensures Deleted(h, rid) == (h, false)
    {
      if Used(h, rid) {
        assert Dead(h[rid.0 - 1], rid.1) == h[rid.0 - 1];
        assert Deleted(h, rid).0 == h;
      }
    }

    /** A held page goes back rewritten, marked dirty, and that makes the file `h'`. */
    method Store(p: nat, data: Page, ghost h': Heap, ghost l: Ledger)
      requires Tracks(bpm, fileId, l) && HeapMatches(l.start, fileId, h) && l.held == {Key(fileId, p)}
      requires HeapOk(h') && p <= |h'| == |h| + l.grown && HeapImages(h') == HeapImages(h) + l.writes[p := BytesImage(data)]
      requires forall k :: k in l.start.unmarked ==> k.file != fileId
      modifies `h, bpm, bpm.replacer
      ensures Valid() && Settled(l.start, St(), fileId) && h == h'
    {
      hide Effect, Consistent, Safe, TablesOk, View, Settled, BufferPoolManager.Valid, HeapImages;
      EffectSound(l.start, St(), fileId, l.grown, l.writes, l.held);
      RewritePage(bpm, fileId, p, data, BytesImage(data), l);
      ghost var l1 := l.Wrote(p, BytesImage(data));
      ReleasePage(bpm, fileId, p, true, l1);
      Finish(l1.Drop(Key(fileId, p)), h');
      h := h';
    }

    /**
     The rid of the new tuple: on the lowest-numbered page with room, else on a page allocated for it. For a row that
     was refused there is no tuple: taking the length of `False` raises, and the directory page has been pinned by then.
     */
    method InsertTuple(data: Option<seq<byte>>) returns (rid: Option<Rid>)
      requires Valid() && |Pinned(St())| + 2 <= NUM_FRAMES && (data.Some? ==> Insertable(h, data.value))
      modifies `h, bpm, bpm.replacer
      ensures Valid()
      ensures rid.Some? <==> data.Some?
      ensures rid.Some? ==> Settled(old(St()), St(), fileId) && (h, rid.value) == Inserted(old(h), data.value)
      ensures rid.None? ==> h == old(h) && Abandoned(old(St()), St(), fileId, {Key(fileId, 0)})
    {
      hide Effect, Consistent, Safe, TablesOk, View, Settled, DirectoryBytes, PageBytes, BufferPoolManager.Valid,
        HeapImages, Added, PlaceFor, Directory, FreeSpace, Abandoned, HeapMatches;
      ghost var l := Start();
      Shown(0);
      GoodDirectory();
      var dirData := FetchPage(bpm, fileId, 0, l);
      ghost var l1 := l.Hold(Key(fileId, 0));
      var raw := CopyOf(dirData);
      var directory := new DirectoryPage(raw, false, Directory(h));
      if data.None? {
        StillShown(l1);
        EffectAbandoned(l1, St(), fileId);
        return None;
      }
      var found := FindPage(directory, data.value, h);
      var r;
      if found.Some? {
        r := AddTo(found.value, false, data.value, directory, l1);
      } else {
        EffectSound(l.start, St(), fileId, 0, map[], l1.held);
        var page := AllocatePage(bpm, fileId, l1);
        directory.IncreasePageCount(page, Directory(h));
        r := AddTo(page, true, data.value, directory, l1.Grew());
      }
      rid := Some(r);
    }

    lemma GoodDirectory()
      requires TablesOk(St()) && HeapMatches(St(), fileId, h)
      ensures HeapOk(h) && Entered(Directory(h)) && NumPages(bpm.disk, fileId) == |h| + 1
    {
      hide DirectoryBytes, PageBytes;
      DirectoryEntered(h);
    }

    /** With nothing written the file still shows the heap, whatever is pinned. */
    lemma StillShown(l: Ledger)
      requires Tracks(bpm, fileId, l) && l.grown == 0 && l.writes == map[] && HeapMatches(l.start, fileId, h)
      requires bpm.unmarked <= l.start.unmarked && forall k :: k in l.start.unmarked ==> k.file != fileId
      ensures Valid()
    {
      hide DirectoryBytes, PageBytes, View;
      forall x | x in HeapImages(h)
        ensures Shows(St(), fileId, x, HeapImages(h)[x])
      {
        assert Shows(l.start, fileId, x, HeapImages(h)[x]);
        EffectShows(l.start, St(), fileId, 0, map[], l.held, x, HeapImages(h)[x]);
      }
    }

    /** Puts the tuple on page `p`, and the page's new room into the directory. */
    method AddTo(p: nat, newPage: bool, data: seq<byte>, directory: DirectoryPage, ghost l: Ledger) returns (rid: Rid)
      requires Tracks(bpm, fileId, l) && HeapMatches(l.start, fileId, h) && |Pinned(l.start)| + 2 <= NUM_FRAMES
      requires l.held == {Key(fileId, 0)} && l.writes == map[] && l.grown == if newPage then 1 else 0
      requires forall k :: k in l.start.unmarked ==> k.file != fileId
      requires Insertable(h, data) && p == Inserted(h, data).1.0 && (newPage <==> p == |h| + 1)
      requires directory.Holds(EntriesFor(h, p))
      modifies `h, directory, directory.dirRaw, bpm, bpm.replacer
      ensures Valid() && Settled(l.start, St(), fileId)
      ensures (h, rid) == Inserted(old(h), data)
    {
      hide Effect, Consistent, Safe, TablesOk, View, Settled, DirectoryBytes, PageBytes, BufferPoolManager.Valid,
        HeapImages, Added, PlaceFor, Directory, FreeSpace;
      InsertDirectory(h, data);
      InsertImages(h, data);
      SmallNumbers(Added(SlotsOf(h, p), data));
      EffectSound(l.start, St(), fileId, l.grown, l.writes, l.held);
      ghost var h', es := Inserted(h, data).0, EntriesFor(h, p);
      var slot, room, slots := PutOnPage(p, newPage, data, l);
      ghost var l1 := l.Hold(Key(fileId, p)).Wrote(p, BytesImage(PageBytes(Added(SlotsOf(h, p), data)))).Drop(Key(fileId, p));
      assert l1.held == {Key(fileId, 0)};
      var ok := directory.UpdateDirectory(p, room, slots, es);
      Store(0, directory.dirRaw[..], h', l1);
      rid := (p, slot);
    }

    /** Fetches the page, adds the tuple and gives the page back, marked dirty. */
    method PutOnPage(p: nat, newPage: bool, data: seq<byte>, ghost l: Ledger) returns (slot: nat, room: int, slots: int)
      requires Tracks(bpm, fileId, l) && HeapMatches(l.start, fileId, h) && |Pinned(l.start)| + 2 <= NUM_FRAMES
      requires l.held == {Key(fileId, 0)} && l.writes == map[] && l.grown == if newPage then 1 else 0
      requires forall k :: k in l.start.unmarked ==> k.file != fileId
      requires 1 <= p <= |h| + l.grown && (newPage <==> p == |h| + 1)
      requires Fits(SlotsOf(h, p)) && |data| + HEADER_SIZE <= FreeSpace(SlotsOf(h, p))
      modifies bpm, bpm.replacer
      ensures slot == |SlotsOf(h, p)| && Fits(Added(SlotsOf(h, p), data))
      ensures room == FreeSpace(Added(SlotsOf(h, p), data)) && slots == |Added(SlotsOf(h, p), data)|
      ensures Tracks(bpm, fileId, l.Hold(Key(fileId, p)).Wrote(p, BytesImage(PageBytes(Added(SlotsOf(h, p), data)))).Drop(Key(fileId, p)))
    {
      hide Effect, Consistent, Safe, TablesOk, View, Settled, DirectoryBytes, PageBytes, BufferPoolManager.Valid,
        HeapImages, Added, FreeSpace, Fits;
      EffectSound(l.start, St(), fileId, l.grown, l.writes, l.held);
      PageBefore(p, l);
      var pageData := FetchPage(bpm, fileId, p, l);
      ghost var l1 := l.Hold(Key(fileId, p));
      slot, pageData, room, slots := InsertIn(pageData, newPage, data, SlotsOf(h, p));
      RewritePage(bpm, fileId, p, pageData, BytesImage(pageData), l1);
      ghost var l2 := l1.Wrote(p, BytesImage(pageData));
      EffectSound(l2.start, St(), fileId, l2.grown, l2.writes, l2.held);
      ReleasePage(bpm, fileId, p, true, l2);
    }

    lemma PageBefore(p: nat, l: Ledger)
      requires Tracks(bpm, fileId, l) && HeapMatches(l.start, fileId, h) && l.writes == map[]
      requires l.held == {Key(fileId, 0)} && 1 <= p <= |h| + 1 && l.grown == if p <= |h| then 0 else 1
      requires forall k :: k in l.start.unmarked ==> k.file != fileId
      ensures TablesOk(St()) && View(St(), Key(fileId, p)) == if p <= |h| then PageBytes(h[p - 1]) else ZeroPage()
    {
      hide DirectoryBytes, PageBytes, View, HeapImages;
      EffectSound(l.start, St(), fileId, l.grown, map[], l.held);
      if p <= |h| {
        PageShown(l.start, fileId, h, p);
      } else {
        PastEnd(l.start, Key(fileId, p));
      }
      assert View(St(), Key(fileId, p)) == View(l.start, Key(fileId, p));
    }

    /** All live tuples with their rids, page by page; each page is pinned only while its bytes are taken. */
    method Scan() returns (found: seq<(Rid, seq<byte>)>)
      requires Valid() && |Pinned(St())| < NUM_FRAMES
      modifies bpm, bpm.replacer
      ensures Valid() && Settled(old(St()), St(), fileId)
      ensures found == ScanFrom(h, 1)
    {
      hide Settled, Safe, BytesOk, TablesOk, View, DirectoryBytes, PageBytes, BufferPoolManager.Valid, HeapMatches,
        ScanFrom, Entered;
      var pageCount := PageCount();
      found := [];
      var pageId := 1;
      while pageId < pageCount
        invariant 1 <= pageId <= pageCount == |h| + 1
        invariant Valid() && Settled(old(St()), St(), fileId) && |Pinned(St())| < NUM_FRAMES
        invariant found + ScanFrom(h, pageId) == ScanFrom(h, 1)
      {
        label Before:
        ScanStep(h, pageId);
        var tuples := ScanPage(pageId);
        found := found + Tag(pageId, tuples);
        SettledChain(old(St()), old@Before(St()), St(), fileId);
        SettledRoom(old(St()), St(), fileId);
        pageId := pageId + 1;
      }
      ScanStep(h, pageId);
    }

    /** The page count in the directory. */
    method PageCount() returns (n: int)
      requires Valid() && |Pinned(St())| < NUM_FRAMES
      modifies bpm, bpm.replacer
      ensures Valid() && Settled(old(St()), St(), fileId) && |Pinned(St())| < NUM_FRAMES
      ensures n == |h| + 1
    {
      hide Settled, Sound, View, DirectoryBytes, PageBytes, BufferPoolManager.Valid, HeapImages, Directory;
      DirectoryEntered(h);
      var data := Peek(0);
      SettledRoom(old(St()), St(), fileId);
      var raw := CopyOf(data);
      var directory := new DirectoryPage(raw, false, Directory(h));
      n := directory.pageCount;
    }

    method ScanPage(p: nat) returns (tuples: seq<(int, seq<byte>)>)
      requires Valid() && |Pinned(St())| < NUM_FRAMES && 1 <= p <= |h|
      modifies bpm, bpm.replacer
      ensures Valid() && Settled(old(St()), St(), fileId)
      ensures tuples == LiveFrom(h[p - 1], 0)
    {
      hide Settled, Sound, View, DirectoryBytes, PageBytes, BufferPoolManager.Valid, HeapImages, Fits, LiveFrom;
      var data := Peek(p);
      var raw := CopyOf(data);
      var page := new SlotPage(raw, false, h[p - 1]);
      tuples := page.Scan(h[p - 1]);
    }
  }

  lemma ScanStep(h: Heap, p: nat)
    requires 1 <= p <= |h| + 1
    ensures p <= |h| ==> ScanFrom(h, p) == Tag(p, LiveFrom(h[p - 1], 0)) + ScanFrom(h, p + 1)
    ensures p == |h| + 1 ==> ScanFrom(h, p) == []
  {
  }

  // ---- A new heap file ----

  /** A clean unpin of a changed page followed at once by a flush comes to the same as a dirty one. */
  lemma FlushMakesUp(p: Pool, k: Key)
    requires TablesOk(p) && TablesOk(Unpinned(p, k, false)) && TablesOk(Unpinned(p, k, true))
    requires Pins(p, k) > 0
    ensures Flushed(Unpinned(p, k, false), k) == Flushed(Unpinned(p, k, true), k)
  {
  }

  lemma EffectFlush(p: Pool, q: Pool, file: int, grown: nat, writes: map<int, Image>, held: set<Key>, k: Key)
    requires Effect(p, q, file, grown, writes, held) && InFile(q, k)
    ensures Effect(p, Flushed(q, k), file, grown, writes, held)
  {
    FlushedOk(q, k);
    var r := Flushed(q, k);
    forall c | c in writes
      ensures Shows(r, file, c, writes[c])
    {
      assert Shows(q, file, c, writes[c]);
    }
  }

  /** Page 0 becomes an empty directory; it is unpinned clean and saved by the flush that follows. */
  method CreateDirectory(bpm: BufferPoolManager, file: int)
    requires bpm.Valid() && Sound(bpm.State()) && NumPages(bpm.disk, file) == 0 && |Pinned(bpm.State())| < NUM_FRAMES
    requires forall k :: k in bpm.unmarked ==> k.file != file
    modifies bpm, bpm.replacer
    ensures bpm.Valid() && HeapMatches(bpm.State(), file, []) && Settled(old(bpm.State()), bpm.State(), file)
  {
    hide Effect, Consistent, Safe, TablesOk, View, Settled, DirectoryBytes, PageBytes, BufferPoolManager.Valid,
      HeapMatches, Zeros;
    ghost var l := Ledger(bpm.State(), 0, map[], {});
    EffectNone(bpm.State(), file);
    EffectSound(l.start, bpm.State(), file, 0, map[], {});
    PastEnd(bpm.State(), Key(file, 0));
    var page := AllocatePage(bpm, file, l);
    var data := FetchPage(bpm, file, page, l.Grew());
    var raw := CopyOf(data);
    ZeroBytes();
    var directory := new DirectoryPage(raw, true, []);
    ghost var image := BytesImage(raw[..]);
    ghost var l1 := l.Grew().Hold(Key(file, 0));
    RewritePage(bpm, file, page, raw[..], image, l1);
    EffectSound(l.start, bpm.State(), file, 1, l1.Wrote(0, image).writes, l1.held);
    SaveClean(bpm, file, page, l1.Wrote(0, image));
    assert l1.Wrote(0, image).Drop(Key(file, 0)) == Ledger(l.start, 1, map[0 := image], {});
    NewHeap(l.start, bpm.State(), file, raw[..]);
    EffectSettled(Ledger(l.start, 1, map[0 := image], {}), bpm.State(), file);
  }

  lemma ZeroBytes()
    ensures ZeroPage() == Zeros(PAGE_SIZE) && Entered([])
  {
  }

  lemma NewHeap(p: Pool, q: Pool, file: int, data: Page)
    requires Effect(p, q, file, 1, map[0 := BytesImage(data)], {}) && NumPages(p.disk, file) == 0
    requires Entered([]) && data == DirectoryBytes([])
    ensures TablesOk(q) && HeapMatches(q, file, [])
  {
    assert Directory([]) == [];
    assert HeapImages([]) == map[0 := BytesImage(data)];
  }

  /** The pin goes back without the dirty mark, and the page is written out at once. */
  method SaveClean(bpm: BufferPoolManager, file: int, p: nat, ghost l: Ledger)
    requires Tracks(bpm, file, l) && Key(file, p) in l.held && p < NumPages(bpm.disk, file)
    modifies bpm, bpm.replacer
    ensures Tracks(bpm, file, l.Drop(Key(file, p)))
  {
    hide Effect, Consistent, Safe, View, BufferPoolManager.Valid, Unpinned, Flushed, TablesOk;
    var k := Key(file, p);
    ghost var q := bpm.State();
    EffectSound(l.start, q, file, l.grown, l.writes, l.held);
    assert l.Drop(k).held + {k} == l.held;
    EffectUnpin(l.start, q, file, l.grown, l.writes, l.Drop(k).held, k, true);
    UnpinnedOk(q, k, false);
    UnpinnedOk(q, k, true);
    UnpinnedFiles(q, k);
    FlushMakesUp(q, k);
    EffectFlush(l.start, Unpinned(q, k, true), file, l.grown, l.writes, l.Drop(k).held, k);
    var unpinned := bpm.UnpinPage(k);
    var flushed := bpm.FlushPage(k);
  }

  lemma UnpinnedFiles(p: Pool, k: Key)
    requires Consistent(p)
    ensures TablesOk(Unpinned(p, k, false)) && TablesOk(Unpinned(p, k, true))
    ensures InFile(p, k) ==> InFile(Unpinned(p, k, true), k)
  {
    UnpinnedOk(p, k, false);
    UnpinnedOk(p, k, true);
  }
}
