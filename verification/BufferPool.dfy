/** The buffer pool: a write-back cache over the disk, with pins, dirty bits and LRU-K replacement. */
module BufferPool {
  import opened Options
  import opened Disk
  import opened LruKReplacer
  import opened PoolState

  /** A frame is evictable exactly when used and unpinned; used frames have been accessed, free ones have not. */
  ghost predicate Agrees(p: Pool, evictable: set<int>, logs: seq<seq<int>>)
    requires TablesOk(p) && |logs| == NUM_FRAMES
  {
    && (forall f :: f in evictable <==> f in p.frameTable && p.pinCount[f] == 0)
    && (forall f :: f in p.frameTable ==> logs[f] != [])
    && (forall f :: f in p.freeFrames ==> logs[f] == [])
  }

  /** The used, unpinned frames come after `f` in LRU-K order. */
  ghost predicate FirstToGo(p: Pool, f: int, logs: seq<seq<int>>, now: int) {
    && IsFrame(f) && |logs| == |p.pinCount| == NUM_FRAMES && f in p.frameTable && logs[f] != []
    && forall g :: IsFrame(g) && g in p.frameTable && p.pinCount[g] == 0 && g != f ==>
      logs[g] != [] && Sooner(logs[f], logs[g], now)
  }

  lemma BroughtAgrees(p: Pool, f: int, k: Key, evictable: set<int>, logs: seq<seq<int>>, logs': seq<seq<int>>)
    requires Consistent(p) && |logs| == |logs'| == NUM_FRAMES && Agrees(p, evictable, logs)
    requires IsFrame(f) && p.pinCount[f] == 0 && k !in p.pageTable
    requires logs'[f] != [] && forall g :: IsFrame(g) && g != f ==> logs'[g] == logs[g]
    ensures Consistent(Brought(p, f, k)) && Agrees(Brought(p, f, k), evictable - {f}, logs')
  {
    hide BytesOk, Safe, View, Pins;
    BroughtOk(p, f, k);
    var q := Brought(p, f, k);
    assert q.frameTable == p.frameTable[f := k];
    assert q.pinCount == p.pinCount[f := 1];
    forall g
      ensures g in evictable - {f} <==> g in q.frameTable && q.pinCount[g] == 0
    {
      assert g in p.frameTable ==> IsFrame(g);
    }
  }

  lemma HitAgrees(p: Pool, k: Key, evictable: set<int>, logs: seq<seq<int>>, logs': seq<seq<int>>)
    requires Consistent(p) && |logs| == |logs'| == NUM_FRAMES && Agrees(p, evictable, logs) && k in p.pageTable
    requires var f := p.pageTable[k]; logs'[f] != [] && forall g :: IsFrame(g) && g != f ==> logs'[g] == logs[g]
    ensures Consistent(Hit(p, k)) && Agrees(Hit(p, k), evictable - {p.pageTable[k]}, logs')
  {
    HitOk(p, k);
  }

  class BufferPoolManager {
    var frames: seq<Page>
    var pageTable: map<Key, int>
    var frameTable: map<int, Key>
    var freeFrames: set<int>
    var pinCount: seq<nat>
    var dirty: seq<bool>
    const replacer: Replacer
    var disk: Disk
    ghost var unmarked: set<Key>

    ghost function State(): Pool
      reads this
    {
      Pool(frames, pageTable, frameTable, freeFrames, pinCount, dirty, disk, unmarked)
    }

    /** The replacer may evict exactly the used, unpinned frames, all of them accessed at least once. */
    ghost predicate Valid()
      reads this, replacer
    {
      && Consistent(State())
      && replacer.Valid()
      && Agrees(State(), replacer.evictable, replacer.logs)
    }

    constructor (d: Disk)
      ensures Valid() && fresh(replacer)
      ensures State() == Empty(d)
    {
      frames := seq(NUM_FRAMES, _ => ZeroPage());
      pageTable := map[];
      frameTable := map[];
      freeFrames := set f {:trigger IsFrame(f)} | 0 <= f < NUM_FRAMES && IsFrame(f);
      pinCount := seq(NUM_FRAMES, _ => 0);
      dirty := seq(NUM_FRAMES, _ => false);
      replacer := new Replacer();
      disk := d;
      unmarked := {};
      new;
      EmptyOk(d);
    }

    /** The logs have gained one access to `frame`, at time `now`. */
    ghost predicate Accessed(logs: seq<seq<int>>, now: int, frame: int)
      requires IsFrame(frame)
      reads replacer
    {
      |logs| == NUM_FRAMES && replacer.logs == logs[frame := logs[frame] + [now]] && replacer.currentTime == now + 1
    }

    /** An access that pins: the frame is recorded and taken off the evictable list. */
    method Touch(frame: int)
      requires replacer.Valid() && IsFrame(frame)
      modifies replacer
      ensures replacer.Valid()
      ensures replacer.evictable == old(replacer.evictable) - {frame}
      ensures Accessed(old(replacer.logs), old(replacer.currentTime), frame)
    {
      replacer.RecordAccess(frame);
      replacer.SetEvictable(frame, false);
    }

    method FetchResident(k: Key) returns (data: Page)
      requires Valid() && k in pageTable
      modifies this`pinCount, replacer
      ensures Valid()
      ensures State() == Hit(old(State()), k)
      ensures data == View(State(), k)
      ensures Accessed(old(replacer.logs), old(replacer.currentTime), pageTable[k])
    {
      var frame := pageTable[k];
      ghost var before := State();
      pinCount := pinCount[frame := pinCount[frame] + 1];
      Touch(frame);
      HitAgrees(before, k, old(replacer.evictable), old(replacer.logs), replacer.logs);
      data := frames[frame];
    }

    /**
     The page's contents, pinned once more. None stands for the failure when the page is absent and every
     frame is pinned; then nothing changes. Under the protocol no page's contents change. A page that is there has its
     access recorded; an absent one takes a free frame, or with none free the frame first to go, whose log starts anew.
     */
    method FetchPage(k: Key) returns (r: Option<Page>)
      requires Valid()
      modifies this, replacer
      ensures Valid()
      ensures r.Some? <==> k in old(pageTable) || |old(Pinned(State()))| < NUM_FRAMES
      ensures r.None? ==> State() == old(State())
      ensures r.Some? ==> k in pageTable && r.value == View(State(), k)
      ensures r.Some? ==> forall j :: Pins(State(), j) == old(Pins(State(), j)) + if j == k then 1 else 0
      ensures forall j :: old(Pins(State(), j)) > 0 ==> j in pageTable && pageTable[j] == old(pageTable)[j]
      ensures unmarked <= old(unmarked)
      ensures old(Safe(State())) ==> Safe(State()) && SameViews(old(State()), State()) && SameSizes(old(State()), State())
      ensures r.None? ==> replacer.logs == old(replacer.logs) && replacer.currentTime == old(replacer.currentTime)
      ensures k in old(pageTable) ==> Accessed(old(replacer.logs), old(replacer.currentTime), pageTable[k])
      ensures r.Some? && k !in old(pageTable) ==> Taken(old(State()), old(replacer.logs), old(replacer.currentTime), k)
    {
      ghost var before := State();
      if k in pageTable {
        HitOk(before, k);
        var data := FetchResident(k);
        return Some(data);
      }
      r := FetchAbsent(k);
      if r.Some? {
        ghost var f :| IsFrame(f) && before.pinCount[f] == 0 && State() == Brought(before, f, k);
        BroughtOk(before, f, k);
        forall j | Pins(before, j) > 0
          ensures j in pageTable && pageTable[j] == before.pageTable[j]
        {
          BroughtKeepsPinned(before, f, k, j);
        }
      }
    }

    lemma RoomIff()
      requires Valid()
      ensures |Pinned(State())| < NUM_FRAMES <==> freeFrames != {} || replacer.evictable != {}
    {
      if |Pinned(State())| < NUM_FRAMES {
        RoomLeft(State());
        var f :| IsFrame(f) && pinCount[f] == 0;
        assert f in freeFrames || f in replacer.evictable;
      } else {
        NoRoom(State());
        if freeFrames != {} {
          SomeFrame(freeFrames);
        }
        if replacer.evictable != {} {
          SomeFrame(replacer.evictable);
        }
      }
    }

    /** Page `k` is in a frame that was free or else first to go, and that has been accessed just now, once. */
    ghost predicate Taken(p: Pool, logs: seq<seq<int>>, now: int, k: Key)
      reads this, replacer
    {
      && k in pageTable && IsFrame(pageTable[k]) && |logs| == NUM_FRAMES
      && (if p.freeFrames == {} then FirstToGo(p, pageTable[k], logs, now) else pageTable[k] in p.freeFrames)
      && replacer.logs == logs[pageTable[k] := [now]] && replacer.currentTime == now + 1
    }

    /** A frame to load into: any free one, else the replacer's victim, its page unlisted and written back when dirty. */
    method ClaimFrame() returns (frame: Option<int>)
      requires Valid()
      modifies this`freeFrames, this`pageTable, this`disk, this`unmarked, replacer
      ensures replacer.Valid()
      ensures frame.None? <==> NUM_FRAMES <= |old(Pinned(State()))|
      ensures frame.None? ==> State() == old(State()) && Valid()
      ensures frame.Some? ==> IsFrame(frame.value) && pinCount[frame.value] == 0
      ensures frame.Some? ==> replacer.evictable == old(replacer.evictable) - {frame.value}
      ensures replacer.currentTime == old(replacer.currentTime)
      ensures replacer.logs == if frame.None? then old(replacer.logs) else old(replacer.logs)[frame.value := []]
      ensures frame.Some? ==> if old(freeFrames) != {} then frame.value in old(freeFrames)
        else FirstToGo(old(State()), frame.value, old(replacer.logs), old(replacer.currentTime))
      ensures frame.Some? && frame.value !in frameTable ==>
        frame.value in old(freeFrames) && State() == old(State()).(freeFrames := old(freeFrames) - {frame.value})
      ensures frame.Some? && frame.value in frameTable ==>
        State() == old(State()).(pageTable := old(pageTable) - {frameTable[frame.value]},
                                 disk := WriteBack(old(State()), frame.value),
                                 unmarked := old(unmarked) - {frameTable[frame.value]})
    {
      RoomIff();
      if freeFrames != {} {
        SomeFrame(freeFrames);
        var f :| f in freeFrames;
        freeFrames := freeFrames - {f};
        return Some(f);
      }
      frame := replacer.Evict();
      if frame.Some? {
        var evicted := frameTable[frame.value];
        if evicted in pageTable {
          pageTable := pageTable - {evicted};
        }
        if dirty[frame.value] {
          disk := Write(disk, evicted, frames[frame.value]);
        }
        unmarked := unmarked - {evicted};
      }
    }

    /** The page read from disk into a frame, listed there, pinned once and clean. */
    method Load(frame: int, k: Key)
      requires replacer.Valid() && IsFrame(frame) && |frames| == |pinCount| == |dirty| == NUM_FRAMES
      modifies this`frameTable, this`pageTable, this`frames, this`pinCount, this`dirty, replacer
      ensures replacer.Valid()
      ensures State() == old(State()).(frameTable := old(frameTable)[frame := k], pageTable := old(pageTable)[k := frame],
                                       frames := old(frames)[frame := Read(disk, k)],
                                       pinCount := old(pinCount)[frame := 1], dirty := old(dirty)[frame := false])
      ensures replacer.evictable == old(replacer.evictable) - {frame}
      ensures Accessed(old(replacer.logs), old(replacer.currentTime), frame)
    {
      frameTable := frameTable[frame := k];
      pageTable := pageTable[k := frame];
      frames := frames[frame := Read(disk, k)];
      pinCount := pinCount[frame := 1];
      dirty := dirty[frame := false];
      Touch(frame);
    }

    method FetchAbsent(k: Key) returns (r: Option<Page>)
      requires Valid() && k !in pageTable
      modifies this, replacer
      ensures Valid()
      ensures r.Some? <==> |old(Pinned(State()))| < NUM_FRAMES
      ensures r.None? ==> State() == old(State())
      ensures r.Some? ==> k in pageTable && r.value == View(State(), k)
      ensures r.Some? ==> exists f :: IsFrame(f) && old(pinCount)[f] == 0 && State() == Brought(old(State()), f, k)
      ensures r.None? ==> replacer.logs == old(replacer.logs) && replacer.currentTime == old(replacer.currentTime)
      ensures r.Some? ==> Taken(old(State()), old(replacer.logs), old(replacer.currentTime), k)
    {
      hide Consistent, TablesOk, View, Brought, Evicted, Agrees, Replacer.Valid, FirstToGo, Taken, WriteBack, Read, Pinned;
      ghost var before := State();
      TablesHere();
      var claimed := ClaimFrame();
      if claimed.None? {
        return None;
      }
      var frame := claimed.value;
      ghost var logs := replacer.logs;
      Load(frame, k);
      SameAsBrought(before, State(), frame, k);
      BroughtOk(before, frame, k);
      BroughtAgrees(before, frame, k, old(replacer.evictable), old(replacer.logs), replacer.logs);
      LogAnew(old(replacer.logs), logs, frame, old(replacer.currentTime));
      NowTaken(before, old(replacer.logs), old(replacer.currentTime), k, frame);
      assert replacer.evictable == old(replacer.evictable) - {frame};
      ShownIn(k, frame);
      r := Some(frames[frame]);
    }

    lemma ShownIn(k: Key, frame: int)
      requires Consistent(State()) && k in pageTable && pageTable[k] == frame
      ensures TablesOk(State()) && IsFrame(frame) && frames[frame] == View(State(), k)
    {
    }

    lemma TablesHere()
      requires Valid()
      ensures TablesOk(State()) && Consistent(State()) && Agrees(State(), replacer.evictable, replacer.logs)
      ensures |frames| == |pinCount| == |dirty| == NUM_FRAMES == |replacer.logs| && replacer.Valid()
    {
    }

    lemma NowTaken(p: Pool, logs: seq<seq<int>>, now: int, k: Key, frame: int)
      requires k in pageTable && pageTable[k] == frame && IsFrame(frame) && |logs| == NUM_FRAMES
      requires if p.freeFrames == {} then FirstToGo(p, frame, logs, now) else frame in p.freeFrames
      requires replacer.logs == logs[frame := [now]] && replacer.currentTime == now + 1
      ensures Taken(p, logs, now, k)
    {
    }

    lemma LogAnew(before: seq<seq<int>>, logs: seq<seq<int>>, frame: int, now: int)
      requires IsFrame(frame) && |logs| == NUM_FRAMES
      requires |before| == NUM_FRAMES && logs == before[frame := []]
      ensures logs[frame := logs[frame] + [now]] == before[frame := [now]]
    {
      assert logs[frame] + [now] == [now];
    }

    /** The assignments above, put together. */
    lemma SameAsBrought(p: Pool, q: Pool, f: int, k: Key)
      requires TablesOk(p) && IsFrame(f) && p.pinCount[f] == 0 && k !in p.pageTable
      requires q.frameTable == p.frameTable[f := k] && q.dirty == p.dirty[f := false] && q.pinCount == p.pinCount[f := 1]
      requires q.disk == if f in p.frameTable then WriteBack(p, f) else p.disk
      requires q.frames == p.frames[f := Read(q.disk, k)]
      requires f in p.frameTable ==> q.pageTable == (p.pageTable - {p.frameTable[f]})[k := f]
      requires f in p.frameTable ==> q.freeFrames == p.freeFrames && q.unmarked == p.unmarked - {p.frameTable[f]}
      requires f !in p.frameTable ==> q.pageTable == p.pageTable[k := f]
      requires f !in p.frameTable ==> q.freeFrames == p.freeFrames - {f} && q.unmarked == p.unmarked
      ensures q == Brought(p, f, k)
    {
    }

    /** Gives back one pin; true unless the page was not resident or not pinned. */
    method UnpinPage(k: Key, isDirty: bool := false) returns (ok: bool)
      requires Valid()
      modifies this, replacer
      ensures Valid()
      ensures ok <==> old(Pins(State(), k)) > 0
      ensures State() == Unpinned(old(State()), k, isDirty)
      ensures replacer.logs == old(replacer.logs) && replacer.currentTime == old(replacer.currentTime)
    {
      UnpinnedOk(State(), k, isDirty);
      if k !in pageTable {
        return false;
      }
      var frame := pageTable[k];
      if pinCount[frame] == 0 {
        return false;
      }
      pinCount := pinCount[frame := pinCount[frame] - 1];
      if isDirty {
        dirty := dirty[frame := true];
        unmarked := unmarked - {k};
      }
      if pinCount[frame] == 0 {
        replacer.SetEvictable(frame, true);
      }
      ok := true;
    }

    /** A client changing the bytes of a page it has fetched and still pins. */
    method ChangePage(k: Key, data: Page)
      requires Valid() && Pins(State(), k) > 0
      modifies this`frames, this`unmarked
      ensures Valid()
      ensures State() == Changed(old(State()), k, data)
    {
      ChangedOk(State(), k, data);
      frames := frames[pageTable[k] := data];
      unmarked := unmarked + {k};
    }

    method FlushPage(k: Key) returns (ok: bool)
      requires Valid()
      modifies this`disk, this`dirty, this`unmarked
      ensures Valid()
      ensures ok <==> k in pageTable
      ensures State() == Flushed(old(State()), k)
    {
      FlushedOk(State(), k);
      if k !in pageTable {
        return false;
      }
      var frame := pageTable[k];
      disk := Write(disk, k, frames[frame]);
      dirty := dirty[frame := false];
      unmarked := unmarked - {k};
      ok := true;
    }

    method AllocatePage(file: int) returns (page: nat)
      requires Valid()
      modifies this`disk
      ensures Valid()
      ensures page == NumPages(old(disk), file)
      ensures State() == old(State()).(disk := Allocate(old(disk), file).0)
    {
      AllocatedOk(State(), file);
      var r := Allocate(disk, file);
      disk := r.0;
      page := r.1;
    }

    /**
     Writes every dirty frame out. No page's contents or pins change, and when no change was left
     unmarked the disk ends up holding exactly what every page shows.
     */
    method FlushAll()
      requires Valid()
      modifies this`disk, this`dirty, this`unmarked
      ensures Valid()
      ensures SameViews(old(State()), State())
      ensures forall k :: Pins(State(), k) == old(Pins(State(), k))
      ensures forall f :: f in frameTable ==> !dirty[f]
      ensures unmarked <= old(unmarked)
      ensures old(Safe(State())) ==> Safe(State()) && SameSizes(old(State()), State())
      ensures old(unmarked) == {} ==> forall k :: Read(disk, k) == old(View(State(), k))
    {
      hide View, Pins, Safe, BytesOk, Read, Write, Replacer.Valid, Agrees, SameViews, SameSizes;
      ghost var before := State();
      SameHere(before);
      var frame := 0;
      while frame < NUM_FRAMES
        invariant 0 <= frame <= NUM_FRAMES
        invariant Valid()
        invariant forall k :: Pins(State(), k) == old(Pins(State(), k))
        invariant SameViews(old(State()), State())
        invariant forall f :: 0 <= f < frame ==> !dirty[f]
        invariant unmarked <= old(unmarked)
        invariant old(Safe(State())) ==> Safe(State()) && SameSizes(old(State()), State())
      {
        if dirty[frame] {
          ghost var p := State();
          DirtyInFile(p, frame);
          FlushedOk(p, frameTable[frame]);
          var ok := FlushPage(frameTable[frame]);
          SameChain(before, p, State());
        }
        frame := frame + 1;
      }
      if old(unmarked) == {} {
        CleanPoolOnDisk(State());
        SameRead(before, State());
      }
    }

    lemma SameHere(p: Pool)
      requires TablesOk(p)
      ensures SameViews(p, p) && SameSizes(p, p)
    {
    }

    /** A dirty frame is in use, and its page in its file. */
    lemma DirtyInFile(p: Pool, f: int)
      requires TablesOk(p) && IsFrame(f) && p.dirty[f]
      ensures f in p.frameTable && (Safe(p) ==> InFile(p, p.frameTable[f]))
    {
    }

    lemma SameChain(p: Pool, q: Pool, r: Pool)
      requires SameViews(p, q) && SameViews(q, r)
      ensures SameViews(p, r) && (SameSizes(p, q) && SameSizes(q, r) ==> SameSizes(p, r))
    {
      hide View, TablesOk;
    }

    lemma SameRead(p: Pool, q: Pool)
      requires SameViews(p, q) && forall k :: Read(q.disk, k) == View(q, k)
      ensures forall k :: Read(q.disk, k) == View(p, k)
    {
      hide View, TablesOk, Read;
    }
  }
}
