/** How the index and the heap file reach their pages: every pin, page and change is kept in a ledger. */
module PageAccess {
  import opened Disk
  import opened LruKReplacer
  import opened PoolState
  import opened BufferPool
  import opened TreeStore

  /** What an operation has done so far: new pages, rewritten pages, pins held, since `start`. */
  datatype Ledger = Ledger(start: Pool, grown: nat, writes: map<int, Image>, held: set<Key>) {
    function Hold(k: Key): Ledger { this.(held := held + {k}) }
    function Drop(k: Key): Ledger { this.(held := held - {k}) }
    function Wrote(p: int, image: Image): Ledger { this.(writes := writes[p := image]) }
    function Grew(): Ledger { this.(grown := grown + 1) }
  }

  /** All pins returned, nothing left unmarked, nothing changed outside `file`. */
  ghost predicate Settled(p: Pool, q: Pool, file: int) {
    && Sound(p) && Sound(q)
    && (forall k: Key :: k.file != file ==> View(q, k) == View(p, k))
    && (forall f :: f != file ==> NumPages(q.disk, f) == NumPages(p.disk, f))
    && (forall j :: Pins(q, j) == Pins(p, j))
    && q.unmarked <= p.unmarked
  }

  /** As when settled, except that the pins in `held` were never returned, nor changes to their pages marked. */
  ghost predicate Abandoned(p: Pool, q: Pool, file: int, held: set<Key>) {
    && Sound(p) && Sound(q)
    && (forall k: Key :: k.file != file ==> View(q, k) == View(p, k))
    && (forall f :: f != file ==> NumPages(q.disk, f) == NumPages(p.disk, f))
    && (forall j :: Pins(q, j) == Pins(p, j) + if j in held then 1 else 0)
    && q.unmarked <= p.unmarked + held
  }

  /** Nothing of any other file has changed. */
  ghost predicate OthersKept(p: Pool, q: Pool, file: int) {
    && Sound(p) && Sound(q)
    && (forall k: Key :: k.file != file ==> View(q, k) == View(p, k))
    && (forall f :: f != file ==> NumPages(q.disk, f) == NumPages(p.disk, f))
    && (forall k :: k in q.unmarked && k.file != file ==> k in p.unmarked)
  }

  lemma SettledOthers(p: Pool, q: Pool, file: int)
    requires Settled(p, q, file)
    ensures OthersKept(p, q, file) && SamePins(p, q)
  {
  }

  lemma AbandonedOthers(p: Pool, q: Pool, file: int, held: set<Key>)
    requires Abandoned(p, q, file, held) && forall k :: k in held ==> k.file == file
    ensures OthersKept(p, q, file)
  {
  }

  lemma EffectAbandoned(l: Ledger, q: Pool, file: int)
    requires Effect(l.start, q, file, l.grown, l.writes, l.held)
    ensures Abandoned(l.start, q, file, l.held)
  {
  }

  lemma EffectSettled(l: Ledger, q: Pool, file: int)
    requires Effect(l.start, q, file, l.grown, l.writes, {})
    ensures Settled(l.start, q, file)
  {
  }

  lemma SettledChain(p: Pool, q: Pool, r: Pool, file: int)
    requires Settled(p, q, file) && Settled(q, r, file)
    ensures Settled(p, r, file)
  {
    forall k: Key | k.file != file
      ensures View(r, k) == View(p, k)
    {
      assert View(q, k) == View(p, k);
    }
    forall j
      ensures Pins(r, j) == Pins(p, j)
    {
      assert Pins(q, j) == Pins(p, j);
    }
  }

  lemma SettledRoom(p: Pool, q: Pool, file: int)
    requires Settled(p, q, file)
    ensures SamePins(p, q) && Pinned(q) == Pinned(p)
  {
    SamePinned(p, q);
  }

  /** The pool is in the state the ledger says. */
  ghost predicate Tracks(bpm: BufferPoolManager, file: int, l: Ledger)
    reads bpm, bpm.replacer
  {
    bpm.Valid() && Effect(l.start, bpm.State(), file, l.grown, l.writes, l.held)
  }

  /** One more page can be pinned. */
  ghost predicate Room(l: Ledger) {
    TablesOk(l.start) && |Pinned(l.start)| + |l.held| < NUM_FRAMES
  }

  /** A zero page at the end of the file. */
  method AllocatePage(bpm: BufferPoolManager, file: int, ghost l: Ledger) returns (p: nat)
    requires Tracks(bpm, file, l)
    modifies bpm`disk
    ensures p == old(NumPages(bpm.disk, file))
    ensures Tracks(bpm, file, l.Grew()) && TablesOk(old(bpm.State())) && TablesOk(bpm.State()) && forall k :: View(bpm.State(), k) == old(View(bpm.State(), k))
  {
    EffectSound(l.start, bpm.State(), file, l.grown, l.writes, l.held);
    EffectAllocate(l.start, bpm.State(), file, l.grown, l.writes, l.held);
    AllocatedOk(bpm.State(), file);
    hide Effect, Consistent, Safe;
    p := bpm.AllocatePage(file);
  }

  /** A pinned page's bytes. */
  method FetchPage(bpm: BufferPoolManager, file: int, p: nat, ghost l: Ledger) returns (data: Page)
    requires Tracks(bpm, file, l) && Room(l) && Key(file, p) !in l.held
    modifies bpm, bpm.replacer
    ensures Tracks(bpm, file, l.Hold(Key(file, p)))
    ensures TablesOk(old(bpm.State())) && TablesOk(bpm.State()) && forall k :: View(bpm.State(), k) == old(View(bpm.State(), k))
    ensures data == View(bpm.State(), Key(file, p))
    ensures bpm.unmarked <= old(bpm.unmarked)
  {
    hide Effect, Consistent, TablesOk, Safe;
    EffectSound(l.start, bpm.State(), file, l.grown, l.writes, l.held);
    EffectRoom(l.start, bpm.State(), file, l.grown, l.writes, l.held);
    ghost var before := bpm.State();
    var r := bpm.FetchPage(Key(file, p));
    EffectFetch(l.start, before, bpm.State(), file, l.grown, l.writes, l.held, Key(file, p));
    data := r.value;
  }

  /** Rewrites a held page through its buffer. */
  method RewritePage(bpm: BufferPoolManager, file: int, p: nat, data: Page, ghost image: Image, ghost l: Ledger)
    requires Tracks(bpm, file, l) && Key(file, p) in l.held && Pictures(data, p, image)
    modifies bpm
    ensures Tracks(bpm, file, l.Wrote(p, image))
    ensures NumPages(bpm.disk, file) == old(NumPages(bpm.disk, file))
  {
    hide Effect, Consistent, TablesOk, Safe, View;
    EffectWrite(l.start, bpm.State(), file, l.grown, l.writes, l.held, p, data, image);
    bpm.ChangePage(Key(file, p), data);
  }

  /** Gives back the pin on page `p`. */
  method ReleasePage(bpm: BufferPoolManager, file: int, p: nat, isDirty: bool, ghost l: Ledger)
    requires Tracks(bpm, file, l) && Key(file, p) in l.held
    requires if isDirty then p < NumPages(bpm.disk, file) else Key(file, p) in bpm.unmarked ==> Key(file, p) in l.start.unmarked
    modifies bpm, bpm.replacer
    ensures Tracks(bpm, file, l.Drop(Key(file, p)))
  {
    hide Effect, Consistent, TablesOk, Safe, View, Pins;
    EffectSound(l.start, bpm.State(), file, l.grown, l.writes, l.held);
    assert l.Drop(Key(file, p)).held + {Key(file, p)} == l.held;
    EffectUnpin(l.start, bpm.State(), file, l.grown, l.writes, l.Drop(Key(file, p)).held, Key(file, p), isDirty);
    var ok := bpm.UnpinPage(Key(file, p), isDirty);
  }
}
