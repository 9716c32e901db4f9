/** Page 0 of a heap file: how many pages there are, and how much room each data page has. */
module HeapDirectory {
  import opened Options
  import opened Disk
  import opened Bytes
  import opened SlottedPage
  import opened HeapPage
  import opened HeapModel

  datatype Entry = Entry(free: int, tuples: int)

  predicate EntryOk(e: Entry) {
    IsU16(e.free) && IsU16(e.tuples)
  }

  ghost predicate Entered(es: seq<Entry>) {
    |es| <= MAX_DATA_PAGES && forall i :: 0 <= i < |es| ==> EntryOk(es[i])
  }

  function EntryBytes(page: int, e: Entry): (b: seq<byte>)
    requires IsU16(page) && EntryOk(e)
    ensures |b| == 6
  {
    Triple(page, e.free, e.tuples)
  }

  function EntryArray(es: seq<Entry>): (b: seq<byte>)
    requires Entered(es)
    ensures |b| == 6 * |es|
  {
    if es == [] then [] else EntryArray(es[..|es| - 1]) + EntryBytes(|es|, es[|es| - 1])
  }

  /** The 4096 bytes of a directory of `|es|` data pages. */
  function DirectoryBytes(es: seq<Entry>): (b: seq<byte>)
    requires Entered(es)
    ensures |b| == PAGE_SIZE
  {
    Parts(U16(|es| + 1), EntryArray(es), PAGE_SIZE - 2 - 6 * |es|, [])
  }

  /** Full means full: the last entry ends within the page, and one more would not. */
  lemma DirectoryFull(es: seq<Entry>)
    requires Entered(es) && |es| == MAX_DATA_PAGES
    ensures |U16(|es| + 1)| + |EntryArray(es)| <= PAGE_SIZE < |U16(|es| + 1)| + |EntryArray(es)| + 6
  {
  }

  // ---- Reading ----

  lemma CountBack(es: seq<Entry>)
    requires Entered(es)
    ensures U16At(DirectoryBytes(es), 0) == |es| + 1
  {
    assert DirectoryBytes(es)[0..2] == U16(|es| + 1);
    U16Back(DirectoryBytes(es), 0, |es| + 1);
  }

  lemma {:induction false} EntryAt(es: seq<Entry>, i: nat)
    requires Entered(es) && i < |es|
    ensures HoldsAt(EntryArray(es), 6 * i, EntryBytes(i + 1, es[i]))
  {
    hide EntryBytes;
    var before, last := EntryArray(es[..|es| - 1]), EntryBytes(|es|, es[|es| - 1]);
    assert EntryArray(es) == before + last;
    if i + 1 < |es| {
      EntryAt(es[..|es| - 1], i);
      HoldsPart([], before, last, 6 * i, EntryBytes(i + 1, es[i]));
      assert [] + before + last == before + last;
    } else {
      assert (before + last)[|before|..|before| + |last|] == last;
    }
  }

  lemma TripleBack(raw: seq<byte>, at: nat, a: int, b: int, c: int)
    requires IsU16(a) && IsU16(b) && IsU16(c) && HoldsAt(raw, at, Triple(a, b, c))
    ensures at + 6 <= |raw| && U16At(raw, at) == a && U16At(raw, at + 2) == b && U16At(raw, at + 4) == c
  {
    hide U16, U16At, HoldsAt;
    HoldsSplit(raw, at, U16(a) + U16(b), U16(c));
    HoldsSplit(raw, at, U16(a), U16(b));
    U16Back(raw, at, a);
    U16Back(raw, at + 2, b);
    U16Back(raw, at + 4, c);
  }

  lemma EntryBack(es: seq<Entry>, i: nat)
    requires Entered(es) && i < |es|
    ensures var b := DirectoryBytes(es); var at := 2 + 6 * i;
      at + 6 <= PAGE_SIZE && U16At(b, at) == i + 1 && U16At(b, at + 2) == es[i].free && U16At(b, at + 4) == es[i].tuples
  {
    EntryAt(es, i);
    HoldsPart(U16(|es| + 1), EntryArray(es), Zeros(PAGE_SIZE - 2 - 6 * |es|) + [], 6 * i, EntryBytes(i + 1, es[i]));
    var rest := Zeros(PAGE_SIZE - 2 - 6 * |es|);
    assert DirectoryBytes(es) == U16(|es| + 1) + EntryArray(es) + (rest + []);
    TripleBack(DirectoryBytes(es), 2 + 6 * i, i + 1, es[i].free, es[i].tuples);
  }

  // ---- Writing ----

  lemma NewDirectoryBytes()
    ensures Over(Zeros(PAGE_SIZE), 0, U16(1)) == DirectoryBytes([])
  {
    ZerosSplit(2, PAGE_SIZE - 2);
    PutMiddle(Zeros(PAGE_SIZE), [], Zeros(2), Zeros(PAGE_SIZE - 2), U16(1));
    assert Zeros(PAGE_SIZE) == [] + Zeros(2) + Zeros(PAGE_SIZE - 2);
    assert [] + U16(1) + Zeros(PAGE_SIZE - 2) == DirectoryBytes([]);
  }

  lemma {:induction false} SetArray(es: seq<Entry>, i: nat, e: Entry)
    requires Entered(es) && i < |es| && EntryOk(e)
    ensures Entered(es[i := e]) && EntryArray(es[i := e]) == Put(EntryArray(es), 6 * i, EntryBytes(i + 1, e))
  {
    hide EntryArray, EntryBytes, Put, EntryOk;
    var n := |es| - 1;
    var last := EntryBytes(|es|, es[n]);
    ArrayStep(es);
    EnteredWith(es, i, e);
    ArrayStep(es[i := e]);
    if i < n {
      assert es[i := e][..n] == es[..n][i := e];
      SetArray(es[..n], i, e);
      PutLeft(EntryArray(es[..n]), last, 6 * i, EntryBytes(i + 1, e));
    } else {
      assert es[i := e][..n] == es[..n];
      PutRight(EntryArray(es[..n]), last, 0, EntryBytes(i + 1, e));
      PutAll(last, EntryBytes(i + 1, e));
    }
  }

  lemma ArrayStep(es: seq<Entry>)
    requires Entered(es) && es != []
    ensures Entered(es[..|es| - 1]) && EntryOk(es[|es| - 1]) && IsU16(|es|)
    ensures EntryArray(es) == EntryArray(es[..|es| - 1]) + EntryBytes(|es|, es[|es| - 1])
  {
  }

  lemma EnteredWith(es: seq<Entry>, i: nat, e: Entry)
    requires Entered(es) && i < |es| && EntryOk(e)
    ensures Entered(es[i := e])
  {
  }

  lemma PutAll(a: seq<byte>, b: seq<byte>)
    requires |a| == |b|
    ensures Put(a, 0, b) == b
  {
  }

  lemma SetEntry(es: seq<Entry>, i: nat, e: Entry)
    requires Entered(es) && i < |es| && EntryOk(e)
    ensures Entered(es[i := e]) && Over(DirectoryBytes(es), 2 + 6 * i, EntryBytes(i + 1, e)) == DirectoryBytes(es[i := e])
  {
    hide EntryBytes, EntryArray, Put, Zeros, U16;
    SetArray(es, i, e);
    PutParts(U16(|es| + 1), EntryArray(es), PAGE_SIZE - 2 - 6 * |es|, 6 * i, EntryBytes(i + 1, e));
  }

  lemma PutParts(head: seq<byte>, slots: seq<byte>, room: nat, at: nat, part: seq<byte>)
    requires at + |part| <= |slots|
    ensures Put(Parts(head, slots, room, []), |head| + at, part) == Parts(head, Put(slots, at, part), room, [])
  {
    PutRight(head, slots, at, part);
    PutLeft(head + slots, Zeros(room), |head| + at, part);
    PutLeft(head + slots + Zeros(room), [], |head| + at, part);
  }

  /** The count goes up, then the new page's entry is written. */
  lemma GrowDirectory(es: seq<Entry>, e: Entry)
    requires Entered(es) && |es| < MAX_DATA_PAGES && EntryOk(e)
    ensures Entered(es + [e]) && |Over(DirectoryBytes(es), 0, U16(|es| + 2))| == PAGE_SIZE
    ensures Over(Over(DirectoryBytes(es), 0, U16(|es| + 2)), 2 + 6 * |es|, EntryBytes(|es| + 1, e)) == DirectoryBytes(es + [e])
  {
    hide EntryBytes, Put, Zeros, U16;
    var room := PAGE_SIZE - 2 - 6 * |es|;
    PutHead(U16(|es| + 1), EntryArray(es), room, [], U16(|es| + 2));
    PutSlot(U16(|es| + 2), EntryArray(es), room - 6, [], EntryBytes(|es| + 1, e));
    assert (es + [e])[..|es|] == es;
  }

  // ---- The object ----

  /** Page 0, the directory itself, has no room. */
  function RoomOf(es: seq<Entry>, page: int): int {
    if 1 <= page <= |es| then es[page - 1].free else 0
  }

  /** 0, 1, .., n */
  function Upto(n: nat): (s: seq<int>)
    ensures |s| == n + 1 && forall i :: 0 <= i <= n ==> s[i] == i
  {
    seq(n + 1, i => i)
  }

  /** The directory in memory: an insertion-ordered dictionary of room by page, with page 0 entered as full. */
  class DirectoryPage {
    const dirRaw: array<byte>
    var pageCount: int
    var freeSpace: map<int, int>
    var order: seq<int>

    ghost predicate Holds(es: seq<Entry>)
      reads this, dirRaw
    {
      && dirRaw.Length == PAGE_SIZE && Entered(es) && dirRaw[..] == DirectoryBytes(es)
      && Lists(es, |es|) && pageCount == |es| + 1
    }

    /** The dictionary has the first `n` data pages, in order. */
    ghost predicate Lists(es: seq<Entry>, n: int)
      reads this
    {
      && 0 <= n <= |es| && order == Upto(n)
      && (forall i :: i in freeSpace <==> 0 <= i <= n)
      && (forall i :: 0 <= i <= n ==> freeSpace[i] == RoomOf(es, i))
    }

    constructor (raw: array<byte>, newDirectory: bool, ghost es: seq<Entry>)
      requires raw.Length == PAGE_SIZE && Entered(es)
      requires if newDirectory then raw[..] == Zeros(PAGE_SIZE) && es == [] else raw[..] == DirectoryBytes(es)
      modifies raw
      ensures dirRaw == raw && Holds(es)
    {
      dirRaw := raw;
      freeSpace := map[0 := 0];
      order := [0];
      pageCount := 1;
      new;
      assert Upto(0) == [0];
      if !newDirectory {
        Deserialize(es);
      } else {
        NewDirectoryBytes();
        Overwrite(dirRaw, 0, U16(pageCount));
      }
    }

    method Deserialize(ghost es: seq<Entry>)
      requires dirRaw.Length == PAGE_SIZE && Entered(es) && dirRaw[..] == DirectoryBytes(es) && Lists(es, 0)
      modifies this
      ensures Holds(es)
    {
      hide DirectoryBytes, U16At;
      CountBack(es);
      pageCount := U16At(dirRaw[..], 0);
      var offset := 2;
      var i := 1;
      while i < pageCount
        invariant 1 <= i <= pageCount == |es| + 1 && offset == 6 * i - 4
        invariant Lists(es, i - 1)
      {
        EntryBack(es, i - 1);
        var pageId := U16At(dirRaw[..], offset);
        Enter(pageId, U16At(dirRaw[..], offset + 2), es);
        offset := offset + 6;
        i := i + 1;
      }
    }

    /** A dictionary assignment of a key not there yet. */
    method Enter(pageId: int, free: int, ghost es: seq<Entry>)
      requires 1 <= pageId <= |es| && Lists(es, pageId - 1) && free == RoomOf(es, pageId)
      modifies this`freeSpace, this`order
      ensures Lists(es, pageId)
    {
      hide DirectoryBytes, EntryArray;
      assert Upto(pageId) == Upto(pageId - 1) + [pageId];
      freeSpace := freeSpace[pageId := free];
      order := order + [pageId];
    }

    /** Refuses page 0, pages past the count and negative numbers; else records the page's room and tuple count. */
    method UpdateDirectory(pageId: nat, free: int, tupleCount: int, ghost es: seq<Entry>) returns (ok: bool)
      requires Holds(es) && free < U16_LIMIT && tupleCount < U16_LIMIT
      modifies this`freeSpace, dirRaw
      ensures ok <==> 1 <= pageId <= |es| && 0 <= free && 0 <= tupleCount
      ensures ok ==> Holds(es[pageId - 1 := Entry(free, tupleCount)])
      ensures !ok ==> Holds(es)
    {
      hide DirectoryBytes, Over, Triple, EntryArray;
      if pageId == 0 || pageId >= pageCount || free < 0 || tupleCount < 0 {
        return false;
      }
      SetEntry(es, pageId - 1, Entry(free, tupleCount));
      freeSpace := freeSpace[pageId := free];
      var offset := 6 * pageId - 4;
      PutThree(dirRaw, offset, pageId, free, tupleCount);
      ok := true;
    }

    /** One more data page, entered as wholly free. */
    method IncreasePageCount(pageId: nat, ghost es: seq<Entry>)
      requires Holds(es) && |es| < MAX_DATA_PAGES && pageId == |es| + 1
      modifies this, dirRaw
      ensures Holds(es + [Entry(PAGE_SIZE, 0)])
    {
      GrowDirectory(es, Entry(PAGE_SIZE, 0));
      pageCount := pageCount + 1;
      Overwrite(dirRaw, 0, U16(pageCount));
      PutThree(dirRaw, 6 * pageId - 4, pageId, PAGE_SIZE, 0);
      Enter(pageId, PAGE_SIZE, es + [Entry(PAGE_SIZE, 0)]);
    }

    /** The first page of the dictionary with that much room. */
    method FindPageWithEnoughSpace(n: int, ghost es: seq<Entry>) returns (page: Option<int>)
      requires Holds(es) && 0 < n
      ensures page.Some? ==> 1 <= page.value <= |es| && RoomOf(es, page.value) >= n
      ensures forall p :: 1 <= p <= |es| && (page.Some? ==> p < page.value) ==> RoomOf(es, p) < n
    {
      var i := 0;
      while i < |order|
        invariant 0 <= i <= |order|
        invariant forall p :: 1 <= p < i ==> RoomOf(es, p) < n
      {
        var pageId := order[i];
        if freeSpace[pageId] >= n {
          return Some(pageId);
        }
        i := i + 1;
      }
      page := None;
    }
  }
}
