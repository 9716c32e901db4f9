/** A heap file as a value: the slots of its data pages, and what each operation does to the live tuples. */
module HeapModel {
  import opened Options
  import opened Disk
  import opened Bytes
  import opened BTreeNode
  import opened SlottedPage
  import opened HeapPage

  /** Data page `p` of the file is element `p - 1`; page 0 is the directory. */
  type Heap = seq<seq<Slot>>

  const MAX_DATA_PAGES: nat := 682
  const MAX_TUPLE: nat := 4084

  ghost predicate HeapOk(h: Heap) {
    |h| <= MAX_DATA_PAGES && forall i :: 0 <= i < |h| ==> Fits(h[i])
  }

  /** The lowest-numbered page with `n` bytes of room, counting from `i`; none is `|h|`. */
  function Place(h: Heap, n: int, i: nat): (p: nat)
    requires i <= |h|
    ensures i <= p <= |h|
    ensures p < |h| ==> FreeSpace(h[p]) >= n
    ensures forall j :: i <= j < p ==> FreeSpace(h[j]) < n
    decreases |h| - i
  {
    if i == |h| || FreeSpace(h[i]) >= n then i else Place(h, n, i + 1)
  }

  function PlaceFor(h: Heap, data: seq<byte>): (p: nat)
    ensures p <= |h|
  {
    Place(h, |data| + HEADER_SIZE, 0)
  }

  function Inserted(h: Heap, data: seq<byte>): (Heap, Rid) {
    var p := PlaceFor(h, data);
    if p < |h| then (h[p := Added(h[p], data)], (p + 1, |h[p]|))
    else (h + [Added([], data)], (p + 1, 0))
  }

  /** A fresh page holds a tuple exactly up to this length. */
  lemma FreshPageFitsIff(data: seq<byte>)
    ensures Fits(Added([], data)) <==> |data| <= MAX_TUPLE
  {
    RoomIff([], data);
  }

  /** The directory has an entry for one more page, or the tuple needs none. */
  predicate Insertable(h: Heap, data: seq<byte>) {
    |data| <= MAX_TUPLE && (PlaceFor(h, data) < |h| || |h| < MAX_DATA_PAGES)
  }

  lemma InsertedOk(h: Heap, data: seq<byte>)
    requires HeapOk(h) && Insertable(h, data)
    ensures HeapOk(Inserted(h, data).0)
  {
    var p := PlaceFor(h, data);
    RoomIff([], data);
    if p < |h| {
      RoomIff(h[p], data);
    }
  }

  /** An insert is carried out exactly when it leaves the file within its limits. */
  lemma InsertableIff(h: Heap, data: seq<byte>)
    requires HeapOk(h)
    ensures Insertable(h, data) <==> HeapOk(Inserted(h, data).0)
  {
    var p, h' := PlaceFor(h, data), Inserted(h, data).0;
    FreshPageFitsIff(data);
    if Insertable(h, data) {
      InsertedOk(h, data);
    } else if p == |h| {
      assert h'[|h|] == Added([], data);
    }
  }

  // ---- Tuples by rid ----

  /** A slot handed out once, live or not. */
  predicate Used(h: Heap, r: Rid) {
    1 <= r.0 <= |h| && 0 <= r.1 < |h[r.0 - 1]|
  }

  function SlotOf(h: Heap, r: Rid): Slot
    requires Used(h, r)
  {
    h[r.0 - 1][r.1]
  }

  predicate IsLive(h: Heap, r: Rid) {
    Used(h, r) && SlotOf(h, r).live
  }

  function LiveRids(h: Heap): (s: set<Rid>)
    ensures forall r :: r in s <==> IsLive(h, r)
  {
    set p, i | 0 <= p < |h| && 0 <= i < |h[p]| && h[p][i].live :: (p + 1, i)
  }

  /** The map a heap file stands for. */
  function Live(h: Heap): map<Rid, seq<byte>> {
    map r | r in LiveRids(h) :: SlotOf(h, r).data
  }

  function Get(h: Heap, r: Rid): Option<seq<byte>>
    requires 1 <= r.0 && 0 <= r.1
  {
    if r.0 <= |h| then Tuple(h[r.0 - 1], r.1) else None
  }

  lemma GetIsLookup(h: Heap, r: Rid)
    requires 1 <= r.0 && 0 <= r.1
    ensures Get(h, r) == if r in Live(h) then Some(Live(h)[r]) else None
  {
  }

  /** A delete of a slot in use; of any other it changes nothing. */
  function Deleted(h: Heap, r: Rid): (Heap, bool) {
    if Used(h, r) then (h[r.0 - 1 := Dead(h[r.0 - 1], r.1)], IsLive(h, r)) else (h, false)
  }

  lemma DeletedOk(h: Heap, r: Rid)
    requires HeapOk(h)
    ensures HeapOk(Deleted(h, r).0) && |Deleted(h, r).0| == |h|
  {
    if Used(h, r) {
      DeadSame(h[r.0 - 1], r.1);
    }
  }

  /**
   An insert answers a rid never handed out before, on the lowest-numbered page with room or else on a new
   page; it adds that tuple to the map and changes no other.
   */
  lemma InsertRefines(h: Heap, data: seq<byte>)
    ensures var (h', r) := Inserted(h, data);
      && !Used(h, r) && (forall q :: Used(h', q) <==> Used(h, q) || q == r)
      && Live(h') == Live(h)[r := data]
      && (forall p {:trigger h[p - 1]} :: 1 <= p < r.0 && p <= |h| ==> FreeSpace(h[p - 1]) < |data| + HEADER_SIZE)
      && (r.0 <= |h| ==> FreeSpace(h[r.0 - 1]) >= |data| + HEADER_SIZE)
      && |h'| == if r.0 <= |h| then |h| else |h| + 1
  {
    hide Dead, FreeSpace;
    var (h', r) := Inserted(h, data);
    forall q
      ensures Used(h', q) <==> Used(h, q) || q == r
      ensures Used(h, q) ==> SlotOf(h', q) == SlotOf(h, q)
    {
      InsertedSlot(h, data, q);
    }
    InsertedSlot(h, data, r);
    LiveAdd(h, h', r, data);
    PlaceBounds(h, data);
  }

  lemma PlaceBounds(h: Heap, data: seq<byte>)
    ensures var (h', r) := Inserted(h, data);
      && (forall p {:trigger h[p - 1]} :: 1 <= p < r.0 && p <= |h| ==> FreeSpace(h[p - 1]) < |data| + HEADER_SIZE)
      && (r.0 <= |h| ==> FreeSpace(h[r.0 - 1]) >= |data| + HEADER_SIZE)
      && |h'| == if r.0 <= |h| then |h| else |h| + 1
  {
  }

  lemma InsertedSlot(h: Heap, data: seq<byte>, q: Rid)
    ensures var (h', r) := Inserted(h, data);
      && !Used(h, r) && Used(h', r) && SlotOf(h', r) == Slot(data, true)
      && (Used(h', q) <==> Used(h, q) || q == r)
      && (Used(h, q) ==> SlotOf(h', q) == SlotOf(h, q))
  {
    hide FreeSpace;
    var p := PlaceFor(h, data);
    var (h', r) := Inserted(h, data);
    if p < |h| {
      assert h'[p] == h[p] + [Slot(data, true)];
      assert forall i :: 0 <= i < |h| && i != p ==> h'[i] == h[i];
    } else {
      assert h'[p] == [Slot(data, true)];
      assert forall i :: 0 <= i < |h| ==> h'[i] == h[i];
    }
  }

  lemma LiveAdd(h: Heap, h': Heap, r: Rid, data: seq<byte>)
    requires !Used(h, r) && Used(h', r) && SlotOf(h', r) == Slot(data, true)
    requires forall q {:trigger Used(h', q)} :: Used(h', q) <==> Used(h, q) || q == r
    requires forall q {:trigger SlotOf(h', q)} :: Used(h, q) ==> SlotOf(h', q) == SlotOf(h, q)
    ensures Live(h') == Live(h)[r := data]
  {
    hide Used, SlotOf;
    assert forall q :: IsLive(h', q) <==> IsLive(h, q) || q == r;
  }

  lemma LiveDrop(h: Heap, h': Heap, r: Rid)
    requires forall q {:trigger Used(h', q)} :: Used(h', q) <==> Used(h, q)
    requires forall q {:trigger SlotOf(h', q)} :: Used(h, q) ==>
      SlotOf(h', q) == if q == r then SlotOf(h, q).(live := false) else SlotOf(h, q)
    ensures Live(h') == Live(h) - {r}
  {
    hide Used, SlotOf;
    assert forall q :: IsLive(h', q) <==> IsLive(h, q) && q != r;
  }

  /** A delete answers true exactly for a live rid, removes exactly it, and frees no slot. */
  lemma DeleteRefines(h: Heap, r: Rid)
    ensures var (h', ok) := Deleted(h, r);
      && (ok <==> r in Live(h))
      && Live(h') == Live(h) - {r}
      && (forall q :: Used(h', q) <==> Used(h, q))
  {
    var (h', ok) := Deleted(h, r);
    forall q
      ensures Used(h', q) <==> Used(h, q)
      ensures Used(h, q) ==> SlotOf(h', q) == if q == r then SlotOf(h, q).(live := false) else SlotOf(h, q)
    {
      DeletedSlot(h, r, q);
    }
    hide Deleted, Used, SlotOf;
    LiveDrop(h, h', r);
    DeletedSlot(h, r, r);
  }

  lemma DeletedSlot(h: Heap, r: Rid, q: Rid)
    ensures var (h', ok) := Deleted(h, r);
      && (ok <==> r in Live(h))
      && (Used(h', q) <==> Used(h, q))
      && (Used(h, q) ==> SlotOf(h', q) == if q == r then SlotOf(h, q).(live := false) else SlotOf(h, q))
  {
    var (h', ok) := Deleted(h, r);
    if Used(h, r) {
      assert forall i :: 0 <= i < |h| && i != r.0 - 1 ==> h'[i] == h[i];
      assert h'[r.0 - 1] == Dead(h[r.0 - 1], r.1);
    }
  }

  // ---- Scan ----

  function Tag(p: int, s: seq<(int, seq<byte>)>): (t: seq<(Rid, seq<byte>)>)
    ensures |t| == |s|
  {
    seq(|s|, i requires 0 <= i < |s| => ((p, s[i].0), s[i].1))
  }

  /** The scan from data page `p` on. */
  function ScanFrom(h: Heap, p: nat): seq<(Rid, seq<byte>)>
    requires 1 <= p <= |h| + 1
    decreases |h| + 1 - p
  {
    if p == |h| + 1 then [] else Tag(p, LiveFrom(h[p - 1], 0)) + ScanFrom(h, p + 1)
  }

  predicate RidBefore(a: Rid, b: Rid) {
    a.0 < b.0 || (a.0 == b.0 && a.1 < b.1)
  }

  predicate LiveAt(s: seq<Slot>, i: int, e: (int, seq<byte>)) {
    i <= e.0 < |s| && 0 <= e.0 && s[e.0].live && s[e.0].data == e.1
  }

  lemma {:induction false} LiveFromExact(s: seq<Slot>, i: nat)
    requires i <= |s|
    ensures var t := LiveFrom(s, i);
      && (forall k :: 0 <= k < |t| ==> LiveAt(s, i, t[k]))
      && (forall k, l :: 0 <= k < l < |t| ==> t[k].0 < t[l].0)
      && (forall j :: i <= j < |s| && s[j].live ==> (j, s[j].data) in t)
    decreases |s| - i
  {
    if i < |s| {
      LiveFromExact(s, i + 1);
      var rest := LiveFrom(s, i + 1);
      var t := LiveFrom(s, i);
      forall j | i <= j < |s| && s[j].live
        ensures (j, s[j].data) in t
      {
        if j != i {
          assert (j, s[j].data) in rest;
        }
      }
    }
  }

  predicate Found(h: Heap, e: (Rid, seq<byte>)) {
    IsLive(h, e.0) && SlotOf(h, e.0).data == e.1
  }

  lemma {:induction false} ScanSound(h: Heap, p: nat, k: nat)
    requires 1 <= p <= |h| + 1 && k < |ScanFrom(h, p)|
    ensures Found(h, ScanFrom(h, p)[k]) && p <= ScanFrom(h, p)[k].0.0
    decreases |h| + 1 - p
  {
    var page := LiveFrom(h[p - 1], 0);
    if k < |page| {
      LiveFromExact(h[p - 1], 0);
      assert page == LiveFrom(h[p - 1], 0);
      assert LiveAt(h[p - 1], 0, page[k]);
    } else {
      ScanSound(h, p + 1, k - |page|);
      assert ScanFrom(h, p)[k] == ScanFrom(h, p + 1)[k - |page|];
    }
  }

  lemma {:induction false} ScanSorted(h: Heap, p: nat, k: nat, l: nat)
    requires 1 <= p <= |h| + 1 && k < l < |ScanFrom(h, p)|
    ensures RidBefore(ScanFrom(h, p)[k].0, ScanFrom(h, p)[l].0)
    decreases |h| + 1 - p
  {
    var page := LiveFrom(h[p - 1], 0);
    if l < |page| {
      LiveFromExact(h[p - 1], 0);
      assert page == LiveFrom(h[p - 1], 0);
      assert ScanFrom(h, p)[k] == ((p, page[k].0), page[k].1) && ScanFrom(h, p)[l] == ((p, page[l].0), page[l].1);
    } else {
      assert ScanFrom(h, p)[l] == ScanFrom(h, p + 1)[l - |page|];
      ScanSound(h, p + 1, l - |page|);
      if k < |page| {
        assert ScanFrom(h, p)[k] == ((p, page[k].0), page[k].1);
      } else {
        assert ScanFrom(h, p)[k] == ScanFrom(h, p + 1)[k - |page|];
        ScanSorted(h, p + 1, k - |page|, l - |page|);
      }
    }
  }

  lemma {:induction false} ScanComplete(h: Heap, p: nat, r: Rid) returns (k: nat)
    requires 1 <= p <= r.0 && IsLive(h, r)
    ensures k < |ScanFrom(h, p)| && ScanFrom(h, p)[k] == (r, SlotOf(h, r).data)
    decreases |h| + 1 - p
  {
    var page := LiveFrom(h[p - 1], 0);
    if r.0 == p {
      LiveFromExact(h[p - 1], 0);
      assert (r.1, h[p - 1][r.1].data) in page;
      k :| 0 <= k < |page| && page[k] == (r.1, h[p - 1][r.1].data);
      assert ScanFrom(h, p)[k] == ((p, page[k].0), page[k].1);
    } else {
      k := ScanComplete(h, p + 1, r);
      assert ScanFrom(h, p)[|page| + k] == ScanFrom(h, p + 1)[k];
      k := |page| + k;
    }
  }

  /** A scan yields each live tuple once, in page and slot order, and nothing else. */
  lemma ScanExact(h: Heap)
    ensures var t := ScanFrom(h, 1);
      && (forall k, l :: 0 <= k < l < |t| ==> RidBefore(t[k].0, t[l].0))
      && (forall k :: 0 <= k < |t| ==> t[k].0 in Live(h) && Live(h)[t[k].0] == t[k].1)
      && (forall r :: r in Live(h) ==> (r, Live(h)[r]) in t)
  {
    hide ScanFrom;
    var t := ScanFrom(h, 1);
    forall k, l | 0 <= k < l < |t|
      ensures RidBefore(t[k].0, t[l].0)
    {
      ScanSorted(h, 1, k, l);
    }
    forall k | 0 <= k < |t|
      ensures t[k].0 in Live(h) && Live(h)[t[k].0] == t[k].1
    {
      ScanSound(h, 1, k);
    }
    forall r | r in Live(h)
      ensures (r, Live(h)[r]) in t
    {
      var k := ScanComplete(h, 1, r);
      assert t[k] in t;
    }
  }

  // ---- Whole sessions ----

  datatype HeapOp = Add(data: seq<byte>) | Drop(rid: Rid)

  /**
   What the source carries out: tuples and files within their limits, and slots in use to delete, or unused ones
   whose flag bytes happen to be zero.
   */
  ghost predicate Permitted(h: Heap, op: HeapOp) {
    match op
    case Add(data) => Insertable(h, data)
    case Drop(rid) => Deletable(h, rid)
  }

  ghost predicate Deletable(h: Heap, r: Rid) {
    && 1 <= r.0 <= |h| && 0 <= r.1 && FlagAt(r.1) + 2 <= PAGE_SIZE && Fits(h[r.0 - 1])
    && (Used(h, r) || U16At(PageBytes(h[r.0 - 1]), FlagAt(r.1)) == 0)
  }

  /** Every slot handed out can be deleted, once or again. */
  lemma UsedDeletable(h: Heap, r: Rid)
    requires HeapOk(h) && Used(h, r)
    ensures Deletable(h, r)
  {
    assert Fits(h[r.0 - 1]);
  }

  ghost predicate SessionOk(ops: seq<HeapOp>) {
    ops != [] ==> SessionOk(ops[..|ops| - 1]) && Permitted(HeapRun(ops[..|ops| - 1]), ops[|ops| - 1])
  }

  function HeapRun(ops: seq<HeapOp>): Heap {
    if ops == [] then []
    else
      var h := HeapRun(ops[..|ops| - 1]);
      match ops[|ops| - 1]
      case Add(data) => Inserted(h, data).0
      case Drop(rid) => Deleted(h, rid).0
  }

  /** The rid the `i`th operation of a session answers. */
  function Answer(ops: seq<HeapOp>, i: nat): Rid
    requires i < |ops| && ops[i].Add?
  {
    Inserted(HeapRun(ops[..i]), ops[i].data).1
  }

  /** What a plain map would hold, given the rids answered. */
  function Store(ops: seq<HeapOp>): map<Rid, seq<byte>> {
    if ops == [] then map[]
    else
      var before := ops[..|ops| - 1];
      match ops[|ops| - 1]
      case Add(data) => Store(before)[Answer(ops, |ops| - 1) := data]
      case Drop(rid) => Store(before) - {rid}
  }

  /** Over every session the live tuples are what a plain map would hold, and the file stays within its limits. */
  lemma {:induction false} RunRefines(ops: seq<HeapOp>)
    requires SessionOk(ops)
    ensures HeapOk(HeapRun(ops)) && Live(HeapRun(ops)) == Store(ops)
  {
    hide Fits, PageBytes, FreeSpace, U16At, Taken;
    if ops == [] {
      assert Live([]) == map[];
    } else {
      var before := ops[..|ops| - 1];
      RunRefines(before);
      match ops[|ops| - 1]
      case Add(data) =>
        InsertedOk(HeapRun(before), data);
        InsertRefines(HeapRun(before), data);
      case Drop(rid) =>
        DeletedOk(HeapRun(before), rid);
        DeleteRefines(HeapRun(before), rid);
    }
  }

  lemma {:induction false} AnswersUsed(ops: seq<HeapOp>, i: nat)
    requires i < |ops| && ops[i].Add?
    ensures Used(HeapRun(ops), Answer(ops, i))
  {
    var n := |ops| - 1;
    var h := HeapRun(ops[..n]);
    if i < n {
      AnswersUsed(ops[..n], i);
      assert ops[..n][..i] == ops[..i];
    }
    match ops[n]
    case Add(data) => InsertRefines(h, data);
    case Drop(rid) => DeleteRefines(h, rid);
  }

  /** Over a whole session no rid is answered twice, whatever is deleted in between. */
  lemma AnswersDistinct(ops: seq<HeapOp>, i: nat, j: nat)
    requires SessionOk(ops) && i < j < |ops| && ops[i].Add? && ops[j].Add?
    ensures Answer(ops, i) != Answer(ops, j)
  {
    AnswersUsed(ops[..j], i);
    assert ops[..j][..i] == ops[..i];
    InsertRefines(HeapRun(ops[..j]), ops[j].data);
  }
}
