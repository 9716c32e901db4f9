/** A slotted page: tuples stacked down from the end of the page, their slots stacked up from the header. */
module SlottedPage {
  import opened Disk
  import opened Bytes

  const HEADER_SIZE: nat := 6
  const SLOT_SIZE: nat := 6

  /** A slot keeps its tuple's bytes after a delete; only the flag changes. */
  datatype Slot = Slot(data: seq<byte>, live: bool)

  function Taken(s: seq<Slot>): nat {
    if s == [] then 0 else Taken(s[..|s| - 1]) + |s[|s| - 1].data|
  }

  /** Where the lowest tuple starts. */
  function FreePointer(s: seq<Slot>): int {
    PAGE_SIZE - Taken(s)
  }

  function FreeSpace(s: seq<Slot>): int {
    PAGE_SIZE - HEADER_SIZE - 6 * |s| - Taken(s)
  }

  predicate Fits(s: seq<Slot>) {
    0 <= FreeSpace(s)
  }

  function Zeros(n: nat): (b: seq<byte>)
    ensures |b| == n
  {
    seq(n, _ => 0)
  }

  function SlotBytes(offset: int, slot: Slot): (b: seq<byte>)
    requires IsU16(offset) && IsU16(|slot.data|)
    ensures |b| == SLOT_SIZE
  {
    U16(offset) + U16(|slot.data|) + U16(if slot.live then 1 else 0)
  }

  lemma FitsPrefix(s: seq<Slot>)
    requires Fits(s) && s != []
    ensures Fits(s[..|s| - 1]) && IsU16(FreePointer(s)) && IsU16(|s[|s| - 1].data|)
  {
  }

  function SlotArray(s: seq<Slot>): (b: seq<byte>)
    requires Fits(s)
    ensures |b| == 6 * |s|
  {
    if s == [] then []
    else
      FitsPrefix(s);
      SlotArray(s[..|s| - 1]) + SlotBytes(FreePointer(s), s[|s| - 1])
  }

  /** The tuples, the newest first. */
  function Tuples(s: seq<Slot>): (b: seq<byte>)
    ensures |b| == Taken(s)
  {
    if s == [] then [] else s[|s| - 1].data + Tuples(s[..|s| - 1])
  }

  function Header(s: seq<Slot>): (b: seq<byte>)
    requires Fits(s)
    ensures |b| == HEADER_SIZE
  {
    U16(|s|) + U16(FreePointer(s)) + U16(FreeSpace(s))
  }

  /** A page of four parts. */
  function Parts(head: seq<byte>, slots: seq<byte>, room: nat, tuples: seq<byte>): (b: seq<byte>)
    ensures |b| == |head| + |slots| + room + |tuples|
  {
    head + slots + Zeros(room) + tuples
  }

  /** The 4096 bytes of a page with slots `s`: header, slot array, a gap of zeros, tuples. */
  function PageBytes(s: seq<Slot>): (b: seq<byte>)
    requires Fits(s)
    ensures |b| == PAGE_SIZE
  {
    Parts(Header(s), SlotArray(s), FreeSpace(s), Tuples(s))
  }

  // ---- Reading the bytes back ----

  lemma HeaderBack(s: seq<Slot>)
    requires Fits(s)
    ensures var b := PageBytes(s);
      U16At(b, 0) == |s| && U16At(b, 2) == FreePointer(s) && U16At(b, 4) == FreeSpace(s)
  {
    var b := PageBytes(s);
    assert b[0..2] == U16(|s|) && b[2..4] == U16(FreePointer(s)) && b[4..6] == U16(FreeSpace(s));
    U16Back(b, 0, |s|);
    U16Back(b, 2, FreePointer(s));
    U16Back(b, 4, FreeSpace(s));
  }

  lemma {:induction false} TakenPrefix(s: seq<Slot>, i: nat)
    requires i <= |s|
    ensures Taken(s[..i]) <= Taken(s)
    ensures Fits(s) ==> Fits(s[..i])
  {
    if i < |s| {
      TakenPrefix(s[..|s| - 1], i);
      assert s[..|s| - 1][..i] == s[..i];
    } else {
      assert s[..i] == s;
    }
  }

  /** Where tuple `i` starts. */
  function Offset(s: seq<Slot>, i: nat): int
    requires i < |s|
  {
    FreePointer(s[..i + 1])
  }

  lemma {:induction false} SlotAt(s: seq<Slot>, i: nat)
    requires Fits(s) && i < |s|
    ensures Fits(s[..i + 1]) && IsU16(Offset(s, i)) && IsU16(|s[i].data|)
    ensures SlotArray(s)[6 * i..6 * i + SLOT_SIZE] == SlotBytes(Offset(s, i), s[i])
  {
    FitsPrefix(s);
    if i + 1 < |s| {
      SlotAt(s[..|s| - 1], i);
      assert s[..|s| - 1][..i + 1] == s[..i + 1];
    } else {
      assert s[..i + 1] == s;
    }
  }

  lemma {:induction false} TupleAt(s: seq<Slot>, i: nat)
    requires i < |s|
    ensures Taken(s[..i + 1]) <= Taken(s) && |s[i].data| <= Taken(s[..i + 1])
    ensures var at := Taken(s) - Taken(s[..i + 1]); Tuples(s)[at..at + |s[i].data|] == s[i].data
  {
    if i + 1 < |s| {
      var t := s[..|s| - 1];
      TupleAt(t, i);
      assert t[..i + 1] == s[..i + 1];
      var at := Taken(t) - Taken(s[..i + 1]);
      var last := |s[|s| - 1].data|;
      assert Tuples(s)[last + at..last + at + |s[i].data|] == Tuples(t)[at..at + |s[i].data|];
    } else {
      assert s[..i + 1] == s;
    }
  }

  lemma HoldsPart(a: seq<byte>, b: seq<byte>, c: seq<byte>, i: nat, part: seq<byte>)
    requires HoldsAt(b, i, part)
    ensures HoldsAt(a + b + c, |a| + i, part)
  {
    assert (a + b + c)[|a| + i..|a| + i + |part|] == b[i..i + |part|];
  }

  lemma SlotHeld(s: seq<Slot>, i: nat)
    requires Fits(s) && i < |s|
    ensures IsU16(Offset(s, i)) && IsU16(|s[i].data|)
    ensures HoldsAt(PageBytes(s), HEADER_SIZE + 6 * i, SlotBytes(Offset(s, i), s[i]))
  {
    SlotAt(s, i);
    HoldsPart(Header(s), SlotArray(s), Zeros(FreeSpace(s)) + Tuples(s), 6 * i, SlotBytes(Offset(s, i), s[i]));
    assert PageBytes(s) == Header(s) + SlotArray(s) + (Zeros(FreeSpace(s)) + Tuples(s));
  }

  /** Slot `i`, as the page's bytes give it. */
  lemma SlotBack(s: seq<Slot>, i: nat)
    requires Fits(s) && i < |s|
    ensures var b := PageBytes(s); var at := HEADER_SIZE + 6 * i;
      && at + SLOT_SIZE <= PAGE_SIZE
      && U16At(b, at) == Offset(s, i) && U16At(b, at + 2) == |s[i].data|
      && U16At(b, at + 4) == if s[i].live then 1 else 0
  {
    var b := PageBytes(s);
    var at := HEADER_SIZE + 6 * i;
    SlotHeld(s, i);
    var offset, length, flag := U16(Offset(s, i)), U16(|s[i].data|), U16(if s[i].live then 1 else 0);
    hide PageBytes, U16, Offset, U16At;
    HoldsSplit(b, at, offset + length, flag);
    HoldsSplit(b, at, offset, length);
    U16Back(b, at, Offset(s, i));
    U16Back(b, at + 2, |s[i].data|);
    U16Back(b, at + 4, if s[i].live then 1 else 0);
  }

  /** Tuple `i` lies where its slot says. */
  lemma TupleBack(s: seq<Slot>, i: nat)
    requires Fits(s) && i < |s|
    ensures FreePointer(s) <= Offset(s, i) && Offset(s, i) + |s[i].data| <= PAGE_SIZE
    ensures 0 <= FreePointer(s) && PageBytes(s)[Offset(s, i)..Offset(s, i) + |s[i].data|] == s[i].data
  {
    TupleAt(s, i);
    var at := Taken(s) - Taken(s[..i + 1]);
    HoldsPart(Header(s) + SlotArray(s) + Zeros(FreeSpace(s)), Tuples(s), [], at, s[i].data);
    assert PageBytes(s) == Header(s) + SlotArray(s) + Zeros(FreeSpace(s)) + Tuples(s) + [];
  }

  /** No two tuples overlap, and none reaches into the slot array. */
  lemma {:induction false} ExtentsDisjoint(s: seq<Slot>, i: nat, j: nat)
    requires Fits(s) && i < j < |s|
    ensures HEADER_SIZE + 6 * |s| <= Offset(s, j) && Offset(s, j) + |s[j].data| <= Offset(s, i)
  {
    TakenPrefix(s, j + 1);
    TakenPrefix(s[..j], i + 1);
    assert s[..j][..i + 1] == s[..i + 1];
    assert s[..j + 1][..j] == s[..j];
  }

  // ---- Insert ----

  function Added(s: seq<Slot>, data: seq<byte>): seq<Slot> {
    s + [Slot(data, true)]
  }

  /** The room an insert consumes is exactly the tuple's length and one slot. */
  lemma RoomIff(s: seq<Slot>, data: seq<byte>)
    requires Fits(s)
    ensures Fits(Added(s, data)) <==> |data| + HEADER_SIZE <= FreeSpace(s)
    ensures FreeSpace(Added(s, data)) == FreeSpace(s) - |data| - SLOT_SIZE
    ensures FreePointer(Added(s, data)) == FreePointer(s) - |data|
  {
    assert Added(s, data)[..|s|] == s;
  }

  lemma PutMiddle(raw: seq<byte>, a: seq<byte>, b: seq<byte>, c: seq<byte>, part: seq<byte>)
    requires raw == a + b + c && |b| == |part|
    ensures Put(raw, |a|, part) == a + part + c
  {
  }

  /** The page with the tuple and then its slot written, before the header is. */
  function TupleIn(s: seq<Slot>, data: seq<byte>): seq<byte>
    requires Fits(s) && Fits(Added(s, data))
  {
    Parts(Header(s), SlotArray(s), FreeSpace(Added(s, data)) + SLOT_SIZE, Tuples(Added(s, data)))
  }

  function SlotIn(s: seq<Slot>, data: seq<byte>): seq<byte>
    requires Fits(s) && Fits(Added(s, data))
  {
    Parts(Header(s), SlotArray(Added(s, data)), FreeSpace(Added(s, data)), Tuples(Added(s, data)))
  }

  lemma AddedShape(s: seq<Slot>, data: seq<byte>)
    requires Fits(s) && Fits(Added(s, data))
    ensures IsU16(FreePointer(s) - |data|) && IsU16(|data|) && HEADER_SIZE + 6 * |s| + SLOT_SIZE <= PAGE_SIZE
    ensures FreeSpace(s) == FreeSpace(Added(s, data)) + SLOT_SIZE + |data|
    ensures HEADER_SIZE + 6 * |s| + (FreeSpace(Added(s, data)) + SLOT_SIZE) == FreePointer(s) - |data|
    ensures Tuples(Added(s, data)) == data + Tuples(s)
    ensures SlotArray(Added(s, data)) == SlotArray(s) + SlotBytes(FreePointer(s) - |data|, Slot(data, true))
  {
    hide SlotArray, SlotBytes, Tuples, U16, Zeros;
    RoomIff(s, data);
    AddedRoom(s, data);
    AddedTuples(s, data);
    AddedArray(s, data);
  }

  lemma AddedTuples(s: seq<Slot>, data: seq<byte>)
    ensures Tuples(Added(s, data)) == data + Tuples(s)
  {
    var t := Added(s, data);
    assert t[..|t| - 1] == s;
  }

  lemma AddedArray(s: seq<Slot>, data: seq<byte>)
    requires Fits(s) && Fits(Added(s, data))
    ensures IsU16(FreePointer(s) - |data|) && IsU16(|data|)
    ensures SlotArray(Added(s, data)) == SlotArray(s) + SlotBytes(FreePointer(s) - |data|, Slot(data, true))
  {
    hide SlotBytes, U16;
    RoomIff(s, data);
    AddedRoom(s, data);
    var t := Added(s, data);
    assert t[..|t| - 1] == s && t[|t| - 1] == Slot(data, true);
  }

  lemma AddedRoom(s: seq<Slot>, data: seq<byte>)
    requires Fits(s) && Fits(Added(s, data))
    ensures IsU16(FreePointer(s) - |data|) && IsU16(|data|) && HEADER_SIZE + 6 * |s| + SLOT_SIZE <= PAGE_SIZE
  {
    RoomIff(s, data);
  }

  lemma InsertTupleBytes(s: seq<Slot>, data: seq<byte>)
    requires Fits(s) && Fits(Added(s, data))
    ensures |data| <= FreePointer(s) && Put(PageBytes(s), FreePointer(s) - |data|, data) == TupleIn(s, data)
    ensures |TupleIn(s, data)| == PAGE_SIZE
  {
    hide Put, Header, SlotArray, Tuples, Added, Zeros, Taken, U16;
    AddedShape(s, data);
    PutTuple(Header(s), SlotArray(s), FreeSpace(Added(s, data)) + SLOT_SIZE, Tuples(s), data);
  }

  lemma InsertSlotBytes(s: seq<Slot>, data: seq<byte>)
    requires Fits(s) && Fits(Added(s, data))
    ensures IsU16(FreePointer(s) - |data|) && IsU16(|data|) && HEADER_SIZE + 6 * |s| + SLOT_SIZE <= PAGE_SIZE
    ensures |TupleIn(s, data)| == |SlotIn(s, data)| == PAGE_SIZE
    ensures Put(TupleIn(s, data), HEADER_SIZE + 6 * |s|, SlotBytes(FreePointer(s) - |data|, Slot(data, true)))
      == SlotIn(s, data)
  {
    hide Put, Header, SlotArray, Tuples, Added, Zeros, Taken, U16, SlotBytes;
    AddedShape(s, data);
    PutSlot(Header(s), SlotArray(s), FreeSpace(Added(s, data)), Tuples(Added(s, data)),
      SlotBytes(FreePointer(s) - |data|, Slot(data, true)));
  }

  lemma InsertHeaderBytes(s: seq<Slot>, data: seq<byte>)
    requires Fits(s) && Fits(Added(s, data))
    ensures |SlotIn(s, data)| == PAGE_SIZE && Put(SlotIn(s, data), 0, Header(Added(s, data))) == PageBytes(Added(s, data))
  {
    hide Put, SlotArray, Tuples, Added, Zeros, Taken, U16, SlotBytes;
    AddedShape(s, data);
    PutHead(Header(s), SlotArray(Added(s, data)), FreeSpace(Added(s, data)), Tuples(Added(s, data)), Header(Added(s, data)));
  }

  lemma ZerosSplit(a: nat, b: nat)
    ensures Zeros(a + b) == Zeros(a) + Zeros(b)
  {
  }

  lemma PutTuple(head: seq<byte>, slots: seq<byte>, room: nat, tuples: seq<byte>, data: seq<byte>)
    ensures Put(Parts(head, slots, room + |data|, tuples), |head| + |slots| + room, data)
      == Parts(head, slots, room, data + tuples)
  {
    ZerosSplit(room, |data|);
    var a := head + slots + Zeros(room);
    assert Parts(head, slots, room + |data|, tuples) == a + Zeros(|data|) + tuples;
    PutMiddle(Parts(head, slots, room + |data|, tuples), a, Zeros(|data|), tuples, data);
    assert a + data + tuples == a + (data + tuples);
  }

  lemma PutSlot(head: seq<byte>, slots: seq<byte>, room: nat, tuples: seq<byte>, slot: seq<byte>)
    ensures Put(Parts(head, slots, room + |slot|, tuples), |head| + |slots|, slot)
      == Parts(head, slots + slot, room, tuples)
  {
    ZerosSplit(|slot|, room);
    var c := Zeros(room) + tuples;
    assert Parts(head, slots, room + |slot|, tuples) == (head + slots) + Zeros(|slot|) + c;
    PutMiddle(Parts(head, slots, room + |slot|, tuples), head + slots, Zeros(|slot|), c, slot);
    assert (head + slots) + slot + c == head + (slots + slot) + Zeros(room) + tuples;
  }

  lemma PutHead(head: seq<byte>, slots: seq<byte>, room: nat, tuples: seq<byte>, head': seq<byte>)
    requires |head'| == |head|
    ensures Put(Parts(head, slots, room, tuples), 0, head') == Parts(head', slots, room, tuples)
  {
  }

  // ---- Delete ----

  function Dead(s: seq<Slot>, i: nat): seq<Slot>
    requires i < |s|
  {
    s[i := s[i].(live := false)]
  }

  function FlagAt(i: nat): nat {
    HEADER_SIZE + 6 * i + 4
  }

  lemma {:induction false} DeadSame(s: seq<Slot>, i: nat)
    requires i < |s|
    ensures Taken(Dead(s, i)) == Taken(s) && Tuples(Dead(s, i)) == Tuples(s)
  {
    var n := |s| - 1;
    if i < n {
      DeadSame(s[..n], i);
      assert Dead(s, i)[..n] == Dead(s[..n], i);
    } else {
      assert Dead(s, i)[..n] == s[..n];
    }
  }

  lemma ArrayStep(s: seq<Slot>, t: seq<Slot>, slot: Slot)
    requires Fits(s) && s == t + [slot]
    ensures Fits(t) && IsU16(FreePointer(s)) && IsU16(|slot.data|)
    ensures SlotArray(s) == SlotArray(t) + SlotBytes(FreePointer(s), slot)
  {
    FitsPrefix(s);
    assert s[..|s| - 1] == t;
  }

  lemma {:induction false} DeadArray(s: seq<Slot>, i: nat)
    requires Fits(s) && i < |s|
    ensures Fits(Dead(s, i)) && SlotArray(Dead(s, i)) == Put(SlotArray(s), 6 * i + 4, U16(0))
  {
    DeadSame(s, i);
    var t, slot := s[..|s| - 1], s[|s| - 1];
    assert s == t + [slot];
    FitsPrefix(s);
    assert FreePointer(Dead(s, i)) == FreePointer(s) && Fits(Dead(s, i));
    hide *;
    if i < |t| {
      DeadArray(t, i);
      DeadInside(s, t, slot, i);
    } else {
      DeadLast(s, t, slot);
    }
  }

  lemma DeadInside(s: seq<Slot>, t: seq<Slot>, slot: Slot, i: nat)
    requires Fits(s) && s == t + [slot] && i < |t| && Fits(Dead(s, i)) && FreePointer(Dead(s, i)) == FreePointer(s)
    requires Fits(t) && Fits(Dead(t, i)) && SlotArray(Dead(t, i)) == Put(SlotArray(t), 6 * i + 4, U16(0))
    ensures SlotArray(Dead(s, i)) == Put(SlotArray(s), 6 * i + 4, U16(0))
  {
    assert Dead(s, i) == Dead(t, i) + [slot];
    hide *;
    ArrayStep(s, t, slot);
    ArrayStep(Dead(s, i), Dead(t, i), slot);
    PutLeft(SlotArray(t), SlotBytes(FreePointer(s), slot), 6 * i + 4, U16(0));
  }

  lemma DeadLast(s: seq<Slot>, t: seq<Slot>, slot: Slot)
    requires Fits(s) && s == t + [slot] && Fits(Dead(s, |t|)) && FreePointer(Dead(s, |t|)) == FreePointer(s)
    ensures SlotArray(Dead(s, |t|)) == Put(SlotArray(s), 6 * |t| + 4, U16(0))
  {
    assert Dead(s, |t|) == t + [slot.(live := false)];
    hide *;
    ArrayStep(s, t, slot);
    ArrayStep(Dead(s, |t|), t, slot.(live := false));
    DeadSlot(FreePointer(s), slot);
    PutRight(SlotArray(t), SlotBytes(FreePointer(s), slot), 4, U16(0));
  }

  lemma DeadSlot(offset: int, slot: Slot)
    requires IsU16(offset) && IsU16(|slot.data|)
    ensures SlotBytes(offset, slot.(live := false)) == Put(SlotBytes(offset, slot), 4, U16(0))
  {
  }

  lemma PutLeft(a: seq<byte>, b: seq<byte>, at: nat, part: seq<byte>)
    requires at + |part| <= |a|
    ensures Put(a + b, at, part) == Put(a, at, part) + b
  {
  }

  lemma PutRight(a: seq<byte>, b: seq<byte>, at: nat, part: seq<byte>)
    requires at + |part| <= |b|
    ensures Put(a + b, |a| + at, part) == a + Put(b, at, part)
  {
  }

  /** Deleting a used slot turns the page into the page with that slot dead. */
  lemma DeleteBytes(s: seq<Slot>, i: nat)
    requires Fits(s) && i < |s|
    ensures Fits(Dead(s, i)) && FlagAt(i) + 2 <= PAGE_SIZE
    ensures Put(PageBytes(s), FlagAt(i), U16(0)) == PageBytes(Dead(s, i))
  {
    hide Put, SlotArray, Zeros, Tuples, U16, Taken, Dead, SlotBytes;
    DeadSame(s, i);
    DeadArray(s, i);
    var rest := Zeros(FreeSpace(s)) + Tuples(s);
    var slots := SlotArray(s);
    assert PageBytes(s) == Header(s) + (slots + rest);
    PutRight(Header(s), slots + rest, 6 * i + 4, U16(0));
    PutLeft(slots, rest, 6 * i + 4, U16(0));
  }

  lemma GapZero(s: seq<Slot>, x: nat)
    requires Fits(s) && HEADER_SIZE + 6 * |s| <= x
    ensures x < FreePointer(s) ==> PageBytes(s)[x] == 0
  {
    if x < FreePointer(s) {
      assert PageBytes(s)[x] == Zeros(FreeSpace(s))[x - HEADER_SIZE - 6 * |s|];
    }
  }

  /**
   The page never checks that a deleted slot is in use. Past the slots in use a delete is harmless exactly
   when it finds its two flag bytes zero, and then it answers false.
   */
  lemma DeleteUnusedIff(s: seq<Slot>, i: nat)
    requires Fits(s) && |s| <= i && FlagAt(i) + 2 <= PAGE_SIZE
    ensures Put(PageBytes(s), FlagAt(i), U16(0)) == PageBytes(s) <==> U16At(PageBytes(s), FlagAt(i)) == 0
    ensures FlagAt(i) + 2 <= FreePointer(s) ==> U16At(PageBytes(s), FlagAt(i)) == 0
  {
    GapZero(s, FlagAt(i));
    GapZero(s, FlagAt(i) + 1);
    hide PageBytes, FreePointer;
    var b := PageBytes(s);
    var at := FlagAt(i);
    if U16At(b, at) == 0 {
      assert b[at] == 0 && b[at + 1] == 0;
      assert Put(b, at, U16(0)) == b;
    } else {
      assert Put(b, at, U16(0))[at] == U16(0)[0] && Put(b, at, U16(0))[at + 1] == U16(0)[1];
    }
  }

  /** ... and it need not be: a page with one long tuple of ones shows a flag where slot 100 would be. */
  lemma DeleteUnusedCounterexample()
    ensures var s := [Slot(seq(4000, _ => 1), true)];
      Fits(s) && U16At(PageBytes(s), FlagAt(100)) != 0
  {
    var s := [Slot(seq(4000, _ => 1), true)];
    assert s[..0] == [] && Tuples([]) == [] && Taken([]) == 0;
    assert s[0].data + [] == s[0].data;
    assert Taken(s) == 4000 && Tuples(s) == s[0].data;
    var b := PageBytes(s);
    assert b == (Header(s) + SlotArray(s) + Zeros(FreeSpace(s))) + Tuples(s);
    assert b[FlagAt(100)] == Tuples(s)[FlagAt(100) - 96];
  }
}
