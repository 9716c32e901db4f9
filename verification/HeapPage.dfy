/** The slotted page object: it writes tuples, slots and header into the page's bytes in place. */
module HeapPage {
  import opened Options
  import opened Disk
  import opened Bytes
  import opened SlottedPage

  /** The live tuples in slot order. */
  function LiveFrom(s: seq<Slot>, i: nat): seq<(int, seq<byte>)>
    requires i <= |s|
    decreases |s| - i
  {
    if i == |s| then []
    else (if s[i].live then [(i, s[i].data)] else []) + LiveFrom(s, i + 1)
  }

  function Tuple(s: seq<Slot>, i: nat): Option<seq<byte>> {
    if i < |s| && s[i].live then Some(s[i].data) else None
  }

  lemma NewPageBytes()
    ensures Fits([]) && Put(Put(Zeros(PAGE_SIZE), 2, U16(PAGE_SIZE)), 4, U16(PAGE_SIZE - HEADER_SIZE)) == PageBytes([])
  {
    var raw := Zeros(PAGE_SIZE);
    ZerosSplit(2, 4);
    ZerosSplit(HEADER_SIZE, PAGE_SIZE - HEADER_SIZE);
    assert Put(Put(raw, 2, U16(PAGE_SIZE)), 4, U16(PAGE_SIZE - HEADER_SIZE))
      == U16(0) + U16(PAGE_SIZE) + U16(PAGE_SIZE - HEADER_SIZE) + Zeros(PAGE_SIZE - HEADER_SIZE);
    assert PageBytes([]) == Header([]) + Zeros(PAGE_SIZE - HEADER_SIZE);
  }

  function Triple(a: int, b: int, c: int): (r: seq<byte>)
    requires IsU16(a) && IsU16(b) && IsU16(c)
    ensures |r| == 6
  {
    U16(a) + U16(b) + U16(c)
  }

  /** `Put`, as a name the proofs below can keep folded. */
  function Over(raw: seq<byte>, at: nat, part: seq<byte>): seq<byte>
    requires at + |part| <= |raw|
  {
    Put(raw, at, part)
  }

  method Overwrite(raw: array<byte>, at: nat, part: seq<byte>)
    requires at + |part| <= raw.Length
    modifies raw
    ensures raw[..] == Over(old(raw[..]), at, part)
  {
    PutBytes(raw, at, part);
  }

  /** Three 16-bit fields side by side. */
  method PutThree(raw: array<byte>, at: nat, a: int, b: int, c: int)
    requires IsU16(a) && IsU16(b) && IsU16(c) && at + 6 <= raw.Length
    modifies raw
    ensures raw[..] == Over(old(raw[..]), at, Triple(a, b, c))
  {
    hide U16, Put;
    PutTwice(raw[..], at, U16(a), U16(b));
    PutTwice(raw[..], at, U16(a) + U16(b), U16(c));
    PutBytes(raw, at, U16(a));
    PutBytes(raw, at + 2, U16(b));
    PutBytes(raw, at + 4, U16(c));
  }

  /** A tuple's bytes at `offset`, and slot `n` pointing there. */
  method WriteTuple(raw: array<byte>, n: nat, offset: nat, data: seq<byte>)
    requires offset + |data| <= raw.Length <= PAGE_SIZE && 6 * n + 12 <= raw.Length
    modifies raw
    ensures IsU16(offset) && IsU16(|data|)
    ensures raw[..] == Over(Over(old(raw[..]), offset, data), 6 + 6 * n, Triple(offset, |data|, 1))
  {
    hide Over, Triple;
    Overwrite(raw, offset, data);
    PutThree(raw, HEADER_SIZE + 6 * n, offset, |data|, 1);
  }

  /** The three writes of an insert, in terms of the old page's fields. */
  lemma InsertSteps(s: seq<Slot>, data: seq<byte>)
    requires Fits(s) && |data| + HEADER_SIZE <= FreeSpace(s)
    ensures var t := Added(s, data); var offset := FreePointer(s) - |data|;
      && Fits(t) && |t| == |s| + 1 && FreePointer(t) == offset && FreeSpace(t) == FreeSpace(s) - (|data| + SLOT_SIZE)
      && 0 <= offset && FreePointer(s) <= PAGE_SIZE && IsU16(offset) && IsU16(|data|) && IsU16(|s| + 1) && IsU16(FreeSpace(t))
      && 12 + 6 * |s| <= PAGE_SIZE && |SlotIn(s, data)| == PAGE_SIZE
      && Over(Over(PageBytes(s), offset, data), 6 + 6 * |s|, Triple(offset, |data|, 1)) == SlotIn(s, data)
      && Over(SlotIn(s, data), 0, Triple(|t|, offset, FreeSpace(t))) == PageBytes(t)
  {
    hide PageBytes, TupleIn, SlotIn, Put, U16, SlotArray, Tuples, Zeros;
    RoomIff(s, data);
    AddedRoom(s, data);
    InsertTupleBytes(s, data);
    InsertSlotBytes(s, data);
    InsertHeaderBytes(s, data);
  }

  class SlotPage {
    const page: array<byte>
    var numSlots: int
    var freeSpacePointer: int
    var freeSpace: int

    /** The bytes are exactly those of a page with slots `s`, and the fields agree with the header. */
    ghost predicate Holds(s: seq<Slot>)
      reads this, page
    {
      && page.Length == PAGE_SIZE && Fits(s) && page[..] == PageBytes(s)
      && numSlots == |s| && freeSpacePointer == FreePointer(s) && freeSpace == FreeSpace(s)
    }

    /** Over an existing page, or formatting a zero page as an empty one. */
    constructor (data: array<byte>, newPage: bool, ghost s: seq<Slot>)
      requires data.Length == PAGE_SIZE && Fits(s)
      requires if newPage then data[..] == Zeros(PAGE_SIZE) && s == [] else data[..] == PageBytes(s)
      modifies data
      ensures page == data && Holds(s)
    {
      page := data;
      if newPage {
        numSlots := 0;
        freeSpacePointer := PAGE_SIZE;
        freeSpace := PAGE_SIZE - HEADER_SIZE;
      } else {
        numSlots := U16At(data[..], 0);
        freeSpacePointer := U16At(data[..], 2);
        freeSpace := U16At(data[..], 4);
      }
      new;
      hide PageBytes, U16, Zeros, Put, U16At;
      if newPage {
        NewPageBytes();
        PutBytes(page, 2, U16(freeSpacePointer));
        PutBytes(page, 4, U16(freeSpace));
      } else {
        HeaderBack(s);
      }
    }

    /** One more slot and `length` bytes less room, in the fields and in the page's header. */
    method CountTuple(length: nat)
      requires IsU16(numSlots + 1) && IsU16(freeSpacePointer - length) && IsU16(freeSpace - (length + SLOT_SIZE)) && 6 <= page.Length
      modifies this`numSlots, this`freeSpacePointer, this`freeSpace, page
      ensures numSlots == old(numSlots) + 1 && freeSpacePointer == old(freeSpacePointer) - length
      ensures freeSpace == old(freeSpace) - (length + SLOT_SIZE)
      ensures page[..] == Over(old(page[..]), 0, Triple(numSlots, freeSpacePointer, freeSpace))
    {
      freeSpacePointer := freeSpacePointer - length;
      freeSpace := freeSpace - (length + SLOT_SIZE);
      numSlots := numSlots + 1;
      PutThree(page, 0, numSlots, freeSpacePointer, freeSpace);
    }

    /** The new tuple's slot; every older tuple keeps its slot and bytes. */
    method InsertTuple(data: seq<byte>, ghost s: seq<Slot>) returns (slot: nat)
      requires Holds(s) && |data| + HEADER_SIZE <= freeSpace
      modifies this`numSlots, this`freeSpacePointer, this`freeSpace, page
      ensures Holds(Added(s, data)) && slot == |s|
    {
      hide PageBytes, SlotIn, Over, Triple, FreePointer, FreeSpace, Fits, Added;
      InsertSteps(s, data);
      WriteTuple(page, numSlots, freeSpacePointer - |data|, data);
      CountTuple(|data|);
      slot := numSlots - 1;
    }

    /** The bytes of a live tuple; nothing for a slot never used or deleted. */
    method GetTuple(slot: nat, ghost s: seq<Slot>) returns (r: Option<seq<byte>>)
      requires Holds(s)
      ensures r == Tuple(s, slot)
    {
      if slot >= numSlots {
        return None;
      }
      SlotBack(s, slot);
      TupleBack(s, slot);
      hide PageBytes, Offset, FreePointer, U16At, Fits;
      var slotOffset := HEADER_SIZE + slot * 6;
      var tupleOffset := U16At(page[..], slotOffset);
      var length := U16At(page[..], slotOffset + 2);
      var isValid := U16At(page[..], slotOffset + 4);
      if isValid == 0 {
        return None;
      }
      assert page[..][tupleOffset..tupleOffset + length] == s[slot].data;
      r := Some(page[tupleOffset..tupleOffset + length]);
    }

    /** Clears the flag of a slot; the answer tells whether it was set. The slot is not checked to be in use. */
    method DeleteTuple(slot: nat, ghost s: seq<Slot>) returns (deleted: bool)
      requires Holds(s) && FlagAt(slot) + 2 <= PAGE_SIZE
      modifies page
      ensures deleted <==> U16At(old(page[..]), FlagAt(slot)) != 0
      ensures page[..] == if deleted then Put(old(page[..]), FlagAt(slot), U16(0)) else old(page[..])
      ensures slot < |s| ==> Holds(Dead(s, slot)) && (deleted <==> Tuple(s, slot).Some?)
      ensures |s| <= slot && !deleted ==> Holds(s)
    {
      if slot < |s| {
        SlotBack(s, slot);
        DeleteBytes(s, slot);
        DeadSame(s, slot);
      }
      hide PageBytes, U16, Put, U16At, Taken, Fits;
      var slotOffset := HEADER_SIZE + slot * 6;
      var isValid := U16At(page[..], slotOffset + 4);
      if isValid != 0 {
        PutBytes(page, slotOffset + 4, U16(0));
        return true;
      }
      assert slot < |s| ==> Dead(s, slot) == s;
      deleted := false;
    }

    method Scan(ghost s: seq<Slot>) returns (tuples: seq<(int, seq<byte>)>)
      requires Holds(s)
      ensures tuples == LiveFrom(s, 0)
    {
      tuples := [];
      var slot := 0;
      while slot < numSlots
        invariant 0 <= slot <= |s|
        invariant tuples + LiveFrom(s, slot) == LiveFrom(s, 0)
      {
        var raw := GetTuple(slot, s);
        if raw.Some? {
          tuples := tuples + [(slot, raw.value)];
        }
        slot := slot + 1;
      }
    }
  }
}
