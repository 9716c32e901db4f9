/** A decoded B+ tree page held in memory: its operations work in place on the key, rid and pointer lists. */
module BTreePage {
  import opened Options
  import opened Disk
  import opened Bytes
  import opened BTreeNode
  import opened BTreeRead
  import opened BTreeDelete
  import opened BTreeCodec

  /** Maximum number of keys of a page at rest. */
  const ORDER: nat := 100

  class BTreePage {
    const pageRaw: array<byte>
    var pageId: int
    var isLeaf: bool
    var numKeys: int
    var keys: seq<int>
    var pointers: seq<int>
    var RIDs: seq<Rid>
    var prevLeaf: int
    var nextLeaf: int

    ghost predicate Valid()
      reads this
    {
      && numKeys == |keys|
      && (isLeaf ==> |RIDs| == |keys|)
      && (!isLeaf ==> |pointers| == |keys| + 1)
    }

    function Contents(): Node
      reads this
    {
      if isLeaf then Leaf(keys, RIDs, prevLeaf, nextLeaf) else Inner(keys, pointers)
    }

    /** A page object over a buffer that already holds a page. */
    constructor FromBytes(raw: array<byte>, ghost id: int, ghost n: Node)
      requires Decode(raw[..]) == Some((id, n))
      ensures pageRaw == raw && Valid() && pageId == id && Contents() == n
    {
      pageRaw := raw;
      keys, pointers, RIDs := [], [], [];
      prevLeaf, nextLeaf := -1, -1;
      new;
      Deserialize(id, n);
    }

    /** A page object for a new page; an inner page starts without its first pointer. */
    constructor New(raw: array<byte>, id: int, leaf: bool)
      ensures pageRaw == raw && pageId == id && isLeaf == leaf && numKeys == 0 && keys == [] && pointers == [] && RIDs == []
      ensures leaf ==> nextLeaf == -1 && prevLeaf == -1
    {
      pageRaw := raw;
      pageId, isLeaf, numKeys := id, leaf, 0;
      keys, pointers, RIDs := [], [], [];
      prevLeaf, nextLeaf := -1, -1;
    }

    method IsOverflow() returns (r: bool)
      requires Valid()
      ensures r <==> ORDER < |keys|
    {
      r := numKeys > ORDER;
    }

    method Insert(key: int, rid: Rid)
      requires Valid() && isLeaf
      modifies this`keys, this`RIDs, this`numKeys
      ensures Valid()
      ensures Contents() == InsertEntry(old(Contents()), key, rid)
    {
      var i := 0;
      while i < numKeys
        invariant 0 <= i <= |keys|
        invariant forall j :: 0 <= j < i ==> keys[j] <= key
      {
        if key < keys[i] {
          assert UpperBound(keys, key) == i;
          keys := InsertAt(keys, i, key);
          RIDs := InsertAt(RIDs, i, rid);
          numKeys := numKeys + 1;
          return;
        }
        i := i + 1;
      }
      assert UpperBound(keys, key) == |keys|;
      keys := keys + [key];
      RIDs := RIDs + [rid];
      numKeys := numKeys + 1;
    }

    method Lookup(key: int) returns (rids: seq<Rid>)
      requires Valid() && isLeaf
      ensures rids == BTreeRead.Lookup(Contents(), key, 0)
    {
      rids := [];
      var i := 0;
      while i < numKeys
        invariant 0 <= i <= |keys|
        invariant rids + BTreeRead.Lookup(Contents(), key, i) == BTreeRead.Lookup(Contents(), key, 0)
      {
        if key < keys[i] {
          break;
        } else if key == keys[i] {
          rids := rids + [RIDs[i]];
        }
        i := i + 1;
      }
    }

    method RemoveKey(key: int, rid: Rid) returns (removed: bool)
      requires Valid() && isLeaf
      modifies this`keys, this`RIDs, this`numKeys
      ensures Valid()
      ensures removed <==> FindSlot(old(Contents()), key, rid, 0).Some?
      ensures removed ==> Contents() == RemoveEntry(old(Contents()), FindSlot(old(Contents()), key, rid, 0).value)
      ensures !removed ==> Contents() == old(Contents())
    {
      var i := 0;
      while i < numKeys
        invariant 0 <= i <= |keys| && Valid() && unchanged(this)
        invariant FindSlot(Contents(), key, rid, i) == FindSlot(Contents(), key, rid, 0)
      {
        if keys[i] > key {
          break;
        }
        if key == keys[i] && rid == RIDs[i] {
          keys := RemoveAt(keys, i);
          RIDs := RemoveAt(RIDs, i);
          numKeys := numKeys - 1;
          return true;
        }
        i := i + 1;
      }
      removed := false;
    }

    /** Also takes the one state of a new root that holds a pointer and no key yet. */
    method InsertPointer(minKey: int, pointer: int)
      requires Valid() && !isLeaf
      modifies this`keys, this`pointers, this`numKeys
      ensures Valid()
      ensures Contents() == BTreeNode.InsertPointer(old(Contents()), minKey, pointer)
    {
      var i := 0;
      while i < numKeys
        invariant 0 <= i <= |keys|
        invariant forall j :: 0 <= j < i ==> keys[j] <= minKey
      {
        if minKey < keys[i] {
          assert UpperBound(keys, minKey) == i;
          keys := InsertAt(keys, i, minKey);
          pointers := InsertAt(pointers, i + 1, pointer);
          numKeys := numKeys + 1;
          return;
        }
        i := i + 1;
      }
      assert UpperBound(keys, minKey) == |keys|;
      keys := keys + [minKey];
      pointers := pointers + [pointer];
      numKeys := numKeys + 1;
    }

    /** Reads the fields back out of the buffer. */
    method Deserialize(ghost id: int, ghost n: Node)
      requires Decode(pageRaw[..]) == Some((id, n)) && keys == []
      modifies this
      ensures Valid() && pageId == id && Contents() == n
    {
      hide U32At, U16At, I32At, U32sAt, I32sAt, Unflatten;
      isLeaf := pageRaw[0] != 0;
      pageId := U32At(pageRaw[..], 1);
      numKeys := U16At(pageRaw[..], 5);
      if isLeaf {
        DeserializeLeaf();
      } else {
        pointers := ReadU32s(pageRaw, HEADER, numKeys + 1);
        keys := ReadI32s(pageRaw, HEADER + 4 * (numKeys + 1), numKeys);
      }
    }

    method DeserializeLeaf()
      requires 0 <= numKeys && HEADER + 8 + 12 * numKeys <= pageRaw.Length
      modifies this`keys, this`RIDs, this`prevLeaf, this`nextLeaf
      ensures keys == I32sAt(pageRaw[..], HEADER + 8, numKeys)
      ensures RIDs == Unflatten(U32sAt(pageRaw[..], HEADER + 8 + 4 * numKeys, 2 * numKeys))
      ensures prevLeaf == I32At(pageRaw[..], HEADER) && nextLeaf == I32At(pageRaw[..], HEADER + 4)
    {
      hide U32At, I32At, U32sAt, I32sAt, Unflatten;
      prevLeaf := I32At(pageRaw[..], HEADER);
      nextLeaf := I32At(pageRaw[..], HEADER + 4);
      keys := ReadI32s(pageRaw, HEADER + 8, numKeys);
      RIDs := [];
      NoRids(pageRaw[..], HEADER + 8 + 4 * numKeys);
      var base := HEADER + 8 + 4 * numKeys;
      var i := 0;
      while i < numKeys
        invariant 0 <= i <= numKeys && RIDs == Unflatten(U32sAt(pageRaw[..], base, 2 * i))
        invariant keys == I32sAt(pageRaw[..], HEADER + 8, numKeys)
        invariant prevLeaf == I32At(pageRaw[..], HEADER) && nextLeaf == I32At(pageRaw[..], HEADER + 4)
      {
        OneMoreRid(pageRaw[..], base, i);
        RIDs := RIDs + [(U32At(pageRaw[..], base + 8 * i), U32At(pageRaw[..], base + 8 * i + 4))];
        i := i + 1;
      }
    }

    lemma NoRids(raw: seq<byte>, at: nat)
      requires at <= |raw|
      ensures Unflatten(U32sAt(raw, at, 0)) == []
    {
    }

    lemma OneMoreRid(raw: seq<byte>, at: nat, i: nat)
      requires at + 8 * i + 8 <= |raw|
      ensures Unflatten(U32sAt(raw, at, 2 * (i + 1))) ==
        Unflatten(U32sAt(raw, at, 2 * i)) + [(U32At(raw, at + 8 * i), U32At(raw, at + 8 * i + 4))]
    {
    }

    /** Writes the fields into the buffer; bytes past the page's own stay. */
    method Serialize()
      requires Valid() && Packable(pageId, Contents()) && |Encode(pageId, Contents())| <= pageRaw.Length
      modifies pageRaw
      ensures pageRaw[..] == Put(old(pageRaw[..]), 0, Encode(pageId, Contents()))
    {
      if isLeaf {
        SerializeLeaf();
      } else {
        SerializeInner();
      }
    }

    method SerializeInner()
      requires Valid() && !isLeaf && Packable(pageId, Contents()) && |Encode(pageId, Contents())| <= pageRaw.Length
      modifies pageRaw
      ensures pageRaw[..] == Put(old(pageRaw[..]), 0, Encode(pageId, Contents()))
    {
      ghost var raw := pageRaw[..];
      var head := Header(pageId, Contents());
      PutBytes(pageRaw, 0, head);
      WriteU32s(pageRaw, HEADER, pointers);
      PutTwice(raw, 0, head, U32s(pointers));
      WriteI32s(pageRaw, HEADER + 4 * |pointers|, keys);
      PutTwice(raw, 0, head + U32s(pointers), I32s(keys));
    }

    method SerializeLeaf()
      requires Valid() && isLeaf && Packable(pageId, Contents()) && |Encode(pageId, Contents())| <= pageRaw.Length
      modifies pageRaw
      ensures pageRaw[..] == Put(old(pageRaw[..]), 0, Encode(pageId, Contents()))
    {
      hide Packable, Flatten, Put, I32s, U32s, I32, Header, Encode;
      ghost var raw := pageRaw[..];
      LeafParts();
      var links := Header(pageId, Contents()) + I32(prevLeaf) + I32(nextLeaf);
      SerializeLinks();
      WriteI32s(pageRaw, HEADER + 8, keys);
      PutTwice(raw, 0, links, I32s(keys));
      WriteU32s(pageRaw, HEADER + 8 + 4 * |keys|, Flatten(RIDs));
      PutTwice(raw, 0, links + I32s(keys), U32s(Flatten(RIDs)));
    }

    lemma LeafParts()
      requires Valid() && isLeaf && Packable(pageId, Contents())
      ensures IsI32(prevLeaf) && IsI32(nextLeaf) && AllI32(keys) && AllU32(Flatten(RIDs)) && |Flatten(RIDs)| == 2 * |keys|
      ensures Encode(pageId, Contents()) == Header(pageId, Contents()) + I32(prevLeaf) + I32(nextLeaf) + I32s(keys) + U32s(Flatten(RIDs))
    {
      hide I32s, U32s, I32;
    }

    method SerializeLinks()
      requires Valid() && isLeaf && Packable(pageId, Contents()) && HEADER + 8 <= pageRaw.Length
      modifies pageRaw
      ensures pageRaw[..] == Put(old(pageRaw[..]), 0, Header(pageId, Contents()) + I32(prevLeaf) + I32(nextLeaf))
    {
      ghost var raw := pageRaw[..];
      var head := Header(pageId, Contents());
      PutBytes(pageRaw, 0, head);
      PutBytes(pageRaw, HEADER, I32(prevLeaf));
      PutTwice(raw, 0, head, I32(prevLeaf));
      PutBytes(pageRaw, HEADER + 4, I32(nextLeaf));
      PutTwice(raw, 0, head + I32(prevLeaf), I32(nextLeaf));
    }
  }
}
