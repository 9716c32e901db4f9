/** The byte layout of a B+ tree page. */
module BTreeCodec {
  import opened Options
  import opened Disk
  import opened Bytes
  import opened BTreeNode

  // internal: flag, page id, key count, pointers, keys
  // leaf: flag, page id, key count, previous leaf, next leaf, keys, rids
  const HEADER: nat := 7

  /** The rids as one run of page and slot numbers. */
  function Flatten(rids: seq<Rid>): (xs: seq<int>)
    ensures |xs| == 2 * |rids|
    ensures forall i :: 0 <= i < |rids| ==> xs[2 * i] == rids[i].0 && xs[2 * i + 1] == rids[i].1
  {
    if rids == [] then [] else Flatten(rids[..|rids| - 1]) + [rids[|rids| - 1].0, rids[|rids| - 1].1]
  }

  function Unflatten(xs: seq<int>): (rids: seq<Rid>)
    requires |xs| % 2 == 0
    ensures |rids| == |xs| / 2
  {
    seq(|xs| / 2, i requires 0 <= i < |xs| / 2 => (xs[2 * i], xs[2 * i + 1]))
  }

  /** Every field fits the width it is packed into. */
  ghost predicate Packable(id: int, n: Node) {
    && IsU32(id) && IsU16(|n.keys|) && AllI32(n.keys)
    && match n
       case Leaf(keys, rids, prev, next) => |rids| == |keys| && IsI32(prev) && IsI32(next) && AllU32(Flatten(rids))
       case Inner(keys, ptrs) => |ptrs| == |keys| + 1 && AllU32(ptrs)
  }

  function Header(id: int, n: Node): (b: seq<byte>)
    requires Packable(id, n)
    ensures |b| == HEADER
  {
    [if n.Leaf? then 1 else 0] + U32(id) + U16(|n.keys|)
  }

  /** The bytes a page occupies when written. */
  function Encode(id: int, n: Node): (b: seq<byte>)
    requires Packable(id, n)
  {
    match n
    case Leaf(keys, rids, prev, next) => Header(id, n) + I32(prev) + I32(next) + I32s(keys) + U32s(Flatten(rids))
    case Inner(keys, ptrs) => Header(id, n) + U32s(ptrs) + I32s(keys)
  }

  /** Reading a page; None where unpacking would run off its end. */
  function Decode(raw: seq<byte>): Option<(int, Node)> {
    if |raw| < HEADER then None
    else
      var id := U32At(raw, 1);
      var n := U16At(raw, 5);
      if raw[0] != 0 then
        if |raw| < HEADER + 8 + 12 * n then None
        else Some((id, Leaf(I32sAt(raw, HEADER + 8, n), Unflatten(U32sAt(raw, HEADER + 8 + 4 * n, 2 * n)),
                            I32At(raw, HEADER), I32At(raw, HEADER + 4))))
      else
        if |raw| < HEADER + 4 * (n + 1) + 4 * n then None
        else Some((id, Inner(I32sAt(raw, HEADER + 4 * (n + 1), n), U32sAt(raw, HEADER, n + 1))))
  }

  lemma HeaderBack(raw: seq<byte>, id: int, n: Node)
    requires Packable(id, n) && HoldsAt(raw, 0, Header(id, n))
    ensures HEADER <= |raw| && (raw[0] != 0 <==> n.Leaf?) && U32At(raw, 1) == id && U16At(raw, 5) == |n.keys|
  {
    var flag: seq<byte> := [if n.Leaf? then 1 else 0];
    HoldsSplit(raw, 0, flag + U32(id), U16(|n.keys|));
    U16Back(raw, 5, |n.keys|);
    HoldsSplit(raw, 0, flag, U32(id));
    U32Back(raw, 1, id);
    assert raw[0..1][0] == flag[0];
  }

  lemma {:induction false} UnflattenBack(rids: seq<Rid>)
    ensures Unflatten(Flatten(rids)) == rids
  {
  }

  lemma LeafBack(raw: seq<byte>, id: int, n: Node)
    requires Packable(id, n) && n.Leaf? && HoldsAt(raw, 0, Encode(id, n))
    ensures Decode(raw) == Some((id, n))
  {
    hide Header, I32, I32s, U32s, Flatten, Unflatten, I32At, U32At, U16At, I32sAt, U32sAt, HoldsAt;
    var h := Header(id, n);
    var p, x, k, r := I32(n.prev), I32(n.next), I32s(n.keys), U32s(Flatten(n.rids));
    HoldsSplit(raw, 0, h + p + x + k, r);
    U32sBack(raw, 15 + 4 * |n.keys|, Flatten(n.rids));
    HoldsSplit(raw, 0, h + p + x, k);
    I32sBack(raw, 15, n.keys);
    HoldsSplit(raw, 0, h + p, x);
    I32Back(raw, 11, n.next);
    HoldsSplit(raw, 0, h, p);
    I32Back(raw, 7, n.prev);
    HeaderBack(raw, id, n);
    UnflattenBack(n.rids);
  }

  lemma InnerBack(raw: seq<byte>, id: int, n: Node)
    requires Packable(id, n) && n.Inner? && HoldsAt(raw, 0, Encode(id, n))
    ensures Decode(raw) == Some((id, n))
  {
    hide Header, I32s, U32s, I32At, U32At, U16At, I32sAt, U32sAt, HoldsAt;
    var h := Header(id, n);
    var p, k := U32s(n.ptrs), I32s(n.keys);
    HoldsSplit(raw, 0, h + p, k);
    I32sBack(raw, 7 + 4 * |n.ptrs|, n.keys);
    HoldsSplit(raw, 0, h, p);
    U32sBack(raw, 7, n.ptrs);
    HeaderBack(raw, id, n);
  }

  /** A written page reads back equal, whatever stale bytes follow it. */
  lemma DecodeEncode(id: int, n: Node, raw: seq<byte>)
    requires Packable(id, n) && |Encode(id, n)| <= |raw|
    ensures Decode(Put(raw, 0, Encode(id, n))) == Some((id, n))
  {
    if n.Leaf? {
      LeafBack(Put(raw, 0, Encode(id, n)), id, n);
    } else {
      InnerBack(Put(raw, 0, Encode(id, n)), id, n);
    }
  }

  /** A node of at most 340 keys, far more than the order of 100, stays inside its 4096-byte page. */
  lemma EncodeFits(id: int, n: Node)
    requires Packable(id, n) && |n.keys| <= 340
    ensures |Encode(id, n)| <= PAGE_SIZE
  {
  }

  ghost predicate RidsFit(rids: seq<Rid>) {
    forall i :: 0 <= i < |rids| ==> IsU32(rids[i].0) && IsU32(rids[i].1)
  }

  lemma FlattenFits(rids: seq<Rid>)
    ensures AllU32(Flatten(rids)) <==> RidsFit(rids)
  {
    var xs := Flatten(rids);
    if RidsFit(rids) {
      forall i | 0 <= i < |xs|
        ensures IsU32(xs[i])
      {
        var h := i / 2;
        assert xs[2 * h] == rids[h].0 && xs[2 * h + 1] == rids[h].1;
      }
    }
    if AllU32(xs) {
      forall h | 0 <= h < |rids|
        ensures IsU32(rids[h].0) && IsU32(rids[h].1)
      {
        assert xs[2 * h] == rids[h].0 && xs[2 * h + 1] == rids[h].1;
      }
    }
  }

  /** Packable in terms of the fields. */
  lemma LeafPackable(id: int, n: Node)
    requires n.Leaf?
    ensures Packable(id, n) <==>
      (IsU32(id) && IsU16(|n.keys|) && AllI32(n.keys) && |n.rids| == |n.keys| && IsI32(n.prev) && IsI32(n.next) && RidsFit(n.rids))
  {
    FlattenFits(n.rids);
  }
}
