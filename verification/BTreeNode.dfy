/** The contents of one B+ tree page, and what the page operations do to them. */
module BTreeNode {

  /** A record id: (page id, slot id) in a heap file. */
  type Rid = (int, int)

  datatype Node =
    | Leaf(keys: seq<int>, rids: seq<Rid>, prev: int, next: int)
    | Inner(keys: seq<int>, ptrs: seq<int>)

  function InsertAt<T>(s: seq<T>, i: nat, x: T): (r: seq<T>)
    requires i <= |s|
    ensures |r| == |s| + 1
    ensures r[i] == x
    ensures forall j :: 0 <= j < i ==> r[j] == s[j]
    ensures forall j :: i < j < |r| ==> r[j] == s[j - 1]
  {
    s[..i] + [x] + s[i..]
  }

  function RemoveAt<T>(s: seq<T>, i: nat): (r: seq<T>)
    requires i < |s|
    ensures |r| == |s| - 1
    ensures forall j :: 0 <= j < i ==> r[j] == s[j]
    ensures forall j :: i <= j < |r| ==> r[j] == s[j + 1]
  {
    s[..i] + s[i + 1..]
  }

  ghost predicate Sorted(keys: seq<int>) {
    forall i, j :: 0 <= i < j < |keys| ==> keys[i] <= keys[j]
  }

  ghost predicate Increasing(keys: seq<int>) {
    forall i, j :: 0 <= i < j < |keys| ==> keys[i] < keys[j]
  }

  /** The first position whose key is greater than `k`: where both page inserts put `k`. */
  function UpperBound(keys: seq<int>, k: int): (i: nat)
    ensures i <= |keys|
    ensures forall j :: 0 <= j < i ==> keys[j] <= k
    ensures i < |keys| ==> k < keys[i]
  {
    if keys == [] || k < keys[0] then 0 else 1 + UpperBound(keys[1..], k)
  }

  /** The child taken for `k`: right of the last separator smaller than `k`, so ties go left. */
  function Route(keys: seq<int>, k: int): (i: nat)
    ensures i <= |keys|
    ensures 0 < i ==> keys[i - 1] < k
    ensures forall j :: i <= j < |keys| ==> k <= keys[j]
  {
    if keys == [] then 0
    else if keys[|keys| - 1] < k then |keys|
    else Route(keys[..|keys| - 1], k)
  }

  function InsertEntry(n: Node, k: int, rid: Rid): Node
    requires n.Leaf? && |n.rids| == |n.keys|
  {
    var i := UpperBound(n.keys, k);
    Leaf(InsertAt(n.keys, i, k), InsertAt(n.rids, i, rid), n.prev, n.next)
  }

  function InsertPointer(n: Node, k: int, ptr: int): Node
    requires n.Inner? && |n.ptrs| == |n.keys| + 1
  {
    var i := UpperBound(n.keys, k);
    Inner(InsertAt(n.keys, i, k), InsertAt(n.ptrs, i + 1, ptr))
  }

  lemma InsertSorted(keys: seq<int>, k: int)
    requires Sorted(keys)
    ensures Sorted(InsertAt(keys, UpperBound(keys, k), k))
  {
  }
}
