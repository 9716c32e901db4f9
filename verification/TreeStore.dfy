/** How an index sits in the pages of its file, seen through the buffer pool, and what pool steps do to that. */
module TreeStore {
  import opened Options
  import opened Disk
  import opened Bytes
  import opened PoolState
  import opened BTreeNode
  import opened BTreeModel
  import opened BTreeCodec

  /** What a page shows: a node of an index, in an index's page 0 the root's page id and a key count, or just its bytes. */
  datatype Image = NodeImage(node: Node) | HeaderImage(root: int, count: int) | BytesImage(data: Page)

  ghost predicate Shows(st: Pool, file: int, p: int, image: Image)
    requires TablesOk(st)
  {
    0 <= p &&
    match image
    case NodeImage(n) => Decode(View(st, Key(file, p))) == Some((p, n))
    case HeaderImage(root, count) => U32At(View(st, Key(file, p)), 0) == root && U32At(View(st, Key(file, p)), 4) == count
    case BytesImage(data) => View(st, Key(file, p)) == data
  }

  lemma ShownNode(st: Pool, file: int, p: int, n: Node)
    requires TablesOk(st) && Shows(st, file, p, NodeImage(n))
    ensures 0 <= p && Decode(View(st, Key(file, p))) == Some((p, n))
  {
  }

  /** The pages of an index whose header stores `count`, which need not be the number of keys. */
  function Images(ix: Index, count: int): map<int, Image> {
    map p | p in ix.pages.Keys + {0} :: if p in ix.pages then NodeImage(ix.pages[p]) else HeaderImage(ix.root, count)
  }

  ghost predicate ShowsAll(st: Pool, file: int, images: map<int, Image>)
    requires TablesOk(st)
  {
    forall p {:trigger Shows(st, file, p, images[p])} :: p in images ==> Shows(st, file, p, images[p])
  }

  /** The file shows exactly the pages of `ix`, and in the header its root and `count`. */
  ghost predicate Matches(st: Pool, file: int, ix: Index, count: int)
    requires TablesOk(st)
  {
    NumPages(st.disk, file) == ix.next && ShowsAll(st, file, Images(ix, count))
  }

  /** The pool works and every client has kept the protocol. */
  ghost predicate Sound(st: Pool) {
    Consistent(st) && Safe(st)
  }

  /**
   From `p` to `q`: file `file` has `grown` more pages and shows the images in `writes`, every other page shows
   what it did, the pins held on top are `held`, and only held pages may have changes not yet marked dirty.
   */
  ghost predicate Effect(p: Pool, q: Pool, file: int, grown: nat, writes: map<int, Image>, held: set<Key>) {
    && Sound(p) && Sound(q)
    && ShowsAll(q, file, writes)
    && (forall k: Key :: !(k.file == file && k.page in writes) ==> View(q, k) == View(p, k))
    && (forall f :: NumPages(q.disk, f) == NumPages(p.disk, f) + if f == file then grown else 0)
    && (forall j :: Pins(q, j) == Pins(p, j) + if j in held then 1 else 0)
    && (forall k :: k in q.unmarked ==> k in p.unmarked || k in held)
  }

  lemma EffectSound(p: Pool, q: Pool, file: int, grown: nat, writes: map<int, Image>, held: set<Key>)
    requires Effect(p, q, file, grown, writes, held)
    ensures Sound(p) && Sound(q) && Consistent(q) && Safe(q) && TablesOk(p) && TablesOk(q)
    ensures NumPages(q.disk, file) == NumPages(p.disk, file) + grown
  {
  }

  lemma EffectNone(p: Pool, file: int)
    requires Sound(p)
    ensures Effect(p, p, file, 0, map[], {})
  {
  }

  /** A fetch on top. */
  lemma EffectFetch(p: Pool, q: Pool, r: Pool, file: int, grown: nat, writes: map<int, Image>, held: set<Key>, k: Key)
    requires Effect(p, q, file, grown, writes, held)
    requires Sound(r) && SameViews(q, r) && SameSizes(q, r) && r.unmarked <= q.unmarked
    requires forall j :: Pins(r, j) == Pins(q, j) + if j == k then 1 else 0
    requires k !in held
    ensures Effect(p, r, file, grown, writes, held + {k})
  {
    hide View, Pins, TablesOk, BytesOk, Safe, Decode, U32At, Shows;
    EffectSound(p, q, file, grown, writes, held);
    forall c | c in writes
      ensures Shows(r, file, c, writes[c])
    {
      assert Shows(q, file, c, writes[c]);
      ShownSame(q, r, file, c, writes[c]);
    }
    forall j
      ensures Pins(r, j) == Pins(p, j) + if j in held + {k} then 1 else 0
    {
      assert Pins(q, j) == Pins(p, j) + if j in held then 1 else 0;
    }
    forall j: Key | !(j.file == file && j.page in writes)
      ensures View(r, j) == View(p, j)
    {
      assert View(q, j) == View(p, j);
    }
  }

  lemma ShownSame(p: Pool, q: Pool, file: int, c: int, image: Image)
    requires SameViews(p, q) && Shows(p, file, c, image)
    ensures Shows(q, file, c, image)
  {
    hide View, Decode, U32At;
  }

  /** A new page on top. */
  lemma EffectAllocate(p: Pool, q: Pool, file: int, grown: nat, writes: map<int, Image>, held: set<Key>)
    requires Effect(p, q, file, grown, writes, held)
    ensures Effect(p, q.(disk := Allocate(q.disk, file).0), file, grown + 1, writes, held)
  {
    AllocatedOk(q, file);
    var r := q.(disk := Allocate(q.disk, file).0);
    forall c | c in writes
      ensures Shows(r, file, c, writes[c])
    {
      assert Shows(q, file, c, writes[c]);
    }
  }

  /** `data` shows `image` when it is page `c`. */
  ghost predicate Pictures(data: Page, c: int, image: Image) {
    match image
    case NodeImage(n) => Decode(data) == Some((c, n))
    case HeaderImage(root, count) => U32At(data, 0) == root && U32At(data, 4) == count
    case BytesImage(bytes) => data == bytes
  }

  /** A held page rewritten on top. */
  lemma EffectWrite(p: Pool, q: Pool, file: int, grown: nat, writes: map<int, Image>, held: set<Key>,
                    c: nat, data: Page, image: Image)
    requires Effect(p, q, file, grown, writes, held)
    requires Key(file, c) in held && Pictures(data, c, image)
    ensures Pins(q, Key(file, c)) > 0
    ensures Effect(p, Changed(q, Key(file, c), data), file, grown, writes[c := image], held)
  {
    assert Pins(q, Key(file, c)) == Pins(p, Key(file, c)) + 1;
    ChangedOk(q, Key(file, c), data);
    var r := Changed(q, Key(file, c), data);
    var writes' := writes[c := image];
    forall x | x in writes'
      ensures Shows(r, file, x, writes'[x])
    {
      if x != c {
        assert Shows(q, file, x, writes[x]);
      }
    }
  }

  /** A pin given back; without the dirty mark only when the page carries no change of ours. */
  lemma EffectUnpin(p: Pool, q: Pool, file: int, grown: nat, writes: map<int, Image>, held: set<Key>, k: Key, isDirty: bool)
    requires Effect(p, q, file, grown, writes, held + {k})
    requires k !in held
    requires if isDirty then InFile(q, k) else k in q.unmarked ==> k in p.unmarked
    ensures Pins(q, k) > 0
    ensures Effect(p, Unpinned(q, k, isDirty), file, grown, writes, held)
  {
    assert k in held + {k};
    assert Pins(q, k) == Pins(p, k) + 1;
    UnpinnedOk(q, k, isDirty);
    UnpinSafeIff(q, k, isDirty);
    var r := Unpinned(q, k, isDirty);
    forall c | c in writes
      ensures Shows(r, file, c, writes[c])
    {
      assert Shows(q, file, c, writes[c]);
    }
    forall j
      ensures Pins(r, j) == Pins(p, j) + if j in held then 1 else 0
    {
      assert Pins(q, j) == Pins(p, j) + if j in held + {k} then 1 else 0;
    }
    forall j | j in r.unmarked
      ensures j in p.unmarked || j in held
    {
      assert j in q.unmarked && (j in held + {k} ==> j in held || j == k);
    }
  }

  /** The index the file shows afterwards. */
  lemma EffectMatches(p: Pool, q: Pool, file: int, grown: nat, writes: map<int, Image>, held: set<Key>,
                      ix: Index, c: int, jx: Index, d: int)
    requires Effect(p, q, file, grown, writes, held) && Matches(p, file, ix, c)
    requires Images(jx, d) == Images(ix, c) + writes && jx.next == ix.next + grown
    ensures Matches(q, file, jx, d)
  {
    forall x | x in Images(jx, d)
      ensures Shows(q, file, x, Images(jx, d)[x])
    {
      if x in writes {
        assert Shows(q, file, x, writes[x]);
      } else {
        assert Shows(p, file, x, Images(ix, c)[x]);
      }
    }
  }

  /** Every page of the index can be read as its node. */
  lemma MatchesNode(st: Pool, file: int, ix: Index, c: int, p: int)
    requires TablesOk(st) && Matches(st, file, ix, c) && p in ix.pages
    ensures Shows(st, file, p, NodeImage(ix.pages[p])) && 0 <= p
  {
    assert Images(ix, c)[p] == NodeImage(ix.pages[p]);
    assert Shows(st, file, p, Images(ix, c)[p]);
  }

  /** As long as nothing is written the file keeps showing the index. */
  lemma ReadOnlyMatches(p: Pool, q: Pool, file: int, held: set<Key>, ix: Index, c: int)
    requires Effect(p, q, file, 0, map[], held) && Matches(p, file, ix, c)
    ensures Matches(q, file, ix, c)
    ensures held == {} ==> q.unmarked <= p.unmarked
  {
    assert Images(ix, c) + map[] == Images(ix, c);
    EffectMatches(p, q, file, 0, map[], held, ix, c, ix, c);
  }

  /** A file written from nothing. */
  lemma EffectFresh(p: Pool, q: Pool, file: int, grown: nat, writes: map<int, Image>, held: set<Key>, jx: Index, d: int)
    requires Effect(p, q, file, grown, writes, held)
    requires Images(jx, d) == writes && jx.next == NumPages(p.disk, file) + grown
    ensures Matches(q, file, jx, d)
  {
  }

  /** A page not written still shows its node. */
  lemma EffectShows(p: Pool, q: Pool, file: int, grown: nat, writes: map<int, Image>, held: set<Key>, c: int, image: Image)
    requires Effect(p, q, file, grown, writes, held)
    requires if c in writes then image == writes[c] else Shows(p, file, c, image)
    ensures Shows(q, file, c, image)
  {
  }

  /** The pins on top occupy few frames. */
  lemma EffectRoom(p: Pool, q: Pool, file: int, grown: nat, writes: map<int, Image>, held: set<Key>)
    requires Effect(p, q, file, grown, writes, held)
    ensures |Pinned(q)| <= |Pinned(p)| + |held|
  {
    forall k | k in Pinned(q)
      ensures k in Pinned(p) + held
    {
      assert Pins(q, k) == Pins(p, k) + if k in held then 1 else 0;
    }
    KeySetSize(Pinned(q), Pinned(p) + held);
    assert |Pinned(p) + held| <= |Pinned(p)| + |held|;
  }

  lemma KeySetSize(a: set<Key>, b: set<Key>)
    requires a <= b
    ensures |a| <= |b|
  {
    assert b == a + (b - a);
    assert |a + (b - a)| == |a| + |b - a|;
  }

  // ---- Nodes read from pages can be written to pages ----

  lemma DecodedPackable(raw: seq<byte>, id: int, n: Node)
    requires Decode(raw) == Some((id, n))
    ensures Packable(id, n)
  {
    if n.Leaf? {
      RidsPackable(raw, HEADER + 8 + 4 * |n.keys|, |n.keys|);
    }
  }

  lemma RidsPackable(raw: seq<byte>, at: nat, n: nat)
    requires at + 8 * n <= |raw|
    ensures AllU32(Flatten(Unflatten(U32sAt(raw, at, 2 * n))))
  {
    FlattenBack(U32sAt(raw, at, 2 * n));
  }

  lemma FlattenBack(xs: seq<int>)
    requires |xs| % 2 == 0
    ensures Flatten(Unflatten(xs)) == xs
  {
    var ys := Flatten(Unflatten(xs));
    forall i | 0 <= i < |xs|
      ensures ys[i] == xs[i]
    {
      var h := i / 2;
      assert ys[2 * h] == Unflatten(xs)[h].0 && ys[2 * h + 1] == Unflatten(xs)[h].1;
    }
  }
}
