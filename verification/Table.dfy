/** Tables: rows in a heap file, and B+ trees over some columns, all on the one buffer pool. */
module Table {
  import opened Options
  import opened Disk
  import opened Bytes
  import opened LruKReplacer
  import opened PoolState
  import opened BufferPool
  import opened BTreeNode
  import opened BTreeModel
  import opened BTreeInsert
  import BTreeRead
  import BTreeDelete
  import BTreeRuns
  import IndexPlans
  import opened BTreePage
  import opened SlottedPage
  import opened HeapModel
  import opened HeapDirectory
  import opened HeapFile
  import opened TreeStore
  import opened PageAccess
  import opened BPlusTree
  import opened Expressions
  import opened RowCodec
  import opened TableModel
  import opened TreeSize

  // ---- One tree while another file changes ----

  /** The pages the pool shows are those of the tree. */
  ghost predicate TreeShown(tree: BPlusTree, st: Pool)
    requires TablesOk(st)
    reads tree
  {
    tree.IndexOk() && Matches(st, tree.fileId, tree.ix, tree.stored) && tree.rootPageId == tree.ix.root
  }

  /** Also, its key count can be written. */
  ghost predicate TreeFits(tree: BPlusTree, st: Pool)
    requires TablesOk(st)
    reads tree
  {
    TreeShown(tree, st) && tree.CountOk()
  }

  lemma FitsKept(tree: BPlusTree, p: Pool, q: Pool, file: int)
    requires OthersKept(p, q, file) && tree.fileId != file && TreeFits(tree, p)
    ensures TablesOk(q) && TreeFits(tree, q)
  {
    hide TablesOk, BTreeModel.Valid, BTreeRead.Leftmost, View, Decode;
    forall c | c in Images(tree.ix, tree.stored)
      ensures Shows(q, tree.fileId, c, Images(tree.ix, tree.stored)[c])
    {
      assert Shows(p, tree.fileId, c, Images(tree.ix, tree.stored)[c]);
      ShownKept(p, q, file, tree.fileId, c, Images(tree.ix, tree.stored)[c]);
    }
  }

  lemma ShownKept(p: Pool, q: Pool, file: int, other: int, c: int, image: Image)
    requires OthersKept(p, q, file) && other != file && Shows(p, other, c, image)
    ensures Shows(q, other, c, image)
  {
  }

  lemma HeapKept(p: Pool, q: Pool, file: int, other: int, h: Heap)
    requires OthersKept(p, q, file) && other != file && HeapMatches(p, other, h)
    ensures TablesOk(q) && HeapMatches(q, other, h)
  {
    hide View, DirectoryBytes, PageBytes;
    forall c | c in HeapImages(h)
      ensures Shows(q, other, c, HeapImages(h)[c])
    {
      assert Shows(p, other, c, HeapImages(h)[c]);
      ShownKept(p, q, file, other, c, HeapImages(h)[c]);
    }
  }

  lemma RidSmall(h: Heap, data: seq<byte>)
    requires HeapOk(h) && Insertable(h, data)
    ensures IsU32(Inserted(h, data).1.0) && IsU32(Inserted(h, data).1.1)
  {
    InsertedOk(h, data);
    var (h', r) := Inserted(h, data);
    SmallNumbers(h'[r.0 - 1]);
  }

  lemma StorableInt(e: Encodings, cols: seq<ColumnDef>, row: Row, i: nat)
    requires Storable(e, cols, row) && i < |cols| && cols[i].kind == INT
    ensures row[i].IntVal? && IsI32(row[i].i)
  {
    PackPrefix(e, cols, row, i + 1, |cols|);
    PackStep(e, cols, row, i);
    assert Typed(cols[i], row[i]);
  }

  ghost predicate HasInt(row: Row, column: nat) {
    column < |row| && row[column].IntVal?
  }

  /** `jx` is `ix` with the row's key entered under `rid`. */
  ghost predicate EntryAdded(ix: Index, jx: Index, row: Row, column: nat, rid: Rid) {
    BTreeModel.Valid(ix) && HasInt(row, column) && jx == BTreeInsert.Insert(ix, row[column].i, rid)
  }

  /** `jx` is `ix` with the row's key deleted under `rid`. */
  ghost predicate EntryDropped(ix: Index, jx: Index, row: Row, column: nat, rid: Rid) {
    BTreeModel.Valid(ix) && HasInt(row, column) && jx == BTreeDelete.Delete(ix, row[column].i, rid).0
  }

  /** The row's key is in `ix` under `rid`. */
  ghost predicate Present(ix: Index, row: Row, column: nat, rid: Rid) {
    BTreeModel.Valid(ix) && HasInt(row, column) && BTreeDelete.Delete(ix, row[column].i, rid).1
  }

  /** One pin on `k` was never given back. */
  ghost predicate OnePinMore(p: Pool, q: Pool, k: Key) {
    TablesOk(p) && TablesOk(q) && forall j :: Pins(q, j) == Pins(p, j) + if j == k then 1 else 0
  }

  /** Nor were those on two pages of a file, its header and one other. */
  ghost predicate TwoPinsMore(p: Pool, q: Pool, file: int) {
    exists page :: PairMore(p, q, file, page)
  }

  ghost predicate PairMore(p: Pool, q: Pool, file: int, page: int) {
    && TablesOk(p) && TablesOk(q) && 0 < page
    && forall k :: Pins(q, k) == Pins(p, k) + if k == Key(file, page) || k == Key(file, 0) then 1 else 0
  }

  /** `now` is `before` with the row's entry deleted from the first `n` indices. */
  ghost predicate Dropping(before: seq<Index>, now: seq<Index>, columns: seq<nat>, row: Row, rid: Rid, n: nat) {
    && |before| == |now| == |columns| && n <= |now|
    && (forall i :: 0 <= i < n ==> EntryDropped(before[i], now[i], row, columns[i], rid))
    && (forall i :: n <= i < |now| ==> now[i] == before[i])
  }

  lemma DropRest(before: seq<Index>, now: seq<Index>, columns: seq<nat>, row: Row, rid: Rid, n: nat)
    requires Dropping(before, now, columns, row, rid, n)
    ensures |now| == |before| && forall i :: n <= i < |now| ==> now[i] == before[i]
  {
  }

  lemma DropNext(before: seq<Index>, mid: seq<Index>, now: seq<Index>, columns: seq<nat>, row: Row, rid: Rid, n: nat)
    requires Dropping(before, mid, columns, row, rid, n) && n < |mid| == |now| && EntryDropped(mid[n], now[n], row, columns[n], rid)
    requires forall i :: 0 <= i < |now| && i != n ==> now[i] == mid[i]
    ensures Dropping(before, now, columns, row, rid, n + 1)
  {
    hide EntryDropped;
  }

  /** What becomes of a row to insert. */
  datatype Insertion = Placed(rid: Rid) | TooLong | Unpackable

  // ---- The object ----

  class Table {
    const heapFile: HeapFile
    const enc: Encodings
    const schema: Schema
    /** The indices, in the order they were created: the column of each and its tree. */
    var columns: seq<nat>
    var trees: seq<BPlusTree>

    ghost function Trees(): set<object>
      reads this
    {
      set x | x in trees
    }

    ghost function St(): Pool
      reads heapFile.bpm
    {
      heapFile.bpm.State()
    }

    ghost function State(): TableState
      requires |columns| == |trees|
      reads this, heapFile, Trees()
    {
      TableState(heapFile.h, seq(|trees|, i requires 0 <= i < |trees| == |columns| reads this, Trees() => Indexed(columns[i], trees[i].ix)))
    }

    /** One pool, and a file of its own for the heap and for each tree. */
    ghost predicate Apart()
      reads this
    {
      && |columns| == |trees|
      && (forall i :: 0 <= i < |trees| ==> trees[i].bpm == heapFile.bpm && trees[i].fileId != heapFile.fileId)
      && (forall i, j :: 0 <= i < j < |trees| ==> trees[i].fileId != trees[j].fileId)
    }

    ghost predicate Stored()
      reads this, heapFile, heapFile.bpm, heapFile.bpm.replacer, Trees()
    {
      heapFile.Valid() && forall i :: 0 <= i < |trees| ==> TreeFits(trees[i], St())
    }

    /** The pages are all there, even if some tree has no count to write. */
    ghost predicate AllShown()
      reads this, heapFile, heapFile.bpm, heapFile.bpm.replacer, Trees()
    {
      heapFile.Valid() && forall i :: 0 <= i < |trees| ==> TreeShown(trees[i], St())
    }

    ghost predicate Valid()
      reads this, heapFile, heapFile.bpm, heapFile.bpm.replacer, Trees()
    {
      SchemaOk(schema) && Apart() && Stored() && TableOk(enc, schema.columns, State())
    }

    /** Every tree has room for one more key and page numbers left. */
    ghost predicate Roomy()
      reads this, Trees()
    {
      forall i :: 0 <= i < |trees| ==> TreeRoom(trees[i])
    }

    ghost predicate TreeRoom(tree: BPlusTree)
      reads tree
    {
      && IsU32(tree.numKeys + 1)
      && tree.ix.root in tree.ix.level && tree.ix.next + tree.ix.level[tree.ix.root] + 2 <= I32_LIMIT
    }

    /** A table without indices. */
    constructor (heap: HeapFile, encodings: Encodings, s: Schema)
      requires heap.Valid() && SchemaOk(s) && RowsOk(encodings, s.columns, heap.h)
      ensures heapFile == heap && enc == encodings && schema == s && columns == [] && trees == []
      ensures Valid()
    {
      heapFile := heap;
      enc := encodings;
      schema := s;
      columns, trees := [], [];
    }

    lemma Distinct(i: nat, j: nat)
      requires Apart() && i < |trees| && j < |trees| && i != j
      ensures trees[i] != trees[j]
    {
    }

    /** One tree takes the entry; the heap and the other trees still fit what the pool shows. */
    method AddTo(i: nat, row: Row, rid: Rid)
      requires Apart() && Stored() && i < |trees| && |Pinned(St())| + 3 <= NUM_FRAMES
      requires HasKey(row, columns[i]) && IsU32(rid.0) && IsU32(rid.1) && TreeRoom(trees[i])
      modifies trees[i], heapFile.bpm, heapFile.bpm.replacer
      ensures Stored() && EntryAdded(old(trees[i].ix), trees[i].ix, row, columns[i], rid)
      ensures SamePins(old(St()), St())
    {
      hide TablesOk, View, Matches, HeapMatches, BTreeModel.Valid, BTreeRead.Leftmost, Settled,
        BufferPoolManager.Valid, BTreeInsert.Insert, BytesOk, Safe, BPlusTree.CountOk;
      ghost var p := St();
      var tree := trees[i];
      assert TreeFits(tree, p);
      tree.Insert(row[columns[i]].i, rid);
      SettledOthers(p, St(), tree.fileId);
      Restored(p, i);
    }

    /** What holds of the rest after tree `i` has changed its own file. */
    lemma Restored(p: Pool, i: nat)
      requires Apart() && i < |trees| && trees[i].Valid() && OthersKept(p, St(), trees[i].fileId)
      requires HeapMatches(p, heapFile.fileId, heapFile.h) && forall k :: k in p.unmarked ==> k.file != heapFile.fileId
      requires forall j :: 0 <= j < |trees| && j != i ==> TreeFits(trees[j], p)
      ensures Stored()
    {
      hide View, Matches, HeapMatches, BTreeModel.Valid, BTreeRead.Leftmost, BPlusTree.CountOk, OthersKept;
      OthersRestored(p, i);
    }

    /** The heap and the trees other than `i`, which has changed its own file, still fit. */
    lemma OthersRestored(p: Pool, i: nat)
      requires Apart() && i < |trees| && heapFile.bpm.Valid() && OthersKept(p, St(), trees[i].fileId)
      requires HeapMatches(p, heapFile.fileId, heapFile.h) && forall k :: k in p.unmarked ==> k.file != heapFile.fileId
      requires forall j :: 0 <= j < |trees| && j != i ==> TreeFits(trees[j], p)
      ensures heapFile.Valid() && forall j :: 0 <= j < |trees| && j != i ==> TreeFits(trees[j], St())
    {
      hide View, Matches, HeapMatches, BTreeModel.Valid, BTreeRead.Leftmost, BPlusTree.CountOk;
      var q := St();
      HeapKept(p, q, trees[i].fileId, heapFile.fileId, heapFile.h);
      forall j | 0 <= j < |trees| && j != i
        ensures TreeFits(trees[j], q)
      {
        FitsKept(trees[j], p, q, trees[i].fileId);
      }
    }

    /** The row has a 32-bit integer in every indexed column. */
    ghost predicate Keyed(row: Row)
      reads this
    {
      |columns| == |trees| && forall i :: 0 <= i < |columns| ==> HasKey(row, columns[i])
    }

    ghost predicate HasKey(row: Row, column: nat) {
      HasInt(row, column) && IsI32(row[column].i)
    }

    /** The entry goes into every tree, in turn. */
    method AddAll(row: Row, rid: Rid)
      requires Apart() && Stored() && Roomy() && Keyed(row) && |Pinned(St())| + 3 <= NUM_FRAMES
      requires IsU32(rid.0) && IsU32(rid.1)
      modifies Trees(), heapFile.bpm, heapFile.bpm.replacer
      ensures Stored() && SamePins(old(St()), St())
      ensures forall i :: 0 <= i < |trees| ==> EntryAdded(old(trees[i].ix), trees[i].ix, row, columns[i], rid)
    {
      hide Matches, HeapMatches, BTreeModel.Valid, BTreeRead.Leftmost, Settled, BufferPoolManager.Valid, EntryAdded,
        Safe, BytesOk, BPlusTree.CountOk, Pinned, TreeRoom, TreeFits;
      var i := 0;
      while i < |trees|
        invariant 0 <= i <= |trees| && Stored() && SamePins(old(St()), St())
        invariant forall j :: 0 <= j < i ==> EntryAdded(old(trees[j].ix), trees[j].ix, row, columns[j], rid)
        invariant forall j :: i <= j < |trees| ==> trees[j].ix == old(trees[j].ix) && TreeRoom(trees[j])
      {
        assert HasKey(row, columns[i]);
        forall j | 0 <= j < |trees| && j != i
          ensures trees[j] != trees[i]
        {
          Distinct(i, j);
        }
        label Before:
        SamePinned(old(St()), St());
        AddTo(i, row, rid);
        SamePinsChain(old(St()), old@Before(St()), St());
        i := i + 1;
      }
    }

    lemma KeyedRow(row: Row)
      requires Valid() && Storable(enc, schema.columns, row)
      ensures Keyed(row)
    {
      hide Pack, InStep, HeapFile.Valid, TreeFits, RowsOk;
      forall i | 0 <= i < |columns|
        ensures HasKey(row, columns[i])
      {
        assert State().indices[i].column == columns[i];
        assert TableModel.IndexOk(enc, schema.columns, heapFile.h, State().indices[i]);
        StorableInt(enc, schema.columns, row, columns[i]);
      }
    }

    /** What holds of the trees after the heap has changed its own file. */
    lemma HeapMoved(p: Pool)
      requires Apart() && heapFile.Valid() && OthersKept(p, St(), heapFile.fileId)
      requires forall j :: 0 <= j < |trees| ==> TreeFits(trees[j], p)
      ensures Stored()
    {
      hide View, Matches, HeapMatches, BTreeModel.Valid, BTreeRead.Leftmost, BPlusTree.CountOk;
      forall j | 0 <= j < |trees|
        ensures TreeFits(trees[j], St())
      {
        FitsKept(trees[j], p, St(), heapFile.fileId);
      }
    }

    /**
     Stores the row and enters it in every index. A row with a text over its limit gets as far as the heap, which has
     pinned its directory page by the time it notices: that pin is never given back. A number out of range raises
     before anything is touched.
     */
    method Insert(row: Row) returns (outcome: Insertion)
      requires Valid() && RowTyped(schema.columns, row) && Doubles(enc, row) && |Pinned(St())| + 3 <= NUM_FRAMES
      requires Storable(enc, schema.columns, row) ==> Insertable(heapFile.h, RowBytes(enc, schema.columns, row)) && Roomy()
      modifies heapFile`h, Trees(), heapFile.bpm, heapFile.bpm.replacer
      ensures Valid() && TablesOk(old(St())) && TablesOk(St())
      ensures outcome.Placed? <==> Storable(enc, schema.columns, row)
      ensures outcome.Placed? <==> AllAcceptable(enc, schema.columns, row)
      ensures outcome.TooLong? <==>
        exists i :: FirstBad(enc, schema.columns, row, i) && OverLimit(schema.columns[i], row[i])
      ensures outcome.Placed? ==> State() == TableInserted(enc, schema.columns, old(State()), row)
      ensures outcome.Placed? ==> outcome.rid == Inserted(old(heapFile.h), RowBytes(enc, schema.columns, row)).1
      ensures !outcome.Placed? ==> State() == old(State())
      ensures SamePins(old(St()), St()) <==> !outcome.TooLong?
      ensures outcome.TooLong? ==> OnePinMore(old(St()), St(), Key(heapFile.fileId, 0))
    {
      hide Pack, Matches, HeapMatches, BTreeModel.Valid, BTreeRead.Leftmost, Settled, BufferPoolManager.Valid,
        BTreeInsert.Insert, Safe, BytesOk, Pinned, TreeRoom, TreeFits, Inserted, TableOk, OnePinMore, SamePins, View,
        AllAcceptable, FirstBad, OverLimit;
      var packed := Serialize(enc, schema, row);
      PackedIff(enc, schema.columns, row);
      ghost var p := St();
      NoPinMoved(p);
      match packed {
        case Packed(header, body) =>
          var rid := Store(row, header + body);
          NotOneMore(p, St());
          outcome := Placed(rid);
        case Refused =>
          StoreNothing();
          OneMore(p, St(), Key(heapFile.fileId, 0));
          outcome := TooLong;
        case Raised =>
          outcome := Unpackable;
      }
    }

    lemma NoPinMoved(p: Pool)
      requires TablesOk(p)
      ensures SamePins(p, p)
    {
    }

    lemma NotOneMore(p: Pool, q: Pool)
      requires SamePins(p, q)
      ensures TablesOk(p) && TablesOk(q)
    {
    }

    lemma OneMore(p: Pool, q: Pool, k: Key)
      requires OnePinMore(p, q, k)
      ensures TablesOk(p) && TablesOk(q) && !SamePins(p, q)
    {
      assert Pins(q, k) == Pins(p, k) + 1;
    }

    /** What the heap makes of a refused row. */
    method StoreNothing()
      requires Valid() && |Pinned(St())| + 3 <= NUM_FRAMES
      modifies heapFile`h, heapFile.bpm, heapFile.bpm.replacer
      ensures Valid() && State() == old(State()) && OnePinMore(old(St()), St(), Key(heapFile.fileId, 0))
    {
      hide Matches, HeapMatches, BTreeModel.Valid, BTreeRead.Leftmost, Settled, BufferPoolManager.Valid, Safe, BytesOk,
        Pinned, TreeFits, TableOk;
      ghost var p := St();
      assert TablesOk(p) && Apart() && forall j :: 0 <= j < |trees| ==> TreeFits(trees[j], p);
      var rid := heapFile.InsertTuple(None);
      AbandonedOthers(p, St(), heapFile.fileId, {Key(heapFile.fileId, 0)});
      HeapMoved(p);
      assert State() == old(State());
    }

    method Store(row: Row, raw: seq<byte>) returns (rid: Rid)
      requires Valid() && Storable(enc, schema.columns, row) && Doubles(enc, row) && raw == RowBytes(enc, schema.columns, row)
      requires |Pinned(St())| + 3 <= NUM_FRAMES && Insertable(heapFile.h, raw) && Roomy()
      modifies heapFile`h, Trees(), heapFile.bpm, heapFile.bpm.replacer
      ensures Valid() && SamePins(old(St()), St())
      ensures rid == Inserted(old(heapFile.h), raw).1
      ensures State() == TableInserted(enc, schema.columns, old(State()), row)
    {
      hide Matches, HeapMatches, BTreeModel.Valid, BTreeRead.Leftmost, Settled, BufferPoolManager.Valid,
        BTreeInsert.Insert, Safe, BytesOk, Pinned, TreeRoom, TreeFits, Inserted, TableOk, Pack, RowBytes, Doubles,
        SamePins, OthersKept;
      ghost var p, t := St(), State();
      TableInsertOk(enc, schema.columns, t, row);
      TypedKeys(enc, schema.columns, t, row);
      KeyedRow(row);
      HeapSmall(raw);
      var r := heapFile.InsertTuple(Some(raw));
      rid := r.value;
      SettledOthers(p, St(), heapFile.fileId);
      HeapMoved(p);
      ghost var q := St();
      SamePinned(p, q);
      AddAll(row, rid);
      SamePinsChain(p, q, St());
      AddedState(t, row, rid);
    }

    lemma AddedState(t: TableState, row: Row, rid: Rid)
      requires Apart() && TableOk(enc, schema.columns, t) && Storable(enc, schema.columns, row) && |t.indices| == |trees|
      requires (heapFile.h, rid) == Inserted(t.heap, RowBytes(enc, schema.columns, row))
      requires forall i :: 0 <= i < |trees| ==> t.indices[i].column == columns[i]
      requires forall i :: 0 <= i < |trees| ==> EntryAdded(t.indices[i].ix, trees[i].ix, row, columns[i], rid)
      ensures State() == TableInserted(enc, schema.columns, t, row)
    {
      hide TableOk, Inserted, RowBytes, Pack, BTreeModel.Valid, BTreeInsert.Insert;
      TypedKeys(enc, schema.columns, t, row);
      assert State().indices == AddEntries(t, row, rid);
    }

    lemma HeapSmall(raw: seq<byte>)
      requires heapFile.Valid() && Insertable(heapFile.h, raw)
      ensures IsU32(Inserted(heapFile.h, raw).1.0) && IsU32(Inserted(heapFile.h, raw).1.1)
    {
      RidSmall(heapFile.h, raw);
    }

    // ---- Reading and deleting ----

    lemma LiveDecodes(rid: Rid)
      requires Valid()
      ensures rid in HeapModel.Live(heapFile.h) <==> rid in LiveRows(enc, schema.columns, heapFile.h)
      ensures rid in HeapModel.Live(heapFile.h) ==>
        Decode(enc, schema.columns, HeapModel.Live(heapFile.h)[rid]) == Some(LiveRows(enc, schema.columns, heapFile.h)[rid])
    {
      hide Pack, InStep, HeapFile.Valid, TreeFits, Decode;
    }

    /** The row under a rid of this table; None stands for the failure to decode a missing tuple. */
    method Get(rid: Rid) returns (row: Option<Row>)
      requires Valid() && |Pinned(St())| < NUM_FRAMES && 1 <= rid.0 <= |heapFile.h| && 0 <= rid.1
      modifies heapFile.bpm, heapFile.bpm.replacer
      ensures Valid() && SamePins(old(St()), St()) && State() == old(State())
      ensures row == if rid in LiveRows(enc, schema.columns, heapFile.h) then Some(LiveRows(enc, schema.columns, heapFile.h)[rid]) else None
    {
      hide Pack, Matches, HeapMatches, BTreeModel.Valid, BTreeRead.Leftmost, Settled, BufferPoolManager.Valid, Safe,
        BytesOk, Pinned, TreeFits, TableOk, Decode, LiveRows, HeapModel.Live;
      LiveDecodes(rid);
      ghost var p := St();
      assert TablesOk(p) && Apart() && forall j :: 0 <= j < |trees| ==> TreeFits(trees[j], p);
      GetIsLookup(heapFile.h, rid);
      var raw := heapFile.GetTuple(rid);
      SettledOthers(p, St(), heapFile.fileId);
      HeapMoved(p);
      assert State() == old(State());
      if raw.None? {
        return None;
      }
      row := Deserialize(enc, schema, raw.value);
      assert Stored();
      assert State() == old(State());
    }

    /** The first tree, from the `i`th on, with no count left to lower. */
    ghost function FirstAtZero(i: nat): (k: nat)
      requires i <= |trees|
      reads this, Trees()
      ensures i <= k <= |trees| && (k < |trees| ==> trees[k].numKeys == 0)
      ensures forall j :: i <= j < k ==> trees[j].numKeys != 0
      decreases |trees| - i
    {
      if i == |trees| || trees[i].numKeys == 0 then i else FirstAtZero(i + 1)
    }

    ghost function Indices(): (xs: seq<Index>)
      reads this, Trees()
      ensures |xs| == |trees| && forall i :: 0 <= i < |xs| ==> xs[i] == trees[i].ix
    {
      seq(|trees|, i requires 0 <= i < |trees| reads this, Trees() => trees[i].ix)
    }

    /** Since `before`, the first `n` trees have given up the row's entry, and the others are as they were. */
    ghost predicate DroppedTo(before: seq<Index>, row: Row, rid: Rid, n: nat)
      reads this, Trees()
    {
      |columns| == |trees| && Dropping(before, Indices(), columns, row, rid, n)
    }

    /** A delete that stopped in tree `at`: its entry is gone, its count is below zero, and two of its pages stay pinned. */
    ghost predicate Torn(before: seq<Index>, p: Pool, row: Row, rid: Rid, at: nat)
      reads this, heapFile.bpm, Trees()
    {
      at < |trees| && DroppedTo(before, row, rid, at + 1) && trees[at].numKeys == -1 && TwoPinsMore(p, St(), trees[at].fileId)
    }

    /** One tree gives up its entry. */
    method DropFrom(i: nat, row: Row, rid: Rid) returns (ok: bool)
      requires Apart() && Stored() && i < |trees| && |Pinned(St())| + 2 <= NUM_FRAMES && Present(trees[i].ix, row, columns[i], rid)
      modifies trees[i], heapFile.bpm, heapFile.bpm.replacer
      ensures ok <==> old(trees[i].numKeys) != 0
      ensures EntryDropped(old(trees[i].ix), trees[i].ix, row, columns[i], rid)
      ensures AllShown() && forall j :: 0 <= j < |trees| && j != i ==> TreeFits(trees[j], St())
      ensures ok ==> Stored() && SamePins(old(St()), St())
      ensures !ok ==> trees[i].numKeys == -1 && TwoPinsMore(old(St()), St(), trees[i].fileId)
    {
      hide TablesOk, View, Matches, HeapMatches, BTreeModel.Valid, BTreeRead.Leftmost, Settled,
        BufferPoolManager.Valid, BTreeDelete.Delete, BTreeDelete.Find, BytesOk, Safe, BPlusTree.CountOk, Abandoned,
        SamePins;
      ghost var p := St();
      var tree := trees[i];
      ghost var jx := tree.ix;
      assert TreeFits(tree, p);
      var answer := tree.Delete(row[columns[i]].i, rid);
      ok := answer.Some?;
      if ok {
        SettledOthers(p, St(), tree.fileId);
        Restored(p, i);
      } else {
        StrandedPins(tree, p, jx, row[columns[i]].i, rid);
        OthersRestored(p, i);
      }
    }

    lemma StrandedPins(tree: BPlusTree, p: Pool, jx: Index, key: int, rid: Rid)
      requires BTreeModel.Valid(jx) && tree.bpm == heapFile.bpm && tree.Stranded(p, jx, key, rid)
      ensures OthersKept(p, St(), tree.fileId) && TwoPinsMore(p, St(), tree.fileId)
    {
      hide Nodes, Down, Up, Sizes, BTreeDelete.FindFrom, View, Consistent, Safe, OthersKept;
      var page := jx.chain[BTreeDelete.Find(jx, key, rid).value.0];
      AbandonedOthers(p, St(), tree.fileId, {Key(tree.fileId, page), Key(tree.fileId, 0)});
      AbandonedPair(p, St(), tree.fileId, page);
    }

    lemma TornSince(before: seq<Index>, p: Pool, q: Pool, row: Row, rid: Rid, at: nat)
      requires SamePins(p, q) && Torn(before, q, row, rid, at)
      ensures Torn(before, p, row, rid, at)
    {
      hide SamePins, DroppedTo;
      MorePins(p, q, St(), trees[at].fileId);
    }

    lemma DropNone(row: Row, rid: Rid)
      requires |columns| == |trees|
      ensures DroppedTo(Indices(), row, rid, 0)
    {
    }

    lemma AbandonedPair(p: Pool, q: Pool, file: int, page: int)
      requires 0 < page && Abandoned(p, q, file, {Key(file, page), Key(file, 0)})
      ensures PairMore(p, q, file, page)
    {
      hide View;
    }

    /** The entry leaves one tree after another, up to the first whose count cannot go lower. */
    method DropAll(row: Row, rid: Rid) returns (at: nat)
      requires Apart() && Stored() && |Pinned(St())| + 2 <= NUM_FRAMES
      requires forall i :: 0 <= i < |trees| ==> Present(trees[i].ix, row, columns[i], rid)
      modifies Trees(), heapFile.bpm, heapFile.bpm.replacer
      ensures at == old(FirstAtZero(0))
      ensures AllShown()
      ensures at == |trees| ==> Stored() && SamePins(old(St()), St()) && DroppedTo(old(Indices()), row, rid, at)
      ensures at < |trees| ==> Torn(old(Indices()), old(St()), row, rid, at)
    {
      hide Matches, HeapMatches, BTreeModel.Valid, BTreeRead.Leftmost, Settled, BufferPoolManager.Valid, EntryDropped,
        Present, Safe, BytesOk, BPlusTree.CountOk, Pinned, TreeShown, SamePins, TwoPinsMore, Dropping, FirstAtZero,
        Stored, AllShown;
      StoredShown();
      DropNone(row, rid);
      ghost var goal := FirstAtZero(0);
      at := 0;
      NoPinMoved(St());
      while at < |trees|
        invariant 0 <= at <= |trees| && Stored() && SamePins(old(St()), St())
        invariant DroppedTo(old(Indices()), row, rid, at)
        invariant forall j :: at <= j < |trees| ==> trees[j].numKeys == old(trees[j].numKeys)
        invariant at <= goal
      {
        forall j | 0 <= j < |trees| && j != at
          ensures trees[j] != trees[at]
        {
          Distinct(at, j);
        }
        label Before:
        SamePinned(old(St()), St());
        ghost var mid := Indices();
        DropRest(old(Indices()), mid, columns, row, rid, at);
        var ok := DropFrom(at, row, rid);
        DropNext(old(Indices()), mid, Indices(), columns, row, rid, at);
        if !ok {
          MorePins(old(St()), old@Before(St()), St(), trees[at].fileId);
          return;
        }
        SamePinsChain(old(St()), old@Before(St()), St());
        at := at + 1;
      }
      StoredShown();
    }

    lemma StoredShown()
      requires Stored()
      ensures AllShown() && TablesOk(St())
    {
      hide TablesOk, Matches, BTreeModel.Valid, HeapMatches;
    }

    lemma MorePins(p: Pool, q: Pool, r: Pool, file: int)
      requires SamePins(p, q) && TwoPinsMore(q, r, file)
      ensures TwoPinsMore(p, r, file)
    {
      var page :| PairMore(q, r, file, page);
      forall k
        ensures Pins(r, k) == Pins(p, k) + if k == Key(file, page) || k == Key(file, 0) then 1 else 0
      {
        assert Pins(q, k) == Pins(p, k);
      }
      assert PairMore(p, r, file, page);
    }

    lemma LiveDeletable(rid: Rid)
      requires Valid() && rid in LiveRows(enc, schema.columns, heapFile.h)
      ensures Deletable(heapFile.h, rid) && 1 <= rid.0 <= |heapFile.h| && 0 <= rid.1 && rid in HeapModel.Live(heapFile.h)
    {
      hide Pack, InStep, Decode, TreeFits, PageBytes, U16At;
      assert Used(heapFile.h, rid) && SlottedPage.Fits(heapFile.h[rid.0 - 1]);
    }

    /**
     Removes a live row from the heap and its key from every index. None stands for the failure in the first tree
     that has no count left to lower, as a reopened one may: the row and the entries up to that tree are gone, the
     entries of later trees stay, and two pages of that tree stay pinned. It also stands for the failure to decode a row
     that is not live, which changes nothing.
     */
    method Delete(rid: Rid) returns (deleted: Option<bool>)
      requires Valid() && AllOrdered(State()) && |Pinned(St())| + 2 <= NUM_FRAMES && 1 <= rid.0 <= |heapFile.h| && 0 <= rid.1
      modifies heapFile`h, Trees(), heapFile.bpm, heapFile.bpm.replacer
      ensures deleted.None? <==> rid !in LiveRows(enc, schema.columns, old(heapFile.h)) || old(FirstAtZero(0)) < |trees|
      ensures deleted.Some? ==> Valid() && SamePins(old(St()), St())
      ensures deleted.Some? ==> deleted.value && State() == TableDeleted(enc, schema.columns, old(State()), rid)
      ensures rid !in LiveRows(enc, schema.columns, old(heapFile.h)) ==>
        Valid() && SamePins(old(St()), St()) && State() == old(State())
      ensures rid in LiveRows(enc, schema.columns, old(heapFile.h)) ==>
        AllShown() && heapFile.h == Deleted(old(heapFile.h), rid).0
      ensures deleted.None? && rid in LiveRows(enc, schema.columns, old(heapFile.h)) ==>
        Torn(old(Indices()), old(St()), LiveRows(enc, schema.columns, old(heapFile.h))[rid], rid, old(FirstAtZero(0)))
    {
      hide Pack, Matches, HeapMatches, BTreeModel.Valid, BTreeRead.Leftmost, Settled, BufferPoolManager.Valid, Safe,
        BytesOk, Pinned, TreeFits, RowsOk, LiveRows, HeapModel.Live, Ordered, Deletable, InStep, SamePins, Deleted,
        Torn, TableOk, AllOrdered;
      ghost var p := St();
      var row := Get(rid);
      if row.None? {
        return None;
      }
      LiveDeletable(rid);
      ghost var q := St();
      SamePinned(p, q);
      deleted := Drop(rid, row.value);
      if deleted.Some? {
        SamePinsChain(p, q, St());
      } else {
        TornSince(old(Indices()), p, q, row.value, rid, old(FirstAtZero(0)));
      }
    }

    method Drop(rid: Rid, row: Row) returns (deleted: Option<bool>)
      requires Valid() && AllOrdered(State()) && |Pinned(St())| + 2 <= NUM_FRAMES
      requires rid in LiveRows(enc, schema.columns, heapFile.h) && row == LiveRows(enc, schema.columns, heapFile.h)[rid]
      modifies heapFile`h, Trees(), heapFile.bpm, heapFile.bpm.replacer
      ensures deleted.None? <==> old(FirstAtZero(0)) < |trees|
      ensures deleted.Some? ==> Valid() && SamePins(old(St()), St())
      ensures deleted.Some? ==> deleted.value && State() == TableDeleted(enc, schema.columns, old(State()), rid)
      ensures AllShown() && heapFile.h == Deleted(old(heapFile.h), rid).0
      ensures deleted.None? ==> Torn(old(Indices()), old(St()), row, rid, old(FirstAtZero(0)))
    {
      hide Pack, Matches, HeapMatches, BTreeModel.Valid, BTreeRead.Leftmost, Settled, BufferPoolManager.Valid, Safe,
        BytesOk, Pinned, TreeFits, RowsOk, LiveRows, HeapModel.Live, Deleted, Ordered, Deletable, InStep, SamePins,
        OthersKept, Torn, DroppedTo, Present, TreeShown, TableDeleted, TableOk, AllOrdered;
      ghost var p, t := St(), State();
      DropReady(rid);
      var found := RemoveTuple(rid);
      ghost var q := St();
      SamePinned(p, q);
      var at := DropAll(row, rid);
      if at < |trees| {
        TornSince(old(Indices()), p, q, row, rid, at);
        return None;
      }
      SamePinsChain(p, q, St());
      DroppedState(t, old(Indices()), rid);
      deleted := Some(found);
    }

    /** What the delete of a live row makes of the table as a value. */
    lemma DropReady(rid: Rid)
      requires Valid() && AllOrdered(State()) && rid in LiveRows(enc, schema.columns, heapFile.h)
      ensures Deletable(heapFile.h, rid) && Deleted(heapFile.h, rid).1
      ensures TableOk(enc, schema.columns, TableDeleted(enc, schema.columns, State(), rid))
      ensures AllValid(State()) && KeyedBy(State(), LiveRows(enc, schema.columns, heapFile.h)[rid])
      ensures forall i :: 0 <= i < |trees| == |columns| ==> Present(trees[i].ix, LiveRows(enc, schema.columns, heapFile.h)[rid], columns[i], rid)
    {
      hide Pack, HeapFile.Valid, TreeFits, Decode, LiveRows, RowsOk, Ordered, InStep, BTreeDelete.Delete, TableDeleted,
        Present, Deletable, Deleted, TableModel.IndexOk, HeapModel.Live;
      LiveDeletable(rid);
      TableDeleteOk(enc, schema.columns, State(), rid);
      LiveTyped(enc, schema.columns, heapFile.h, rid);
      TypedKeys(enc, schema.columns, State(), LiveRows(enc, schema.columns, heapFile.h)[rid]);
      AllPresent(rid);
      DeleteRefines(heapFile.h, rid);
    }

    lemma DroppedState(t: TableState, before: seq<Index>, rid: Rid)
      requires |before| == |trees| && Apart() && TableOk(enc, schema.columns, t) && rid in LiveRows(enc, schema.columns, t.heap)
      requires heapFile.h == Deleted(t.heap, rid).0 && |t.indices| == |trees|
      requires forall i :: 0 <= i < |trees| ==> t.indices[i].column == columns[i] && t.indices[i].ix == before[i]
      requires DroppedTo(before, LiveRows(enc, schema.columns, t.heap)[rid], rid, |trees|)
      ensures State() == TableDeleted(enc, schema.columns, t, rid)
    {
      hide TableOk, LiveRows, Deleted, BTreeModel.Valid, BTreeDelete.Delete;
      var row := LiveRows(enc, schema.columns, t.heap)[rid];
      GoodHeap(t);
      LiveTyped(enc, schema.columns, t.heap, rid);
      TypedKeys(enc, schema.columns, t, row);
      assert State().indices == DropEntries(t, row, rid);
    }

    lemma GoodHeap(t: TableState)
      requires TableOk(enc, schema.columns, t)
      ensures RowsOk(enc, schema.columns, t.heap)
    {
    }

    /** The tuple leaves the heap; the trees stay as they are. */
    method RemoveTuple(rid: Rid) returns (found: bool)
      requires Apart() && Stored() && |Pinned(St())| + 2 <= NUM_FRAMES && Deletable(heapFile.h, rid)
      modifies heapFile`h, heapFile.bpm, heapFile.bpm.replacer
      ensures Stored() && SamePins(old(St()), St())
      ensures (heapFile.h, found) == Deleted(old(heapFile.h), rid)
    {
      hide TablesOk, View, Matches, HeapMatches, BTreeModel.Valid, BTreeRead.Leftmost, Settled,
        BufferPoolManager.Valid, BytesOk, Safe, BPlusTree.CountOk, SamePins, OthersKept, Deletable, Deleted, Pinned;
      ghost var p := St();
      found := heapFile.DeleteTuple(rid);
      SettledOthers(p, St(), heapFile.fileId);
      HeapMoved(p);
    }

    /** Every index has the entry of a live row. */
    lemma AllPresent(rid: Rid)
      requires Valid() && AllOrdered(State()) && rid in LiveRows(enc, schema.columns, heapFile.h)
      ensures |columns| == |trees|
      ensures forall i :: 0 <= i < |trees| ==> Present(trees[i].ix, LiveRows(enc, schema.columns, heapFile.h)[rid], columns[i], rid)
    {
      hide Pack, HeapFile.Valid, TreeFits, Decode, LiveRows, RowsOk, Ordered, InStep, BTreeDelete.Delete;
      var rows := LiveRows(enc, schema.columns, heapFile.h);
      LiveTyped(enc, schema.columns, heapFile.h, rid);
      TypedKeys(enc, schema.columns, State(), rows[rid]);
      forall i | 0 <= i < |trees|
        ensures Present(trees[i].ix, rows[rid], columns[i], rid)
      {
        assert State().indices[i] == Indexed(columns[i], trees[i].ix);
        assert TableModel.IndexOk(enc, schema.columns, heapFile.h, State().indices[i]);
        assert Ordered(State().indices[i].ix);
        DeleteInStep(trees[i].ix, rows, columns[i], rid);
      }
    }

    /** Every live row with its rid, in heap order. */
    method Scan() returns (rs: IndexPlans.Records)
      requires Valid() && |Pinned(St())| < NUM_FRAMES
      modifies heapFile.bpm, heapFile.bpm.replacer
      ensures Valid() && SamePins(old(St()), St()) && State() == old(State())
      ensures Settled(old(St()), St(), heapFile.fileId)
      ensures forall i :: 0 <= i < |Scanned(heapFile.h)| ==> Decode(enc, schema.columns, Scanned(heapFile.h)[i].1).Some?
      ensures rs == Records(enc, schema.columns, Scanned(heapFile.h))
      ensures ExactRecords(rs, LiveRows(enc, schema.columns, heapFile.h))
    {
      hide Pack, Matches, HeapMatches, BTreeModel.Valid, BTreeRead.Leftmost, Settled, BufferPoolManager.Valid, Safe,
        BytesOk, Pinned, TreeFits, IndexOk, RowsOk, Decode, LiveRows, HeapModel.Live, ExactRecords;
      ScanRecords(enc, schema.columns, heapFile.h);
      ghost var p := St();
      assert TablesOk(p) && Apart() && forall j :: 0 <= j < |trees| ==> TreeFits(trees[j], p);
      var found := heapFile.Scan();
      SettledOthers(p, St(), heapFile.fileId);
      HeapMoved(p);
      rs := DecodeEach(found);
      assert Stored();
      assert State() == old(State());
    }

    method DecodeEach(found: seq<(Rid, seq<byte>)>) returns (rs: IndexPlans.Records)
      requires SchemaOk(schema) && forall i :: 0 <= i < |found| ==> Decode(enc, schema.columns, found[i].1).Some?
      ensures rs == Records(enc, schema.columns, found)
    {
      hide Decode;
      rs := [];
      var i := 0;
      while i < |found|
        invariant 0 <= i <= |found| && |rs| == i
        invariant forall j :: 0 <= j < i ==> rs[j] == (found[j].0, Decode(enc, schema.columns, found[j].1).value)
      {
        var row := Deserialize(enc, schema, found[i].1);
        rs := rs + [(found[i].0, row.value)];
        i := i + 1;
      }
    }

    // ---- A new index ----

    /** What holds of the table after some other file has changed. */
    lemma OutsideMoved(p: Pool, file: int)
      requires Apart() && heapFile.bpm.Valid() && OthersKept(p, St(), file) && file != heapFile.fileId
      requires forall j :: 0 <= j < |trees| ==> trees[j].fileId != file && TreeFits(trees[j], p)
      requires HeapMatches(p, heapFile.fileId, heapFile.h) && forall k :: k in p.unmarked ==> k.file != heapFile.fileId
      ensures Stored()
    {
      hide View, Matches, HeapMatches, BTreeModel.Valid, BTreeRead.Leftmost, BPlusTree.CountOk;
      HeapKept(p, St(), file, heapFile.fileId, heapFile.h);
      forall j | 0 <= j < |trees|
        ensures TreeFits(trees[j], St())
      {
        FitsKept(trees[j], p, St(), file);
      }
    }

    /** A file of its own for one more tree. */
    ghost predicate Elsewhere(file: int)
      reads this
    {
      file != heapFile.fileId && forall j :: 0 <= j < |trees| ==> trees[j].fileId != file
    }

    /** Keys and rids can be packed, and the page numbers of the new tree stay in range while it is filled. */
    ghost predicate Fillable(rs: IndexPlans.Records, column: nat) {
      && (forall i :: 0 <= i < |rs| ==> HasKey(rs[i].1, column) && IsU32(rs[i].0.0) && IsU32(rs[i].0.1))
      && |rs| < U32_LIMIT - 1
      && forall n :: 0 <= n <= |rs| ==> Spacious(Backfill(rs, column, n))
    }

    ghost predicate Spacious(ix: Index) {
      ix.root in ix.level && ix.next + ix.level[ix.root] + 2 <= I32_LIMIT
    }

    ghost predicate FilledFrom(ix: Index, rs: IndexPlans.Records, column: nat) {
      (forall i :: 0 <= i < |rs| ==> HasInt(rs[i].1, column)) && ix == Backfill(rs, column, |rs|)
    }

    /** Fills a new tree, one record after another. */
    method Fill(tree: BPlusTree, rs: IndexPlans.Records, column: nat)
      requires Apart() && Stored() && Elsewhere(tree.fileId) && tree.bpm == heapFile.bpm && tree !in Trees()
      requires tree.Valid() && tree.ix == BTreeRuns.New(ORDER) && tree.numKeys == 0
      requires |Pinned(St())| + 3 <= NUM_FRAMES && Fillable(rs, column)
      modifies tree, heapFile.bpm, heapFile.bpm.replacer
      ensures Stored() && tree.Valid() && SamePins(old(St()), St())
      ensures FilledFrom(tree.ix, rs, column)
    {
      hide TablesOk, View, Matches, HeapMatches, BTreeModel.Valid, BTreeRead.Leftmost, Settled,
        BufferPoolManager.Valid, BTreeInsert.Insert, BytesOk, Safe, Pinned, TreeFits, BTreeRuns.New;
      var i := 0;
      while i < |rs|
        invariant 0 <= i <= |rs| && Stored() && tree.Valid() && SamePins(old(St()), St())
        invariant tree.ix == Backfill(rs, column, i) && tree.numKeys == i
      {
        ghost var p := St();
        SamePinned(old(St()), p);
        assert Spacious(Backfill(rs, column, i)) && HasKey(rs[i].1, column);
        tree.Insert(rs[i].1[column].i, rs[i].0);
        SettledOthers(p, St(), tree.fileId);
        SamePinsChain(old(St()), p, St());
        OutsideMoved(p, tree.fileId);
        i := i + 1;
      }
    }

    /**
     A tree of its own for one more column, filled from a scan; refused when the column has one. The new index is
     ordered when the table's rows meet the two conditions on their keys.
     */
    method CreateIndex(column: nat, file: int) returns (created: bool)
      requires Valid() && |Pinned(St())| + 3 <= NUM_FRAMES
      requires column < |schema.columns| && schema.columns[column].kind == INT
      requires Elsewhere(file) && NumPages(heapFile.bpm.disk, file) == 0
      modifies `columns, `trees, heapFile.bpm, heapFile.bpm.replacer
      ensures Valid() && SamePins(old(St()), St())
      ensures created <==> column !in old(columns)
      ensures State() == IndexCreated(enc, schema.columns, old(State()), column)
      ensures created ==> columns == old(columns) + [column] && |trees| == |old(trees)| + 1
      ensures var rows := LiveRows(enc, schema.columns, heapFile.h);
        created && FewRows(rows, column, ORDER) && SafeColumn(rows, column) ==> Gentle(trees[|trees| - 1].ix)
    {
      hide TablesOk, View, Matches, HeapMatches, BTreeModel.Valid, BTreeRead.Leftmost, Settled,
        BufferPoolManager.Valid, BytesOk, Safe, Pinned, TreeFits, TableOk, Decode, LiveRows, Backfill, Fillable,
        Scanned, SamePins, FewRows, SafeColumn, Gentle, FilledFrom, TableModel.IndexOk;
      ghost var t := State();
      assert forall i :: 0 <= i < |t.indices| ==> t.indices[i].column == columns[i];
      if column in columns {
        NoPinMoved(St());
        return false;
      }
      GoodRows();
      CreateIndexOk(enc, schema.columns, heapFile.h, column);
      AlwaysFillable(column);
      var tree := BuildTree(column, file);
      columns := columns + [column];
      trees := trees + [tree];
      created := true;
      FilledIs(tree.ix, column);
      assert State() == TableState(t.heap, t.indices + [Indexed(column, tree.ix)]);
      MoreIndices(t, Indexed(column, tree.ix));
    }

    /** A new tree filled from a scan of the table, which stays as it is. */
    method BuildTree(column: nat, file: int) returns (tree: BPlusTree)
      requires Valid() && |Pinned(St())| + 3 <= NUM_FRAMES
      requires Elsewhere(file) && NumPages(heapFile.bpm.disk, file) == 0
      requires forall i :: 0 <= i < |Scanned(heapFile.h)| ==> Decode(enc, schema.columns, Scanned(heapFile.h)[i].1).Some?
      requires Fillable(Records(enc, schema.columns, Scanned(heapFile.h)), column)
      modifies heapFile.bpm, heapFile.bpm.replacer
      ensures Stored() && SamePins(old(St()), St()) && State() == old(State())
      ensures fresh(tree) && tree.bpm == heapFile.bpm && tree.fileId == file && TreeFits(tree, St())
      ensures FilledFrom(tree.ix, Records(enc, schema.columns, Scanned(heapFile.h)), column)
    {
      hide TablesOk, View, Matches, HeapMatches, BTreeModel.Valid, BTreeRead.Leftmost, Settled,
        BufferPoolManager.Valid, BytesOk, Safe, Pinned, TableOk, BTreeRuns.New, Decode, LiveRows, ExactRecords,
        Backfill, Scanned, BPlusTree.CountOk, Spacious;
      ghost var p, t := St(), State();
      tree := new BPlusTree.New(heapFile.bpm, file);
      SettledOthers(p, St(), file);
      OutsideMoved(p, file);
      assert State() == t;
      ghost var q := St();
      SamePinned(p, q);
      var rs := Scan();
      ghost var r := St();
      SettledOthers(q, r, heapFile.fileId);
      NewTreeKept(tree, q);
      SamePinsChain(p, q, r);
      SamePinned(p, r);
      Fill(tree, rs, column);
      SamePinsChain(p, r, St());
    }

    /** A table's heap holds too few rows for page numbers to run out. */
    lemma AlwaysFillable(column: nat)
      requires Valid() && column < |schema.columns| && schema.columns[column].kind == INT
      ensures forall i :: 0 <= i < |Scanned(heapFile.h)| ==> Decode(enc, schema.columns, Scanned(heapFile.h)[i].1).Some?
      ensures Fillable(Records(enc, schema.columns, Scanned(heapFile.h)), column)
    {
      hide TablesOk, View, BTreeModel.Valid, BTreeRead.Leftmost, Settled, BufferPoolManager.Valid, BytesOk, Safe, TreeFits,
        TableModel.IndexOk, Decode, LiveRows, Backfill, Scanned, ShowsAll, SlottedPage.Fits, RowsOk;
      var h := heapFile.h;
      ScanRecords(enc, schema.columns, h);
      var rs := Records(enc, schema.columns, Scanned(h));
      KeysTyped(enc, schema.columns, h, rs, column);
      TableFew(h);
      forall n | 0 <= n <= |rs|
        ensures Spacious(Backfill(rs, column, n))
      {
        BackfillSmall(rs, column, n);
      }
    }

    lemma FilledIs(ix: Index, column: nat)
      requires RowsOk(enc, schema.columns, heapFile.h) && column < |schema.columns| && schema.columns[column].kind == INT
      requires forall i :: 0 <= i < |Scanned(heapFile.h)| ==> Decode(enc, schema.columns, Scanned(heapFile.h)[i].1).Some?
      requires FilledFrom(ix, Records(enc, schema.columns, Scanned(heapFile.h)), column)
      ensures ix == Filled(enc, schema.columns, heapFile.h, column)
    {
      hide Decode, Scanned, RowsOk, Backfill;
    }

    lemma GoodRows()
      requires Valid()
      ensures RowsOk(enc, schema.columns, heapFile.h)
    {
    }

    lemma MoreIndices(t: TableState, x: Indexed)
      requires TableOk(enc, schema.columns, t) && TableModel.IndexOk(enc, schema.columns, t.heap, x)
      ensures TableOk(enc, schema.columns, TableState(t.heap, t.indices + [x]))
    {
    }

    lemma NewTreeKept(tree: BPlusTree, q: Pool)
      requires heapFile.bpm.Valid() && tree.bpm == heapFile.bpm && OthersKept(q, St(), heapFile.fileId) && tree.fileId != heapFile.fileId
      requires TablesOk(q) && TreeFits(tree, q)
      ensures tree.Valid()
    {
      hide View, Matches, BTreeModel.Valid, BTreeRead.Leftmost, BPlusTree.CountOk;
      FitsKept(tree, q, St(), heapFile.fileId);
    }
  }

  /** A text over its limit, into a table of names of at most three letters: the pin on page 0 stays. */
  method InsertOverlong(names: Table) returns (outcome: Insertion)
    requires names.Valid() && |Pinned(names.St())| + 3 <= NUM_FRAMES
    requires names.schema.columns == [ColumnDef("name", VARCHAR, 3)]
    modifies names.heapFile`h, names.Trees(), names.heapFile.bpm, names.heapFile.bpm.replacer
    ensures outcome == TooLong && OnePinMore(old(names.St()), names.St(), Key(names.heapFile.fileId, 0))
  {
    hide Table.Valid, OnePinMore, SamePins, Pinned;
    var row := [TextVal("abcd")];
    Overlong(names.enc, names.schema.columns, row);
    outcome := names.Insert(row);
  }

  lemma Overlong(enc: Encodings, cols: seq<ColumnDef>, row: Row)
    requires cols == [ColumnDef("name", VARCHAR, 3)] && row == [TextVal("abcd")]
    ensures RowTyped(cols, row) && Doubles(enc, row) && Pack(enc, cols, row, |cols|) == Refused && !Storable(enc, cols, row)
  {
    assert Pack(enc, cols, row, 0) == Packed([], []);
    assert |row[0].s| == 4;
    assert PackCell(enc, cols[0], row[0]) == Refused;
  }
}
