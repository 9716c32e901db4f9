/** A table as a value: its heap file and one index per indexed column, kept in step. */
module TableModel {
  import opened Options
  import opened Disk
  import opened Bytes
  import LiteralKeys
  import opened BTreeNode
  import opened BTreeModel
  import opened BTreeInsert
  import opened BTreeEntries
  import opened BTreeRead
  import opened BTreeDelete
  import opened BTreeLeftmost
  import BTreeRuns
  import opened HeapModel
  import opened Expressions
  import opened RowCodec
  import opened IndexSelection
  import opened IndexPlans
  import QueryOptimizer

  /** The rows behind the live tuples. */
  function LiveRows(enc: Encodings, cols: seq<ColumnDef>, h: Heap): map<Rid, Row> {
    map r | r in Live(h) && Decode(enc, cols, Live(h)[r]).Some? :: Decode(enc, cols, Live(h)[r]).value
  }

  /** Every live tuple is some row's bytes. */
  ghost predicate RowsOk(enc: Encodings, cols: seq<ColumnDef>, h: Heap) {
    && Faithful(enc) && DistinctNames(cols)
    && forall r :: r in Live(h) ==> Decode(enc, cols, Live(h)[r]).Some? && RowTyped(cols, Decode(enc, cols, Live(h)[r]).value)
  }

  /** How often an index should hold an entry: once for a live row with that key. */
  function Due(rows: map<Rid, Row>, column: nat, e: Entry): nat {
    if e.1 in rows && column < |rows[e.1]| && rows[e.1][column] == IntVal(e.0) then 1 else 0
  }

  ghost predicate AllDue(bag: multiset<Entry>, rows: map<Rid, Row>, column: nat) {
    forall e :: bag[e] == Due(rows, column, e)
  }

  /** The index holds (row[column], rid) for every live row, once, and nothing else. */
  ghost predicate InStep(ix: Index, rows: map<Rid, Row>, column: nat) {
    BTreeModel.Valid(ix) && Leftmost(ix) && AllDue(multiset(Entries(ix)), rows, column)
  }

  lemma DueAdd(bag: multiset<Entry>, rows: map<Rid, Row>, column: nat, r: Rid, row: Row)
    requires AllDue(bag, rows, column) && r !in rows && column < |row| && row[column].IntVal?
    ensures AllDue(bag + multiset{(row[column].i, r)}, rows[r := row], column)
  {
    forall e
      ensures (bag + multiset{(row[column].i, r)})[e] == Due(rows[r := row], column, e)
    {
      assert bag[e] == Due(rows, column, e);
    }
  }

  lemma DueDrop(bag: multiset<Entry>, rows: map<Rid, Row>, column: nat, r: Rid)
    requires AllDue(bag, rows, column) && r in rows && column < |rows[r]| && rows[r][column].IntVal?
    ensures bag[(rows[r][column].i, r)] == 1
    ensures AllDue(bag - multiset{(rows[r][column].i, r)}, rows - {r}, column)
  {
    assert bag[(rows[r][column].i, r)] == Due(rows, column, (rows[r][column].i, r));
    forall e
      ensures (bag - multiset{(rows[r][column].i, r)})[e] == Due(rows - {r}, column, e)
    {
      assert bag[e] == Due(rows, column, e);
    }
  }

  // ---- One index through one change ----

  lemma InsertInStep(ix: Index, rows: map<Rid, Row>, column: nat, r: Rid, row: Row)
    requires InStep(ix, rows, column) && r !in rows && column < |row| && row[column].IntVal?
    ensures InStep(Insert(ix, row[column].i, r), rows[r := row], column)
  {
    hide Entries, Due, AllDue, InsertAt, Insert, Sizes, Down, Up, Nodes, Chained, Leftmost;
    var key := row[column].i;
    var j := InsertEntries(ix, key, r);
    BTreeRuns.InsertBag(Entries(ix), j, (key, r));
    InsertLeftmost(ix, key, r);
    DueAdd(multiset(Entries(ix)), rows, column, r, row);
  }

  lemma DeleteInStep(ix: Index, rows: map<Rid, Row>, column: nat, r: Rid)
    requires InStep(ix, rows, column) && Ordered(ix) && r in rows && column < |rows[r]| && rows[r][column].IntVal?
    ensures Delete(ix, rows[r][column].i, r).1
    ensures InStep(Delete(ix, rows[r][column].i, r).0, rows - {r}, column) && Ordered(Delete(ix, rows[r][column].i, r).0)
  {
    hide Entries, Due, AllDue, RemoveAt, Delete, Sizes, Down, Up, Nodes, Chained, Leftmost;
    var key := rows[r][column].i;
    DueDrop(multiset(Entries(ix)), rows, column, r);
    assert (key, r) in multiset(Entries(ix));
    DeleteExact(ix, key, r);
    var j := DeleteEntries(ix, key, r);
    BTreeRuns.RemoveBag(Entries(ix), j);
    DeleteLeftmost(ix, key, r);
  }

  // ---- The table ----

  datatype Indexed = Indexed(column: nat, ix: Index)

  datatype TableState = TableState(heap: Heap, indices: seq<Indexed>)

  /** Live tuples are rows, and every index, on an integer column, is in step with them. */
  ghost predicate TableOk(enc: Encodings, cols: seq<ColumnDef>, t: TableState) {
    && RowsOk(enc, cols, t.heap)
    && forall i :: 0 <= i < |t.indices| ==> IndexOk(enc, cols, t.heap, t.indices[i])
  }

  ghost predicate IndexOk(enc: Encodings, cols: seq<ColumnDef>, h: Heap, x: Indexed) {
    x.column < |cols| && cols[x.column].kind == INT && InStep(x.ix, LiveRows(enc, cols, h), x.column)
  }

  ghost predicate AllOrdered(t: TableState) {
    forall i :: 0 <= i < |t.indices| ==> Ordered(t.indices[i].ix)
  }

  ghost predicate AllValid(t: TableState) {
    forall i :: 0 <= i < |t.indices| ==> BTreeModel.Valid(t.indices[i].ix)
  }

  ghost predicate KeyedBy(t: TableState, row: Row) {
    forall i :: 0 <= i < |t.indices| ==> t.indices[i].column < |row| && row[t.indices[i].column].IntVal?
  }

  /** The new tuple's rid goes into every index under the row's key. */
  function AddEntries(t: TableState, row: Row, r: Rid): seq<Indexed>
    requires AllValid(t) && KeyedBy(t, row)
  {
    seq(|t.indices|, i requires 0 <= i < |t.indices| =>
      t.indices[i].(ix := Insert(t.indices[i].ix, row[t.indices[i].column].i, r)))
  }

  function DropEntries(t: TableState, row: Row, r: Rid): seq<Indexed>
    requires AllValid(t) && KeyedBy(t, row)
  {
    seq(|t.indices|, i requires 0 <= i < |t.indices| =>
      t.indices[i].(ix := Delete(t.indices[i].ix, row[t.indices[i].column].i, r).0))
  }

  lemma TypedKeys(enc: Encodings, cols: seq<ColumnDef>, t: TableState, row: Row)
    requires TableOk(enc, cols, t) && RowTyped(cols, row)
    ensures AllValid(t) && KeyedBy(t, row)
  {
    forall i | 0 <= i < |t.indices|
      ensures BTreeModel.Valid(t.indices[i].ix) && t.indices[i].column < |row| && row[t.indices[i].column].IntVal?
    {
      assert IndexOk(enc, cols, t.heap, t.indices[i]);
      assert Typed(cols[t.indices[i].column], row[t.indices[i].column]);
    }
  }

  function TableInserted(enc: Encodings, cols: seq<ColumnDef>, t: TableState, row: Row): TableState
    requires TableOk(enc, cols, t) && Storable(enc, cols, row)
  {
    TypedKeys(enc, cols, t, row);
    var (h', r) := Inserted(t.heap, RowBytes(enc, cols, row));
    TableState(h', AddEntries(t, row, r))
  }

  function TableDeleted(enc: Encodings, cols: seq<ColumnDef>, t: TableState, r: Rid): TableState
    requires TableOk(enc, cols, t) && r in LiveRows(enc, cols, t.heap)
  {
    TypedKeys(enc, cols, t, LiveRows(enc, cols, t.heap)[r]);
    TableState(Deleted(t.heap, r).0, DropEntries(t, LiveRows(enc, cols, t.heap)[r], r))
  }

  /** A row read back is the row stored: its doubles are doubles. */
  ghost predicate Doubles(enc: Encodings, row: Row) {
    forall i :: 0 <= i < |row| && row[i].FloatVal? ==> enc.isDouble(row[i].r)
  }

  lemma RowAdded(enc: Encodings, cols: seq<ColumnDef>, h: Heap, row: Row)
    requires RowsOk(enc, cols, h) && Storable(enc, cols, row) && Doubles(enc, row)
    ensures var (h', r) := Inserted(h, RowBytes(enc, cols, row));
      && RowsOk(enc, cols, h') && r !in LiveRows(enc, cols, h)
      && LiveRows(enc, cols, h') == LiveRows(enc, cols, h)[r := row]
  {
    hide Pack, Inserted, HeapModel.Live, Decode, Used;
    var data := RowBytes(enc, cols, row);
    var (h', r) := Inserted(h, data);
    InsertRefines(h, data);
    DecodeRow(enc, cols, row);
    LiveUsed(h, r);
  }

  lemma LiveUsed(h: Heap, r: Rid)
    ensures r in HeapModel.Live(h) ==> Used(h, r)
  {
  }

  lemma RowDropped(enc: Encodings, cols: seq<ColumnDef>, h: Heap, r: Rid)
    requires RowsOk(enc, cols, h)
    ensures RowsOk(enc, cols, Deleted(h, r).0)
    ensures LiveRows(enc, cols, Deleted(h, r).0) == LiveRows(enc, cols, h) - {r}
  {
    hide Pack, Deleted, HeapModel.Live, Decode;
    DeleteRefines(h, r);
  }

  /**
   An insert into the table adds exactly the row, under a fresh rid, and leaves every index in step. It needs no
   condition on the keys.
   */
  lemma TableInsertOk(enc: Encodings, cols: seq<ColumnDef>, t: TableState, row: Row)
    requires TableOk(enc, cols, t) && Storable(enc, cols, row) && Doubles(enc, row)
    ensures var t' := TableInserted(enc, cols, t, row); var r := Inserted(t.heap, RowBytes(enc, cols, row)).1;
      && TableOk(enc, cols, t') && |t'.indices| == |t.indices|
      && r !in LiveRows(enc, cols, t.heap)
      && LiveRows(enc, cols, t'.heap) == LiveRows(enc, cols, t.heap)[r := row]
  {
    hide Pack, Inserted, LiveRows, InStep, Insert, RowsOk, RowBytes;
    var (h', r) := Inserted(t.heap, RowBytes(enc, cols, row));
    var t' := TableInserted(enc, cols, t, row);
    RowAdded(enc, cols, t.heap, row);
    TypedKeys(enc, cols, t, row);
    forall i | 0 <= i < |t'.indices|
      ensures IndexOk(enc, cols, h', t'.indices[i])
    {
      assert IndexOk(enc, cols, t.heap, t.indices[i]);
      InsertInStep(t.indices[i].ix, LiveRows(enc, cols, t.heap), t.indices[i].column, r, row);
    }
  }

  /** A delete of a live rid removes exactly that row from the heap and from every index, if the indices are ordered. */
  lemma TableDeleteOk(enc: Encodings, cols: seq<ColumnDef>, t: TableState, r: Rid)
    requires TableOk(enc, cols, t) && AllOrdered(t) && r in LiveRows(enc, cols, t.heap)
    ensures var t' := TableDeleted(enc, cols, t, r);
      && TableOk(enc, cols, t') && AllOrdered(t')
      && LiveRows(enc, cols, t'.heap) == LiveRows(enc, cols, t.heap) - {r}
  {
    hide Pack, Deleted, InStep, Delete, RowsOk, LiveRows, Ordered;
    var row := LiveRows(enc, cols, t.heap)[r];
    var t' := TableDeleted(enc, cols, t, r);
    RowDropped(enc, cols, t.heap, r);
    LiveTyped(enc, cols, t.heap, r);
    TypedKeys(enc, cols, t, row);
    forall i | 0 <= i < |t'.indices|
      ensures IndexOk(enc, cols, t'.heap, t'.indices[i]) && Ordered(t'.indices[i].ix)
    {
      assert IndexOk(enc, cols, t.heap, t.indices[i]);
      DeleteInStep(t.indices[i].ix, LiveRows(enc, cols, t.heap), t.indices[i].column, r);
    }
  }

  lemma LiveTyped(enc: Encodings, cols: seq<ColumnDef>, h: Heap, r: Rid)
    requires RowsOk(enc, cols, h) && r in LiveRows(enc, cols, h)
    ensures RowTyped(cols, LiveRows(enc, cols, h)[r])
  {
  }

  // ---- The records of a scan ----

  function Scanned(h: Heap): seq<(Rid, seq<byte>)> {
    HeapModel.ScanFrom(h, 1)
  }

  /** The records a table scan yields. */
  function Records(enc: Encodings, cols: seq<ColumnDef>, found: seq<(Rid, seq<byte>)>): (rs: IndexPlans.Records)
    requires forall i :: 0 <= i < |found| ==> Decode(enc, cols, found[i].1).Some?
    ensures |rs| == |found|
    ensures forall i :: 0 <= i < |found| ==> rs[i] == (found[i].0, Decode(enc, cols, found[i].1).value)
  {
    seq(|found|, i requires 0 <= i < |found| => (found[i].0, Decode(enc, cols, found[i].1).value))
  }

  ghost predicate ExactRecords(rs: IndexPlans.Records, rows: map<Rid, Row>) {
    && (forall i, j :: 0 <= i < j < |rs| ==> rs[i].0 != rs[j].0)
    && Finds(rows, rs)
    && (forall r :: r in rows ==> (r, rows[r]) in rs)
  }

  /** A table scan yields every live row once. */
  lemma ScanRecords(enc: Encodings, cols: seq<ColumnDef>, h: Heap)
    requires RowsOk(enc, cols, h)
    ensures forall i :: 0 <= i < |Scanned(h)| ==> Decode(enc, cols, Scanned(h)[i].1).Some?
    ensures ExactRecords(Records(enc, cols, Scanned(h)), LiveRows(enc, cols, h))
  {
    hide Decode, Pack, HeapModel.Live, HeapModel.ScanFrom;
    ScanExact(h);
    var found, rows := Scanned(h), LiveRows(enc, cols, h);
    assert found == HeapModel.ScanFrom(h, 1);
    forall i | 0 <= i < |found|
      ensures found[i].0 in rows && Decode(enc, cols, found[i].1) == Some(rows[found[i].0])
    {
      assert found[i].0 in HeapModel.Live(h) && HeapModel.Live(h)[found[i].0] == found[i].1;
    }
    var rs := Records(enc, cols, found);
    forall r | r in rows
      ensures (r, rows[r]) in rs
    {
      assert (r, HeapModel.Live(h)[r]) in found;
      var i :| 0 <= i < |found| && found[i] == (r, HeapModel.Live(h)[r]);
      assert rs[i] == (r, rows[r]);
    }
    forall i, j | 0 <= i < j < |rs|
      ensures rs[i].0 != rs[j].0
    {
      assert RidBefore(found[i].0, found[j].0);
    }
  }

  lemma {:induction false} CountOnce(es: seq<Entry>, e: Entry)
    requires forall i, j :: 0 <= i < j < |es| ==> es[i].1 != es[j].1
    ensures multiset(es)[e] == if e in es then 1 else 0
  {
    if es != [] {
      CountOnce(es[1..], e);
      assert es == [es[0]] + es[1..];
      assert forall j :: 0 <= j < |es[1..]| ==> es[1..][j] == es[j + 1];
    }
  }

  /** The keys and rids of a scan are what an index in step holds. */
  lemma RecordsDue(rs: IndexPlans.Records, rows: map<Rid, Row>, column: nat)
    requires ExactRecords(rs, rows)
    requires forall i :: 0 <= i < |rs| ==> column < |rs[i].1| && rs[i].1[column].IntVal?
    ensures AllDue(multiset(KeysOf(rs, column)), rows, column)
  {
    var es := KeysOf(rs, column);
    forall e
      ensures multiset(es)[e] == Due(rows, column, e)
    {
      CountOnce(es, e);
      if Due(rows, column, e) == 1 {
        assert (e.1, rows[e.1]) in rs;
        var i :| 0 <= i < |rs| && rs[i] == (e.1, rows[e.1]);
        assert es[i] == e;
      }
    }
  }

  lemma SameDue(a: multiset<Entry>, b: multiset<Entry>, rows: map<Rid, Row>, column: nat)
    requires AllDue(a, rows, column) && AllDue(b, rows, column)
    ensures a == b
  {
    forall e
      ensures a[e] == b[e]
    {
      assert a[e] == Due(rows, column, e);
    }
  }

  lemma KeysTyped(enc: Encodings, cols: seq<ColumnDef>, h: Heap, rs: IndexPlans.Records, column: nat)
    requires RowsOk(enc, cols, h) && Finds(LiveRows(enc, cols, h), rs) && column < |cols| && cols[column].kind == INT
    ensures forall i :: 0 <= i < |rs| ==> column < |rs[i].1| == |cols| && rs[i].1[column].IntVal? && IsI32(rs[i].1[column].i)
  {
    hide Unpack, HeapModel.Live;
    forall i | 0 <= i < |rs|
      ensures column < |rs[i].1| == |cols| && rs[i].1[column].IntVal? && IsI32(rs[i].1[column].i)
    {
      LiveTyped(enc, cols, h, rs[i].0);
      UnpackInts(enc, cols, HeapModel.Live(h)[rs[i].0], |cols|, column);
    }
  }

  /** An ordered index of a table answers for exactly the records a scan yields. */
  lemma TableIndexes(enc: Encodings, cols: seq<ColumnDef>, t: TableState, i: nat)
    requires TableOk(enc, cols, t) && i < |t.indices| && Ordered(t.indices[i].ix)
    requires forall k :: 0 <= k < |Scanned(t.heap)| ==> Decode(enc, cols, Scanned(t.heap)[k].1).Some?
    ensures var rs := Records(enc, cols, Scanned(t.heap));
      Indexes(t.indices[i].ix, rs, t.indices[i].column) && ExactRecords(rs, LiveRows(enc, cols, t.heap))
  {
    hide Decode, Pack, HeapModel.Live, Scanned, LiveRows, RowsOk, Ordered, Sizes, Down, Up, Nodes, Chained, AllDue,
      KeysOf;
    assert IndexOk(enc, cols, t.heap, t.indices[i]);
    ScanRecords(enc, cols, t.heap);
    var rs, rows, x := Records(enc, cols, Scanned(t.heap)), LiveRows(enc, cols, t.heap), t.indices[i];
    KeysTyped(enc, cols, t.heap, rs, x.column);
    RecordsDue(rs, rows, x.column);
    SameDue(multiset(Entries(x.ix)), multiset(KeysOf(rs, x.column)), rows, x.column);
  }

  // ---- A new index, filled from a scan ----

  /** The tree after the first `n` records of a scan. */
  function Backfill(rs: IndexPlans.Records, column: nat, n: nat): (ix: Index)
    requires n <= |rs| && forall i :: 0 <= i < |rs| ==> column < |rs[i].1| && rs[i].1[column].IntVal?
    ensures BTreeModel.Valid(ix)
  {
    if n == 0 then
      BTreeRuns.NewOk(100);
      BTreeRuns.New(100)
    else
      InsertValid(Backfill(rs, column, n - 1), rs[n - 1].1[column].i, rs[n - 1].0);
      Insert(Backfill(rs, column, n - 1), rs[n - 1].1[column].i, rs[n - 1].0)
  }

  function Firsts(rs: IndexPlans.Records, n: nat): map<Rid, Row>
    requires n <= |rs|
  {
    if n == 0 then map[] else Firsts(rs, n - 1)[rs[n - 1].0 := rs[n - 1].1]
  }

  lemma {:induction false} FirstsAre(rs: IndexPlans.Records, n: nat)
    requires n <= |rs| && forall i, j :: 0 <= i < j < |rs| ==> rs[i].0 != rs[j].0
    ensures forall r :: r in Firsts(rs, n) <==> exists i :: 0 <= i < n && rs[i].0 == r
    ensures forall i :: 0 <= i < n ==> rs[i].0 in Firsts(rs, n) && Firsts(rs, n)[rs[i].0] == rs[i].1
  {
    if 0 < n {
      FirstsAre(rs, n - 1);
    }
  }

  lemma NewInStep(column: nat)
    ensures InStep(BTreeRuns.New(100), map[], column)
  {
    BTreeRuns.NewOk(100);
  }

  lemma {:induction false} BackfillInStep(rs: IndexPlans.Records, column: nat, n: nat)
    requires n <= |rs| && forall i :: 0 <= i < |rs| ==> column < |rs[i].1| && rs[i].1[column].IntVal?
    requires forall i, j :: 0 <= i < j < |rs| ==> rs[i].0 != rs[j].0
    ensures InStep(Backfill(rs, column, n), Firsts(rs, n), column)
  {
    hide InStep, Insert, BTreeModel.Valid, BTreeRuns.New;
    if n == 0 {
      NewInStep(column);
    } else {
      BackfillInStep(rs, column, n - 1);
      FirstsAre(rs, n - 1);
      InsertInStep(Backfill(rs, column, n - 1), Firsts(rs, n - 1), column, rs[n - 1].0, rs[n - 1].1);
    }
  }

  lemma AllFirsts(rs: IndexPlans.Records, rows: map<Rid, Row>)
    requires ExactRecords(rs, rows)
    ensures Firsts(rs, |rs|) == rows
  {
    FirstsAre(rs, |rs|);
    forall r | r in rows
      ensures r in Firsts(rs, |rs|)
    {
      assert (r, rows[r]) in rs;
      var i :| 0 <= i < |rs| && rs[i] == (r, rows[r]);
    }
  }

  // ---- Sessions ----

  /** The live rows with one key. */
  function Holders(rows: map<Rid, Row>, column: nat, k: int): set<Rid> {
    set r | r in rows && column < |rows[r]| && rows[r][column] == IntVal(k)
  }

  /** Condition (a) for a column: no key has more live rows than half a page of entries. */
  ghost predicate FewRows(rows: map<Rid, Row>, column: nat, order: int) {
    forall k :: |Holders(rows, column, k)| <= order / 2
  }

  /** Condition (b) for a column: its keys are all non-negative, or all non-zero. */
  ghost predicate SafeColumn(rows: map<Rid, Row>, column: nat) {
    || (forall r :: r in rows && column < |rows[r]| && rows[r][column].IntVal? ==> 0 <= rows[r][column].i)
    || (forall r :: r in rows && column < |rows[r]| && rows[r][column].IntVal? ==> rows[r][column].i != 0)
  }

  lemma {:induction false} CopiesOfRows(es: seq<Entry>, rows: map<Rid, Row>, column: nat, k: int)
    requires AllDue(multiset(es), rows, column)
    ensures BTreeRuns.Copies(es, k) == |Holders(rows, column, k)|
  {
    hide AllDue, Holders;
    if es == [] {
      NoHolders(rows, column, k);
    } else {
      FirstDue(es, rows, column);
      CopiesOfRows(es[1..], rows - {es[0].1}, column, k);
      HoldersWithout(rows, column, k, es[0].1, es[0].0);
    }
  }

  lemma HoldersWithout(rows: map<Rid, Row>, column: nat, k: int, r: Rid, key: int)
    requires r in rows && column < |rows[r]| && rows[r][column] == IntVal(key)
    ensures |Holders(rows, column, k)| == |Holders(rows - {r}, column, k)| + if key == k then 1 else 0
  {
    assert Holders(rows, column, k) == Holders(rows - {r}, column, k) + if key == k then {r} else {};
    assert r !in Holders(rows - {r}, column, k);
  }

  lemma NoHolders(rows: map<Rid, Row>, column: nat, k: int)
    requires AllDue(multiset([]), rows, column)
    ensures Holders(rows, column, k) == {}
  {
    var none: multiset<Entry> := multiset([]);
    forall r
      ensures r !in Holders(rows, column, k)
    {
      assert none[(k, r)] == Due(rows, column, (k, r));
    }
  }

  lemma FirstDue(es: seq<Entry>, rows: map<Rid, Row>, column: nat)
    requires es != [] && AllDue(multiset(es), rows, column)
    ensures es[0].1 in rows && column < |rows[es[0].1]| && rows[es[0].1][column] == IntVal(es[0].0)
    ensures AllDue(multiset(es[1..]), rows - {es[0].1}, column)
  {
    assert es[0] in multiset(es);
    assert multiset(es)[es[0]] == Due(rows, column, es[0]);
    DueDrop(multiset(es), rows, column, es[0].1);
    assert es == [es[0]] + es[1..];
    assert multiset(es[1..]) == multiset(es) - multiset{es[0]};
  }

  lemma StoredDue(es: seq<Entry>, rows: map<Rid, Row>, column: nat)
    requires AllDue(multiset(es), rows, column) && SafeColumn(rows, column)
    ensures BTreeRuns.SafeKeys(es)
  {
    forall i | 0 <= i < |es|
      ensures es[i].1 in rows && column < |rows[es[i].1]| && rows[es[i].1][column] == IntVal(es[i].0)
    {
      assert es[i] in multiset(es);
      assert multiset(es)[es[i]] == Due(rows, column, es[i]);
    }
  }

  ghost predicate Gentle(ix: Index) {
    BTreeModel.Valid(ix) && Ordered(ix) && BTreeRuns.NonzeroSeps(ix)
  }

  ghost predicate AllGentle(t: TableState) {
    forall i :: 0 <= i < |t.indices| ==> Gentle(t.indices[i].ix)
  }

  /** The two conditions on the rows that will be live keep an index ordered. */
  lemma InsertGentle(ix: Index, rows: map<Rid, Row>, column: nat, r: Rid, row: Row)
    requires InStep(ix, rows, column) && Gentle(ix) && r !in rows && column < |row| && row[column].IntVal?
    requires FewRows(rows[r := row], column, ix.order) && SafeColumn(rows[r := row], column)
    ensures Gentle(Insert(ix, row[column].i, r)) && Insert(ix, row[column].i, r).order == ix.order
  {
    hide Entries, Insert, Due, Ordered, Sizes, BTreeModel.Down, BTreeModel.Up, Nodes, Chained, Leftmost, BTreeRuns.NonzeroSeps,
      FewRows, SafeColumn, AllDue, Holders, BTreeRuns.Copies;
    var key := row[column].i;
    InsertInStep(ix, rows, column, r, row);
    var jx := Insert(ix, key, r);
    BTreeRuns.InsertOrder(ix, key, r);
    StoredDue(Entries(jx), rows[r := row], column);
    RowsAtMostHalf(jx, rows[r := row], column);
    BTreeRuns.GentleInsert(ix, key, r);
  }

  lemma RowsAtMostHalf(ix: Index, rows: map<Rid, Row>, column: nat)
    requires InStep(ix, rows, column) && FewRows(rows, column, ix.order)
    ensures BTreeRuns.AtMostHalf(ix)
  {
    hide Entries, Due, Sizes, BTreeModel.Down, BTreeModel.Up, Nodes, Chained, Leftmost, AllDue, Holders,
      BTreeRuns.Copies;
    forall k
      ensures BTreeRuns.Copies(Entries(ix), k) <= ix.order / 2
    {
      CopiesOfRows(Entries(ix), rows, column, k);
    }
  }

  // ---- A new index under the two conditions ----

  lemma FewerRows(part: map<Rid, Row>, rows: map<Rid, Row>, column: nat, order: int)
    requires FewRows(rows, column, order) && SafeColumn(rows, column)
    requires forall r :: r in part ==> r in rows && rows[r] == part[r]
    ensures FewRows(part, column, order) && SafeColumn(part, column)
  {
    forall k
      ensures |Holders(part, column, k)| <= order / 2
    {
      SubsetSize(Holders(part, column, k), Holders(rows, column, k));
    }
  }

  lemma SubsetSize(a: set<Rid>, b: set<Rid>)
    requires a <= b
    ensures |a| <= |b|
  {
    assert b == a + (b - a);
    assert |a + (b - a)| == |a| + |b - a|;
  }

  /** A tree filled from the rows of a table that meets the two conditions is ordered. */
  lemma {:induction false} BackfillGentle(rs: IndexPlans.Records, rows: map<Rid, Row>, column: nat, n: nat)
    requires n <= |rs| && ExactRecords(rs, rows)
    requires forall i :: 0 <= i < |rs| ==> column < |rs[i].1| && rs[i].1[column].IntVal?
    requires FewRows(rows, column, 100) && SafeColumn(rows, column)
    ensures Gentle(Backfill(rs, column, n)) && Backfill(rs, column, n).order == 100
  {
    hide InStep, Insert, BTreeRuns.New, FewRows, SafeColumn, Gentle, ExactRecords, Firsts, BTreeModel.Valid;
    RecordsDistinct(rs, rows);
    if n == 0 {
      NewGentle();
    } else {
      BackfillGentle(rs, rows, column, n - 1);
      BackfillInStep(rs, column, n - 1);
      FirstsStep(rs, rows, n);
      FewerRows(Firsts(rs, n), rows, column, 100);
      InsertGentle(Backfill(rs, column, n - 1), Firsts(rs, n - 1), column, rs[n - 1].0, rs[n - 1].1);
    }
  }

  lemma RecordsDistinct(rs: IndexPlans.Records, rows: map<Rid, Row>)
    requires ExactRecords(rs, rows)
    ensures forall i, j :: 0 <= i < j < |rs| ==> rs[i].0 != rs[j].0
  {
  }

  lemma FirstsStep(rs: IndexPlans.Records, rows: map<Rid, Row>, n: nat)
    requires 0 < n <= |rs| && ExactRecords(rs, rows)
    ensures rs[n - 1].0 !in Firsts(rs, n - 1) && Firsts(rs, n) == Firsts(rs, n - 1)[rs[n - 1].0 := rs[n - 1].1]
    ensures forall r :: r in Firsts(rs, n) ==> r in rows && rows[r] == Firsts(rs, n)[r]
  {
    FirstsAre(rs, n - 1);
    FirstsAre(rs, n);
  }

  lemma NewGentle()
    ensures Gentle(BTreeRuns.New(100)) && BTreeRuns.New(100).order == 100
  {
    BTreeRuns.NewOk(100);
    assert BTreeRuns.NonzeroKeys(BTreeRuns.New(100), 1);
  }

  /** The index filled from a scan of the table. */
  function Filled(enc: Encodings, cols: seq<ColumnDef>, h: Heap, column: nat): (ix: Index)
    requires RowsOk(enc, cols, h) && column < |cols| && cols[column].kind == INT
    ensures BTreeModel.Valid(ix)
  {
    ScanRecords(enc, cols, h);
    KeysTyped(enc, cols, h, Records(enc, cols, Scanned(h)), column);
    Backfill(Records(enc, cols, Scanned(h)), column, |Scanned(h)|)
  }

  /** An index created on a table starts in step with it, and ordered if its rows meet the two conditions. */
  lemma CreateIndexOk(enc: Encodings, cols: seq<ColumnDef>, h: Heap, column: nat)
    requires RowsOk(enc, cols, h) && column < |cols| && cols[column].kind == INT
    ensures IndexOk(enc, cols, h, Indexed(column, Filled(enc, cols, h, column)))
    ensures FewRows(LiveRows(enc, cols, h), column, 100) && SafeColumn(LiveRows(enc, cols, h), column) ==>
      Gentle(Filled(enc, cols, h, column))
  {
    hide Decode, Pack, HeapModel.Live, Scanned, LiveRows, RowsOk, InStep, Backfill, FewRows, SafeColumn, Gentle;
    ScanRecords(enc, cols, h);
    var rs, rows := Records(enc, cols, Scanned(h)), LiveRows(enc, cols, h);
    KeysTyped(enc, cols, h, rs, column);
    BackfillInStep(rs, column, |rs|);
    AllFirsts(rs, rows);
    if FewRows(rows, column, 100) && SafeColumn(rows, column) {
      BackfillGentle(rs, rows, column, |rs|);
    }
  }

  /** The table with one more index, filled from its rows; the same table when the column has one. */
  function IndexCreated(enc: Encodings, cols: seq<ColumnDef>, t: TableState, column: nat): TableState
    requires TableOk(enc, cols, t) && column < |cols| && cols[column].kind == INT
  {
    if exists i :: 0 <= i < |t.indices| && t.indices[i].column == column then t
    else t.(indices := t.indices + [Indexed(column, Filled(enc, cols, t.heap, column))])
  }

  datatype TableOp = AddRow(row: Row) | DropRow(rid: Rid) | AddIndex(column: nat)

  /** What each operation of a session needs, and the two conditions on the rows it leaves. */
  ghost predicate Allowed(enc: Encodings, cols: seq<ColumnDef>, t: TableState, op: TableOp)
    requires TableOk(enc, cols, t)
  {
    match op
    case AddRow(row) =>
      Storable(enc, cols, row) && Doubles(enc, row) && Insertable(t.heap, RowBytes(enc, cols, row)) &&
      var rows := LiveRows(enc, cols, TableInserted(enc, cols, t, row).heap);
      forall i :: 0 <= i < |t.indices| ==>
        FewRows(rows, t.indices[i].column, t.indices[i].ix.order) && SafeColumn(rows, t.indices[i].column)
    case DropRow(r) => r in LiveRows(enc, cols, t.heap)
    case AddIndex(column) =>
      column < |cols| && cols[column].kind == INT &&
      var rows := LiveRows(enc, cols, t.heap);
      FewRows(rows, column, 100) && SafeColumn(rows, column)
  }

  function TableStep(enc: Encodings, cols: seq<ColumnDef>, t: TableState, op: TableOp): TableState
    requires TableOk(enc, cols, t) && Allowed(enc, cols, t, op)
  {
    match op
    case AddRow(row) => TableInserted(enc, cols, t, row)
    case DropRow(r) => TableDeleted(enc, cols, t, r)
    case AddIndex(column) => IndexCreated(enc, cols, t, column)
  }

  lemma AddGentle(enc: Encodings, cols: seq<ColumnDef>, t: TableState, row: Row)
    requires TableOk(enc, cols, t) && AllGentle(t) && Allowed(enc, cols, t, AddRow(row))
    ensures AllGentle(TableInserted(enc, cols, t, row))
  {
    hide Pack, Inserted, LiveRows, InStep, Insert, RowsOk, RowBytes, Gentle, FewRows, SafeColumn;
    var (h', r) := Inserted(t.heap, RowBytes(enc, cols, row));
    var t' := TableInserted(enc, cols, t, row);
    RowAdded(enc, cols, t.heap, row);
    TypedKeys(enc, cols, t, row);
    forall i | 0 <= i < |t'.indices|
      ensures Gentle(t'.indices[i].ix)
    {
      assert IndexOk(enc, cols, t.heap, t.indices[i]);
      InsertGentle(t.indices[i].ix, LiveRows(enc, cols, t.heap), t.indices[i].column, r, row);
    }
  }

  lemma DropGentle(enc: Encodings, cols: seq<ColumnDef>, t: TableState, r: Rid)
    requires TableOk(enc, cols, t) && AllGentle(t) && r in LiveRows(enc, cols, t.heap)
    ensures AllGentle(TableDeleted(enc, cols, t, r))
  {
    hide Pack, Deleted, LiveRows, InStep, Delete, RowsOk, Ordered, BTreeRuns.NonzeroSeps;
    var row := LiveRows(enc, cols, t.heap)[r];
    LiveTyped(enc, cols, t.heap, r);
    TypedKeys(enc, cols, t, row);
    var t' := TableDeleted(enc, cols, t, r);
    forall i | 0 <= i < |t'.indices|
      ensures Gentle(t'.indices[i].ix)
    {
      var ix, key := t.indices[i].ix, row[t.indices[i].column].i;
      var j := DeleteEntries(ix, key, r);
      BTreeRuns.DeleteNonzero(ix, key, r);
    }
  }

  /** Every operation of a session keeps the whole table sound: rows, indices in step, indices ordered. */
  lemma TableStepKeeps(enc: Encodings, cols: seq<ColumnDef>, t: TableState, op: TableOp)
    requires TableOk(enc, cols, t) && AllGentle(t) && Allowed(enc, cols, t, op)
    ensures TableOk(enc, cols, TableStep(enc, cols, t, op)) && AllGentle(TableStep(enc, cols, t, op))
    ensures var rows := LiveRows(enc, cols, t.heap);
      LiveRows(enc, cols, TableStep(enc, cols, t, op).heap) ==
        match op
        case AddRow(row) => rows[Inserted(t.heap, RowBytes(enc, cols, row)).1 := row]
        case DropRow(r) => rows - {r}
        case AddIndex(_) => rows
  {
    match op
    case AddRow(row) =>
      TableInsertOk(enc, cols, t, row);
      AddGentle(enc, cols, t, row);
    case DropRow(r) =>
      GentleOrdered(t);
      TableDeleteOk(enc, cols, t, r);
      DropGentle(enc, cols, t, r);
    case AddIndex(column) => AddIndexGentle(enc, cols, t, column);
  }

  lemma AddIndexGentle(enc: Encodings, cols: seq<ColumnDef>, t: TableState, column: nat)
    requires TableOk(enc, cols, t) && AllGentle(t) && Allowed(enc, cols, t, AddIndex(column))
    ensures TableOk(enc, cols, IndexCreated(enc, cols, t, column)) && AllGentle(IndexCreated(enc, cols, t, column))
    ensures IndexCreated(enc, cols, t, column).heap == t.heap
  {
    hide RowsOk, IndexOk, Gentle, FewRows, SafeColumn, LiveRows, Filled;
    CreateIndexOk(enc, cols, t.heap, column);
  }

  lemma GentleOrdered(t: TableState)
    requires AllGentle(t)
    ensures AllOrdered(t)
  {
    forall i | 0 <= i < |t.indices|
      ensures Ordered(t.indices[i].ix)
    {
      assert Gentle(t.indices[i].ix);
    }
  }

  /** A whole session is allowed when each operation is, in the state it finds. */
  ghost predicate SessionAllowed(enc: Encodings, cols: seq<ColumnDef>, t: TableState, ops: seq<TableOp>)
    decreases |ops|
  {
    ops != [] ==>
      && TableOk(enc, cols, t) && Allowed(enc, cols, t, ops[0])
      && SessionAllowed(enc, cols, TableStep(enc, cols, t, ops[0]), ops[1..])
  }

  ghost function TableRun(enc: Encodings, cols: seq<ColumnDef>, t: TableState, ops: seq<TableOp>): TableState
    requires SessionAllowed(enc, cols, t, ops)
    decreases |ops|
  {
    if ops == [] then t else TableRun(enc, cols, TableStep(enc, cols, t, ops[0]), ops[1..])
  }

  /** Every session that meets the conditions ends with rows and indices in step and every index ordered. */
  lemma {:induction false} SessionKeeps(enc: Encodings, cols: seq<ColumnDef>, t: TableState, ops: seq<TableOp>)
    requires TableOk(enc, cols, t) && AllGentle(t) && SessionAllowed(enc, cols, t, ops)
    ensures TableOk(enc, cols, TableRun(enc, cols, t, ops)) && AllGentle(TableRun(enc, cols, t, ops))
    decreases |ops|
  {
    hide TableStep, TableOk, Allowed, AllGentle;
    if ops != [] {
      TableStepKeeps(enc, cols, t, ops[0]);
      SessionKeeps(enc, cols, TableStep(enc, cols, t, ops[0]), ops[1..]);
    }
  }

  /** A new table: no tuples, no indices. */
  const NEW_TABLE: TableState := TableState([], [])

  /** So every session on a new table, index creation included, ends with every index in step and ordered. */
  lemma NewTableSession(enc: Encodings, cols: seq<ColumnDef>, ops: seq<TableOp>)
    requires Faithful(enc) && DistinctNames(cols) && SessionAllowed(enc, cols, NEW_TABLE, ops)
    ensures TableOk(enc, cols, TableRun(enc, cols, NEW_TABLE, ops)) && AllOrdered(TableRun(enc, cols, NEW_TABLE, ops))
  {
    hide TableRun, SessionAllowed;
    SessionKeeps(enc, cols, NEW_TABLE, ops);
    GentleOrdered(TableRun(enc, cols, NEW_TABLE, ops));
  }

  // ---- Queries on a table ----

  function ColumnNames(cols: seq<ColumnDef>): (names: seq<string>)
    ensures |names| == |cols|
  {
    seq(|cols|, i requires 0 <= i < |cols| => cols[i].name)
  }

  lemma RecordsRectangular(enc: Encodings, cols: seq<ColumnDef>, h: Heap, rs: IndexPlans.Records)
    requires RowsOk(enc, cols, h) && Finds(LiveRows(enc, cols, h), rs)
    ensures QueryOptimizer.Rectangular(QueryOptimizer.Relation(ColumnNames(cols), RowsOf(rs)))
  {
    forall i | 0 <= i < |rs|
      ensures |RowsOf(rs)[i]| == |cols|
    {
      LiveTyped(enc, cols, h, rs[i].0);
    }
  }

  /**
   From a table whose indices are ordered, the plan through the chosen index yields the same bag of rows as
   scanning the heap with the whole predicate; it fails exactly when there is no bound and a key to compare with.
   */
  lemma TableQuerySameRows(enc: Encodings, cols: seq<ColumnDef>, t: TableState, table: string, indices: set<string>, i: nat, pred: Expr)
    requires TableOk(enc, cols, t) && AllOrdered(t) && i < |t.indices|
    requires t.indices[i].column < |cols|
    requires AllSafe(SplitConjuncts(pred), indices)
    requires Binds(pred, QueryOptimizer.ScanSchema(table, ColumnNames(cols)))
    requires FirstIndexed(SplitConjuncts(pred), indices) == Some(cols[t.indices[i].column].name)
    ensures Combine(SplitConjuncts(pred)).Some?
    ensures forall k :: 0 <= k < |Scanned(t.heap)| ==> Decode(enc, cols, Scanned(t.heap)[k].1).Some?
    ensures Tree(t.indices[i].ix, 0) && Chained(t.indices[i].ix)
    ensures var rows := LiveRows(enc, cols, t.heap); var rs := Records(enc, cols, Scanned(t.heap));
      var b := Choose(SplitConjuncts(pred), indices).bounds;
      var rids := LookupRids(t.indices[i].ix, b);
      var schema := QueryOptimizer.ScanSchema(table, ColumnNames(cols));
      && (rids.None? <==> b == Bounds(None, None) && !LiteralKeys.Hollow(t.indices[i].ix))
      && (rids.Some? ==>
        && (forall k :: 0 <= k < |rids.value| ==> rids.value[k] in rows)
        && multiset(Keep(Fetched(rids.value, rows), [Combine(SplitConjuncts(pred)).value], schema))
          == multiset(Keep(RowsOf(rs), [pred], schema)))
  {
    hide Decode, Pack, Scanned, LiveRows, RowsOk, Choose, Keep, LookupRids, Fetched, Combine, Indexes,
      InStep, Holds, QueryOptimizer.Rectangular, FirstIndexed;
    assert Ordered(t.indices[i].ix);
    ScanRecords(enc, cols, t.heap);
    TableIndexes(enc, cols, t, i);
    var rs, rows := Records(enc, cols, Scanned(t.heap)), LiveRows(enc, cols, t.heap);
    RecordsRectangular(enc, cols, t.heap, rs);
    IndexPlanSameRows(table, ColumnNames(cols), indices, t.indices[i].column, t.indices[i].ix, rs, rows, pred);
  }
}
