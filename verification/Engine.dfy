/** The whole engine as a value: tables built by sessions of inserts, deletes and index creations, and queries over them. */
module Engine {
  import opened Options
  import opened BTreeModel
  import HeapModel
  import opened RowCodec
  import opened IndexPlans
  import opened Evaluation
  import opened PhysicalPlans
  import opened BTreeNode
  import opened Expressions
  import opened RowBags
  import opened DatabaseBags
  import opened TableModel
  import opened TableSessions
  import QueryOptimizer

  /** The first `n` indices by their columns' names. */
  function ByName(cols: seq<ColumnDef>, t: TableState, n: nat): map<string, Index>
    requires n <= |t.indices| && forall i :: 0 <= i < |t.indices| ==> t.indices[i].column < |cols|
  {
    if n == 0 then map[] else ByName(cols, t, n - 1)[cols[t.indices[n - 1].column].name := t.indices[n - 1].ix]
  }

  lemma {:induction false} NamedIndex(cols: seq<ColumnDef>, t: TableState, n: nat, c: string) returns (i: nat)
    requires n <= |t.indices| && forall i :: 0 <= i < |t.indices| ==> t.indices[i].column < |cols|
    requires c in ByName(cols, t, n)
    ensures i < n && cols[t.indices[i].column].name == c && ByName(cols, t, n)[c] == t.indices[i].ix
  {
    if c == cols[t.indices[n - 1].column].name {
      i := n - 1;
    } else {
      i := NamedIndex(cols, t, n - 1, c);
    }
  }

  /** The table as the planner sees it. */
  function Stored(enc: Encodings, cols: seq<ColumnDef>, t: TableState): StoredTable
    requires TableOk(enc, cols, t)
  {
    ScanRecords(enc, cols, t.heap);
    assert forall i :: 0 <= i < |t.indices| ==> TableModel.IndexOk(enc, cols, t.heap, t.indices[i]);
    StoredTable(ColumnNames(cols), TableModel.Records(enc, cols, Scanned(t.heap)), LiveRows(enc, cols, t.heap),
                ByName(cols, t, |t.indices|))
  }

  lemma StoredSound(enc: Encodings, cols: seq<ColumnDef>, t: TableState)
    requires TableOk(enc, cols, t) && AllOrdered(t)
    ensures StoredOk(Stored(enc, cols, t))
  {
    hide Decode, Scanned, LiveRows, RowsOk, InStep, ByName, Indexes, QueryOptimizer.Rectangular, Ordered, Finds;
    ScanRecords(enc, cols, t.heap);
    var s := Stored(enc, cols, t);
    RecordsRectangular(enc, cols, t.heap, s.records);
    forall c | c in s.indices
      ensures c in s.columns && Indexes(s.indices[c], s.records, PlaceOf(s.columns, c))
    {
      assert forall i :: 0 <= i < |t.indices| ==> TableModel.IndexOk(enc, cols, t.heap, t.indices[i]);
      var i := NamedIndex(cols, t, |t.indices|, c);
      TableIndexes(enc, cols, t, i);
      var column := t.indices[i].column;
      assert s.columns[column] == c;
      NamesDistinct(enc, cols, t.heap, column, PlaceOf(s.columns, c));
    }
  }

  lemma NamesDistinct(enc: Encodings, cols: seq<ColumnDef>, h: HeapModel.Heap, i: nat, j: nat)
    requires RowsOk(enc, cols, h) && i < |cols| && j < |cols| && cols[i].name == cols[j].name
    ensures i == j
  {
  }

  /** What has been done to each table: its columns and the session on it so far. */
  datatype History = History(cols: seq<ColumnDef>, ops: seq<TableOp>)

  ghost predicate HistoryOk(enc: Encodings, h: History) {
    Faithful(enc) && DistinctNames(h.cols) && SessionAllowed(enc, h.cols, NEW_TABLE, h.ops)
  }

  ghost predicate HistoriesOk(enc: Encodings, hs: map<string, History>) {
    forall t :: t in hs ==> HistoryOk(enc, hs[t])
  }

  ghost function Now(enc: Encodings, h: History): StoredTable
    requires HistoryOk(enc, h)
  {
    NewTableSession(enc, h.cols, h.ops);
    Stored(enc, h.cols, TableRun(enc, h.cols, NEW_TABLE, h.ops))
  }

  ghost function CatalogNow(enc: Encodings, hs: map<string, History>): Catalog
    requires HistoriesOk(enc, hs)
  {
    map t | t in hs :: Now(enc, hs[t])
  }

  // ---- The database meant ----

  /** The rows a plain map holds after the table's session, each under the rid its insert answered. */
  ghost function PlainTable(enc: Encodings, h: History): map<Rid, Row>
    requires HistoryOk(enc, h)
  {
    PlainRows(map[], h.ops, Answered(enc, h.cols, NEW_TABLE, h.ops))
  }

  ghost predicate DepictsTable(enc: Encodings, h: History, r: QueryOptimizer.Relation)
    requires HistoryOk(enc, h)
  {
    && |r.columns| == |h.cols| && (forall i :: 0 <= i < |h.cols| ==> r.columns[i] == h.cols[i].name)
    && Lists(r.rows, PlainTable(enc, h))
  }

  /** Each table has its columns in order, and lists the rows of its plain map, in any order. */
  ghost predicate Depicts(enc: Encodings, hs: map<string, History>, db: QueryOptimizer.Database)
    requires HistoriesOk(enc, hs)
  {
    db.Keys == hs.Keys && forall t :: t in hs ==> DepictsTable(enc, hs[t], db[t])
  }

  lemma NowDepicted(enc: Encodings, h: History)
    requires HistoryOk(enc, h)
    ensures var s := Now(enc, h); DepictsTable(enc, h, QueryOptimizer.Relation(s.columns, RowsOf(s.records)))
    ensures ExactRecords(Now(enc, h).records, PlainTable(enc, h)) && Now(enc, h).get == PlainTable(enc, h)
  {
    hide TableRun, SessionAllowed, LiveRows, Decode, Scanned, RowsOk, ByName, ExactRecords;
    NewTableSession(enc, h.cols, h.ops);
    EmptyRows(enc, h.cols);
    SessionRows(enc, h.cols, NEW_TABLE, h.ops);
    ScanRecords(enc, h.cols, TableRun(enc, h.cols, NEW_TABLE, h.ops).heap);
  }

  lemma EmptyRows(enc: Encodings, cols: seq<ColumnDef>)
    requires Faithful(enc) && DistinctNames(cols)
    ensures LiveRows(enc, cols, NEW_TABLE.heap) == map[] && TableOk(enc, cols, NEW_TABLE) && AllGentle(NEW_TABLE)
  {
    hide Decode;
    assert HeapModel.Live([]) == map[];
  }

  /** The catalog's tables are the plain maps' rows, under the columns' names in order. */
  lemma CatalogDepicted(enc: Encodings, hs: map<string, History>)
    requires HistoriesOk(enc, hs)
    ensures Depicts(enc, hs, DatabaseOf(CatalogNow(enc, hs)))
  {
    hide HistoryOk, Now, DepictsTable;
    var cat := CatalogNow(enc, hs);
    forall t | t in hs
      ensures DepictsTable(enc, hs[t], DatabaseOf(cat)[t])
    {
      NowDepicted(enc, hs[t]);
    }
  }

  lemma DepictedSame(enc: Encodings, hs: map<string, History>, a: QueryOptimizer.Database, b: QueryOptimizer.Database)
    requires HistoriesOk(enc, hs) && Depicts(enc, hs, a) && Depicts(enc, hs, b)
    ensures SameTables(a, b)
  {
    hide HistoryOk, PlainTable, Lists;
    forall t | t in a
      ensures a[t].columns == b[t].columns && multiset(a[t].rows) == multiset(b[t].rows)
    {
      assert DepictsTable(enc, hs[t], a[t]) && DepictsTable(enc, hs[t], b[t]);
      ListingsBag(a[t].rows, b[t].rows, PlainTable(enc, hs[t]));
    }
  }

  /** The indices a query may use are those on the columns that the session asked for, by name. */
  lemma IndicesNow(enc: Encodings, h: History, c: string)
    requires HistoryOk(enc, h)
    ensures c in Now(enc, h).indices <==>
      exists i :: 0 <= i < |h.cols| && h.cols[i].name == c && AddIndex(i) in h.ops
  {
    hide TableRun, SessionAllowed, LiveRows, Decode, Scanned, RowsOk, InStep, Ordered;
    NewTableSession(enc, h.cols, h.ops);
    var t := TableRun(enc, h.cols, NEW_TABLE, h.ops);
    assert forall i :: 0 <= i < |t.indices| ==> TableModel.IndexOk(enc, h.cols, t.heap, t.indices[i]);
    NamesOfIndices(h.cols, t, |t.indices|, c);
    forall column: nat
      ensures IsIndexed(t, column) <==> AddIndex(column) in h.ops
    {
      SessionIndices(enc, h.cols, NEW_TABLE, h.ops, column);
    }
    if c in ByName(h.cols, t, |t.indices|) {
      var i :| 0 <= i < |t.indices| && h.cols[t.indices[i].column].name == c;
      assert IsIndexed(t, t.indices[i].column);
    }
    if i :| 0 <= i < |h.cols| && h.cols[i].name == c && AddIndex(i) in h.ops {
      assert IsIndexed(t, i);
    }
  }

  lemma {:induction false} NamesOfIndices(cols: seq<ColumnDef>, t: TableState, n: nat, c: string)
    requires n <= |t.indices| && forall i :: 0 <= i < |t.indices| ==> t.indices[i].column < |cols|
    ensures c in ByName(cols, t, n) <==> exists i :: 0 <= i < n && cols[t.indices[i].column].name == c
  {
    if n > 0 {
      NamesOfIndices(cols, t, n - 1, c);
    }
  }

  // ---- Queries ----

  /**
   From empty tables to answers: after any sessions that keep the two conditions on keys, a query optimized, planned and
   run through whatever indices were created is answered with the bag of rows that scanning, filtering and nested loops
   mean over the rows the plain maps hold, under its columns.
   */
  lemma QueriesAnswer(enc: Encodings, hs: map<string, History>, db: QueryOptimizer.Database, p: QueryOptimizer.Plan)
    requires HistoriesOk(enc, hs) && Depicts(enc, hs, db)
    requires QueryOptimizer.Query(p, db) && Answers(p, db) && PushesEvaluate(p, db)
    requires var cat := CatalogNow(enc, hs);
      Plannable(QueryOptimizer.PushDown(p), cat) && Usable(QueryOptimizer.PushDown(p), cat)
    ensures var cat := CatalogNow(enc, hs); var op := PlanFor(QueryOptimizer.PushDown(p), cat);
      && Run(op, cat).Some?
      && AnswersQuery(Run(op, cat).value, Columns(op, cat), p, db)
      && (p.Projection? || !ProbesSomeLeft(QueryOptimizer.PushDown(p), cat) ==>
        && Columns(op, cat) == QueryOptimizer.Schema(p, db)
        && multiset(Run(op, cat).value) == multiset(QueryOptimizer.Rows(p, db)))
  {
    hide QueryOptimizer.Query, QueryOptimizer.PushDown, QueryOptimizer.Rows, QueryOptimizer.Schema, Plannable, Usable, Run,
      PlanFor, Columns, Answers, PushesEvaluate, ProbesSomeLeft, DatabaseOf, StoredOk, Stored, TableRun, HistoryOk, Depicts,
      SameTables, Gives;
    var cat, now := CatalogNow(enc, hs), DatabaseOf(CatalogNow(enc, hs));
    CatalogSound(enc, hs);
    CatalogDepicted(enc, hs);
    DepictedSame(enc, hs, db, now);
    SameQuestion(p, db, now);
    PlannedQuerySameRows(p, cat);
    if !p.Projection? {
      GivesBag(Run(PlanFor(QueryOptimizer.PushDown(p), cat), cat).value, Columns(PlanFor(QueryOptimizer.PushDown(p), cat), cat),
        QueryOptimizer.Schema(p, now), QueryOptimizer.Rows(p, now), QueryOptimizer.Rows(p, db));
    }
  }

  /** Without any index, every query is answered that raises nothing as written or where a conjunct is moved. */
  lemma UnindexedQueriesAnswer(enc: Encodings, hs: map<string, History>, db: QueryOptimizer.Database, p: QueryOptimizer.Plan)
    requires HistoriesOk(enc, hs) && Depicts(enc, hs, db)
    requires forall t, i: nat :: t in hs ==> AddIndex(i) !in hs[t].ops
    requires QueryOptimizer.Query(p, db) && Answers(p, db) && PushesEvaluate(p, db)
    ensures var cat := CatalogNow(enc, hs);
      && Plannable(QueryOptimizer.PushDown(p), cat)
      && var op := PlanFor(QueryOptimizer.PushDown(p), cat);
        && Run(op, cat).Some? && Columns(op, cat) == QueryOptimizer.Schema(p, db)
        && multiset(Run(op, cat).value) == multiset(QueryOptimizer.Rows(p, db))
  {
    hide QueryOptimizer.PushDown, QueryOptimizer.Rows, QueryOptimizer.Schema, QueryOptimizer.Relational, Plannable, Usable, Run,
      PlanFor, Columns, Answers, PushesEvaluate, ProbesSomeLeft, DatabaseOf, Now, HistoryOk, Depicts, SameTables, Gives;
    var cat := CatalogNow(enc, hs);
    forall t | t in cat
      ensures cat[t].indices == map[]
    {
      forall c
        ensures c !in Now(enc, hs[t]).indices
      {
        IndicesNow(enc, hs[t], c);
      }
    }
    CatalogDepicted(enc, hs);
    DepictedSame(enc, hs, db, DatabaseOf(cat));
    SameQuestion(p, db, DatabaseOf(cat));
    CatalogSound(enc, hs);
    CatalogRectangular(cat);
    QueryOptimizer.OptimizeKeepsRows(p, DatabaseOf(cat));
    UnindexedUsable(QueryOptimizer.PushDown(p), cat);
    QueriesAnswer(enc, hs, db, p);
  }

  /** SELECT * FROM t: the rows of the plain map, whatever has been indexed. */
  lemma SelectAll(enc: Encodings, hs: map<string, History>, t: string, rows: seq<Row>)
    requires HistoriesOk(enc, hs) && t in hs && Lists(rows, PlainTable(enc, hs[t]))
    ensures var cat, p := CatalogNow(enc, hs), QueryOptimizer.Scan(t, None);
      && Plannable(QueryOptimizer.PushDown(p), cat)
      && var found := Run(PlanFor(QueryOptimizer.PushDown(p), cat), cat);
        found.Some? && multiset(found.value) == multiset(rows)
  {
    hide HistoryOk, PlainTable, Lists, Now;
    NowDepicted(enc, hs[t]);
    var now := Now(enc, hs[t]);
    ListingsBag(RowsOf(now.records), rows, PlainTable(enc, hs[t]));
  }

  lemma CatalogSound(enc: Encodings, hs: map<string, History>)
    requires HistoriesOk(enc, hs)
    ensures CatalogOk(CatalogNow(enc, hs))
  {
    hide HistoryOk, Now, StoredOk;
    forall t | t in hs
      ensures StoredOk(Now(enc, hs[t]))
    {
      NowSound(enc, hs[t]);
    }
  }

  lemma SameQuestion(p: QueryOptimizer.Plan, a: QueryOptimizer.Database, b: QueryOptimizer.Database)
    requires SameTables(a, b)
    ensures QueryOptimizer.Query(p, a) <==> QueryOptimizer.Query(p, b)
    ensures (Answers(p, a) <==> Answers(p, b)) && (PushesEvaluate(p, a) <==> PushesEvaluate(p, b))
    ensures QueryOptimizer.Schema(p, a) == QueryOptimizer.Schema(p, b)
    ensures multiset(QueryOptimizer.Rows(p, a)) == multiset(QueryOptimizer.Rows(p, b))
  {
    SameQuery(p, a, b);
    SameSchema(p, a, b);
    RowsBag(p, a, b);
    SameScansEvaluate(p, a, b);
    SameFiltersEvaluate(p, a, b);
    SamePushesEvaluate(p, a, b);
  }

  lemma NowSound(enc: Encodings, h: History)
    requires HistoryOk(enc, h)
    ensures StoredOk(Now(enc, h))
  {
    hide TableRun, SessionAllowed, Stored, StoredOk;
    NewTableSession(enc, h.cols, h.ops);
    StoredSound(enc, h.cols, TableRun(enc, h.cols, NEW_TABLE, h.ops));
  }
}
