/** The physical planner: which operator each node of a query becomes, and what the operators yield together. */
module PhysicalPlans {
  import opened Options
  import opened BTreeNode
  import opened BTreeModel
  import opened LiteralKeys
  import opened Expressions
  import opened QueryOptimizer
  import opened IndexSelection
  import opened IndexPlans
  import opened Joins
  import opened Evaluation
  import opened ColumnOrder
  import opened RowBags

  /** A table as the planner finds it: its records by rid, and an index under each indexed column's name. */
  datatype StoredTable = StoredTable(columns: seq<string>, records: Records, get: map<Rid, Row>, indices: map<string, Index>)

  type Catalog = map<string, StoredTable>

  ghost predicate StoredOk(t: StoredTable) {
    && Rectangular(Relation(t.columns, RowsOf(t.records)))
    && Finds(t.get, t.records)
    && (forall i, j :: 0 <= i < j < |t.records| ==> t.records[i].0 != t.records[j].0)
    && (forall c :: c in t.indices ==> c in t.columns && Indexes(t.indices[c], t.records, PlaceOf(t.columns, c)))
  }

  ghost predicate CatalogOk(cat: Catalog) {
    forall t :: t in cat ==> StoredOk(cat[t])
  }

  function PlaceOf(columns: seq<string>, c: string): (i: nat)
    requires c in columns
    ensures i < |columns| && columns[i] == c
  {
    if columns[0] == c then 0 else 1 + PlaceOf(columns[1..], c)
  }

  /** The same tables as plain relations, for the meaning of queries. */
  function DatabaseOf(cat: Catalog): Database {
    map t | t in cat :: Relation(cat[t].columns, RowsOf(cat[t].records))
  }

  // ---- Planning ----

  datatype Physical =
    | SeqScan(table: string, filter: Option<Expr>)
    | IndexScan(table: string, column: string, bounds: Bounds, residual: Expr)
    | FilterRows(child: Physical, condition: Expr)
    | HashRowsOf(left: Physical, right: Physical, leftKey: ColName, rightKey: ColName)
    | ProbeIndex(probe: Physical, probeKey: ColName, table: string, column: string, tableKey: ColName)
    | ProjectRows(child: Physical, items: seq<(Expr, ColName)>)

  /** The first scan below a node, left to right. */
  function TableBelow(p: Plan): string {
    match p
    case Scan(t, _) => t
    case Filter(c, _) => TableBelow(c)
    case Join(l, _, _, _) => TableBelow(l)
    case Projection(c, _) => TableBelow(c)
  }

  function ScanOrder(p: Plan): seq<string> {
    match p
    case Scan(t, _) => [t]
    case Filter(c, _) => ScanOrder(c)
    case Join(l, r, _, _) => ScanOrder(l) + ScanOrder(r)
    case Projection(c, _) => ScanOrder(c)
  }

  lemma {:induction false} TableBelowFirst(p: Plan)
    ensures ScanOrder(p) != [] && TableBelow(p) == ScanOrder(p)[0]
    ensures Tables(p) == set t | t in ScanOrder(p)
  {
    match p
    case Scan(_, _) =>
    case Filter(c, _) => TableBelowFirst(c);
    case Join(l, r, _, _) => TableBelowFirst(l); TableBelowFirst(r);
    case Projection(c, _) => TableBelowFirst(c);
  }

  predicate HasIndex(cat: Catalog, table: string, column: string) {
    table in cat && column in cat[table].indices
  }

  /** Every scan's table exists, and its chosen column is compared with numbers only, so that bounds can be computed. */
  ghost predicate Plannable(p: Plan, cat: Catalog) {
    match p
    case Scan(t, f) => t in cat && (f.Some? ==> Numeric(SplitConjuncts(f.value), cat[t].indices.Keys))
    case Filter(c, _) => Plannable(c, cat)
    case Join(l, r, _, _) => Plannable(l, cat) && Plannable(r, cat)
    case Projection(c, _) => Plannable(c, cat)
  }

  /** A scan goes through the index its predicate chooses, if any. */
  function PlanScan(t: string, f: Option<Expr>, cat: Catalog): Physical
    requires t in cat && (f.Some? ==> Numeric(SplitConjuncts(f.value), cat[t].indices.Keys))
  {
    if f.None? then SeqScan(t, f)
    else
      var cs := SplitConjuncts(f.value);
      var ch := Choose(cs, cat[t].indices.Keys);
      if ch.column.None? then SeqScan(t, f) else
      CombineHolds(cs, [], []);
      IndexScan(t, ch.column.value, ch.bounds, Combine(cs).value)
  }

  /** A scan goes through an index exactly when some conjunct compares an indexed column with a literal, the first such. */
  lemma IndexScanIff(t: string, f: Option<Expr>, cat: Catalog)
    requires t in cat && (f.Some? ==> Numeric(SplitConjuncts(f.value), cat[t].indices.Keys))
    ensures var op, indices := PlanScan(t, f, cat), cat[t].indices.Keys;
      if f.Some? && exists i :: FirstToCount(SplitConjuncts(f.value), indices, i) then
        && op.IndexScan? && op.table == t && Some(op.residual) == Combine(SplitConjuncts(f.value))
        && (exists i ::
          && FirstToCount(SplitConjuncts(f.value), indices, i)
          && IndexedColumn(SplitConjuncts(f.value)[i], indices) == Some(op.column))
      else op == SeqScan(t, f)
  {
    if f.Some? {
      var cs, indices := SplitConjuncts(f.value), cat[t].indices.Keys;
      var ch := Choose(cs, indices);
      FirstIndexedIff(cs, indices, if ch.column.Some? then ch.column.value else "");
      CombineHolds(cs, [], []);
    }
  }

  /**
   A join probes an index on the first table of its right side if that has one under the right key's name, whatever
   else is on that side; then one on the first table of its left side, again under the right key's name; else it hashes.
   */
  function PlanFor(p: Plan, cat: Catalog): Physical
    requires Plannable(p, cat)
  {
    match p
    case Scan(t, f) => PlanScan(t, f, cat)
    case Filter(c, cond) => FilterRows(PlanFor(c, cat), cond)
    case Join(l, r, lk, rk) =>
      if HasIndex(cat, TableBelow(r), LastPart(rk)) then ProbeIndex(PlanFor(l, cat), lk, TableBelow(r), LastPart(rk), rk)
      else if HasIndex(cat, TableBelow(l), LastPart(rk)) then ProbeIndex(PlanFor(r, cat), rk, TableBelow(l), LastPart(rk), lk)
      else HashRowsOf(PlanFor(l, cat), PlanFor(r, cat), lk, rk)
    case Projection(c, items) => ProjectRows(PlanFor(c, cat), items)
  }

  // ---- Running ----

  function Columns(op: Physical, cat: Catalog): seq<ColName> {
    match op
    case SeqScan(t, _) => if t in cat then ScanSchema(t, cat[t].columns) else []
    case IndexScan(t, _, _, _) => if t in cat then ScanSchema(t, cat[t].columns) else []
    case FilterRows(c, _) => Columns(c, cat)
    case HashRowsOf(l, r, _, _) => Columns(l, cat) + Columns(r, cat)
    case ProbeIndex(c, _, t, _, _) => Columns(c, cat) + if t in cat then ScanSchema(t, cat[t].columns) else []
    case ProjectRows(_, items) => seq(|items|, i requires 0 <= i < |items| => items[i].1)
  }

  /** The rows that pass; None when the condition has an unbound name or cannot be evaluated on some row. */
  ghost function Filtered(rows: seq<Row>, cond: Expr, schema: seq<ColName>): Option<seq<Row>> {
    if Binds(cond, schema) && AllEvaluate(cond, schema, rows) then Some(Keep(rows, [cond], schema)) else None
  }

  /** The rows an operator yields; None where it raises. */
  ghost function Run(op: Physical, cat: Catalog): Option<seq<Row>> {
    match op
    case SeqScan(t, f) =>
      if t !in cat then None
      else if f.None? then Some(RowsOf(cat[t].records))
      else Filtered(RowsOf(cat[t].records), f.value, Columns(op, cat))
    case IndexScan(t, c, b, residual) =>
      if t !in cat || c !in cat[t].indices then None
      else RunIndexScan(cat[t].indices[c], b, cat[t].get, residual, Columns(op, cat))
    case FilterRows(c, cond) =>
      var rows := Run(c, cat);
      if rows.None? then None else Filtered(rows.value, cond, Columns(c, cat))
    case HashRowsOf(l, r, lk, rk) =>
      var left, right := Run(l, cat), Run(r, cat);
      if left.None? || right.None? || lk !in Columns(l, cat) || rk !in Columns(r, cat) then None
      else Some(HashRows(left.value, Side(lk, Columns(l, cat)), right.value, Side(rk, Columns(r, cat))))
    case ProbeIndex(c, k, t, column, tableKey) =>
      var rows := Run(c, cat);
      if rows.None? || t !in cat || column !in cat[t].indices then None
      else if k !in Columns(c, cat) || tableKey !in ScanSchema(t, cat[t].columns) then None
      else RunProbe(cat[t].indices[column], rows.value, Side(k, Columns(c, cat)), cat[t].get)
    case ProjectRows(c, items) =>
      var rows := Run(c, cat);
      if rows.None? || !ItemsBind(items, Columns(c, cat)) || !ItemsEvaluate(items, Columns(c, cat), rows.value) then None
      else Some(Project(rows.value, items, Columns(c, cat)))
  }

  ghost function RunIndexScan(ix: Index, b: Bounds, get: map<Rid, Row>, residual: Expr, schema: seq<ColName>): Option<seq<Row>> {
    if !(Tree(ix, 0) && Chained(ix)) then None
    else
      var rids := LookupRids(ix, b);
      if rids.None? || exists i :: 0 <= i < |rids.value| && rids.value[i] !in get then None
      else Filtered(Fetched(rids.value, get), residual, schema)
  }

  ghost function RunProbe(ix: Index, left: seq<Row>, ls: Side, get: map<Rid, Row>): Option<seq<Row>> {
    if ProbesFind(ix, left, ls, get) then Some(IndexJoinRows(ix, left, ls, get)) else None
  }

  // ---- Where the planner's choices are right ----

  /** A scan through an index: safe comparisons, and a bound unless the index has no key to compare with. */
  ghost predicate SoundScan(t: string, f: Option<Expr>, cat: Catalog)
    requires t in cat
  {
    f.Some? && FirstIndexed(SplitConjuncts(f.value), cat[t].indices.Keys).Some? ==>
      var cs := SplitConjuncts(f.value);
      && AllSafe(cs, cat[t].indices.Keys)
      && (Choose(cs, cat[t].indices.Keys).bounds == Bounds(None, None) ==>
        (FirstAmong(cs, cat[t].indices.Keys); Hollow(cat[t].indices[FirstIndexed(cs, cat[t].indices.Keys).value])))
  }

  /**
   A join through an index on `p`'s right side: that side is one scan, the probing keys are numbers, and every record
   that some left row matches passes the scan's predicate, which the join does not look at.
   */
  ghost predicate SoundProbe(p: Plan, cat: Catalog)
    requires p.Join?
  {
    && p.right.Scan? && p.right.table in cat
    && var left, ls := Rows(p.left, DatabaseOf(cat)), Side(p.leftKey, Schema(p.left, DatabaseOf(cat)));
      && (forall i :: 0 <= i < |left| ==> Number(KeyOf(ls, left[i])).Some?)
      && (p.right.filter.Some? ==>
        MatchesPass(left, ls, RowsOf(cat[p.right.table].records), Side(p.rightKey, Schema(p.right, DatabaseOf(cat))),
          p.right.filter.value))
  }

  function Turned(p: Plan): Plan
    requires p.Join?
  {
    Join(p.right, p.left, p.rightKey, p.leftKey)
  }

  predicate ProbesRight(p: Plan, cat: Catalog)
    requires p.Join?
  {
    HasIndex(cat, TableBelow(p.right), LastPart(p.rightKey))
  }

  /** The second attempt: an index on the left side, under the right key's name. */
  predicate ProbesLeft(p: Plan, cat: Catalog)
    requires p.Join?
  {
    !ProbesRight(p, cat) && HasIndex(cat, TableBelow(p.left), LastPart(p.rightKey))
  }

  /** The second attempt is right only when both keys have the same name. */
  ghost predicate Usable(p: Plan, cat: Catalog) {
    match p
    case Scan(t, f) => t in cat && SoundScan(t, f, cat)
    case Filter(c, _) => Usable(c, cat)
    case Join(l, r, lk, rk) =>
      if ProbesRight(p, cat) then Usable(l, cat) && SoundProbe(p, cat)
      else if ProbesLeft(p, cat) then Usable(r, cat) && LastPart(lk) == LastPart(rk) && SoundProbe(Turned(p), cat)
      else Usable(l, cat) && Usable(r, cat)
    case Projection(c, _) => Usable(c, cat)
  }

  // ---- The plan yields the query's rows ----

  /** `op` yields the rows of `p`, in some order, with `p`'s columns in some order. */
  ghost predicate Yields(op: Physical, p: Plan, cat: Catalog) {
    && Run(op, cat).Some?
    && Gives(Run(op, cat).value, Columns(op, cat), Schema(p, DatabaseOf(cat)), Rows(p, DatabaseOf(cat)))
  }

  lemma ScanYields(t: string, f: Option<Expr>, cat: Catalog)
    requires CatalogOk(cat) && Relational(Scan(t, f), DatabaseOf(cat)) && Plannable(Scan(t, f), cat) && Usable(Scan(t, f), cat)
    requires ScansEvaluate(Scan(t, f), DatabaseOf(cat))
    ensures Yields(PlanScan(t, f, cat), Scan(t, f), cat)
  {
    hide CatalogOk, Keep, SoundScan, Numeric, AllEvaluate, RunIndexScan, Distinct, Wide, Gives;
    var p, db := Scan(t, f), DatabaseOf(cat);
    CatalogRectangular(cat);
    SchemaDistinct(p, db);
    RowsWide(p, db);
    if PlanScan(t, f, cat).IndexScan? {
      IndexScanYields(t, f.value, cat);
    }
    GivesSame(Run(PlanScan(t, f, cat), cat).value, Schema(p, db), Rows(p, db));
  }

  lemma IndexScanYields(t: string, e: Expr, cat: Catalog)
    requires CatalogOk(cat) && t in cat && Binds(e, ScanSchema(t, cat[t].columns)) && SoundScan(t, Some(e), cat)
    requires Numeric(SplitConjuncts(e), cat[t].indices.Keys) && FirstIndexed(SplitConjuncts(e), cat[t].indices.Keys).Some?
    requires AllEvaluate(e, ScanSchema(t, cat[t].columns), RowsOf(cat[t].records))
    ensures var op := PlanScan(t, Some(e), cat);
      Run(op, cat).Some? && multiset(Run(op, cat).value) == multiset(Rows(Scan(t, Some(e)), DatabaseOf(cat)))
  {
    hide Indexes, Choose, AllSafe, Numeric, Fetched, LookupRids, Keep, Combine, Hollow, Rectangular, FirstIndexed,
      Holds, SplitConjuncts, Binds, AllEvaluate, Run, Rows;
    var stored, cs := cat[t], SplitConjuncts(e);
    assert StoredOk(stored);
    FirstAmong(cs, stored.indices.Keys);
    var c := FirstIndexed(cs, stored.indices.Keys).value;
    var column := PlaceOf(stored.columns, c);
    assert Indexes(stored.indices[c], stored.records, column);
    IndexShape(stored.indices[c], stored.records, column);
    CombineHolds(cs, [], []);
    IndexPlanSameRows(t, stored.columns, stored.indices.Keys, column, stored.indices[c], stored.records, stored.get, e);
    ResidualEvaluates(stored.indices[c], Choose(cs, stored.indices.Keys).bounds, stored.records, column, stored.get, e,
      ScanSchema(t, stored.columns));
    IndexRowsYield(t, e, cat);
  }

  /** The whole predicate, put together again, can be evaluated on the rows the index finds. */
  lemma ResidualEvaluates(ix: Index, b: Bounds, rs: Records, column: nat, get: map<Rid, Row>, e: Expr, schema: seq<ColName>)
    requires Indexes(ix, rs, column) && Finds(get, rs) && LookupRids(ix, b).Some? && AllEvaluate(e, schema, RowsOf(rs))
    requires Binds(e, schema)
    ensures forall i :: 0 <= i < |LookupRids(ix, b).value| ==> LookupRids(ix, b).value[i] in get
    ensures var residual := Combine(SplitConjuncts(e));
      residual.Some? && Binds(residual.value, schema) && AllEvaluate(residual.value, schema, Fetched(LookupRids(ix, b).value, get))
  {
    hide Indexes, LookupRids, RowsOf, Combine, SplitConjuncts, Evaluates, Binds, EachEvaluates, AllBind;
    var cs := SplitConjuncts(e);
    LookupAmong(ix, b, rs, column, get);
    SplitHolds(e, schema, []);
    CombineHolds(cs, schema, []);
    forall row | row in RowsOf(rs)
      ensures Evaluates(Combine(cs).value, schema, row)
    {
      SplitEvaluates(e, schema, row);
      CombineEvaluates(cs, schema, row);
    }
  }

  lemma IndexRowsYield(t: string, e: Expr, cat: Catalog)
    requires t in cat && Numeric(SplitConjuncts(e), cat[t].indices.Keys) && FirstIndexed(SplitConjuncts(e), cat[t].indices.Keys).Some?
    requires FirstIndexed(SplitConjuncts(e), cat[t].indices.Keys).value in cat[t].indices && Combine(SplitConjuncts(e)).Some?
    requires var ch := Choose(SplitConjuncts(e), cat[t].indices.Keys); var ix := cat[t].indices[ch.column.value];
      Tree(ix, 0) && Chained(ix) && LookupRids(ix, ch.bounds).Some?
    requires var ch := Choose(SplitConjuncts(e), cat[t].indices.Keys); var get, schema := cat[t].get, ScanSchema(t, cat[t].columns);
      var rids, residual := LookupRids(cat[t].indices[ch.column.value], ch.bounds).value, Combine(SplitConjuncts(e)).value;
      && (forall i :: 0 <= i < |rids| ==> rids[i] in get)
      && Binds(residual, schema) && AllEvaluate(residual, schema, Fetched(rids, get))
      && multiset(Keep(Fetched(rids, get), [residual], schema)) == multiset(Keep(RowsOf(cat[t].records), [e], schema))
    ensures var op := PlanScan(t, Some(e), cat);
      Run(op, cat).Some? && multiset(Run(op, cat).value) == multiset(Rows(Scan(t, Some(e)), DatabaseOf(cat)))
  {
    hide Choose, Numeric, LookupRids, Keep, Combine, FirstIndexed, SplitConjuncts, Fetched, AllEvaluate, Binds;
  }

  lemma IndexShape(ix: Index, rs: Records, column: nat)
    requires Indexes(ix, rs, column)
    ensures Tree(ix, 0) && Chained(ix)
  {
  }

  lemma {:induction false} FirstAmong(cs: seq<Expr>, indices: set<string>)
    ensures FirstIndexed(cs, indices).Some? ==> FirstIndexed(cs, indices).value in indices
  {
    if cs != [] {
      FirstAmong(cs[..|cs| - 1], indices);
    }
  }

  /** The keys of the rows an operator gives are those of the rows wanted. */
  lemma KeysNumeric(rows: seq<Row>, ls: Side, b: seq<ColName>, want: seq<Row>)
    requires Gives(rows, ls.schema, b, want) && ls.key in b
    requires forall i :: 0 <= i < |want| ==> Number(KeyOf(Side(ls.key, b), want[i])).Some?
    ensures forall i :: 0 <= i < |rows| ==> Number(KeyOf(ls, rows[i])).Some?
  {
    hide Gives, Rearrange, KeyOf;
    GivesEach(rows, ls.schema, b, want);
    forall i | 0 <= i < |rows|
      ensures Number(KeyOf(ls, rows[i])).Some?
    {
      KeyKept(ls.key, ls.schema, b, rows[i]);
      assert Rearrange(rows[i], ls.schema, b) in want;
    }
  }

  /** Probing the index of `p`'s right side for the rows that the left side gives. */
  lemma ProbeYields(p: Plan, cat: Catalog, probe: Physical)
    requires CatalogOk(cat) && p.Join? && Relational(p, DatabaseOf(cat)) && SoundProbe(p, cat) && ProbesRight(p, cat)
    requires Yields(probe, p.left, cat)
    ensures Yields(ProbeIndex(probe, p.leftKey, TableBelow(p.right), LastPart(p.rightKey), p.rightKey), p, cat)
  {
    hide RunProbe, NestedLoop, MatchesPass, Keep, KeyOf, Gives, CatalogOk, Apart, Relational, Rows, DatabaseOf;
    var db, t, stored := DatabaseOf(cat), p.right.table, cat[p.right.table];
    var left, ls := Run(probe, cat).value, Side(p.leftKey, Columns(probe, cat));
    var rs := Side(p.rightKey, Schema(p.right, db));
    JoinSides(p, db);
    KeysNumeric(left, ls, Schema(p.left, db), Rows(p.left, db));
    ProbeFinds(p, cat, left, ls);
    TableGives(p.right, cat);
    GivesJoined(RunProbe(stored.indices[LastPart(p.rightKey)], left, ls, stored.get).value,
      left, ls, Schema(p.left, db), Rows(p.left, db), RowsOf(stored.records), rs, rs.schema, RowsOf(stored.records));
    FilterPassed(p, cat, Rows(p.left, db), Side(p.leftKey, Schema(p.left, db)), rs);
  }

  lemma ProbeFinds(p: Plan, cat: Catalog, left: seq<Row>, ls: Side)
    requires CatalogOk(cat) && p.Join? && Relational(p, DatabaseOf(cat)) && p.right.Scan? && ProbesRight(p, cat)
    requires forall i :: 0 <= i < |left| ==> Number(KeyOf(ls, left[i])).Some?
    ensures var stored := cat[p.right.table]; var found := RunProbe(stored.indices[LastPart(p.rightKey)], left, ls, stored.get);
      && found.Some? && Schema(p.right, DatabaseOf(cat)) == ScanSchema(p.right.table, stored.columns)
      && multiset(found.value)
        == multiset(NestedLoop(left, ls, RowsOf(stored.records), Side(p.rightKey, Schema(p.right, DatabaseOf(cat)))))
  {
    hide Indexes, IndexJoinRows, ProbesFind, NestedLoop, RowsOf, Rectangular, KeyOf, CatalogOk, Relational, Rows;
    var t, stored := p.right.table, cat[p.right.table];
    StoredIn(cat, t);
    var column := PlaceOf(stored.columns, LastPart(p.rightKey));
    RightSide(p, cat, column);
    IndexJoinSameRows(left, ls, t, stored.columns, column, stored.indices[LastPart(p.rightKey)], stored.records, stored.get);
  }

  lemma StoredIn(cat: Catalog, t: string)
    requires CatalogOk(cat) && t in cat
    ensures StoredOk(cat[t])
  {
    hide StoredOk;
  }

  lemma TableGives(p: Plan, cat: Catalog)
    requires CatalogOk(cat) && p.Scan? && Relational(p, DatabaseOf(cat))
    ensures var rows, schema := RowsOf(cat[p.table].records), Schema(p, DatabaseOf(cat)); Gives(rows, schema, schema, rows)
  {
    hide CatalogOk, Distinct, Wide, Gives;
    var db := DatabaseOf(cat);
    CatalogRectangular(cat);
    SchemaDistinct(p, db);
    RowsWide(Scan(p.table, None), db);
    GivesSame(RowsOf(cat[p.table].records), Schema(p, db), RowsOf(cat[p.table].records));
  }

  /** A predicate that all matched records pass changes nothing. */
  lemma FilterPassed(p: Plan, cat: Catalog, rows: seq<Row>, ls: Side, rs: Side)
    requires p.Join? && p.right.Scan? && p.right.table in cat && rs.schema == Schema(p.right, DatabaseOf(cat))
    requires p.right.filter.Some? ==> MatchesPass(rows, ls, RowsOf(cat[p.right.table].records), rs, p.right.filter.value)
    ensures NestedLoop(rows, ls, Rows(p.right, DatabaseOf(cat)), rs)
      == NestedLoop(rows, ls, RowsOf(cat[p.right.table].records), rs)
  {
    hide NestedLoop, MatchesPass, Keep;
    if p.right.filter.Some? {
      NestedLoopKept(rows, ls, RowsOf(cat[p.right.table].records), rs, p.right.filter.value);
    }
  }

  lemma RightSide(p: Plan, cat: Catalog, column: nat)
    requires CatalogOk(cat) && p.Join? && p.right.Scan? && Relational(p, DatabaseOf(cat)) && p.right.table in cat
    requires column < |cat[p.right.table].columns| && LastPart(p.rightKey) == cat[p.right.table].columns[column]
    ensures Side(p.rightKey, Schema(p.right, DatabaseOf(cat))) == TableSide(p.right.table, cat[p.right.table].columns, column)
  {
    hide Indexes;
  }

  lemma JoinSides(p: Plan, db: Database)
    requires p.Join? && Relational(p, db)
    ensures Apart(Schema(p.left, db), Schema(p.right, db)) && p.leftKey in Schema(p.left, db) && p.rightKey in Schema(p.right, db)
    ensures p.right.Scan? ==> p.right.table in db && Relational(p.right, db)
    ensures Schema(p, db) == Schema(p.left, db) + Schema(p.right, db)
    ensures Rows(p, db)
      == NestedLoop(Rows(p.left, db), Side(p.leftKey, Schema(p.left, db)),
                    Rows(p.right, db), Side(p.rightKey, Schema(p.right, db)))
  {
    hide NestedLoop;
    SidesApart(p, db);
  }

  lemma HashYields(p: Plan, cat: Catalog, left: Physical, right: Physical)
    requires p.Join? && Relational(p, DatabaseOf(cat)) && Yields(left, p.left, cat) && Yields(right, p.right, cat)
    ensures Yields(HashRowsOf(left, right, p.leftKey, p.rightKey), p, cat)
  {
    hide NestedLoop, HashRows, Gives, Apart, Relational, Schema, Rows, DatabaseOf;
    var db := DatabaseOf(cat);
    JoinSides(p, db);
    var ls, rs := Side(p.leftKey, Columns(left, cat)), Side(p.rightKey, Columns(right, cat));
    var x, y := Run(left, cat).value, Run(right, cat).value;
    HashJoinSameRows(x, ls, y, rs);
    GivesJoined(HashRows(x, ls, y, rs), x, ls, Schema(p.left, db), Rows(p.left, db),
      y, rs, Schema(p.right, db), Rows(p.right, db));
  }

  /**
   The second attempt, with one scan on the left: whatever the left key is, it joins on the left table's column that has
   the right key's name.
   */
  lemma SecondProbeYields(p: Plan, cat: Catalog, probe: Physical)
    requires CatalogOk(cat) && p.Join? && Relational(p, DatabaseOf(cat)) && ProbesLeft(p, cat) && p.left.Scan?
    requires Yields(probe, p.right, cat)
    requires SoundProbe(Turned(SameName(p)), cat)
    ensures Yields(ProbeIndex(probe, p.rightKey, TableBelow(p.left), LastPart(p.rightKey), p.leftKey), SameName(p), cat)
  {
    hide CatalogOk, SoundProbe, Rows, Gives;
    var db, q := DatabaseOf(cat), SameName(p);
    CatalogRectangular(cat);
    NameBound(p, cat);
    JoinCommutes(q, db);
    ProbeYields(Turned(q), cat, probe);
    var op := ProbeIndex(probe, p.rightKey, p.left.table, LastPart(p.rightKey), q.leftKey);
    GivesTurned(Run(op, cat).value, Columns(op, cat), q, db);
  }

  /** The join on the left table's column with the right key's name. */
  function SameName(p: Plan): Plan
    requires p.Join?
  {
    Join(p.left, p.right, Qualified(TableBelow(p.left), LastPart(p.rightKey)), p.rightKey)
  }

  lemma NameBound(p: Plan, cat: Catalog)
    requires CatalogOk(cat) && p.Join? && Relational(p, DatabaseOf(cat)) && ProbesLeft(p, cat) && p.left.Scan?
    ensures Relational(SameName(p), DatabaseOf(cat)) && LastPart(SameName(p).leftKey) == LastPart(p.rightKey)
    ensures p.leftKey in ScanSchema(p.left.table, cat[p.left.table].columns)
    ensures LastPart(p.leftKey) == LastPart(p.rightKey) ==> SameName(p) == p
  {
    hide Indexes;
    var columns, c := cat[p.left.table].columns, LastPart(p.rightKey);
    assert StoredOk(cat[p.left.table]);
    assert ScanSchema(p.left.table, columns)[PlaceOf(columns, c)] == Qualified(p.left.table, c);
  }

  /** Every operator tree the planner builds for scans, filters and joins yields the query's bag of rows. */
  lemma {:induction false} PlanYields(p: Plan, cat: Catalog)
    requires CatalogOk(cat) && Relational(p, DatabaseOf(cat)) && Plannable(p, cat) && Usable(p, cat)
    requires Answers(p, DatabaseOf(cat))
    ensures Yields(PlanFor(p, cat), p, cat)
  {
    hide CatalogOk, SoundScan, SoundProbe, Keep, Yields, AllEvaluate;
    match p
    case Scan(t, f) => ScanYields(t, f, cat);
    case Filter(c, cond) =>
      PlanYields(c, cat);
      FilterYields(c, cond, cat);
    case Join(l, r, lk, rk) =>
      if ProbesRight(p, cat) {
        PlanYields(l, cat);
        ProbeYields(p, cat, PlanFor(l, cat));
      } else if ProbesLeft(p, cat) {
        PlanYields(r, cat);
        SecondYields(p, cat);
      } else {
        PlanYields(l, cat);
        PlanYields(r, cat);
        HashYields(p, cat, PlanFor(l, cat), PlanFor(r, cat));
      }
  }

  lemma SecondYields(p: Plan, cat: Catalog)
    requires CatalogOk(cat) && p.Join? && Relational(p, DatabaseOf(cat)) && Plannable(p, cat) && ProbesLeft(p, cat)
    requires LastPart(p.leftKey) == LastPart(p.rightKey) && SoundProbe(Turned(p), cat)
    requires Yields(PlanFor(p.right, cat), p.right, cat)
    ensures Yields(PlanFor(p, cat), p, cat)
  {
    hide CatalogOk, Relational, Yields, Rows;
    NameBound(p, cat);
    SecondProbeYields(p, cat, PlanFor(p.right, cat));
  }

  lemma FilterYields(c: Plan, cond: Expr, cat: Catalog)
    requires Plannable(c, cat) && Yields(PlanFor(c, cat), c, cat) && Relational(Filter(c, cond), DatabaseOf(cat))
    requires AllEvaluate(cond, Schema(c, DatabaseOf(cat)), Rows(c, DatabaseOf(cat)))
    ensures Yields(PlanFor(Filter(c, cond), cat), Filter(c, cond), cat)
  {
    hide Gives, AllEvaluate, Keep;
    var op, db := PlanFor(c, cat), DatabaseOf(cat);
    GivesEvaluate(Run(op, cat).value, Columns(op, cat), Schema(c, db), Rows(c, db), cond);
    GivesKept(Run(op, cat).value, Columns(op, cat), Schema(c, db), Rows(c, db), cond);
  }

  lemma CatalogRectangular(cat: Catalog)
    requires CatalogOk(cat)
    ensures DatabaseOk(DatabaseOf(cat))
  {
    hide Indexes;
    forall t | t in DatabaseOf(cat)
      ensures Rectangular(DatabaseOf(cat)[t])
    {
      assert StoredOk(cat[t]);
    }
  }

  /** A filter is answered exactly when its condition can be evaluated on all the rows below. */
  lemma FilterAnswersIff(c: Plan, cond: Expr, cat: Catalog)
    requires CatalogOk(cat) && Relational(c, DatabaseOf(cat)) && Plannable(c, cat) && Usable(c, cat)
    requires Answers(c, DatabaseOf(cat))
    ensures Run(PlanFor(Filter(c, cond), cat), cat).Some? <==>
      Binds(cond, Schema(c, DatabaseOf(cat))) && AllEvaluate(cond, Schema(c, DatabaseOf(cat)), Rows(c, DatabaseOf(cat)))
  {
    hide CatalogOk, Relational, Usable, Answers, Gives, AllEvaluate, Keep;
    var op, db := PlanFor(c, cat), DatabaseOf(cat);
    PlanYields(c, cat);
    GivesNames(Run(op, cat).value, Columns(op, cat), Schema(c, db), Rows(c, db));
    BindsSame(cond, Columns(op, cat), Schema(c, db));
    if Binds(cond, Schema(c, db)) {
      GivesEvaluate(Run(op, cat).value, Columns(op, cat), Schema(c, db), Rows(c, db), cond);
    }
  }

  /** So is a scan without an index, on the rows of its table. */
  lemma ScanAnswersIff(t: string, cond: Expr, cat: Catalog)
    requires t in cat
    ensures Run(SeqScan(t, Some(cond)), cat).Some? <==>
      var schema := ScanSchema(t, cat[t].columns); Binds(cond, schema) && AllEvaluate(cond, schema, RowsOf(cat[t].records))
  {
  }

  /**
   A select list is answered exactly when it names columns of the rows below and can be evaluated on all of them, and then
   with the rows and columns meant.
   */
  lemma ProjectionAnswersIff(c: Plan, items: seq<(Expr, ColName)>, cat: Catalog)
    requires CatalogOk(cat) && Relational(c, DatabaseOf(cat)) && Plannable(c, cat) && Usable(c, cat)
    requires Answers(c, DatabaseOf(cat))
    ensures var db, found := DatabaseOf(cat), Run(PlanFor(Projection(c, items), cat), cat);
      && (found.Some? <==> ItemsBind(items, Schema(c, db)) && ItemsEvaluate(items, Schema(c, db), Rows(c, db)))
      && (found.Some? ==> multiset(found.value) == multiset(Rows(Projection(c, items), db)))
  {
    hide CatalogOk, Relational, Usable, Answers, Gives, Project, ItemsBind, ItemsEvaluate;
    var op, db := PlanFor(c, cat), DatabaseOf(cat);
    PlanYields(c, cat);
    GivesProjected(Run(op, cat).value, Columns(op, cat), Schema(c, db), Rows(c, db), items);
  }

  // ---- Whole queries ----

  /** Some join below is done by the second attempt. */
  predicate ProbesSomeLeft(p: Plan, cat: Catalog) {
    match p
    case Scan(_, _) => false
    case Filter(c, _) => ProbesSomeLeft(c, cat)
    case Join(l, r, _, _) =>
      ProbesLeft(p, cat) || ProbesSomeLeft(l, cat) || (!ProbesRight(p, cat) && ProbesSomeLeft(r, cat))
    case Projection(c, _) => ProbesSomeLeft(c, cat)
  }

  /** Only the second attempt changes the order of columns. */
  lemma {:induction false} ColumnsInOrder(p: Plan, cat: Catalog)
    requires Relational(p, DatabaseOf(cat)) && Plannable(p, cat) && Usable(p, cat) && !ProbesSomeLeft(p, cat)
    ensures Columns(PlanFor(p, cat), cat) == Schema(p, DatabaseOf(cat))
  {
    hide SoundScan, Numeric, MatchesPass;
    match p
    case Scan(t, f) =>
    case Filter(c, _) => ColumnsInOrder(c, cat);
    case Join(l, r, _, _) =>
      ColumnsInOrder(l, cat);
      if !ProbesRight(p, cat) {
        ColumnsInOrder(r, cat);
      }
  }

  ghost predicate Unindexed(cat: Catalog) {
    forall t :: t in cat ==> cat[t].indices == map[]
  }

  lemma {:induction false} NothingIndexed(cs: seq<Expr>)
    ensures FirstIndexed(cs, {}).None?
  {
    if cs != [] {
      NothingIndexed(cs[..|cs| - 1]);
    }
  }

  /** Without indices every plan is made and right as it stands. */
  lemma {:induction false} UnindexedUsable(p: Plan, cat: Catalog)
    requires Unindexed(cat) && (Relational(p, DatabaseOf(cat)) || (p.Projection? && Relational(p.child, DatabaseOf(cat))))
    ensures Plannable(p, cat) && Usable(p, cat) && !ProbesSomeLeft(p, cat)
  {
    match p
    case Scan(t, f) =>
      if f.Some? {
        NothingIndexed(SplitConjuncts(f.value));
        assert cat[t].indices.Keys == {};
      }
    case Filter(c, _) => UnindexedUsable(c, cat);
    case Join(l, r, _, _) =>
      UnindexedUsable(l, cat);
      UnindexedUsable(r, cat);
    case Projection(c, _) => UnindexedUsable(c, cat);
  }

  /** `rows` under `columns` answer `p`: its bag of rows, its columns in some order, and in their order under a select list. */
  ghost predicate AnswersQuery(rows: seq<Row>, columns: seq<ColName>, p: Plan, db: Database) {
    if p.Projection? then columns == Schema(p, db) && multiset(rows) == multiset(Rows(p, db))
    else Gives(rows, columns, Schema(p, db), Rows(p, db))
  }

  lemma QueryYields(q: Plan, cat: Catalog)
    requires CatalogOk(cat) && Query(q, DatabaseOf(cat)) && Plannable(q, cat) && Usable(q, cat) && Answers(q, DatabaseOf(cat))
    ensures var op := PlanFor(q, cat);
      Run(op, cat).Some? && AnswersQuery(Run(op, cat).value, Columns(op, cat), q, DatabaseOf(cat))
    ensures q.Projection? || !ProbesSomeLeft(q, cat) ==> Columns(PlanFor(q, cat), cat) == Schema(q, DatabaseOf(cat))
  {
    hide CatalogOk, Relational, SoundScan, SoundProbe, Gives, AllEvaluate;
    if q.Projection? {
      ProjectionAnswersIff(q.child, q.items, cat);
    } else {
      PlanYields(q, cat);
      if !ProbesSomeLeft(q, cat) {
        ColumnsInOrder(q, cat);
      }
    }
  }

  /**
   From the query to its rows: a query that is answered as written, and whose moved conjuncts can be evaluated where they
   end up, is answered when optimized, planned and run through indices and hash tables. The rows are the bag that the
   plain scans, filters and nested loops of the original query mean. The columns are the same too, in the same order
   under a select list or when no join is done by the second attempt, else in some order.
   */
  lemma PlannedQuerySameRows(p: Plan, cat: Catalog)
    requires CatalogOk(cat) && Query(p, DatabaseOf(cat))
    requires Answers(p, DatabaseOf(cat)) && PushesEvaluate(p, DatabaseOf(cat))
    requires Plannable(PushDown(p), cat) && Usable(PushDown(p), cat)
    ensures var op, db := PlanFor(PushDown(p), cat), DatabaseOf(cat);
      && Run(op, cat).Some?
      && AnswersQuery(Run(op, cat).value, Columns(op, cat), p, db)
      && (p.Projection? || !ProbesSomeLeft(PushDown(p), cat) ==>
        Columns(op, cat) == Schema(p, db) && multiset(Run(op, cat).value) == multiset(Rows(p, db)))
  {
    hide CatalogOk, Usable, Plannable, PushDown, Query, Run, Columns, Rows, Schema, Answers, PushesEvaluate, ProbesSomeLeft,
      Gives;
    var q, db := PushDown(p), DatabaseOf(cat);
    CatalogRectangular(cat);
    OptimizeKeepsRows(p, db);
    OptimizeAnswersIff(p, db);
    QueryYields(q, cat);
    SameKind(p, db);
    if !p.Projection? && Columns(PlanFor(q, cat), cat) == Schema(p, db) {
      InPlace(p, db, Run(PlanFor(q, cat), cat).value);
    }
  }

  lemma SameKind(p: Plan, db: Database)
    requires DatabaseOk(db) && Query(p, db)
    ensures PushDown(p).Projection? <==> p.Projection?
  {
    if !p.Projection? {
      PushDownKeeps(p, db);
    }
  }

  lemma InPlace(p: Plan, db: Database, rows: seq<Row>)
    requires DatabaseOk(db) && Query(p, db) && !p.Projection? && Gives(rows, Schema(p, db), Schema(p, db), Rows(p, db))
    ensures multiset(rows) == multiset(Rows(p, db))
  {
    hide Distinct, Wide, Gives;
    SchemaDistinct(p, db);
    RowsWide(p, db);
    GivesSame(rows, Schema(p, db), Rows(p, db));
  }

  // ---- A second attempt that goes wrong: t(a, b) holds (2, 1), with an index on b; u(b) holds 1; t.a = u.b ----

  const RECORDS_T: Records := [((1, 0), [IntVal(2), IntVal(1)])]
  const RECORDS_U: Records := [((1, 0), [IntVal(1)])]
  const STORED_T: StoredTable := StoredTable(["a", "b"], RECORDS_T, map[(1, 0) := [IntVal(2), IntVal(1)]], map["b" := OneKey()])
  const STORED_U: StoredTable := StoredTable(["b"], RECORDS_U, map[(1, 0) := [IntVal(1)]], map[])
  const TWO_TABLES: Catalog := map["t" := STORED_T, "u" := STORED_U]
  const UNEQUAL: Plan := Join(Scan("t", None), Scan("u", None), Qualified("t", "a"), Qualified("u", "b"))

  lemma TwoTablesOk()
    ensures CatalogOk(TWO_TABLES)
  {
    hide Indexes, OneKey;
    OneKeyHolds(RECORDS_T, 1);
    assert PlaceOf(STORED_T.columns, "b") == 1;
    assert StoredOk(STORED_T) && StoredOk(STORED_U);
  }

  lemma TwoTablesRows()
    ensures var db := DatabaseOf(TWO_TABLES);
      && Schema(UNEQUAL.left, db) == [Qualified("t", "a"), Qualified("t", "b")]
      && Schema(UNEQUAL.right, db) == [Qualified("u", "b")]
      && Rows(UNEQUAL.left, db) == [RECORDS_T[0].1] && Rows(UNEQUAL.right, db) == [RECORDS_U[0].1]
      && Relational(UNEQUAL, db)
  {
    hide OneKey;
    var db := DatabaseOf(TWO_TABLES);
    assert RowsOf(RECORDS_T) == [RECORDS_T[0].1] && RowsOf(RECORDS_U) == [RECORDS_U[0].1];
    var l, r := Schema(UNEQUAL.left, db), Schema(UNEQUAL.right, db);
    assert l == [Qualified("t", "a"), Qualified("t", "b")] && r == [Qualified("u", "b")];
    assert l[0] in l && r[0] in r;
  }

  lemma UnequalRows()
    ensures Rows(UNEQUAL, DatabaseOf(TWO_TABLES)) == []
    ensures Rows(SameName(UNEQUAL), DatabaseOf(TWO_TABLES)) == [RECORDS_T[0].1 + RECORDS_U[0].1]
  {
    hide NestedLoop, DatabaseOf, OneKey, IndexIn;
    TwoTablesRows();
    var l, r, ls, rs := RECORDS_T[0].1, RECORDS_U[0].1, [Qualified("t", "a"), Qualified("t", "b")], [Qualified("u", "b")];
    IndexOfName(ls, 0);
    IndexOfName(ls, 1);
    IndexOfName(rs, 0);
    NestedLoopOne(l, Side(ls[0], ls), r, Side(rs[0], rs));
    NestedLoopOne(l, Side(ls[1], ls), r, Side(rs[0], rs));
  }

  const SECOND: Physical := ProbeIndex(SeqScan("u", None), Qualified("u", "b"), "t", "b", Qualified("t", "a"))

  lemma UnequalPlanned()
    ensures Plannable(UNEQUAL, TWO_TABLES) && ProbesLeft(UNEQUAL, TWO_TABLES) && PlanFor(UNEQUAL, TWO_TABLES) == SECOND
  {
    hide OneKey;
    assert HasIndex(TWO_TABLES, "t", "b") && !HasIndex(TWO_TABLES, "u", "b");
  }

  lemma ProbedRightGiven()
    requires CatalogOk(TWO_TABLES)
    ensures Yields(SECOND.probe, UNEQUAL.right, TWO_TABLES) && SoundProbe(Turned(SameName(UNEQUAL)), TWO_TABLES)
  {
    hide CatalogOk, OneKey, IndexIn, Gives;
    var p, cat, db := UNEQUAL, TWO_TABLES, DatabaseOf(TWO_TABLES);
    TwoTablesRows();
    TableGives(p.right, cat);
    IndexOfName(Schema(p.right, db), 0);
  }

  /** No rows match, yet the index on b finds one. */
  lemma SecondProbeGoesWrong()
    ensures CatalogOk(TWO_TABLES) && Relational(UNEQUAL, DatabaseOf(TWO_TABLES)) && Rows(UNEQUAL, DatabaseOf(TWO_TABLES)) == []
    ensures Plannable(UNEQUAL, TWO_TABLES) && PlanFor(UNEQUAL, TWO_TABLES) == SECOND
    ensures Run(SECOND, TWO_TABLES).Some? && |Run(SECOND, TWO_TABLES).value| == 1
  {
    hide CatalogOk, Relational, Rows, DatabaseOf, Gives, Run, SoundProbe, PlanFor, Plannable, Schema, ProbesLeft, Columns;
    var db, q := DatabaseOf(TWO_TABLES), SameName(UNEQUAL);
    TwoTablesOk();
    TwoTablesRows();
    UnequalRows();
    UnequalPlanned();
    ProbedRightGiven();
    SecondProbeYields(UNEQUAL, TWO_TABLES, SECOND.probe);
    GivesCount(Run(SECOND, TWO_TABLES).value, Columns(SECOND, TWO_TABLES), Schema(q, db), Rows(q, db));
  }
}
