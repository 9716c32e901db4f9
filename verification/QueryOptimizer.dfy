/** Logical plans, what they mean, and the optimizer that moves conjuncts of filters down into scans. */
module QueryOptimizer {
  import opened Options
  import opened Expressions

  datatype Plan =
    | Scan(table: string, filter: Option<Expr>)
    | Filter(child: Plan, condition: Expr)
    | Join(left: Plan, right: Plan, leftKey: ColName, rightKey: ColName)
    | Projection(child: Plan, items: seq<(Expr, ColName)>)

  datatype Relation = Relation(columns: seq<string>, rows: seq<Row>)

  type Database = map<string, Relation>

  // ---- Meaning: scan, filter and nested loops ----

  /** A scan qualifies its columns with the table's name. */
  function ScanSchema(table: string, columns: seq<string>): (s: seq<ColName>)
    ensures |s| == |columns| && forall i :: 0 <= i < |s| ==> s[i] == Qualified(table, columns[i])
  {
    seq(|columns|, i requires 0 <= i < |columns| => Qualified(table, columns[i]))
  }

  function Schema(p: Plan, db: Database): seq<ColName> {
    match p
    case Scan(t, _) => if t in db then ScanSchema(t, db[t].columns) else []
    case Filter(c, _) => Schema(c, db)
    case Join(l, r, _, _) => Schema(l, db) + Schema(r, db)
    case Projection(_, items) => seq(|items|, i requires 0 <= i < |items| => items[i].1)
  }

  /** One side of a join: its key and the columns it is found in. */
  datatype Side = Side(key: ColName, schema: seq<ColName>)

  function KeyOf(s: Side, row: Row): Value {
    Column(s.key, s.schema, row)
  }

  predicate Matches(l: Row, ls: Side, r: Row, rs: Side) {
    Same(KeyOf(ls, l), KeyOf(rs, r))
  }

  function JoinOne(l: Row, ls: Side, rows: seq<Row>, rs: Side): seq<Row> {
    if rows == [] then []
    else (if Matches(l, ls, rows[0], rs) then [l + rows[0]] else []) + JoinOne(l, ls, rows[1..], rs)
  }

  /** The nested-loop equi-join. */
  function NestedLoop(left: seq<Row>, ls: Side, right: seq<Row>, rs: Side): seq<Row> {
    if left == [] then [] else JoinOne(left[0], ls, right, rs) + NestedLoop(left[1..], ls, right, rs)
  }

  function Project(rows: seq<Row>, items: seq<(Expr, ColName)>, schema: seq<ColName>): seq<Row> {
    seq(|rows|, k requires 0 <= k < |rows| =>
      seq(|items|, i requires 0 <= i < |items| => Eval(items[i].0, schema, rows[k])))
  }

  ghost function Rows(p: Plan, db: Database): seq<Row> {
    match p
    case Scan(t, pred) =>
      if t !in db then [] else if pred.None? then db[t].rows else Keep(db[t].rows, [pred.value], Schema(p, db))
    case Filter(c, cond) => Keep(Rows(c, db), [cond], Schema(c, db))
    case Join(l, r, lk, rk) => NestedLoop(Rows(l, db), Side(lk, Schema(l, db)), Rows(r, db), Side(rk, Schema(r, db)))
    case Projection(c, items) => Project(Rows(c, db), items, Schema(c, db))
  }

  function Tables(p: Plan): set<string> {
    match p
    case Scan(t, _) => {t}
    case Filter(c, _) => Tables(c)
    case Join(l, r, _, _) => Tables(l) + Tables(r)
    case Projection(c, _) => Tables(c)
  }

  ghost predicate Rectangular(r: Relation) {
    && (forall i :: 0 <= i < |r.rows| ==> |r.rows[i]| == |r.columns|)
    && (forall i, j :: 0 <= i < j < |r.columns| ==> r.columns[i] != r.columns[j])
  }

  ghost predicate DatabaseOk(db: Database) {
    forall t :: t in db ==> Rectangular(db[t])
  }

  /** Scans, filters and equi-joins of distinct tables, every name bound where it is used. */
  ghost predicate Relational(p: Plan, db: Database) {
    match p
    case Scan(t, pred) => t in db && (pred.Some? ==> Binds(pred.value, Schema(p, db)))
    case Filter(c, cond) => Relational(c, db) && Binds(cond, Schema(c, db))
    case Join(l, r, lk, rk) =>
      && Relational(l, db) && Relational(r, db) && Tables(l) * Tables(r) == {}
      && lk in Schema(l, db) && rk in Schema(r, db)
    case Projection(_, _) => false
  }

  /** The select list names columns of the rows below. */
  ghost predicate ItemsBind(items: seq<(Expr, ColName)>, schema: seq<ColName>) {
    forall i :: 0 <= i < |items| ==> Binds(items[i].0, schema)
  }

  /** A projection, if any, is on top. */
  ghost predicate Query(p: Plan, db: Database) {
    if p.Projection? then Relational(p.child, db) && ItemsBind(p.items, Schema(p.child, db)) else Relational(p, db)
  }

  // ---- The optimizer ----

  function FindScan(p: Plan, table: string): bool {
    match p
    case Scan(t, _) => t == table
    case Filter(c, _) => FindScan(c, table)
    case Join(l, r, _, _) => FindScan(l, table) || FindScan(r, table)
    case Projection(c, _) => FindScan(c, table)
  }

  /** The plan after its first scan of `table`, left to right, took in one more condition. */
  function PushIntoScan(p: Plan, table: string, cond: Expr): Plan
    requires FindScan(p, table)
  {
    match p
    case Scan(t, pred) => Scan(t, Some(if pred.None? then cond else And(pred.value, cond)))
    case Filter(c, q) => Filter(PushIntoScan(c, table, cond), q)
    case Join(l, r, lk, rk) =>
      if FindScan(l, table) then Join(PushIntoScan(l, table, cond), r, lk, rk)
      else Join(l, PushIntoScan(r, table, cond), lk, rk)
    case Projection(c, items) => Projection(PushIntoScan(c, table, cond), items)
  }

  /** The conjunct names one table, and that table is scanned below. */
  ghost predicate Pushable(p: Plan, cond: Expr) {
    exists t :: ReferencedTables(cond) == {t} && FindScan(p, t)
  }

  /** Pushes what can be pushed; the rest stays, in order. */
  ghost function PushAll(p: Plan, cs: seq<Expr>): (Plan, seq<Expr>) {
    if cs == [] then (p, [])
    else
      var (q, rest) := PushAll(p, cs[..|cs| - 1]);
      var c := cs[|cs| - 1];
      if Pushable(q, c) then
        var t :| ReferencedTables(c) == {t} && FindScan(q, t);
        (PushIntoScan(q, t, c), rest)
      else (q, rest + [c])
  }

  ghost function Pushed(child: Plan, cond: Expr): Plan {
    var (q, rest) := PushAll(child, SplitConjuncts(cond));
    if rest == [] then q else Filter(q, Combine(rest).value)
  }

  ghost function PushDown(p: Plan): Plan {
    match p
    case Scan(_, _) => p
    case Filter(c, cond) => Pushed(PushDown(c), cond)
    case Join(l, r, lk, rk) => Join(PushDown(l), PushDown(r), lk, rk)
    case Projection(c, items) => Projection(PushDown(c), items)
  }

  // ---- Where names are found in a join's row ----

  lemma {:induction false} IndexConcat(a: seq<ColName>, b: seq<ColName>, n: ColName)
    ensures n in b ==> IndexIn(b, n).Some? && IndexIn(a + b, n) == Some(|a| + IndexIn(b, n).value)
    ensures n !in b ==> IndexIn(a + b, n) == IndexIn(a, n)
  {
    if b == [] {
      assert a + b == a;
    } else {
      assert (a + b)[..|a + b| - 1] == a + b[..|b| - 1];
      IndexConcat(a, b[..|b| - 1], n);
    }
  }

  lemma {:induction false} EvalLeft(e: Expr, a: seq<ColName>, b: seq<ColName>, l: Row, r: Row)
    requires Binds(e, a) && |l| == |a| && forall n :: n in a ==> n !in b
    ensures Eval(e, a + b, l + r) == Eval(e, a, l)
  {
    match e
    case ColumnRef(n) => IndexConcat(a, b, n);
    case Literal(_) =>
    case Comparison(x, _, y) => EvalLeft(x, a, b, l, r); EvalLeft(y, a, b, l, r);
    case And(x, y) => EvalLeft(x, a, b, l, r); EvalLeft(y, a, b, l, r);
    case Or(x, y) => EvalLeft(x, a, b, l, r); EvalLeft(y, a, b, l, r);
  }

  lemma {:induction false} EvalRight(e: Expr, a: seq<ColName>, b: seq<ColName>, l: Row, r: Row)
    requires Binds(e, b) && |l| == |a| && |r| == |b|
    ensures Eval(e, a + b, l + r) == Eval(e, b, r)
  {
    match e
    case ColumnRef(n) => IndexConcat(a, b, n);
    case Literal(_) =>
    case Comparison(x, _, y) => EvalRight(x, a, b, l, r); EvalRight(y, a, b, l, r);
    case And(x, y) => EvalRight(x, a, b, l, r); EvalRight(y, a, b, l, r);
    case Or(x, y) => EvalRight(x, a, b, l, r); EvalRight(y, a, b, l, r);
  }

  /** A predicate bound in a join that names only one table is bound on the side that has the table. */
  lemma {:induction false} BindsSide(e: Expr, a: seq<ColName>, b: seq<ColName>, t: string)
    requires Binds(e, a + b) && ReferencedTables(e) <= {t}
    ensures (forall n :: n in b ==> TableOf(n) != t) ==> Binds(e, a)
    ensures (forall n :: n in a ==> TableOf(n) != t) ==> Binds(e, b)
  {
    match e
    case ColumnRef(n) => assert TableOf(n) in ReferencedTables(e);
    case Literal(_) =>
    case Comparison(x, _, y) => BindsSide(x, a, b, t); BindsSide(y, a, b, t);
    case And(x, y) => BindsSide(x, a, b, t); BindsSide(y, a, b, t);
    case Or(x, y) => BindsSide(x, a, b, t); BindsSide(y, a, b, t);
  }

  lemma {:induction false} SchemaTables(p: Plan, db: Database, n: ColName)
    requires Relational(p, db) && n in Schema(p, db)
    ensures n.Qualified? && n.table in Tables(p)
  {
    match p
    case Scan(t, _) =>
    case Filter(c, _) => SchemaTables(c, db, n);
    case Join(l, r, _, _) =>
      if n in Schema(l, db) {
        SchemaTables(l, db, n);
      } else {
        SchemaTables(r, db, n);
      }
  }

  // ---- Filters and joins ----

  ghost predicate Wide(rows: seq<Row>, n: nat) {
    forall i :: 0 <= i < |rows| ==> |rows[i]| == n
  }

  lemma {:induction false} KeepWide(rows: seq<Row>, cs: seq<Expr>, schema: seq<ColName>, n: nat)
    requires Wide(rows, n)
    ensures Wide(Keep(rows, cs, schema), n)
  {
    if rows != [] {
      KeepWide(rows[1..], cs, schema, n);
    }
  }

  lemma {:induction false} JoinOneWide(l: Row, ls: Side, right: seq<Row>, rs: Side, n: nat)
    requires Wide(right, n)
    ensures Wide(JoinOne(l, ls, right, rs), |l| + n)
  {
    if right != [] {
      JoinOneWide(l, ls, right[1..], rs, n);
    }
  }

  lemma {:induction false} JoinWide(left: seq<Row>, ls: Side, right: seq<Row>, rs: Side, m: nat, n: nat)
    requires Wide(left, m) && Wide(right, n)
    ensures Wide(NestedLoop(left, ls, right, rs), m + n)
  {
    if left != [] {
      JoinOneWide(left[0], ls, right, rs, n);
      JoinWide(left[1..], ls, right, rs, m, n);
    }
  }

  lemma {:induction false} RowsWide(p: Plan, db: Database)
    requires DatabaseOk(db) && Relational(p, db)
    ensures Wide(Rows(p, db), |Schema(p, db)|)
  {
    match p
    case Scan(t, pred) =>
      if pred.Some? {
        KeepWide(db[t].rows, [pred.value], Schema(p, db), |Schema(p, db)|);
      }
    case Filter(c, cond) =>
      RowsWide(c, db);
      KeepWide(Rows(c, db), [cond], Schema(c, db), |Schema(c, db)|);
    case Join(l, r, lk, rk) =>
      RowsWide(l, db);
      RowsWide(r, db);
      JoinWide(Rows(l, db), Side(lk, Schema(l, db)), Rows(r, db), Side(rk, Schema(r, db)), |Schema(l, db)|, |Schema(r, db)|);
  }

  lemma {:induction false} JoinOneKeepLeft(l: Row, ls: Side, right: seq<Row>, rs: Side, c: Expr)
    requires Binds(c, ls.schema) && |l| == |ls.schema| && forall n :: n in ls.schema ==> n !in rs.schema
    ensures Keep(JoinOne(l, ls, right, rs), [c], ls.schema + rs.schema)
      == if Holds(c, ls.schema, l) then JoinOne(l, ls, right, rs) else []
  {
    if right != [] {
      JoinOneKeepLeft(l, ls, right[1..], rs, c);
      if Matches(l, ls, right[0], rs) {
        EvalLeft(c, ls.schema, rs.schema, l, right[0]);
        KeepConcat([l + right[0]], JoinOne(l, ls, right[1..], rs), [c], ls.schema + rs.schema);
        KeepOne(l + right[0], [c], ls.schema + rs.schema);
        AllHoldOne(c, ls.schema + rs.schema, l + right[0]);
      } else {
        assert JoinOne(l, ls, right, rs) == JoinOne(l, ls, right[1..], rs);
      }
    }
  }

  lemma AllHoldOne(c: Expr, schema: seq<ColName>, row: Row)
    ensures AllHold([c], schema, row) <==> Holds(c, schema, row)
  {
    assert [c][0] == c;
  }

  /** A condition on the left side may be applied before the join. */
  lemma {:induction false} JoinKeepLeft(left: seq<Row>, ls: Side, right: seq<Row>, rs: Side, c: Expr)
    requires Binds(c, ls.schema) && Wide(left, |ls.schema|) && forall n :: n in ls.schema ==> n !in rs.schema
    ensures Keep(NestedLoop(left, ls, right, rs), [c], ls.schema + rs.schema)
      == NestedLoop(Keep(left, [c], ls.schema), ls, right, rs)
  {
    if left != [] {
      JoinKeepLeft(left[1..], ls, right, rs, c);
      JoinOneKeepLeft(left[0], ls, right, rs, c);
      KeepConcat(JoinOne(left[0], ls, right, rs), NestedLoop(left[1..], ls, right, rs), [c], ls.schema + rs.schema);
      AllHoldOne(c, ls.schema, left[0]);
      if Holds(c, ls.schema, left[0]) {
        assert Keep(left, [c], ls.schema)[1..] == Keep(left[1..], [c], ls.schema);
      } else {
        assert Keep(left, [c], ls.schema) == Keep(left[1..], [c], ls.schema);
      }
    }
  }

  lemma {:induction false} JoinOneKeepRight(l: Row, ls: Side, right: seq<Row>, rs: Side, c: Expr)
    requires Binds(c, rs.schema) && |l| == |ls.schema| && Wide(right, |rs.schema|)
    ensures Keep(JoinOne(l, ls, right, rs), [c], ls.schema + rs.schema) == JoinOne(l, ls, Keep(right, [c], rs.schema), rs)
  {
    if right != [] {
      var r := right[0];
      JoinOneKeepRight(l, ls, right[1..], rs, c);
      EvalRight(c, ls.schema, rs.schema, l, r);
      AllHoldOne(c, rs.schema, r);
      AllHoldOne(c, ls.schema + rs.schema, l + r);
      if Matches(l, ls, r, rs) {
        KeepConcat([l + r], JoinOne(l, ls, right[1..], rs), [c], ls.schema + rs.schema);
        KeepOne(l + r, [c], ls.schema + rs.schema);
      } else {
        assert JoinOne(l, ls, right, rs) == JoinOne(l, ls, right[1..], rs);
      }
      if Holds(c, rs.schema, r) {
        assert Keep(right, [c], rs.schema) == [r] + Keep(right[1..], [c], rs.schema);
        assert Keep(right, [c], rs.schema)[1..] == Keep(right[1..], [c], rs.schema);
      } else {
        assert Keep(right, [c], rs.schema) == Keep(right[1..], [c], rs.schema);
      }
    }
  }

  /** ... and one on the right side too. */
  lemma {:induction false} JoinKeepRight(left: seq<Row>, ls: Side, right: seq<Row>, rs: Side, c: Expr)
    requires Binds(c, rs.schema) && Wide(left, |ls.schema|) && Wide(right, |rs.schema|)
    ensures Keep(NestedLoop(left, ls, right, rs), [c], ls.schema + rs.schema)
      == NestedLoop(left, ls, Keep(right, [c], rs.schema), rs)
  {
    if left != [] {
      JoinKeepRight(left[1..], ls, right, rs, c);
      JoinOneKeepRight(left[0], ls, right, rs, c);
      KeepConcat(JoinOne(left[0], ls, right, rs), NestedLoop(left[1..], ls, right, rs), [c], ls.schema + rs.schema);
    }
  }

  // ---- Pushing one conjunct ----

  lemma {:induction false} FindScanIff(p: Plan, t: string)
    ensures FindScan(p, t) <==> t in Tables(p)
  {
    match p
    case Scan(_, _) =>
    case Filter(c, _) => FindScanIff(c, t);
    case Join(l, r, _, _) => FindScanIff(l, t); FindScanIff(r, t);
    case Projection(c, _) => FindScanIff(c, t);
  }

  /** A filter by a condition on one table may be done in that table's scan, through joins and other filters. */
  lemma {:induction false} PushIntoScanKeeps(p: Plan, db: Database, t: string, c: Expr)
    requires DatabaseOk(db) && Relational(p, db) && FindScan(p, t)
    requires Binds(c, Schema(p, db)) && ReferencedTables(c) == {t}
    ensures var q := PushIntoScan(p, t, c);
      && Schema(q, db) == Schema(p, db) && Tables(q) == Tables(p)
      && Relational(q, db)
      && Rows(q, db) == Keep(Rows(p, db), [c], Schema(p, db))
  {
    match p
    case Scan(_, _) => PushHere(p, db, c);
    case Filter(child, q) =>
      PushIntoScanKeeps(child, db, t, c);
      KeepSwap(Rows(child, db), [q], [c], Schema(child, db));
    case Join(l, r, lk, rk) =>
      FindScanIff(l, t);
      FindScanIff(r, t);
      if FindScan(l, t) {
        PushLeft(p, db, t, c);
        PushIntoScanKeeps(l, db, t, c);
      } else {
        PushRight(p, db, t, c);
        PushIntoScanKeeps(r, db, t, c);
      }
  }

  lemma PushHere(p: Plan, db: Database, c: Expr)
    requires p.Scan? && Relational(p, db) && Binds(c, Schema(p, db))
    ensures var q := PushIntoScan(p, p.table, c);
      && Schema(q, db) == Schema(p, db) && Relational(q, db) && Rows(q, db) == Keep(Rows(p, db), [c], Schema(p, db))
  {
    var schema := Schema(p, db);
    if p.filter.Some? {
      var q := p.filter.value;
      forall row
        ensures AllHold([And(q, c)], schema, row) <==> AllHold([q] + [c], schema, row)
      {
        JoinHolds([q], [c], schema, row);
        AllHoldOne(q, schema, row);
        AllHoldOne(c, schema, row);
        AllHoldOne(And(q, c), schema, row);
      }
      KeepSame(db[p.table].rows, [And(q, c)], [q] + [c], schema);
      KeepTwice(db[p.table].rows, [q], [c], schema);
    }
  }

  /** Filters commute. */
  lemma KeepSwap(rows: seq<Row>, a: seq<Expr>, b: seq<Expr>, schema: seq<ColName>)
    ensures Keep(Keep(rows, a, schema), b, schema) == Keep(Keep(rows, b, schema), a, schema)
  {
    KeepTwice(rows, a, b, schema);
    KeepTwice(rows, b, a, schema);
    forall row
      ensures AllHold(a + b, schema, row) <==> AllHold(b + a, schema, row)
    {
      JoinHolds(a, b, schema, row);
      JoinHolds(b, a, schema, row);
    }
    KeepSame(rows, a + b, b + a, schema);
  }

  lemma SidesApart(p: Plan, db: Database)
    requires Relational(p, db) && p.Join?
    ensures forall n :: n in Schema(p.left, db) ==> TableOf(n) in Tables(p.left) && n !in Schema(p.right, db)
    ensures forall n :: n in Schema(p.right, db) ==> TableOf(n) in Tables(p.right)
  {
    forall n | n in Schema(p.left, db)
      ensures TableOf(n) in Tables(p.left) && n !in Schema(p.right, db)
    {
      SchemaTables(p.left, db, n);
      assert n.table !in Tables(p.left) * Tables(p.right);
      if n in Schema(p.right, db) {
        SchemaTables(p.right, db, n);
      }
    }
    forall n | n in Schema(p.right, db)
      ensures TableOf(n) in Tables(p.right)
    {
      SchemaTables(p.right, db, n);
    }
  }

  lemma PushLeft(p: Plan, db: Database, t: string, c: Expr)
    requires DatabaseOk(db) && Relational(p, db) && p.Join? && t in Tables(p.left)
    requires Binds(c, Schema(p, db)) && ReferencedTables(c) == {t}
    ensures Binds(c, Schema(p.left, db))
    ensures var ls := Side(p.leftKey, Schema(p.left, db)); var rs := Side(p.rightKey, Schema(p.right, db));
      Keep(Rows(p, db), [c], Schema(p, db)) == NestedLoop(Keep(Rows(p.left, db), [c], ls.schema), ls, Rows(p.right, db), rs)
  {
    SidesApart(p, db);
    assert t !in Tables(p.left) * Tables(p.right);
    BindsSide(c, Schema(p.left, db), Schema(p.right, db), t);
    RowsWide(p.left, db);
    JoinKeepLeft(Rows(p.left, db), Side(p.leftKey, Schema(p.left, db)), Rows(p.right, db), Side(p.rightKey, Schema(p.right, db)), c);
  }

  lemma PushRight(p: Plan, db: Database, t: string, c: Expr)
    requires DatabaseOk(db) && Relational(p, db) && p.Join? && t in Tables(p.right)
    requires Binds(c, Schema(p, db)) && ReferencedTables(c) == {t}
    ensures Binds(c, Schema(p.right, db))
    ensures var ls := Side(p.leftKey, Schema(p.left, db)); var rs := Side(p.rightKey, Schema(p.right, db));
      Keep(Rows(p, db), [c], Schema(p, db)) == NestedLoop(Rows(p.left, db), ls, Keep(Rows(p.right, db), [c], rs.schema), rs)
  {
    SidesApart(p, db);
    assert t !in Tables(p.left) * Tables(p.right);
    BindsSide(c, Schema(p.left, db), Schema(p.right, db), t);
    RowsWide(p.left, db);
    RowsWide(p.right, db);
    JoinKeepRight(Rows(p.left, db), Side(p.leftKey, Schema(p.left, db)), Rows(p.right, db), Side(p.rightKey, Schema(p.right, db)), c);
  }

  // ---- Pushing a whole filter ----

  /** Pushing all of `cs` and filtering by what is left accepts the same rows as filtering by `cs`. */
  lemma {:induction false} PushAllKeeps(p: Plan, db: Database, cs: seq<Expr>)
    requires DatabaseOk(db) && Relational(p, db) && AllBind(cs, Schema(p, db))
    ensures var (q, rest) := PushAll(p, cs);
      && Relational(q, db) && Schema(q, db) == Schema(p, db) && Tables(q) == Tables(p)
      && AllBind(rest, Schema(p, db))
      && Keep(Rows(q, db), rest, Schema(p, db)) == Keep(Rows(p, db), cs, Schema(p, db))
  {
    if cs != [] {
      var schema := Schema(p, db);
      var before, c := cs[..|cs| - 1], cs[|cs| - 1];
      assert cs == before + [c];
      JoinHolds(before, [c], schema, []);
      assert Binds(c, schema);
      PushAllKeeps(p, db, before);
      var (q, rest) := PushAll(p, before);
      KeepTwice(Rows(p, db), before, [c], schema);
      KeepTwice(Rows(q, db), rest, [c], schema);
      JoinHolds(rest, [c], schema, []);
      if Pushable(q, c) {
        var t :| ReferencedTables(c) == {t} && FindScan(q, t);
        PushIntoScanKeeps(q, db, t, c);
        KeepSwap(Rows(q, db), rest, [c], schema);
        Chosen(q, c, t);
      }
    }
  }

  /** The table a conjunct is pushed to is determined by the conjunct. */
  lemma Chosen(q: Plan, c: Expr, t: string)
    requires ReferencedTables(c) == {t} && FindScan(q, t)
    ensures forall u :: ReferencedTables(c) == {u} ==> u == t
  {
    forall u | ReferencedTables(c) == {u}
      ensures u == t
    {
      assert u in ReferencedTables(c);
    }
  }

  lemma PushFilterKeeps(child: Plan, db: Database, cond: Expr)
    requires DatabaseOk(db) && Relational(child, db) && Binds(cond, Schema(child, db))
    ensures var q := Pushed(child, cond);
      && Relational(q, db) && Schema(q, db) == Schema(child, db) && Tables(q) == Tables(child)
      && Rows(q, db) == Rows(Filter(child, cond), db)
  {
    var schema := Schema(child, db);
    var cs := SplitConjuncts(cond);
    SplitHolds(cond, schema, []);
    PushAllKeeps(child, db, cs);
    var (q, rest) := PushAll(child, cs);
    forall row
      ensures AllHold(cs, schema, row) <==> AllHold([cond], schema, row)
    {
      SplitHolds(cond, schema, row);
      AllHoldOne(cond, schema, row);
    }
    KeepSame(Rows(child, db), cs, [cond], schema);
    if rest == [] {
      KeepNothing(Rows(q, db), schema);
    } else {
      CombineHolds(rest, schema, []);
      forall row
        ensures AllHold(rest, schema, row) <==> AllHold([Combine(rest).value], schema, row)
      {
        CombineHolds(rest, schema, row);
        AllHoldOne(Combine(rest).value, schema, row);
      }
      KeepSame(Rows(q, db), rest, [Combine(rest).value], schema);
    }
  }

  lemma {:induction false} KeepNothing(rows: seq<Row>, schema: seq<ColName>)
    ensures Keep(rows, [], schema) == rows
  {
    if rows != [] {
      KeepNothing(rows[1..], schema);
    }
  }

  lemma {:induction false} PushDownKeeps(p: Plan, db: Database)
    requires DatabaseOk(db) && Relational(p, db)
    ensures var q := PushDown(p);
      && Relational(q, db) && Schema(q, db) == Schema(p, db) && Tables(q) == Tables(p)
      && Rows(q, db) == Rows(p, db)
  {
    match p
    case Scan(_, _) =>
    case Filter(c, cond) =>
      PushDownKeeps(c, db);
      PushFilterKeeps(PushDown(c), db, cond);
    case Join(l, r, _, _) =>
      PushDownKeeps(l, db);
      PushDownKeeps(r, db);
  }

  /** The optimized query yields the same rows, in the same order, under the same columns. */
  lemma OptimizeKeepsRows(p: Plan, db: Database)
    requires DatabaseOk(db) && Query(p, db)
    ensures Query(PushDown(p), db)
    ensures Schema(PushDown(p), db) == Schema(p, db)
    ensures Rows(PushDown(p), db) == Rows(p, db)
  {
    if p.Projection? {
      PushDownKeeps(p.child, db);
    } else {
      PushDownKeeps(p, db);
    }
  }

  // ---- Where each conjunct ends up ----

  /** The conjuncts of the predicate of the first scan of `t`. */
  function ScanConditions(p: Plan, t: string): seq<Expr>
    requires FindScan(p, t)
  {
    match p
    case Scan(_, f) => if f.None? then [] else SplitConjuncts(f.value)
    case Filter(c, _) => ScanConditions(c, t)
    case Join(l, r, _, _) => if FindScan(l, t) then ScanConditions(l, t) else ScanConditions(r, t)
    case Projection(c, _) => ScanConditions(c, t)
  }

  /** The conjuncts naming `t` and no other table. */
  function Only(cs: seq<Expr>, t: string): seq<Expr> {
    if cs == [] then []
    else Only(cs[..|cs| - 1], t) + if ReferencedTables(cs[|cs| - 1]) == {t} then [cs[|cs| - 1]] else []
  }

  /** The conjuncts that name no table, several, or one that is not scanned. */
  ghost function Unpushable(p: Plan, cs: seq<Expr>): seq<Expr> {
    if cs == [] then []
    else Unpushable(p, cs[..|cs| - 1]) + if Pushable(p, cs[|cs| - 1]) then [] else [cs[|cs| - 1]]
  }

  lemma {:induction false} PushIntoScanPlaces(p: Plan, t: string, c: Expr, u: string)
    requires FindScan(p, t) && !c.And?
    ensures FindScan(PushIntoScan(p, t, c), u) <==> FindScan(p, u)
    ensures FindScan(p, u) ==>
      ScanConditions(PushIntoScan(p, t, c), u) == ScanConditions(p, u) + if u == t then [c] else []
  {
    match p
    case Scan(_, f) =>
      assert SplitConjuncts(c) == [c];
    case Filter(child, _) => PushIntoScanPlaces(child, t, c, u);
    case Join(l, r, _, _) =>
      if FindScan(l, t) {
        PushIntoScanPlaces(l, t, c, u);
      } else {
        PushIntoScanPlaces(r, t, c, u);
      }
    case Projection(child, _) => PushIntoScanPlaces(child, t, c, u);
  }

  /**
   Every conjunct that names just one scanned table moves into that table's scan, after what the scan already
   had and in order; all others stay behind, in order.
   */
  lemma {:induction false} PushAllPlaces(p: Plan, cs: seq<Expr>, u: string)
    requires forall i :: 0 <= i < |cs| ==> !cs[i].And?
    ensures var (q, rest) := PushAll(p, cs);
      && rest == Unpushable(p, cs)
      && (FindScan(q, u) <==> FindScan(p, u))
      && (FindScan(p, u) ==> ScanConditions(q, u) == ScanConditions(p, u) + Only(cs, u))
    decreases |cs|, 0
  {
    if cs != [] {
      var before, c := cs[..|cs| - 1], cs[|cs| - 1];
      PushAllPlaces(p, before, u);
      var q := PushAll(p, before).0;
      SamePushable(p, before, c);
      if Pushable(q, c) {
        var t :| ReferencedTables(c) == {t} && FindScan(q, t);
        Chosen(q, c, t);
        PushIntoScanPlaces(q, t, c, u);
        assert ReferencedTables(c) == {u} <==> u == t;
      }
    }
  }

  lemma SamePushable(p: Plan, cs: seq<Expr>, c: Expr)
    requires forall i :: 0 <= i < |cs| ==> !cs[i].And?
    ensures Pushable(PushAll(p, cs).0, c) <==> Pushable(p, c)
    decreases |cs|, 1
  {
    var q := PushAll(p, cs).0;
    forall t
      ensures FindScan(q, t) <==> FindScan(p, t)
    {
      PushAllPlaces(p, cs, t);
    }
  }

  lemma {:induction false} SplitAtoms(e: Expr)
    ensures forall i :: 0 <= i < |SplitConjuncts(e)| ==> !SplitConjuncts(e)[i].And?
  {
    if e.And? {
      SplitAtoms(e.left);
      SplitAtoms(e.right);
    }
  }

  /**
   After pushing a filter: each scanned table's scan has gained exactly the filter's conjuncts on that table
   alone, in order, and the filter keeps exactly the others, in order, or is gone when there are none.
   */
  lemma PushFilterPlaces(child: Plan, cond: Expr, u: string)
    requires FindScan(child, u)
    ensures var q := Pushed(child, cond); var cs := SplitConjuncts(cond); var rest := Unpushable(child, cs);
      && FindScan(q, u) && ScanConditions(q, u) == ScanConditions(child, u) + Only(cs, u)
      && (rest == [] ==> q == PushAll(child, cs).0)
      && (rest != [] ==> q.Filter? && Some(q.condition) == Combine(rest) && q.child == PushAll(child, cs).0)
  {
    SplitAtoms(cond);
    PushAllPlaces(child, SplitConjuncts(cond), u);
  }

  // ---- Nothing is left to push ----

  /** No filter of the plan still has a conjunct that could move into a scan below it. */
  ghost predicate PushedOut(p: Plan) {
    match p
    case Scan(_, _) => true
    case Filter(c, cond) =>
      PushedOut(c) && forall i :: 0 <= i < |SplitConjuncts(cond)| ==> !Pushable(c, SplitConjuncts(cond)[i])
    case Join(l, r, _, _) => PushedOut(l) && PushedOut(r)
    case Projection(c, _) => PushedOut(c)
  }

  lemma {:induction false} PushIntoScanOut(p: Plan, t: string, c: Expr)
    requires PushedOut(p) && FindScan(p, t)
    ensures PushedOut(PushIntoScan(p, t, c)) && forall u :: FindScan(PushIntoScan(p, t, c), u) <==> FindScan(p, u)
  {
    match p
    case Scan(_, _) =>
    case Filter(child, _) => PushIntoScanOut(child, t, c);
    case Join(l, r, _, _) =>
      if FindScan(l, t) {
        PushIntoScanOut(l, t, c);
      } else {
        PushIntoScanOut(r, t, c);
      }
    case Projection(child, _) => PushIntoScanOut(child, t, c);
  }

  lemma {:induction false} PushAllOut(p: Plan, cs: seq<Expr>)
    requires PushedOut(p)
    ensures var (q, rest) := PushAll(p, cs);
      && PushedOut(q) && (forall u :: FindScan(q, u) <==> FindScan(p, u))
      && (forall i :: 0 <= i < |rest| ==> !Pushable(q, rest[i]))
      && (forall c :: c in rest ==> c in cs)
  {
    if cs != [] {
      var before, c := cs[..|cs| - 1], cs[|cs| - 1];
      PushAllOut(p, before);
      var (q, rest) := PushAll(p, before);
      if Pushable(q, c) {
        var t :| ReferencedTables(c) == {t} && FindScan(q, t);
        Chosen(q, c, t);
        PushIntoScanOut(q, t, c);
      }
    }
  }

  /** Conjunctions of conjuncts that are none themselves come apart into them. */
  lemma {:induction false} SplitCombined(cs: seq<Expr>)
    requires cs != [] && forall i :: 0 <= i < |cs| ==> !cs[i].And?
    ensures Combine(cs).Some? && SplitConjuncts(Combine(cs).value) == cs
  {
    if |cs| > 1 {
      SplitCombined(cs[..|cs| - 1]);
      assert SplitConjuncts(cs[|cs| - 1]) == [cs[|cs| - 1]];
      assert cs == cs[..|cs| - 1] + [cs[|cs| - 1]];
    }
  }

  lemma PushedOutHere(child: Plan, cond: Expr)
    requires PushedOut(child)
    ensures PushedOut(Pushed(child, cond))
  {
    var cs := SplitConjuncts(cond);
    SplitAtoms(cond);
    PushAllOut(child, cs);
    var (q, rest) := PushAll(child, cs);
    if rest != [] {
      forall i | 0 <= i < |rest|
        ensures !rest[i].And?
      {
        assert rest[i] in cs;
      }
      SplitCombined(rest);
    }
  }

  /** After the optimizer every filter keeps only conjuncts on no table below it, or on several. */
  lemma {:induction false} PushDownLeavesNone(p: Plan)
    ensures PushedOut(PushDown(p))
  {
    match p
    case Scan(_, _) =>
    case Filter(c, cond) =>
      PushDownLeavesNone(c);
      PushedOutHere(PushDown(c), cond);
    case Join(l, r, _, _) => PushDownLeavesNone(l); PushDownLeavesNone(r);
    case Projection(c, _) => PushDownLeavesNone(c);
  }

  // ---- The loop over the conjuncts ----

  /** A filter with everything pushed that can be; without a filter when nothing is left. */
  method PushFilter(child: Plan, cond: Expr) returns (p: Plan)
    ensures p == Pushed(child, cond)
  {
    var conjuncts := SplitConjuncts(cond);
    var residual := [];
    p := child;
    var i := 0;
    while i < |conjuncts|
      invariant 0 <= i <= |conjuncts|
      invariant (p, residual) == PushAll(child, conjuncts[..i])
    {
      var conjunct := conjuncts[i];
      assert conjuncts[..i + 1][..i] == conjuncts[..i];
      p, residual := PushOne(p, residual, conjunct);
      i := i + 1;
    }
    assert conjuncts[..i] == conjuncts;
    var combined := CombineConjuncts(residual);
    if combined.Some? {
      p := Filter(p, combined.value);
    }
  }

  method PushOne(p: Plan, residual: seq<Expr>, c: Expr) returns (q: Plan, rest: seq<Expr>)
    ensures Pushable(p, c) ==>
      rest == residual && forall t :: ReferencedTables(c) == {t} && FindScan(p, t) ==> q == PushIntoScan(p, t, c)
    ensures !Pushable(p, c) ==> q == p && rest == residual + [c]
  {
    var tables := ReferencedTables(c);
    if |tables| == 1 {
      Single(tables);
      var table :| table in tables;
      if FindScan(p, table) {
        return PushIntoScan(p, table, c), residual;
      }
    }
    return p, residual + [c];
  }

  lemma Single(s: set<string>)
    requires |s| == 1
    ensures exists x :: x in s && s == {x}
    ensures forall x :: x in s ==> s == {x}
  {
    var x :| x in s;
    assert |s - {x}| == 0;
    assert s == {x};
  }
}
