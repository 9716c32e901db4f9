/** Which queries are answered at all: ordering a text with a number raises, and moving conjuncts moves where that happens. */
module Evaluation {
  import opened Options
  import opened Expressions
  import opened QueryOptimizer

  ghost predicate AllEvaluate(e: Expr, schema: seq<ColName>, rows: seq<Row>) {
    forall row :: row in rows ==> Evaluates(e, schema, row)
  }

  ghost predicate ItemsEvaluate(items: seq<(Expr, ColName)>, schema: seq<ColName>, rows: seq<Row>) {
    forall i :: 0 <= i < |items| ==> AllEvaluate(items[i].0, schema, rows)
  }

  /** Every scan's predicate can be evaluated on every row of its table. */
  ghost predicate ScansEvaluate(p: Plan, db: Database) {
    match p
    case Scan(t, f) => f.Some? && t in db ==> AllEvaluate(f.value, Schema(p, db), db[t].rows)
    case Filter(c, _) => ScansEvaluate(c, db)
    case Join(l, r, _, _) => ScansEvaluate(l, db) && ScansEvaluate(r, db)
    case Projection(c, _) => ScansEvaluate(c, db)
  }

  /** Every filter, and the select list, can be evaluated on every row that reaches it. */
  ghost predicate FiltersEvaluate(p: Plan, db: Database) {
    match p
    case Scan(_, _) => true
    case Filter(c, cond) => FiltersEvaluate(c, db) && AllEvaluate(cond, Schema(c, db), Rows(c, db))
    case Join(l, r, _, _) => FiltersEvaluate(l, db) && FiltersEvaluate(r, db)
    case Projection(c, items) => FiltersEvaluate(c, db) && ItemsEvaluate(items, Schema(c, db), Rows(c, db))
  }

  /** No evaluation of the query raises. */
  ghost predicate Answers(p: Plan, db: Database) {
    ScansEvaluate(p, db) && FiltersEvaluate(p, db)
  }

  /** If `c` is on one table scanned in `p`, it can be evaluated on every row of that table. */
  ghost predicate OnTable(c: Expr, p: Plan, db: Database) {
    forall t :: ReferencedTables(c) == {t} && FindScan(p, t) && t in db ==>
      AllEvaluate(c, ScanSchema(t, db[t].columns), db[t].rows)
  }

  ghost predicate AllOnTable(cs: seq<Expr>, p: Plan, db: Database) {
    forall i :: 0 <= i < |cs| ==> OnTable(cs[i], p, db)
  }

  /** Every conjunct of a filter that moves into a scan can be evaluated on all the rows it meets there. */
  ghost predicate PushesEvaluate(p: Plan, db: Database) {
    match p
    case Scan(_, _) => true
    case Filter(c, cond) =>
      PushesEvaluate(c, db) && AllOnTable(SplitConjuncts(cond), c, db)
    case Join(l, r, _, _) => PushesEvaluate(l, db) && PushesEvaluate(r, db)
    case Projection(c, _) => PushesEvaluate(c, db)
  }

  // ---- One conjunct ----

  lemma {:induction false} ScanKnown(p: Plan, db: Database, t: string)
    requires Relational(p, db) && FindScan(p, t)
    ensures t in db
  {
    match p
    case Scan(_, _) =>
    case Filter(c, _) => ScanKnown(c, db, t);
    case Join(l, r, _, _) =>
      if FindScan(l, t) {
        ScanKnown(l, db, t);
      } else {
        ScanKnown(r, db, t);
      }
  }

  /** A scan that takes in a conjunct evaluates it on the whole table. */
  lemma {:induction false} PushedScans(p: Plan, db: Database, t: string, c: Expr)
    requires Relational(p, db) && FindScan(p, t) && t in db
    ensures ScansEvaluate(PushIntoScan(p, t, c), db) <==>
      ScansEvaluate(p, db) && AllEvaluate(c, ScanSchema(t, db[t].columns), db[t].rows)
  {
    match p
    case Scan(_, _) =>
    case Filter(child, _) => PushedScans(child, db, t, c);
    case Join(l, r, _, _) =>
      if FindScan(l, t) {
        PushedScans(l, db, t, c);
      } else {
        PushedScans(r, db, t, c);
      }
  }

  lemma {:induction false} KeepFewer(rows: seq<Row>, cs: seq<Expr>, schema: seq<ColName>)
    ensures forall row :: row in Keep(rows, cs, schema) ==> row in rows
  {
    if rows != [] {
      KeepFewer(rows[1..], cs, schema);
    }
  }

  /** The filters above it see fewer rows. */
  lemma {:induction false} PushedFilters(p: Plan, db: Database, t: string, c: Expr)
    requires DatabaseOk(db) && Relational(p, db) && FindScan(p, t) && FiltersEvaluate(p, db)
    requires Binds(c, Schema(p, db)) && ReferencedTables(c) == {t}
    ensures FiltersEvaluate(PushIntoScan(p, t, c), db)
  {
    match p
    case Scan(_, _) =>
    case Filter(child, _) =>
      PushedFilters(child, db, t, c);
      PushIntoScanKeeps(child, db, t, c);
      KeepFewer(Rows(child, db), [c], Schema(child, db));
    case Join(l, r, _, _) =>
      FindScanIff(l, t);
      FindScanIff(r, t);
      if FindScan(l, t) {
        PushLeft(p, db, t, c);
        PushedFilters(l, db, t, c);
      } else {
        PushRight(p, db, t, c);
        PushedFilters(r, db, t, c);
      }
  }

  // ---- All conjuncts of a filter ----

  lemma {:induction false} AllPushed(p: Plan, db: Database, cs: seq<Expr>)
    requires DatabaseOk(db) && Relational(p, db) && AllBind(cs, Schema(p, db))
    ensures var (q, rest) := PushAll(p, cs);
      && (ScansEvaluate(q, db) <==> ScansEvaluate(p, db) && AllOnTable(cs, p, db))
      && (FiltersEvaluate(p, db) ==> FiltersEvaluate(q, db))
      && (forall row :: row in Rows(q, db) ==> row in Rows(p, db))
      && (forall c :: c in rest ==> c in cs)
  {
    hide AllBind, AllOnTable, OnTable, ScansEvaluate, FiltersEvaluate, Relational, Rows, Schema, PushIntoScan;
    LastOnTable(cs, p, db);
    if cs != [] {
      var before, c := cs[..|cs| - 1], cs[|cs| - 1];
      AllPushed(p, db, before);
      PushAllKeeps(p, db, before);
      var (q, rest) := PushAll(p, before);
      SameScans(p, q);
      if Pushable(q, c) {
        var t :| ReferencedTables(c) == {t} && FindScan(q, t);
        Chosen(q, c, t);
        OnePushed(p, q, db, t, c);
      } else {
        StaysBehind(p, q, db, c);
      }
    }
  }

  lemma StaysBehind(p: Plan, q: Plan, db: Database, c: Expr)
    requires !Pushable(q, c) && forall t :: FindScan(p, t) <==> FindScan(q, t)
    ensures OnTable(c, p, db)
  {
  }

  lemma LastOnTable(cs: seq<Expr>, p: Plan, db: Database)
    requires AllBind(cs, Schema(p, db))
    ensures cs == [] ==> AllOnTable(cs, p, db)
    ensures cs != [] ==> var before, c := cs[..|cs| - 1], cs[|cs| - 1];
      && (AllOnTable(cs, p, db) <==> AllOnTable(before, p, db) && OnTable(c, p, db))
      && AllBind(before, Schema(p, db)) && Binds(c, Schema(p, db))
  {
    hide OnTable;
  }

  lemma SameScans(p: Plan, q: Plan)
    requires Tables(p) == Tables(q)
    ensures forall t :: FindScan(p, t) <==> FindScan(q, t)
  {
    forall t
      ensures FindScan(p, t) <==> FindScan(q, t)
    {
      FindScanIff(p, t);
      FindScanIff(q, t);
    }
  }

  lemma OnePushed(p: Plan, q: Plan, db: Database, t: string, c: Expr)
    requires DatabaseOk(db) && Relational(q, db) && FindScan(q, t) && Binds(c, Schema(q, db)) && ReferencedTables(c) == {t}
    requires (forall u :: FindScan(p, u) <==> FindScan(q, u)) && forall u :: ReferencedTables(c) == {u} ==> u == t
    ensures ScansEvaluate(PushIntoScan(q, t, c), db) <==> ScansEvaluate(q, db) && OnTable(c, p, db)
    ensures FiltersEvaluate(q, db) ==> FiltersEvaluate(PushIntoScan(q, t, c), db)
    ensures forall row :: row in Rows(PushIntoScan(q, t, c), db) ==> row in Rows(q, db)
  {
    ScanKnown(q, db, t);
    PushedScans(q, db, t, c);
    if FiltersEvaluate(q, db) {
      PushedFilters(q, db, t, c);
    }
    PushIntoScanKeeps(q, db, t, c);
    KeepFewer(Rows(q, db), [c], Schema(q, db));
  }

  lemma FilterPushed(child: Plan, db: Database, cond: Expr)
    requires DatabaseOk(db) && Relational(child, db) && Binds(cond, Schema(child, db))
    ensures ScansEvaluate(Pushed(child, cond), db) <==>
      ScansEvaluate(child, db) && AllOnTable(SplitConjuncts(cond), child, db)
    ensures FiltersEvaluate(Filter(child, cond), db) ==> FiltersEvaluate(Pushed(child, cond), db)
  {
    hide OnTable, AllOnTable, Schema;
    var cs, schema := SplitConjuncts(cond), Schema(child, db);
    SplitHolds(cond, schema, []);
    AllPushed(child, db, cs);
    PushAllKeeps(child, db, cs);
    var (q, rest) := PushAll(child, cs);
    if rest != [] && FiltersEvaluate(Filter(child, cond), db) {
      forall row | row in Rows(q, db)
        ensures Combine(rest).Some? && Evaluates(Combine(rest).value, schema, row)
      {
        RestEvaluates(cond, rest, schema, row);
      }
    }
  }

  lemma RestEvaluates(cond: Expr, rest: seq<Expr>, schema: seq<ColName>, row: Row)
    requires Evaluates(cond, schema, row) && rest != [] && forall c :: c in rest ==> c in SplitConjuncts(cond)
    ensures Combine(rest).Some? && Evaluates(Combine(rest).value, schema, row)
  {
    SplitEvaluates(cond, schema, row);
    forall i | 0 <= i < |rest|
      ensures Evaluates(rest[i], schema, row)
    {
      assert rest[i] in SplitConjuncts(cond);
    }
    CombineEvaluates(rest, schema, row);
  }

  // ---- The whole plan ----

  lemma {:induction false} PushDownEvaluates(p: Plan, db: Database)
    requires DatabaseOk(db) && Relational(p, db)
    ensures ScansEvaluate(PushDown(p), db) <==> ScansEvaluate(p, db) && PushesEvaluate(p, db)
    ensures FiltersEvaluate(p, db) ==> FiltersEvaluate(PushDown(p), db)
  {
    match p
    case Scan(_, _) =>
    case Filter(c, cond) =>
      PushDownEvaluates(c, db);
      PushDownKeeps(c, db);
      FilterEvaluates(c, PushDown(c), db, cond);
    case Join(l, r, _, _) =>
      PushDownEvaluates(l, db);
      PushDownEvaluates(r, db);
  }

  lemma FilterEvaluates(c: Plan, q: Plan, db: Database, cond: Expr)
    requires DatabaseOk(db) && Relational(q, db) && Binds(cond, Schema(q, db))
    requires Tables(q) == Tables(c) && Schema(q, db) == Schema(c, db) && Rows(q, db) == Rows(c, db)
    requires FiltersEvaluate(c, db) ==> FiltersEvaluate(q, db)
    ensures ScansEvaluate(Pushed(q, cond), db) <==>
      ScansEvaluate(q, db) && AllOnTable(SplitConjuncts(cond), c, db)
    ensures FiltersEvaluate(Filter(c, cond), db) ==> FiltersEvaluate(Pushed(q, cond), db)
  {
    hide AllOnTable, ScansEvaluate, Pushed, AllEvaluate, SplitConjuncts, Schema, Rows, Tables, Relational, Binds;
    FilterPushed(q, db, cond);
    SameOnTable(c, q, db, SplitConjuncts(cond));
  }

  lemma SameOnTable(p: Plan, q: Plan, db: Database, cs: seq<Expr>)
    requires Tables(p) == Tables(q)
    ensures AllOnTable(cs, p, db) <==> AllOnTable(cs, q, db)
  {
    SameScans(p, q);
  }

  /**
   A query that is answered as written is still answered after the optimizer exactly when each conjunct it moves into a
   scan can be evaluated on the whole table scanned.
   */
  lemma OptimizeAnswersIff(p: Plan, db: Database)
    requires DatabaseOk(db) && Query(p, db) && Answers(p, db)
    ensures Answers(PushDown(p), db) <==> PushesEvaluate(p, db)
  {
    if p.Projection? {
      PushDownEvaluates(p.child, db);
      PushDownKeeps(p.child, db);
    } else {
      PushDownEvaluates(p, db);
    }
  }

  // ---- A query that optimizing breaks: t is empty, u(k, name) holds (1, "x"); t joined with u where u.name < 5 ----

  const EMPTY_JOIN: Database := map["t" := Relation(["k"], []), "u" := Relation(["k", "name"], [[IntVal(1), TextVal("x")]])]
  const JOINED: Plan := Join(Scan("t", None), Scan("u", None), Qualified("t", "k"), Qualified("u", "k"))
  const NAME_BELOW: Expr := Comparison(ColumnRef(Qualified("u", "name")), LT, Literal(FloatVal(5.0)))

  /** As written the filter never sees a row; pushed into the scan of u it does, and raises. */
  lemma OptimizeCanFail()
    ensures DatabaseOk(EMPTY_JOIN) && Query(Filter(JOINED, NAME_BELOW), EMPTY_JOIN)
    ensures Answers(Filter(JOINED, NAME_BELOW), EMPTY_JOIN) && !Answers(PushDown(Filter(JOINED, NAME_BELOW)), EMPTY_JOIN)
  {
    hide PushDown;
    var p, db := Filter(JOINED, NAME_BELOW), EMPTY_JOIN;
    var l, r := Schema(JOINED.left, db), Schema(JOINED.right, db);
    assert l[0] == Qualified("t", "k") && r[0] == Qualified("u", "k") && r[1] == Qualified("u", "name");
    assert Schema(JOINED, db)[2] == r[1];
    assert Relational(JOINED.left, db) && Relational(JOINED.right, db);
    assert Tables(JOINED.left) * Tables(JOINED.right) == {};
    OptimizeAnswersIff(p, db);
    NameNotOnTable();
  }

  lemma NameNotOnTable()
    ensures !OnTable(NAME_BELOW, JOINED, EMPTY_JOIN) && SplitConjuncts(NAME_BELOW)[0] == NAME_BELOW
  {
    var schema, row := ScanSchema("u", ["k", "name"]), [IntVal(1), TextVal("x")];
    assert schema[1] == Qualified("u", "name") && IndexIn(schema, Qualified("u", "name")) == Some(1);
    assert !Evaluates(NAME_BELOW, schema, row);
    assert row in EMPTY_JOIN["u"].rows && ReferencedTables(NAME_BELOW) == {"u"} && FindScan(JOINED, "u");
  }
}
