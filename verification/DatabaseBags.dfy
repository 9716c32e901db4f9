/** What a query means does not depend on the order in which its tables list their rows. */
module DatabaseBags {
  import opened BTreeNode
  import opened Expressions
  import opened QueryOptimizer
  import opened Evaluation
  import opened RowBags
  import opened IndexPlans
  import opened TableModel

  /** The same tables with the same rows, listed in any order. */
  ghost predicate SameTables(a: Database, b: Database) {
    && a.Keys == b.Keys
    && forall t :: t in a ==> a[t].columns == b[t].columns && multiset(a[t].rows) == multiset(b[t].rows)
  }

  lemma {:induction false} SameSchema(p: Plan, a: Database, b: Database)
    requires SameTables(a, b)
    ensures Schema(p, a) == Schema(p, b)
  {
    match p
    case Scan(_, _) =>
    case Filter(c, _) => SameSchema(c, a, b);
    case Join(l, r, _, _) => SameSchema(l, a, b); SameSchema(r, a, b);
    case Projection(_, _) =>
  }

  lemma {:induction false} SameRelational(p: Plan, a: Database, b: Database)
    requires SameTables(a, b)
    ensures Relational(p, a) <==> Relational(p, b)
  {
    SameSchema(p, a, b);
    match p
    case Scan(_, _) =>
    case Filter(c, _) => SameRelational(c, a, b); SameSchema(c, a, b);
    case Join(l, r, _, _) =>
      SameRelational(l, a, b);
      SameRelational(r, a, b);
      SameSchema(l, a, b);
      SameSchema(r, a, b);
    case Projection(_, _) =>
  }

  lemma SameQuery(p: Plan, a: Database, b: Database)
    requires SameTables(a, b)
    ensures Query(p, a) <==> Query(p, b)
  {
    if p.Projection? {
      SameRelational(p.child, a, b);
      SameSchema(p.child, a, b);
    } else {
      SameRelational(p, a, b);
    }
  }

  /** Bags of rows in, bags of rows out. */
  lemma {:induction false} RowsBag(p: Plan, a: Database, b: Database)
    requires SameTables(a, b)
    ensures multiset(Rows(p, a)) == multiset(Rows(p, b))
  {
    hide Keep, NestedLoop, Project;
    match p
    case Scan(t, f) =>
      SameSchema(p, a, b);
      if t in a && f.Some? {
        KeepBag(a[t].rows, b[t].rows, [f.value], Schema(p, a));
      }
    case Filter(c, cond) =>
      SameSchema(c, a, b);
      RowsBag(c, a, b);
      KeepBag(Rows(c, a), Rows(c, b), [cond], Schema(c, a));
    case Join(l, r, lk, rk) =>
      SameSchema(l, a, b);
      SameSchema(r, a, b);
      RowsBag(l, a, b);
      RowsBag(r, a, b);
      NestedLoopBag(Rows(l, a), Rows(l, b), Side(lk, Schema(l, a)), Rows(r, a), Rows(r, b), Side(rk, Schema(r, a)));
    case Projection(c, items) =>
      SameSchema(c, a, b);
      RowsBag(c, a, b);
      ProjectBag(Rows(c, a), Rows(c, b), items, Schema(c, a));
  }

  lemma SameEvaluate(e: Expr, schema: seq<ColName>, x: seq<Row>, y: seq<Row>)
    requires multiset(x) == multiset(y)
    ensures AllEvaluate(e, schema, x) <==> AllEvaluate(e, schema, y)
  {
    hide Evaluates;
    SameMembers(x, y);
  }

  lemma {:induction false} SameScansEvaluate(p: Plan, a: Database, b: Database)
    requires SameTables(a, b)
    ensures ScansEvaluate(p, a) <==> ScansEvaluate(p, b)
  {
    hide AllEvaluate;
    match p
    case Scan(t, f) =>
      SameSchema(p, a, b);
      if t in a && f.Some? {
        SameEvaluate(f.value, Schema(p, a), a[t].rows, b[t].rows);
      }
    case Filter(c, _) => SameScansEvaluate(c, a, b);
    case Join(l, r, _, _) => SameScansEvaluate(l, a, b); SameScansEvaluate(r, a, b);
    case Projection(c, _) => SameScansEvaluate(c, a, b);
  }

  lemma {:induction false} SameFiltersEvaluate(p: Plan, a: Database, b: Database)
    requires SameTables(a, b)
    ensures FiltersEvaluate(p, a) <==> FiltersEvaluate(p, b)
  {
    hide AllEvaluate, Rows, Schema;
    match p
    case Scan(_, _) =>
    case Filter(c, cond) =>
      SameFiltersEvaluate(c, a, b);
      SameSchema(c, a, b);
      RowsBag(c, a, b);
      SameEvaluate(cond, Schema(c, a), Rows(c, a), Rows(c, b));
    case Join(l, r, _, _) => SameFiltersEvaluate(l, a, b); SameFiltersEvaluate(r, a, b);
    case Projection(c, items) =>
      SameFiltersEvaluate(c, a, b);
      SameSchema(c, a, b);
      RowsBag(c, a, b);
      forall i | 0 <= i < |items|
        ensures AllEvaluate(items[i].0, Schema(c, a), Rows(c, a)) <==> AllEvaluate(items[i].0, Schema(c, b), Rows(c, b))
      {
        SameEvaluate(items[i].0, Schema(c, a), Rows(c, a), Rows(c, b));
      }
  }

  lemma SameOnTables(e: Expr, p: Plan, a: Database, b: Database)
    requires SameTables(a, b)
    ensures OnTable(e, p, a) <==> OnTable(e, p, b)
  {
    hide AllEvaluate, FindScan, ReferencedTables;
    forall t | t in a
      ensures AllEvaluate(e, ScanSchema(t, a[t].columns), a[t].rows) <==> AllEvaluate(e, ScanSchema(t, b[t].columns), b[t].rows)
    {
      SameEvaluate(e, ScanSchema(t, a[t].columns), a[t].rows, b[t].rows);
    }
  }

  lemma {:induction false} SamePushesEvaluate(p: Plan, a: Database, b: Database)
    requires SameTables(a, b)
    ensures PushesEvaluate(p, a) <==> PushesEvaluate(p, b)
  {
    hide OnTable;
    match p
    case Scan(_, _) =>
    case Filter(c, cond) =>
      SamePushesEvaluate(c, a, b);
      forall e
        ensures OnTable(e, c, a) <==> OnTable(e, c, b)
      {
        SameOnTables(e, c, a, b);
      }
    case Join(l, r, _, _) => SamePushesEvaluate(l, a, b); SamePushesEvaluate(r, a, b);
    case Projection(c, _) => SamePushesEvaluate(c, a, b);
  }

  // ---- Listing the rows of a map ----

  /** The map's rows, one for each rid, in any order. */
  ghost predicate Lists(rows: seq<Row>, m: map<Rid, Row>) {
    exists rs :: ExactRecords(rs, m) && rows == RowsOf(rs)
  }

  lemma {:induction false} OnceEach<T>(s: seq<T>, x: T)
    requires forall i, j :: 0 <= i < j < |s| ==> s[i] != s[j]
    ensures multiset(s)[x] == if x in s then 1 else 0
  {
    if s != [] {
      OnceEach(s[1..], x);
      assert s == [s[0]] + s[1..];
    }
  }

  lemma RecordsBag(a: Records, b: Records, m: map<Rid, Row>)
    requires ExactRecords(a, m) && ExactRecords(b, m)
    ensures multiset(a) == multiset(b)
  {
    forall x
      ensures multiset(a)[x] == multiset(b)[x]
    {
      OnceEach(a, x);
      OnceEach(b, x);
      assert x in a <==> x.0 in m && m[x.0] == x.1;
      assert x in b <==> x.0 in m && m[x.0] == x.1;
    }
  }

  lemma ListingsBag(x: seq<Row>, y: seq<Row>, m: map<Rid, Row>)
    requires Lists(x, m) && Lists(y, m)
    ensures multiset(x) == multiset(y)
  {
    var a :| ExactRecords(a, m) && x == RowsOf(a);
    var b :| ExactRecords(b, m) && y == RowsOf(b);
    RecordsBag(a, b, m);
    forall u, v
      ensures RowsOf(u + v) == RowsOf(u) + RowsOf(v)
    {
    }
    BagThrough(RowsOf, a, b);
  }
}
