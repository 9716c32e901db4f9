/** Rows under one list of columns, put under another list of the same names; a join with its sides exchanged. */
module ColumnOrder {
  import opened Expressions
  import opened QueryOptimizer
  import opened IndexPlans
  import opened Joins

  function Rearrange(row: Row, a: seq<ColName>, b: seq<ColName>): (r: Row)
    ensures |r| == |b|
  {
    seq(|b|, i requires 0 <= i < |b| => Column(b[i], a, row))
  }

  /** Rows under `a`, with each row's values put under `b`. */
  function Reordered(rows: seq<Row>, a: seq<ColName>, b: seq<ColName>): (r: seq<Row>)
    ensures |r| == |rows| && forall i :: 0 <= i < |r| ==> r[i] == Rearrange(rows[i], a, b)
  {
    seq(|rows|, i requires 0 <= i < |rows| => Rearrange(rows[i], a, b))
  }

  ghost predicate Distinct(s: seq<ColName>) {
    forall i, j :: 0 <= i < j < |s| ==> s[i] != s[j]
  }

  ghost predicate Apart(a: seq<ColName>, b: seq<ColName>) {
    forall n :: n in a ==> n !in b
  }

  // ---- What does not depend on the order ----

  lemma {:induction false} EvalKept(e: Expr, a: seq<ColName>, b: seq<ColName>, row: Row)
    requires Binds(e, b)
    ensures Eval(e, b, Rearrange(row, a, b)) == Eval(e, a, row)
    ensures Evaluates(e, b, Rearrange(row, a, b)) <==> Evaluates(e, a, row)
  {
    match e
    case ColumnRef(_) =>
    case Literal(_) =>
    case Comparison(x, _, y) => EvalKept(x, a, b, row); EvalKept(y, a, b, row);
    case And(x, y) => EvalKept(x, a, b, row); EvalKept(y, a, b, row);
    case Or(x, y) => EvalKept(x, a, b, row); EvalKept(y, a, b, row);
  }

  lemma KeyKept(k: ColName, a: seq<ColName>, b: seq<ColName>, row: Row)
    requires k in b
    ensures KeyOf(Side(k, b), Rearrange(row, a, b)) == KeyOf(Side(k, a), row)
  {
    EvalKept(ColumnRef(k), a, b, row);
  }

  lemma ReorderedTwice(rows: seq<Row>, a: seq<ColName>, b: seq<ColName>, c: seq<ColName>)
    requires forall n :: n in c ==> n in b
    ensures Reordered(Reordered(rows, a, b), b, c) == Reordered(rows, a, c)
  {
    forall i | 0 <= i < |rows|
      ensures Rearrange(Rearrange(rows[i], a, b), b, c) == Rearrange(rows[i], a, c)
    {
      forall j | 0 <= j < |c|
        ensures Column(c[j], b, Rearrange(rows[i], a, b)) == Column(c[j], a, rows[i])
      {
        KeyKept(c[j], a, b, rows[i]);
      }
    }
  }

  lemma Unmoved(row: Row, a: seq<ColName>)
    requires Distinct(a) && |row| == |a|
    ensures Rearrange(row, a, a) == row
  {
    forall i | 0 <= i < |a|
      ensures Column(a[i], a, row) == row[i]
    {
      IndexOfName(a, i);
    }
  }

  lemma ReorderedSame(rows: seq<Row>, a: seq<ColName>)
    requires Distinct(a) && Wide(rows, |a|)
    ensures Reordered(rows, a, a) == rows
  {
    forall i | 0 <= i < |rows|
      ensures Rearrange(rows[i], a, a) == rows[i]
    {
      Unmoved(rows[i], a);
    }
  }

  lemma ReorderedConcat(x: seq<Row>, y: seq<Row>, a: seq<ColName>, b: seq<ColName>)
    ensures Reordered(x + y, a, b) == Reordered(x, a, b) + Reordered(y, a, b)
  {
  }

  lemma {:induction false} KeepReordered(rows: seq<Row>, e: Expr, a: seq<ColName>, b: seq<ColName>)
    requires Binds(e, b)
    ensures Reordered(Keep(rows, [e], a), a, b) == Keep(Reordered(rows, a, b), [e], b)
  {
    if rows != [] {
      KeepReordered(rows[1..], e, a, b);
      EvalKept(e, a, b, rows[0]);
      AllHoldOne(e, a, rows[0]);
      AllHoldOne(e, b, Rearrange(rows[0], a, b));
      assert Reordered(rows, a, b)[1..] == Reordered(rows[1..], a, b);
      if Holds(e, a, rows[0]) {
        ReorderedConcat([rows[0]], Keep(rows[1..], [e], a), a, b);
      }
    }
  }

  lemma ProjectReordered(rows: seq<Row>, items: seq<(Expr, ColName)>, a: seq<ColName>, b: seq<ColName>)
    requires ItemsBind(items, b)
    ensures Project(Reordered(rows, a, b), items, b) == Project(rows, items, a)
  {
    hide Eval, Rearrange;
    forall k | 0 <= k < |rows|
      ensures Project(Reordered(rows, a, b), items, b)[k] == Project(rows, items, a)[k]
    {
      forall i | 0 <= i < |items|
        ensures Eval(items[i].0, b, Rearrange(rows[k], a, b)) == Eval(items[i].0, a, rows[k])
      {
        EvalKept(items[i].0, a, b, rows[k]);
      }
    }
  }

  // ---- Joins ----

  lemma JoinedRow(l: Row, r: Row, la: seq<ColName>, lb: seq<ColName>, ra: seq<ColName>, rb: seq<ColName>)
    requires |l| == |la| && Apart(la, ra) && |r| == |ra|
    requires (forall n :: n in lb ==> n in la) && forall n :: n in rb ==> n in ra
    ensures Rearrange(l + r, la + ra, lb + rb) == Rearrange(l, la, lb) + Rearrange(r, ra, rb)
  {
    forall i | 0 <= i < |lb|
      ensures Column(lb[i], la + ra, l + r) == Column(lb[i], la, l)
    {
      EvalLeft(ColumnRef(lb[i]), la, ra, l, r);
    }
    forall i | 0 <= i < |rb|
      ensures Column(rb[i], la + ra, l + r) == Column(rb[i], ra, r)
    {
      EvalRight(ColumnRef(rb[i]), la, ra, l, r);
    }
  }

  /** The two sides of a join, under one order of columns and under another. */
  ghost predicate SidesKept(lk: ColName, la: seq<ColName>, lb: seq<ColName>, rk: ColName, ra: seq<ColName>, rb: seq<ColName>) {
    && Apart(la, ra) && lk in lb && rk in rb
    && (forall n :: n in lb ==> n in la) && (forall n :: n in rb ==> n in ra)
  }

  lemma {:induction false} JoinOneReordered(l: Row, right: seq<Row>, lk: ColName, la: seq<ColName>, lb: seq<ColName>,
                                            rk: ColName, ra: seq<ColName>, rb: seq<ColName>)
    requires SidesKept(lk, la, lb, rk, ra, rb) && |l| == |la| && Wide(right, |ra|)
    ensures Reordered(JoinOne(l, Side(lk, la), right, Side(rk, ra)), la + ra, lb + rb)
      == JoinOne(Rearrange(l, la, lb), Side(lk, lb), Reordered(right, ra, rb), Side(rk, rb))
  {
    hide Rearrange, Column;
    if right != [] {
      var r := right[0];
      JoinOneReordered(l, right[1..], lk, la, lb, rk, ra, rb);
      KeyKept(lk, la, lb, l);
      KeyKept(rk, ra, rb, r);
      JoinedRow(l, r, la, lb, ra, rb);
      assert Reordered(right, ra, rb)[1..] == Reordered(right[1..], ra, rb);
      if Matches(l, Side(lk, la), r, Side(rk, ra)) {
        ReorderedConcat([l + r], JoinOne(l, Side(lk, la), right[1..], Side(rk, ra)), la + ra, lb + rb);
      }
    }
  }

  lemma {:induction false} NestedLoopReordered(left: seq<Row>, right: seq<Row>, lk: ColName, la: seq<ColName>, lb: seq<ColName>,
                                               rk: ColName, ra: seq<ColName>, rb: seq<ColName>)
    requires SidesKept(lk, la, lb, rk, ra, rb) && Wide(left, |la|) && Wide(right, |ra|)
    ensures Reordered(NestedLoop(left, Side(lk, la), right, Side(rk, ra)), la + ra, lb + rb)
      == NestedLoop(Reordered(left, la, lb), Side(lk, lb), Reordered(right, ra, rb), Side(rk, rb))
  {
    hide Rearrange, SidesKept;
    if left != [] {
      NestedLoopReordered(left[1..], right, lk, la, lb, rk, ra, rb);
      JoinOneReordered(left[0], right, lk, la, lb, rk, ra, rb);
      assert Reordered(left, la, lb)[1..] == Reordered(left[1..], la, lb);
      ReorderedConcat(JoinOne(left[0], Side(lk, la), right, Side(rk, ra)),
        NestedLoop(left[1..], Side(lk, la), right, Side(rk, ra)), la + ra, lb + rb);
    }
  }

  // ---- A join with its sides exchanged ----

  lemma TurnedRow(l: Row, r: Row, a: seq<ColName>, b: seq<ColName>)
    requires Distinct(a) && Distinct(b) && Apart(a, b) && |l| == |a| && |r| == |b|
    ensures Rearrange(r + l, b + a, a + b) == l + r
  {
    hide Column;
    Unmoved(l, a);
    Unmoved(r, b);
    forall i | 0 <= i < |a|
      ensures Column(a[i], b + a, r + l) == Column(a[i], a, l)
    {
      EvalRight(ColumnRef(a[i]), b, a, r, l);
    }
    forall i | 0 <= i < |b|
      ensures Column(b[i], b + a, r + l) == Column(b[i], b, r)
    {
      EvalLeft(ColumnRef(b[i]), b, a, r, l);
    }
  }

  lemma {:induction false} JoinOneTurned(r: Row, rs: Side, left: seq<Row>, ls: Side)
    requires Distinct(ls.schema) && Distinct(rs.schema) && Apart(ls.schema, rs.schema)
    requires Wide(left, |ls.schema|) && |r| == |rs.schema|
    ensures Reordered(JoinOne(r, rs, left, ls), rs.schema + ls.schema, ls.schema + rs.schema)
      == Glue(Bucket(left, ls, Canon(KeyOf(rs, r))), r)
  {
    hide Rearrange, Canon, KeyOf;
    if left != [] {
      var l := left[0];
      JoinOneTurned(r, rs, left[1..], ls);
      CanonSame(KeyOf(rs, r), KeyOf(ls, l));
      TurnedRow(l, r, ls.schema, rs.schema);
      if Matches(r, rs, l, ls) {
        ReorderedConcat([r + l], JoinOne(r, rs, left[1..], ls), rs.schema + ls.schema, ls.schema + rs.schema);
        GlueConcat([l], Bucket(left[1..], ls, Canon(KeyOf(rs, r))), r);
      }
    }
  }

  /** Nested loops with the sides exchanged, in the other order of columns, are what a hash join yields. */
  lemma {:induction false} NestedLoopTurned(left: seq<Row>, ls: Side, right: seq<Row>, rs: Side)
    requires Distinct(ls.schema) && Distinct(rs.schema) && Apart(ls.schema, rs.schema)
    requires Wide(left, |ls.schema|) && Wide(right, |rs.schema|)
    ensures Reordered(NestedLoop(right, rs, left, ls), rs.schema + ls.schema, ls.schema + rs.schema)
      == HashRows(left, ls, right, rs)
  {
    hide Rearrange, Glue, Bucket, Canon, KeyOf;
    if right != [] {
      NestedLoopTurned(left, ls, right[1..], rs);
      JoinOneTurned(right[0], rs, left, ls);
      ReorderedConcat(JoinOne(right[0], rs, left, ls), NestedLoop(right[1..], rs, left, ls),
        rs.schema + ls.schema, ls.schema + rs.schema);
    }
  }

  lemma {:induction false} SchemaDistinct(p: Plan, db: Database)
    requires DatabaseOk(db) && Relational(p, db)
    ensures Distinct(Schema(p, db))
  {
    match p
    case Scan(t, _) => assert Rectangular(db[t]);
    case Filter(c, _) => SchemaDistinct(c, db);
    case Join(l, r, _, _) =>
      SchemaDistinct(l, db);
      SchemaDistinct(r, db);
      SidesApart(p, db);
      DistinctConcat(Schema(l, db), Schema(r, db));
  }

  lemma DistinctConcat(a: seq<ColName>, b: seq<ColName>)
    requires Distinct(a) && Distinct(b) && Apart(a, b)
    ensures Distinct(a + b)
  {
    assert forall i, j :: 0 <= i < |a| && 0 <= j < |b| ==> a[i] in a && b[j] in b && a[i] != b[j];
  }

  /** Joins commute, up to the order of rows and of columns. */
  lemma JoinCommutes(p: Plan, db: Database)
    requires DatabaseOk(db) && Relational(p, db) && p.Join?
    ensures var q := Join(p.right, p.left, p.rightKey, p.leftKey);
      Relational(q, db) && multiset(Reordered(Rows(q, db), Schema(q, db), Schema(p, db))) == multiset(Rows(p, db))
  {
    hide Relational, Rows, Schema, NestedLoop, HashRows, Reordered;
    var l, r := p.left, p.right;
    var ls, rs := Side(p.leftKey, Schema(l, db)), Side(p.rightKey, Schema(r, db));
    JoinParts(p, db);
    NestedLoopTurned(Rows(l, db), ls, Rows(r, db), rs);
    HashJoinSameRows(Rows(l, db), ls, Rows(r, db), rs);
  }

  lemma JoinParts(p: Plan, db: Database)
    requires DatabaseOk(db) && Relational(p, db) && p.Join?
    ensures var q := Join(p.right, p.left, p.rightKey, p.leftKey);
      var ls, rs := Side(p.leftKey, Schema(p.left, db)), Side(p.rightKey, Schema(p.right, db));
      && Relational(q, db) && Schema(q, db) == rs.schema + ls.schema && Schema(p, db) == ls.schema + rs.schema
      && Rows(q, db) == NestedLoop(Rows(p.right, db), rs, Rows(p.left, db), ls)
      && Rows(p, db) == NestedLoop(Rows(p.left, db), ls, Rows(p.right, db), rs)
      && Distinct(ls.schema) && Distinct(rs.schema) && Apart(ls.schema, rs.schema)
      && Wide(Rows(p.left, db), |ls.schema|) && Wide(Rows(p.right, db), |rs.schema|)
  {
    hide NestedLoop, Wide, Distinct;
    SchemaDistinct(p.left, db);
    SchemaDistinct(p.right, db);
    RowsWide(p.left, db);
    RowsWide(p.right, db);
    SidesApart(p, db);
  }
}
