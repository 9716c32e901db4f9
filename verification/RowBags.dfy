/** Operators whose rows matter only as a bag, and only up to the order of columns. */
module RowBags {
  import opened BTreeNode
  import BTreeRuns
  import opened Expressions
  import opened QueryOptimizer
  import opened Evaluation
  import opened ColumnOrder

  // ---- Only bags of rows matter to the operators above ----

  ghost predicate Distributes<T(!new), U(!new)>(f: seq<T> -> seq<U>) {
    forall a, b :: f(a + b) == f(a) + f(b)
  }

  lemma Splits<T(!new), U(!new)>(f: seq<T> -> seq<U>, a: seq<T>, b: seq<T>)
    requires Distributes(f)
    ensures f(a + b) == f(a) + f(b)
  {
  }

  lemma TakenOut<T>(a: seq<T>, b: seq<T>) returns (front: seq<T>, back: seq<T>)
    requires a != [] && multiset(a) == multiset(b)
    ensures b == front + ([a[0]] + back) && multiset(a[1..]) == multiset(front + back)
  {
    hide RemoveAt;
    assert a[0] in multiset(b);
    var j :| 0 <= j < |b| && b[j] == a[0];
    front, back := b[..j], b[j + 1..];
    Without(a, 0);
    Without(b, j);
  }

  lemma Without<T>(a: seq<T>, j: nat)
    requires j < |a|
    ensures a == a[..j] + ([a[j]] + a[j + 1..])
    ensures multiset(a[..j] + a[j + 1..]) == multiset(a) - multiset{a[j]} && (j == 0 ==> a[..j] + a[j + 1..] == a[1..])
  {
    BTreeRuns.RemoveBag(a, j);
  }

  lemma {:induction false} BagThrough<T(!new), U(!new)>(f: seq<T> -> seq<U>, a: seq<T>, b: seq<T>)
    requires Distributes(f) && multiset(a) == multiset(b)
    ensures multiset(f(a)) == multiset(f(b))
  {
    hide Distributes;
    if a == [] {
      assert |multiset(b)| == 0;
      assert b == [];
    } else {
      var x := a[0];
      var front, back := TakenOut(a, b);
      assert a == [x] + a[1..];
      BagThrough(f, a[1..], front + back);
      Splits(f, [x], a[1..]);
      Splits(f, front, [x] + back);
      Splits(f, [x], back);
      Splits(f, front, back);
    }
  }

  lemma KeepBag(a: seq<Row>, b: seq<Row>, cs: seq<Expr>, schema: seq<ColName>)
    requires multiset(a) == multiset(b)
    ensures multiset(Keep(a, cs, schema)) == multiset(Keep(b, cs, schema))
  {
    var f := rows => Keep(rows, cs, schema);
    forall x, y
      ensures f(x + y) == f(x) + f(y)
    {
      KeepConcat(x, y, cs, schema);
    }
    BagThrough(f, a, b);
  }

  lemma ProjectConcat(a: seq<Row>, b: seq<Row>, items: seq<(Expr, ColName)>, schema: seq<ColName>)
    ensures Project(a + b, items, schema) == Project(a, items, schema) + Project(b, items, schema)
  {
    hide Eval;
  }

  lemma ProjectBag(a: seq<Row>, b: seq<Row>, items: seq<(Expr, ColName)>, schema: seq<ColName>)
    requires multiset(a) == multiset(b)
    ensures multiset(Project(a, items, schema)) == multiset(Project(b, items, schema))
  {
    var f := rows => Project(rows, items, schema);
    forall x, y
      ensures f(x + y) == f(x) + f(y)
    {
      ProjectConcat(x, y, items, schema);
    }
    BagThrough(f, a, b);
  }

  lemma {:induction false} JoinOneConcat(l: Row, ls: Side, a: seq<Row>, b: seq<Row>, rs: Side)
    ensures JoinOne(l, ls, a + b, rs) == JoinOne(l, ls, a, rs) + JoinOne(l, ls, b, rs)
  {
    if a == [] {
      assert a + b == b;
    } else {
      assert (a + b)[1..] == a[1..] + b;
      JoinOneConcat(l, ls, a[1..], b, rs);
    }
  }

  lemma {:induction false} NestedLoopConcat(a: seq<Row>, b: seq<Row>, ls: Side, right: seq<Row>, rs: Side)
    ensures NestedLoop(a + b, ls, right, rs) == NestedLoop(a, ls, right, rs) + NestedLoop(b, ls, right, rs)
  {
    if a == [] {
      assert a + b == b;
    } else {
      assert (a + b)[1..] == a[1..] + b;
      NestedLoopConcat(a[1..], b, ls, right, rs);
    }
  }

  lemma {:induction false} NestedLoopRightBag(left: seq<Row>, ls: Side, a: seq<Row>, b: seq<Row>, rs: Side)
    requires multiset(a) == multiset(b)
    ensures multiset(NestedLoop(left, ls, a, rs)) == multiset(NestedLoop(left, ls, b, rs))
  {
    if left != [] {
      var f := rows => JoinOne(left[0], ls, rows, rs);
      forall x, y
        ensures f(x + y) == f(x) + f(y)
      {
        JoinOneConcat(left[0], ls, x, y, rs);
      }
      BagThrough(f, a, b);
      NestedLoopRightBag(left[1..], ls, a, b, rs);
    }
  }

  /** The join's bag of rows depends only on the bags it joins. */
  lemma NestedLoopBag(a: seq<Row>, b: seq<Row>, ls: Side, x: seq<Row>, y: seq<Row>, rs: Side)
    requires multiset(a) == multiset(b) && multiset(x) == multiset(y)
    ensures multiset(NestedLoop(a, ls, x, rs)) == multiset(NestedLoop(b, ls, y, rs))
  {
    var f := rows => NestedLoop(rows, ls, x, rs);
    forall u, v
      ensures f(u + v) == f(u) + f(v)
    {
      NestedLoopConcat(u, v, ls, x, rs);
    }
    BagThrough(f, a, b);
    NestedLoopRightBag(b, ls, x, y, rs);
  }

  lemma ReorderedBag(x: seq<Row>, y: seq<Row>, a: seq<ColName>, b: seq<ColName>)
    requires multiset(x) == multiset(y)
    ensures multiset(Reordered(x, a, b)) == multiset(Reordered(y, a, b))
  {
    var f := rows => Reordered(rows, a, b);
    forall u, v
      ensures f(u + v) == f(u) + f(v)
    {
      ReorderedConcat(u, v, a, b);
    }
    BagThrough(f, x, y);
  }

  lemma SameMembers<T>(x: seq<T>, y: seq<T>)
    requires multiset(x) == multiset(y)
    ensures |x| == |y| && forall v :: v in x <==> v in y
  {
    assert |multiset(x)| == |x| && |multiset(y)| == |y|;
    forall v
      ensures v in x <==> v in y
    {
      assert v in x <==> v in multiset(x);
      assert v in y <==> v in multiset(y);
    }
  }

  // ---- Rows under columns `a` that are the rows `want` under columns `b` ----

  ghost predicate Gives(rows: seq<Row>, a: seq<ColName>, b: seq<ColName>, want: seq<Row>) {
    && multiset(a) == multiset(b) && Wide(rows, |a|)
    && multiset(Reordered(rows, a, b)) == multiset(want)
  }

  lemma GivesSame(rows: seq<Row>, a: seq<ColName>, want: seq<Row>)
    requires Distinct(a) && Wide(want, |a|)
    ensures multiset(rows) == multiset(want) <==> Gives(rows, a, a, want)
  {
    if multiset(rows) == multiset(want) {
      WideBag(rows, want, |a|);
    }
    if Wide(rows, |a|) {
      ReorderedSame(rows, a);
    }
  }

  lemma WideBag(x: seq<Row>, y: seq<Row>, n: nat)
    requires multiset(x) == multiset(y) && Wide(y, n)
    ensures Wide(x, n)
  {
    SameMembers(x, y);
    forall i | 0 <= i < |x|
      ensures |x[i]| == n
    {
      assert x[i] in y;
    }
  }

  lemma GivesEach(rows: seq<Row>, a: seq<ColName>, b: seq<ColName>, want: seq<Row>)
    requires Gives(rows, a, b, want)
    ensures forall n :: n in a <==> n in b
    ensures forall row :: row in rows ==> Rearrange(row, a, b) in want
    ensures forall row :: row in want ==> exists i :: 0 <= i < |rows| && row == Rearrange(rows[i], a, b)
  {
    SameMembers(a, b);
    SameMembers(Reordered(rows, a, b), want);
    forall row | row in rows
      ensures Rearrange(row, a, b) in want
    {
      var i :| 0 <= i < |rows| && rows[i] == row;
      assert Reordered(rows, a, b)[i] in want;
    }
    forall row | row in want
      ensures exists i :: 0 <= i < |rows| && row == Rearrange(rows[i], a, b)
    {
      var i :| 0 <= i < |rows| && Reordered(rows, a, b)[i] == row;
    }
  }

  /** An expression can be evaluated on the rows in one order of columns exactly when it can in the other. */
  lemma GivesEvaluate(rows: seq<Row>, a: seq<ColName>, b: seq<ColName>, want: seq<Row>, e: Expr)
    requires Gives(rows, a, b, want) && Binds(e, b)
    ensures AllEvaluate(e, a, rows) <==> AllEvaluate(e, b, want)
  {
    hide Evaluates, Eval, Rearrange, Gives;
    GivesEach(rows, a, b, want);
    forall i | 0 <= i < |rows|
      ensures Evaluates(e, b, Rearrange(rows[i], a, b)) <==> Evaluates(e, a, rows[i])
    {
      EvalKept(e, a, b, rows[i]);
    }
    if AllEvaluate(e, b, want) {
      forall row | row in rows
        ensures Evaluates(e, a, row)
      {
        EvalKept(e, a, b, row);
      }
    }
  }

  lemma {:induction false} BindsSame(e: Expr, a: seq<ColName>, b: seq<ColName>)
    requires forall n :: n in a <==> n in b
    ensures Binds(e, a) <==> Binds(e, b)
  {
    match e
    case ColumnRef(_) =>
    case Literal(_) =>
    case Comparison(x, _, y) => BindsSame(x, a, b); BindsSame(y, a, b);
    case And(x, y) => BindsSame(x, a, b); BindsSame(y, a, b);
    case Or(x, y) => BindsSame(x, a, b); BindsSame(y, a, b);
  }

  lemma GivesKept(rows: seq<Row>, a: seq<ColName>, b: seq<ColName>, want: seq<Row>, e: Expr)
    requires Gives(rows, a, b, want) && Binds(e, b)
    ensures Binds(e, a) && Gives(Keep(rows, [e], a), a, b, Keep(want, [e], b))
  {
    hide Reordered, Binds, Keep;
    GivesNames(rows, a, b, want);
    BindsSame(e, a, b);
    KeepReordered(rows, e, a, b);
    KeepBag(Reordered(rows, a, b), want, [e], b);
    KeepWide(rows, [e], a, |a|);
  }

  lemma GivesBag(rows: seq<Row>, a: seq<ColName>, b: seq<ColName>, want: seq<Row>, same: seq<Row>)
    requires Gives(rows, a, b, want) && multiset(want) == multiset(same)
    ensures Gives(rows, a, b, same)
  {
  }

  lemma GivesCount(rows: seq<Row>, a: seq<ColName>, b: seq<ColName>, want: seq<Row>)
    requires Gives(rows, a, b, want)
    ensures |rows| == |want|
  {
    SameMembers(Reordered(rows, a, b), want);
  }

  lemma GivesNames(rows: seq<Row>, a: seq<ColName>, b: seq<ColName>, want: seq<Row>)
    requires Gives(rows, a, b, want)
    ensures |a| == |b| && forall n :: n in a <==> n in b
  {
    SameMembers(a, b);
  }

  lemma GivesProjected(rows: seq<Row>, a: seq<ColName>, b: seq<ColName>, want: seq<Row>, items: seq<(Expr, ColName)>)
    requires Gives(rows, a, b, want)
    ensures ItemsBind(items, a) <==> ItemsBind(items, b)
    ensures ItemsBind(items, b) ==>
      && (ItemsEvaluate(items, a, rows) <==> ItemsEvaluate(items, b, want))
      && multiset(Project(rows, items, a)) == multiset(Project(want, items, b))
  {
    hide Project, Binds, AllEvaluate, Reordered;
    GivesNames(rows, a, b, want);
    forall i | 0 <= i < |items|
      ensures Binds(items[i].0, a) <==> Binds(items[i].0, b)
      ensures Binds(items[i].0, b) ==> (AllEvaluate(items[i].0, a, rows) <==> AllEvaluate(items[i].0, b, want))
    {
      BindsSame(items[i].0, a, b);
      if Binds(items[i].0, b) {
        GivesEvaluate(rows, a, b, want, items[i].0);
      }
    }
    if ItemsBind(items, b) {
      ProjectReordered(rows, items, a, b);
      ProjectBag(Reordered(rows, a, b), want, items, b);
    }
  }

  /** The two sides of a join as its children give them. */
  ghost predicate GivesSides(left: seq<Row>, ls: Side, lb: seq<ColName>, wantL: seq<Row>,
                             right: seq<Row>, rs: Side, rb: seq<ColName>, wantR: seq<Row>) {
    && Gives(left, ls.schema, lb, wantL) && Gives(right, rs.schema, rb, wantR)
    && ls.key in lb && rs.key in rb && Apart(lb, rb)
  }

  lemma GivesJoined(rows: seq<Row>, left: seq<Row>, ls: Side, lb: seq<ColName>, wantL: seq<Row>,
                    right: seq<Row>, rs: Side, rb: seq<ColName>, wantR: seq<Row>)
    requires GivesSides(left, ls, lb, wantL, right, rs, rb, wantR)
    requires multiset(rows) == multiset(NestedLoop(left, ls, right, rs))
    ensures ls.key in ls.schema && rs.key in rs.schema
    ensures Gives(rows, ls.schema + rs.schema, lb + rb, NestedLoop(wantL, Side(ls.key, lb), wantR, Side(rs.key, rb)))
  {
    hide NestedLoop, Reordered;
    var la, ra := ls.schema, rs.schema;
    GivesNames(left, la, lb, wantL);
    GivesNames(right, ra, rb, wantR);
    NestedLoopReordered(left, right, ls.key, la, lb, rs.key, ra, rb);
    ReorderedBag(rows, NestedLoop(left, ls, right, rs), la + ra, lb + rb);
    NestedLoopBag(Reordered(left, la, lb), wantL, Side(ls.key, lb), Reordered(right, ra, rb), wantR, Side(rs.key, rb));
    JoinWide(left, ls, right, rs, |la|, |ra|);
    WideBag(rows, NestedLoop(left, ls, right, rs), |la| + |ra|);
  }

  /** What gives a join with its sides exchanged gives the join. */
  lemma GivesTurned(rows: seq<Row>, a: seq<ColName>, p: Plan, db: Database)
    requires DatabaseOk(db) && Relational(p, db) && p.Join?
    requires var q := Join(p.right, p.left, p.rightKey, p.leftKey); Gives(rows, a, Schema(q, db), Rows(q, db))
    ensures Gives(rows, a, Schema(p, db), Rows(p, db))
  {
    hide Relational, Rows, Reordered;
    var q := Join(p.right, p.left, p.rightKey, p.leftKey);
    var b, c := Schema(q, db), Schema(p, db);
    assert multiset(b) == multiset(c);
    SameMembers(b, c);
    JoinCommutes(p, db);
    ReorderedTwice(rows, a, b, c);
    ReorderedBag(Reordered(rows, a, b), Rows(q, db), b, c);
  }
}
