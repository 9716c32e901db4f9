/** What evaluation says, in terms of the numbers and texts compared and of the truth of the parts. */
module ExpressionLaws {
  import opened Options
  import opened Expressions

  // ---- Comparisons ----

  /** What a value measures: True and False are 1 and 0. */
  function Measure(v: Value): real
    requires !v.TextVal?
  {
    if v.IntVal? then v.i as real else if v.FloatVal? then v.r else if v.b then 1.0 else 0.0
  }

  predicate NumbersRelate(op: Op, x: real, y: real) {
    match op
    case EQ => x == y
    case NEQ => x < y || y < x
    case LT => x < y
    case LTE => x <= y
    case GT => x > y
    case GTE => x >= y
  }

  /** `a` comes first where the two texts first differ, the end of a text before any letter. */
  ghost predicate DiffersAt(a: string, b: string, k: int) {
    && 0 <= k <= |a| && k < |b| && a[..k] == b[..k]
    && (k < |a| ==> a[k] < b[k])
  }

  ghost predicate Precedes(a: string, b: string) {
    exists k :: DiffersAt(a, b, k)
  }

  ghost predicate TextsRelate(op: Op, a: string, b: string) {
    match op
    case EQ => a == b
    case NEQ => a != b
    case LT => Precedes(a, b)
    case LTE => !Precedes(b, a)
    case GT => Precedes(b, a)
    case GTE => !Precedes(a, b)
  }

  /** Numbers by what they measure, texts by their letters; a text and a number are just not equal. */
  ghost predicate Related(op: Op, a: Value, b: Value) {
    if !a.TextVal? && !b.TextVal? then NumbersRelate(op, Measure(a), Measure(b))
    else if a.TextVal? && b.TextVal? then TextsRelate(op, a.s, b.s)
    else op == NEQ
  }

  lemma {:induction false} TextLessIff(a: string, b: string)
    ensures TextLess(a, b) <==> Precedes(a, b)
  {
    if a != [] && b != [] && a[0] == b[0] {
      TextLessIff(a[1..], b[1..]);
      if TextLess(a[1..], b[1..]) {
        var k :| DiffersAt(a[1..], b[1..], k);
        assert a[..k + 1] == [a[0]] + a[1..][..k] && b[..k + 1] == [b[0]] + b[1..][..k];
        assert DiffersAt(a, b, k + 1);
      }
      if k :| DiffersAt(a, b, k) {
        assert k != 0 && a[1..][..k - 1] == a[..k][1..] && b[1..][..k - 1] == b[..k][1..];
        assert DiffersAt(a[1..], b[1..], k - 1);
      }
    } else if TextLess(a, b) {
      assert DiffersAt(a, b, 0);
    } else {
      forall k | 0 < k <= |a| && k < |b|
        ensures a[..k] != b[..k]
      {
        assert a[..k][0] == a[0] && b[..k][0] == b[0];
      }
    }
  }

  /** Of two texts one comes before the other, or they are the same. */
  lemma {:induction false} TextTotal(a: string, b: string)
    ensures a == b ==> !TextLess(a, b) && !TextLess(b, a)
    ensures a != b ==> (TextLess(a, b) <==> !TextLess(b, a))
  {
    if a != [] && b != [] && a[0] == b[0] {
      TextTotal(a[1..], b[1..]);
      assert a == [a[0]] + a[1..] && b == [b[0]] + b[1..];
    }
  }

  lemma {:induction false} TextTransitive(a: string, b: string, c: string)
    requires TextLess(a, b) && TextLess(b, c)
    ensures TextLess(a, c)
  {
    if a != [] && a[0] == b[0] == c[0] {
      TextTransitive(a[1..], b[1..], c[1..]);
    }
  }

  /** Every operator relates numbers by their values and texts by their total order, equal ones included. */
  lemma CompareIff(op: Op, a: Value, b: Value)
    requires Comparable(a, b) || op in {EQ, NEQ}
    ensures Compare(op, a, b) <==> Related(op, a, b)
  {
    if a.TextVal? && b.TextVal? {
      TextTotal(a.s, b.s);
      TextLessIff(a.s, b.s);
      TextLessIff(b.s, a.s);
    }
  }

  // ---- Truth ----

  /** A value counts as true unless it measures zero or is the empty text. */
  predicate Affirms(v: Value) {
    if v.TextVal? then |v.s| > 0 else Measure(v) != 0.0
  }

  /** What a predicate accepts, by the logic of its parts. */
  ghost predicate Accepts(e: Expr, schema: seq<ColName>, row: Row) {
    match e
    case ColumnRef(_) => Affirms(Eval(e, schema, row))
    case Literal(v) => Affirms(v)
    case Comparison(l, op, r) => Related(op, Eval(l, schema, row), Eval(r, schema, row))
    case And(l, r) => Accepts(l, schema, row) && Accepts(r, schema, row)
    case Or(l, r) => Accepts(l, schema, row) || Accepts(r, schema, row)
  }

  /** Evaluating a predicate gives a true value exactly on the rows it should accept. */
  lemma {:induction false} HoldsIff(e: Expr, schema: seq<ColName>, row: Row)
    requires Evaluates(e, schema, row)
    ensures Holds(e, schema, row) <==> Accepts(e, schema, row)
  {
    match e
    case ColumnRef(_) =>
    case Literal(_) =>
    case Comparison(l, op, r) => CompareIff(op, Eval(l, schema, row), Eval(r, schema, row));
    case And(l, r) => HoldsIff(l, schema, row); HoldsIff(r, schema, row);
    case Or(l, r) => HoldsIff(l, schema, row); HoldsIff(r, schema, row);
  }

  lemma OrHolds(a: Expr, b: Expr, schema: seq<ColName>, row: Row)
    ensures Holds(Or(a, b), schema, row) <==> Holds(a, schema, row) || Holds(b, schema, row)
  {
  }

  // ---- Names ----

  /** The column names in an expression, from left to right. */
  function Names(e: Expr): seq<ColName> {
    match e
    case ColumnRef(n) => [n]
    case Literal(_) => []
    case Comparison(l, _, r) => Names(l) + Names(r)
    case And(l, r) => Names(l) + Names(r)
    case Or(l, r) => Names(l) + Names(r)
  }

  /** An expression binds when all its names do, and refers to the tables in front of their dots. */
  lemma {:induction false} NamesDecide(e: Expr, schema: seq<ColName>)
    ensures Binds(e, schema) <==> forall n :: n in Names(e) ==> n in schema
    ensures forall t :: t in ReferencedTables(e) <==> exists n :: n in Names(e) && t == TableOf(n)
  {
    match e
    case ColumnRef(_) =>
    case Literal(_) =>
    case Comparison(l, _, r) => NamesDecide(l, schema); NamesDecide(r, schema);
    case And(l, r) => NamesDecide(l, schema); NamesDecide(r, schema);
    case Or(l, r) => NamesDecide(l, schema); NamesDecide(r, schema);
  }

  /** Of several columns with one name the last is found. */
  lemma {:induction false} LastFound(schema: seq<ColName>, n: ColName, i: nat)
    requires i < |schema| && schema[i] == n
    ensures IndexIn(schema, n).Some? && i <= IndexIn(schema, n).value
  {
    if schema[|schema| - 1] != n {
      LastFound(schema[..|schema| - 1], n, i);
    }
  }

  /** A column of distinct names is found by its name. */
  lemma {:induction false} ColumnFound(schema: seq<ColName>, row: Row, i: nat)
    requires i < |schema| <= |row| && forall j :: 0 <= j < |schema| && j != i ==> schema[j] != schema[i]
    ensures Eval(ColumnRef(schema[i]), schema, row) == row[i]
  {
    if i < |schema| - 1 {
      ColumnFound(schema[..|schema| - 1], row, i);
    }
  }

  // ---- Evaluation that can raise ----

  /** The value, or None where the source raises: a name not found, or a text put in order with a number. */
  function ValueOf(e: Expr, schema: seq<ColName>, row: Row): Option<Value> {
    match e
    case ColumnRef(n) =>
      var i := IndexIn(schema, n);
      if i.Some? && i.value < |row| then Some(row[i.value]) else None
    case Literal(v) => Some(v)
    case Comparison(l, op, r) =>
      var x, y := ValueOf(l, schema, row), ValueOf(r, schema, row);
      if x.None? || y.None? || (op !in {EQ, NEQ} && x.value.TextVal? != y.value.TextVal?) then None
      else Some(BoolVal(Compare(op, x.value, y.value)))
    case And(l, r) =>
      var x, y := ValueOf(l, schema, row), ValueOf(r, schema, row);
      if x.None? || y.None? then None else if Truthy(x.value) then y else x
    case Or(l, r) =>
      var x, y := ValueOf(l, schema, row), ValueOf(r, schema, row);
      if x.None? || y.None? then None else if Truthy(x.value) then x else y
  }

  /** On a full row under the names it uses, an expression has a value exactly when no text is put in order with a number. */
  lemma {:induction false} ValueIff(e: Expr, schema: seq<ColName>, row: Row)
    requires Binds(e, schema) && |row| == |schema|
    ensures ValueOf(e, schema, row) == if Evaluates(e, schema, row) then Some(Eval(e, schema, row)) else None
  {
    match e
    case ColumnRef(_) =>
    case Literal(_) =>
    case Comparison(l, _, r) => ValueIff(l, schema, row); ValueIff(r, schema, row);
    case And(l, r) => ValueIff(l, schema, row); ValueIff(r, schema, row);
    case Or(l, r) => ValueIff(l, schema, row); ValueIff(r, schema, row);
  }

  /** An unbound name has no value, whatever surrounds it. */
  lemma {:induction false} UnboundRaises(e: Expr, schema: seq<ColName>, row: Row)
    requires !Binds(e, schema)
    ensures ValueOf(e, schema, row).None?
  {
    match e
    case ColumnRef(_) =>
    case Literal(_) =>
    case Comparison(l, _, r) =>
      if Binds(l, schema) {
        UnboundRaises(r, schema, row);
      } else {
        UnboundRaises(l, schema, row);
      }
    case And(l, r) =>
      if Binds(l, schema) {
        UnboundRaises(r, schema, row);
      } else {
        UnboundRaises(l, schema, row);
      }
    case Or(l, r) =>
      if Binds(l, schema) {
        UnboundRaises(r, schema, row);
      } else {
        UnboundRaises(l, schema, row);
      }
  }
}
