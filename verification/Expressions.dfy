/** Predicates over rows: evaluation, binding, and taking conjunctions apart. */
module Expressions {
  import opened Options

  datatype Value = IntVal(i: int) | FloatVal(r: real) | BoolVal(b: bool) | TextVal(s: string)

  type Row = seq<Value>

  /** A column name, split at its dot if it has one. */
  datatype ColName = Qualified(table: string, column: string) | Bare(name: string)

  datatype Op = EQ | NEQ | LT | LTE | GT | GTE

  datatype Expr =
    | ColumnRef(name: ColName)
    | Literal(value: Value)
    | Comparison(left: Expr, op: Op, right: Expr)
    | And(left: Expr, right: Expr)
    | Or(left: Expr, right: Expr)

  // ---- Values ----

  function Number(v: Value): Option<real> {
    match v
    case IntVal(i) => Some(i as real)
    case FloatVal(r) => Some(r)
    case BoolVal(b) => Some(if b then 1.0 else 0.0)
    case TextVal(_) => None
  }

  /** Numbers of different types are equal when their values are; a text equals no number. */
  predicate Same(a: Value, b: Value) {
    if Number(a).Some? && Number(b).Some? then Number(a).value == Number(b).value else a == b
  }

  predicate TextLess(a: string, b: string) {
    if b == [] then false
    else if a == [] then true
    else a[0] < b[0] || (a[0] == b[0] && TextLess(a[1..], b[1..]))
  }

  /** False for a text and a number, where the order raises; `Evaluates` says where that happens. */
  predicate Less(a: Value, b: Value) {
    if Number(a).Some? && Number(b).Some? then Number(a).value < Number(b).value
    else a.TextVal? && b.TextVal? && TextLess(a.s, b.s)
  }

  predicate Compare(op: Op, a: Value, b: Value) {
    match op
    case EQ => Same(a, b)
    case NEQ => !Same(a, b)
    case LT => Less(a, b)
    case LTE => Less(a, b) || Same(a, b)
    case GT => Less(b, a)
    case GTE => Less(b, a) || Same(a, b)
  }

  predicate Truthy(v: Value) {
    match v
    case IntVal(i) => i != 0
    case FloatVal(r) => r != 0.0
    case BoolVal(b) => b
    case TextVal(s) => s != []
  }

  // ---- Evaluation ----

  /** Where a bound name points; a later column of the same name hides an earlier one. */
  function IndexIn(schema: seq<ColName>, n: ColName): (i: Option<nat>)
    ensures i.Some? <==> n in schema
    ensures i.Some? ==> i.value < |schema| && schema[i.value] == n
  {
    if schema == [] then None
    else if schema[|schema| - 1] == n then Some(|schema| - 1)
    else IndexIn(schema[..|schema| - 1], n)
  }

  /** All the names in `e` are columns of `schema`. */
  predicate Binds(e: Expr, schema: seq<ColName>) {
    match e
    case ColumnRef(n) => n in schema
    case Literal(_) => true
    case Comparison(l, _, r) => Binds(l, schema) && Binds(r, schema)
    case And(l, r) => Binds(l, schema) && Binds(r, schema)
    case Or(l, r) => Binds(l, schema) && Binds(r, schema)
  }

  /** An unbound name, which the engine refuses beforehand, evaluates to false. */
  function Column(n: ColName, schema: seq<ColName>, row: Row): Value {
    var i := IndexIn(schema, n);
    if i.Some? && i.value < |row| then row[i.value] else BoolVal(false)
  }

  function Eval(e: Expr, schema: seq<ColName>, row: Row): Value {
    match e
    case ColumnRef(n) => Column(n, schema, row)
    case Literal(v) => v
    case Comparison(l, op, r) => BoolVal(Compare(op, Eval(l, schema, row), Eval(r, schema, row)))
    case And(l, r) => if Truthy(Eval(l, schema, row)) then Eval(r, schema, row) else Eval(l, schema, row)
    case Or(l, r) => if Truthy(Eval(l, schema, row)) then Eval(l, schema, row) else Eval(r, schema, row)
  }

  predicate Comparable(a: Value, b: Value) {
    Number(a).Some? <==> Number(b).Some?
  }

  /** No ordering of a text with a number comes up; both sides of And and Or are always evaluated. */
  predicate Evaluates(e: Expr, schema: seq<ColName>, row: Row) {
    match e
    case ColumnRef(_) => true
    case Literal(_) => true
    case Comparison(l, op, r) =>
      && Evaluates(l, schema, row) && Evaluates(r, schema, row)
      && (op != EQ && op != NEQ ==> Comparable(Eval(l, schema, row), Eval(r, schema, row)))
    case And(l, r) => Evaluates(l, schema, row) && Evaluates(r, schema, row)
    case Or(l, r) => Evaluates(l, schema, row) && Evaluates(r, schema, row)
  }

  predicate Holds(e: Expr, schema: seq<ColName>, row: Row) {
    Truthy(Eval(e, schema, row))
  }

  predicate AllHold(cs: seq<Expr>, schema: seq<ColName>, row: Row) {
    forall i :: 0 <= i < |cs| ==> Holds(cs[i], schema, row)
  }

  ghost predicate AllBind(cs: seq<Expr>, schema: seq<ColName>) {
    forall i :: 0 <= i < |cs| ==> Binds(cs[i], schema)
  }

  // ---- Conjunctions ----

  function SplitConjuncts(e: Expr): (cs: seq<Expr>)
    ensures cs != []
  {
    match e
    case And(l, r) => SplitConjuncts(l) + SplitConjuncts(r)
    case _ => [e]
  }

  /** The left-nested conjunction of all of `cs`. */
  function Combine(cs: seq<Expr>): Option<Expr> {
    if cs == [] then None
    else if |cs| == 1 then Some(cs[0])
    else Some(And(Combine(cs[..|cs| - 1]).value, cs[|cs| - 1]))
  }

  method CombineConjuncts(conjuncts: seq<Expr>) returns (combined: Option<Expr>)
    ensures combined == Combine(conjuncts)
  {
    if conjuncts == [] {
      return None;
    }
    var e := conjuncts[0];
    var i := 1;
    while i < |conjuncts|
      invariant 1 <= i <= |conjuncts| && Some(e) == Combine(conjuncts[..i])
    {
      assert conjuncts[..i + 1][..i] == conjuncts[..i];
      e := And(e, conjuncts[i]);
      i := i + 1;
    }
    assert conjuncts[..i] == conjuncts;
    combined := Some(e);
  }

  /** Taking a predicate apart, however And and Or nest in it, keeps what it accepts and what it refers to. */
  lemma {:induction false} SplitHolds(e: Expr, schema: seq<ColName>, row: Row)
    ensures AllHold(SplitConjuncts(e), schema, row) <==> Holds(e, schema, row)
    ensures AllBind(SplitConjuncts(e), schema) <==> Binds(e, schema)
  {
    if e.And? {
      SplitHolds(e.left, schema, row);
      SplitHolds(e.right, schema, row);
      JoinHolds(SplitConjuncts(e.left), SplitConjuncts(e.right), schema, row);
    } else {
      assert SplitConjuncts(e) == [e] && [e][0] == e;
    }
  }

  lemma JoinHolds(a: seq<Expr>, b: seq<Expr>, schema: seq<ColName>, row: Row)
    ensures AllHold(a + b, schema, row) <==> AllHold(a, schema, row) && AllHold(b, schema, row)
    ensures AllBind(a + b, schema) <==> AllBind(a, schema) && AllBind(b, schema)
  {
    assert forall i :: 0 <= i < |a| ==> (a + b)[i] == a[i];
    assert forall i :: 0 <= i < |b| ==> (a + b)[|a| + i] == b[i];
  }

  /** Putting conjuncts together keeps it too. */
  lemma {:induction false} CombineHolds(cs: seq<Expr>, schema: seq<ColName>, row: Row)
    requires cs != []
    ensures Combine(cs).Some?
    ensures Holds(Combine(cs).value, schema, row) <==> AllHold(cs, schema, row)
    ensures Binds(Combine(cs).value, schema) <==> AllBind(cs, schema)
  {
    if |cs| > 1 {
      var n := |cs| - 1;
      CombineHolds(cs[..n], schema, row);
      JoinHolds(cs[..n], [cs[n]], schema, row);
      assert cs == cs[..n] + [cs[n]];
      assert AllHold([cs[n]], schema, row) <==> Holds(cs[n], schema, row);
      assert AllBind([cs[n]], schema) <==> Binds(cs[n], schema);
    }
  }

  ghost predicate EachEvaluates(cs: seq<Expr>, schema: seq<ColName>, row: Row) {
    forall i :: 0 <= i < |cs| ==> Evaluates(cs[i], schema, row)
  }

  /** Taking a predicate apart, or putting conjuncts together, keeps what it can be evaluated on. */
  lemma {:induction false} SplitEvaluates(e: Expr, schema: seq<ColName>, row: Row)
    ensures EachEvaluates(SplitConjuncts(e), schema, row) <==> Evaluates(e, schema, row)
  {
    if e.And? {
      SplitEvaluates(e.left, schema, row);
      SplitEvaluates(e.right, schema, row);
      var a, b := SplitConjuncts(e.left), SplitConjuncts(e.right);
      assert forall i :: 0 <= i < |a| ==> (a + b)[i] == a[i];
      assert forall i :: 0 <= i < |b| ==> (a + b)[|a| + i] == b[i];
    } else {
      assert SplitConjuncts(e) == [e] && [e][0] == e;
    }
  }

  lemma {:induction false} CombineEvaluates(cs: seq<Expr>, schema: seq<ColName>, row: Row)
    requires cs != []
    ensures Combine(cs).Some? && (Evaluates(Combine(cs).value, schema, row) <==> EachEvaluates(cs, schema, row))
  {
    if |cs| > 1 {
      CombineEvaluates(cs[..|cs| - 1], schema, row);
    }
  }

  // ---- Tables referred to ----

  function TableOf(n: ColName): string {
    match n
    case Qualified(t, _) => t
    case Bare(name) => name
  }

  function ReferencedTables(e: Expr): set<string> {
    match e
    case ColumnRef(n) => {TableOf(n)}
    case Literal(_) => {}
    case Comparison(l, _, r) => ReferencedTables(l) + ReferencedTables(r)
    case And(l, r) => ReferencedTables(l) + ReferencedTables(r)
    case Or(l, r) => ReferencedTables(l) + ReferencedTables(r)
  }

  // ---- Filtering ----

  /** The rows on which all of `cs` hold, in order. */
  function Keep(rows: seq<Row>, cs: seq<Expr>, schema: seq<ColName>): seq<Row> {
    if rows == [] then []
    else (if AllHold(cs, schema, rows[0]) then [rows[0]] else []) + Keep(rows[1..], cs, schema)
  }

  lemma {:induction false} KeepConcat(a: seq<Row>, b: seq<Row>, cs: seq<Expr>, schema: seq<ColName>)
    ensures Keep(a + b, cs, schema) == Keep(a, cs, schema) + Keep(b, cs, schema)
  {
    if a == [] {
      assert a + b == b;
    } else {
      assert (a + b)[1..] == a[1..] + b;
      KeepConcat(a[1..], b, cs, schema);
    }
  }

  lemma KeepOne(row: Row, cs: seq<Expr>, schema: seq<ColName>)
    ensures Keep([row], cs, schema) == if AllHold(cs, schema, row) then [row] else []
  {
    assert [row][1..] == [];
    assert Keep([], cs, schema) == [];
  }

  lemma {:induction false} KeepTwice(rows: seq<Row>, a: seq<Expr>, b: seq<Expr>, schema: seq<ColName>)
    ensures Keep(Keep(rows, a, schema), b, schema) == Keep(rows, a + b, schema)
  {
    if rows != [] {
      JoinHolds(a, b, schema, rows[0]);
      KeepTwice(rows[1..], a, b, schema);
      if AllHold(a, schema, rows[0]) {
        KeepConcat([rows[0]], Keep(rows[1..], a, schema), b, schema);
        KeepOne(rows[0], b, schema);
      } else {
        assert Keep(rows, a, schema) == Keep(rows[1..], a, schema);
        assert Keep(rows, a + b, schema) == Keep(rows[1..], a + b, schema);
      }
    }
  }

  /** Only what the conditions accept matters. */
  lemma {:induction false} KeepSame(rows: seq<Row>, a: seq<Expr>, b: seq<Expr>, schema: seq<ColName>)
    requires forall row :: AllHold(a, schema, row) <==> AllHold(b, schema, row)
    ensures Keep(rows, a, schema) == Keep(rows, b, schema)
  {
    if rows != [] {
      KeepSame(rows[1..], a, b, schema);
    }
  }
}
