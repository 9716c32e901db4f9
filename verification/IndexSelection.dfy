/** Choosing an index for a scan: the key range a predicate implies, and the plan that uses it. */
module IndexSelection {
  import opened Options
  import opened Bytes
  import opened Floats
  import opened LiteralKeys
  import opened Expressions

  /** Bounds are numbers of any kind; literals from SQL text are all floating point. */
  datatype Bounds = Bounds(start: Option<real>, end: Option<real>)

  // ---- The range a comparison implies ----

  function Higher(a: Option<real>, v: real): Option<real> {
    if a.None? || a.value < v then Some(v) else a
  }

  function Lower(a: Option<real>, v: real): Option<real> {
    if a.None? || v < a.value then Some(v) else a
  }

  /** Equality replaces both bounds; an inequality moves one of them inwards, a strict one by the rounded sum. */
  function Tighten(op: Op, v: real, b: Bounds): Bounds {
    match op
    case EQ => Bounds(Some(v), Some(v))
    case GT => b.(start := Higher(b.start, Rounded(v + 1.0)))
    case GTE => b.(start := Higher(b.start, v))
    case LT => b.(end := Lower(b.end, Rounded(v - 1.0)))
    case LTE => b.(end := Lower(b.end, v))
    case NEQ => b
  }

  predicate InBounds(k: int, b: Bounds) {
    && (b.start.Some? ==> b.start.value <= k as real)
    && (b.end.Some? ==> k as real <= b.end.value)
  }

  /** The column and the literal of a comparison between the two, either way round. */
  function ColumnAndLiteral(c: Expr): Option<(ColName, Value)> {
    if !c.Comparison? then None
    else if c.left.ColumnRef? && c.right.Literal? then Some((c.left.name, c.right.value))
    else if c.left.Literal? && c.right.ColumnRef? then Some((c.right.name, c.left.value))
    else None
  }

  function LastPart(n: ColName): string {
    match n
    case Qualified(_, column) => column
    case Bare(name) => name
  }

  /** The indexed column a conjunct compares with a literal. */
  function IndexedColumn(c: Expr, indices: set<string>): Option<string> {
    var cl := ColumnAndLiteral(c);
    if cl.Some? && LastPart(cl.value.0) in indices then Some(LastPart(cl.value.0)) else None
  }

  /** The first indexed column among the conjuncts: the one whose index is used. */
  function FirstIndexed(cs: seq<Expr>, indices: set<string>): Option<string> {
    if cs == [] then None
    else
      var before := FirstIndexed(cs[..|cs| - 1], indices);
      if before.Some? then before else IndexedColumn(cs[|cs| - 1], indices)
  }

  /** The comparison of a column with a literal, either way round. */
  predicate ComparesWith(c: Expr, n: ColName, v: Value)
    requires c.Comparison?
  {
    c == Comparison(ColumnRef(n), c.op, Literal(v)) || c == Comparison(Literal(v), c.op, ColumnRef(n))
  }

  /** A conjunct counts exactly when it compares a column that has an index with a literal. */
  lemma IndexedColumnIff(c: Expr, indices: set<string>, column: string)
    ensures IndexedColumn(c, indices) == Some(column) <==>
      c.Comparison? && column in indices && exists n, v :: ComparesWith(c, n, v) && LastPart(n) == column
  {
    var cl := ColumnAndLiteral(c);
    if cl.Some? {
      assert ComparesWith(c, cl.value.0, cl.value.1);
    }
  }

  /** The index used is that of the first conjunct that counts. */
  lemma {:induction false} FirstIndexedIff(cs: seq<Expr>, indices: set<string>, column: string)
    ensures FirstIndexed(cs, indices) == Some(column) <==>
      exists i :: FirstToCount(cs, indices, i) && IndexedColumn(cs[i], indices) == Some(column)
    ensures FirstIndexed(cs, indices).None? <==> NoneBefore(cs, indices, |cs|)
  {
    if cs != [] {
      var n := |cs| - 1;
      FirstIndexedIff(cs[..n], indices, column);
      assert forall i :: 0 <= i <= n ==> (NoneBefore(cs[..n], indices, i) <==> NoneBefore(cs, indices, i));
      assert forall i :: 0 <= i < n ==> (FirstToCount(cs[..n], indices, i) <==> FirstToCount(cs, indices, i));
    }
  }

  ghost predicate NoneBefore(cs: seq<Expr>, indices: set<string>, i: int)
    requires i <= |cs|
  {
    forall j :: 0 <= j < i ==> IndexedColumn(cs[j], indices).None?
  }

  ghost predicate FirstToCount(cs: seq<Expr>, indices: set<string>, i: int) {
    0 <= i < |cs| && IndexedColumn(cs[i], indices).Some? && NoneBefore(cs, indices, i)
  }

  /** A comparison of that column: the only kind that is folded into the range. */
  predicate Folded(c: Expr, column: Option<string>, indices: set<string>) {
    column.Some? && IndexedColumn(c, indices) == column
  }

  /** Comparisons of the chosen column are with numbers. */
  ghost predicate Numeric(cs: seq<Expr>, indices: set<string>) {
    forall i :: 0 <= i < |cs| && Folded(cs[i], FirstIndexed(cs, indices), indices) ==>
      Number(ColumnAndLiteral(cs[i]).value.1).Some?
  }

  lemma NumericBefore(cs: seq<Expr>, indices: set<string>)
    requires Numeric(cs, indices) && cs != []
    ensures Numeric(cs[..|cs| - 1], indices)
    ensures Folded(cs[|cs| - 1], FirstIndexed(cs, indices), indices) ==> Number(ColumnAndLiteral(cs[|cs| - 1]).value.1).Some?
  {
    var before := cs[..|cs| - 1];
    forall i | 0 <= i < |before| && Folded(before[i], FirstIndexed(before, indices), indices)
      ensures Number(ColumnAndLiteral(before[i]).value.1).Some?
    {
      assert before[i] == cs[i] && Folded(cs[i], FirstIndexed(cs, indices), indices);
    }
  }

  datatype Choice = Choice(column: Option<string>, bounds: Bounds)

  /** One conjunct of the loop: the first indexed column wins, and only its comparisons count. */
  function Consider(ch: Choice, c: Expr, indices: set<string>): Choice
    requires var col := IndexedColumn(c, indices);
      col.Some? && (ch.column.None? || ch.column == col) ==> Number(ColumnAndLiteral(c).value.1).Some?
  {
    var col := IndexedColumn(c, indices);
    if col.None? || (ch.column.Some? && ch.column != col) then ch
    else Choice(col, Tighten(c.op, Number(ColumnAndLiteral(c).value.1).value, ch.bounds))
  }

  function Choose(cs: seq<Expr>, indices: set<string>): (ch: Choice)
    requires Numeric(cs, indices)
    ensures ch.column == FirstIndexed(cs, indices)
  {
    if cs == [] then Choice(None, Bounds(None, None))
    else
      NumericBefore(cs, indices);
      Consider(Choose(cs[..|cs| - 1], indices), cs[|cs| - 1], indices)
  }

  lemma {:induction false} NumericFirst(cs: seq<Expr>, n: nat, indices: set<string>)
    requires Numeric(cs, indices) && n <= |cs|
    ensures Numeric(cs[..n], indices)
    decreases |cs|
  {
    if n == |cs| {
      assert cs[..n] == cs;
    } else {
      NumericBefore(cs, indices);
      assert cs[..|cs| - 1][..n] == cs[..n];
      NumericFirst(cs[..|cs| - 1], n, indices);
    }
  }

  datatype Lookup = Lookup(column: string, bounds: Bounds, residual: Expr)

  /** The index to use, the key range, and the whole predicate again as the residual. */
  method FindIndexLookup(indices: set<string>, pred: Option<Expr>) returns (r: Option<Lookup>)
    requires pred.Some? ==> Numeric(SplitConjuncts(pred.value), indices)
    ensures r.Some? <==> pred.Some? && Choose(SplitConjuncts(pred.value), indices).column.Some?
    ensures r.Some? ==> Choose(SplitConjuncts(pred.value), indices) == Choice(Some(r.value.column), r.value.bounds)
    ensures r.Some? ==> Some(r.value.residual) == Combine(SplitConjuncts(pred.value))
  {
    if pred.None? {
      return None;
    }
    var conjuncts := SplitConjuncts(pred.value);
    var indexCol: Option<string> := None;
    var bounds := Bounds(None, None);
    var i := 0;
    while i < |conjuncts|
      invariant 0 <= i <= |conjuncts| && Numeric(conjuncts[..i], indices)
      invariant Choice(indexCol, bounds) == Choose(conjuncts[..i], indices)
    {
      var c := conjuncts[i];
      NumericFirst(conjuncts, i + 1, indices);
      assert conjuncts[..i + 1][..i] == conjuncts[..i];
      NumericBefore(conjuncts[..i + 1], indices);
      i := i + 1;
      var cl := ColumnAndLiteral(c);
      if cl.None? {
        continue;
      }
      var colName := LastPart(cl.value.0);
      if colName !in indices {
        continue;
      }
      if indexCol.None? {
        indexCol := Some(colName);
      } else if Some(colName) != indexCol {
        continue;
      }
      bounds := Tighten(c.op, Number(cl.value.1).value, bounds);
    }
    assert conjuncts[..i] == conjuncts;
    if indexCol.None? {
      return None;
    }
    var residual := CombineConjuncts(conjuncts);
    r := Some(Lookup(indexCol.value, bounds, residual.value));
  }

  // ---- When the range keeps every satisfying key ----

  const LEAST: int := -I32_LIMIT
  const GREATEST: int := I32_LIMIT - 1

  /** The least key greater than `v`, if there is one. */
  function KeyAbove(v: real): (k: int)
    ensures LEAST <= k && v < k as real
  {
    if v.Floor + 1 < LEAST then LEAST else v.Floor + 1
  }

  /** The greatest key less than `v`, if there is one. */
  function KeyUnder(v: real): (k: int)
    ensures k <= GREATEST && k as real < v
  {
    var k := if Whole(v) then v.Floor - 1 else v.Floor;
    if GREATEST < k then GREATEST else k
  }

  /** With the column on the left: the moved bound of a strict inequality does not pass the key next to the literal. */
  predicate SafeLeft(op: Op, v: real) {
    && (op == GT ==> GREATEST < KeyAbove(v) || Rounded(v + 1.0) <= KeyAbove(v) as real)
    && (op == LT ==> KeyUnder(v) < LEAST || KeyUnder(v) as real <= Rounded(v - 1.0))
  }

  /** With the literal on the left, the operator is not turned round: only equality, or no key on the wrong side. */
  predicate SafeRight(op: Op, v: real) {
    && (op == GT || op == GTE ==> v <= LEAST as real)
    && (op == LT || op == LTE ==> GREATEST as real <= v)
  }

  /** Column on the left: exactly then does one comparison's range keep every key that satisfies it. */
  lemma TightenKeepsIff(op: Op, v: real)
    ensures (forall k: int :: IsI32(k) && Compare(op, IntVal(k), FloatVal(v)) ==> InBounds(k, Tighten(op, v, Bounds(None, None))))
      <==> SafeLeft(op, v)
  {
    hide Rounded;
    if SafeLeft(op, v) {
      forall k: int | IsI32(k) && Compare(op, IntVal(k), FloatVal(v))
        ensures InBounds(k, Tighten(op, v, Bounds(None, None)))
      {
        LeftStep(op, v, k);
      }
    } else {
      var k := if op == GT then KeyAbove(v) else KeyUnder(v);
      assert IsI32(k) && Compare(op, IntVal(k), FloatVal(v)) && !InBounds(k, Tighten(op, v, Bounds(None, None)));
    }
  }

  /** A fraction as large as a half moves the bound past the next key; one too small to survive the sum does not. */
  lemma FractionsDiffer()
    ensures !SafeLeft(GT, 0.5) && SafeLeft(GT, 0.00000000000000000001)
  {
    hide Rounded;
    Fifty2();
    RoundedShifted(1.5, 52, 6755399441055744.0);
    RoundedShifted(1.00000000000000000001, 52, 1.00000000000000000001 * BIT52);
  }

  /**
   A bound lets in no key that it need not: but for != the range of one comparison is exactly the keys that satisfy it,
   unless a rounded sum has lost some. With an equality the range so far is forgotten.
   */
  lemma TightenExact(op: Op, v: real, b: Bounds, k: int)
    requires IsI32(k) && SafeLeft(op, v)
    ensures op == EQ ==> (InBounds(k, Tighten(op, v, b)) <==> Compare(op, IntVal(k), FloatVal(v)))
    ensures op == NEQ ==> Tighten(op, v, b) == b
    ensures op != EQ && op != NEQ ==>
      (InBounds(k, Tighten(op, v, b)) <==> InBounds(k, b) && Compare(op, IntVal(k), FloatVal(v)))
  {
    hide Rounded;
    LeftStep(op, v, k);
    RoundedBeyond(op, v, k);
  }

  /** The rounded sum of a strict inequality does not fall back to a key that fails it. */
  lemma RoundedBeyond(op: Op, v: real, k: int)
    requires IsI32(k)
    ensures op == GT && k as real <= v ==> k as real < Rounded(v + 1.0)
    ensures op == LT && v <= k as real ==> Rounded(v - 1.0) < k as real
  {
    hide Rounded;
    RoundedBetween(v + 1.0, k + 1);
    RoundedBetween(v - 1.0, k - 1);
  }

  /** Literal on the left: exactly for = and !=, and for literals beyond all keys. */
  lemma TightenFlippedIff(op: Op, v: real)
    ensures (forall k: int :: IsI32(k) && Compare(op, FloatVal(v), IntVal(k)) ==> InBounds(k, Tighten(op, v, Bounds(None, None))))
      <==> SafeRight(op, v)
  {
    hide Rounded;
    if SafeRight(op, v) {
      forall k: int | IsI32(k) && Compare(op, FloatVal(v), IntVal(k))
        ensures InBounds(k, Tighten(op, v, Bounds(None, None)))
      {
        RightStep(op, v, k);
      }
    } else {
      var k := if op == GT || op == GTE then LEAST else GREATEST;
      RoundedBetween(v + 1.0, LEAST + 1);
      RoundedBetween(v - 1.0, GREATEST - 1);
      assert IsI32(k) && Compare(op, FloatVal(v), IntVal(k)) && !InBounds(k, Tighten(op, v, Bounds(None, None)));
    }
  }

  /** A strict bound moves no further than to the next key. */
  lemma LeftStep(op: Op, v: real, k: int)
    requires IsI32(k) && SafeLeft(op, v)
    ensures op == GT && v < k as real ==> Rounded(v + 1.0) <= k as real
    ensures op == LT && k as real < v ==> k as real <= Rounded(v - 1.0)
  {
    hide Rounded;
    Next(v, k);
    IntReal(KeyAbove(v), k);
    IntReal(k, KeyUnder(v));
  }

  lemma Next(v: real, k: int)
    requires IsI32(k)
    ensures v < k as real ==> KeyAbove(v) <= k
    ensures k as real < v ==> k <= KeyUnder(v)
  {
    var f := v.Floor;
    assert f as real <= v < f as real + 1.0;
    IntReal(k, f);
    IntReal(f + 1, k);
  }

  /** Whole-number literals always meet the condition, however large. */
  lemma WholeSafe(op: Op, v: real)
    requires Whole(v)
    ensures SafeLeft(op, v)
  {
    hide Rounded;
    var f := v.Floor;
    assert v == f as real;
    if KeyAbove(v) <= GREATEST {
      IntReal(f + 1, KeyAbove(v));
      RoundedBetween(v + 1.0, KeyAbove(v));
    }
    if LEAST <= KeyUnder(v) {
      IntReal(KeyUnder(v), f - 1);
      RoundedBetween(v - 1.0, KeyUnder(v));
    }
  }

  lemma RightStep(op: Op, v: real, k: int)
    requires IsI32(k) && SafeRight(op, v)
    ensures op == GT || op == GTE ==> v <= k as real
    ensures op == LT || op == LTE ==> k as real <= v
  {
    IntReal(-I32_LIMIT, k);
    IntReal(k, I32_LIMIT - 1);
  }

  /** A comparison whose use is safe: the two conditions above. */
  predicate SafeUse(c: Expr) {
    ColumnAndLiteral(c).Some? ==>
      (var v := Number(ColumnAndLiteral(c).value.1);
       && v.Some?
       && (c.left.ColumnRef? ==> SafeLeft(c.op, v.value))
       && (c.left.Literal? ==> SafeRight(c.op, v.value)))
  }

  /** Every comparison that is folded is used safely; the others do not matter. */
  ghost predicate AllSafe(cs: seq<Expr>, indices: set<string>) {
    && Numeric(cs, indices)
    && forall i :: 0 <= i < |cs| && Folded(cs[i], FirstIndexed(cs, indices), indices) ==> SafeUse(cs[i])
  }

  lemma SafeBefore(cs: seq<Expr>, indices: set<string>)
    requires AllSafe(cs, indices) && cs != []
    ensures AllSafe(cs[..|cs| - 1], indices)
    ensures Folded(cs[|cs| - 1], FirstIndexed(cs, indices), indices) ==> SafeUse(cs[|cs| - 1])
  {
    NumericBefore(cs, indices);
    var before := cs[..|cs| - 1];
    forall i | 0 <= i < |before| && Folded(before[i], FirstIndexed(before, indices), indices)
      ensures SafeUse(before[i])
    {
      assert before[i] == cs[i] && Folded(cs[i], FirstIndexed(cs, indices), indices);
    }
  }

  /** The key of a row in an indexed column, under whatever name the conjunct uses for it. */
  ghost predicate KeyIs(row: Row, schema: seq<ColName>, column: string, k: int) {
    IsI32(k) && forall n :: n in schema && LastPart(n) == column ==> Column(n, schema, row) == IntVal(k)
  }

  lemma TightenKeeps(c: Expr, indices: set<string>, schema: seq<ColName>, row: Row, k: int, b: Bounds)
    requires IndexedColumn(c, indices).Some? && SafeUse(c) && Binds(c, schema)
    requires KeyIs(row, schema, IndexedColumn(c, indices).value, k)
    requires Holds(c, schema, row) && InBounds(k, b)
    ensures InBounds(k, Tighten(c.op, Number(ColumnAndLiteral(c).value.1).value, b))
  {
    hide Rounded, SafeLeft, SafeRight;
    var (n, literal) := ColumnAndLiteral(c).value;
    var v := Number(literal).value;
    assert Column(n, schema, row) == IntVal(k);
    var l, r := Eval(c.left, schema, row), Eval(c.right, schema, row);
    assert Eval(c, schema, row) == BoolVal(Compare(c.op, l, r));
    if c.left.ColumnRef? {
      assert l == IntVal(k) && r == literal;
      LeftStep(c.op, v, k);
    } else {
      assert l == literal && r == IntVal(k);
      RightStep(c.op, v, k);
    }
  }

  /** For any order of the conjuncts, a row that satisfies them all has its key in the range. */
  lemma {:induction false} RangeKeeps(cs: seq<Expr>, indices: set<string>, schema: seq<ColName>, row: Row, k: int)
    requires AllSafe(cs, indices) && AllBind(cs, schema) && AllHold(cs, schema, row)
    requires FirstIndexed(cs, indices).Some? ==> KeyIs(row, schema, FirstIndexed(cs, indices).value, k)
    ensures InBounds(k, Choose(cs, indices).bounds)
  {
    if cs != [] {
      var before, c := cs[..|cs| - 1], cs[|cs| - 1];
      assert Binds(c, schema) && Holds(c, schema, row);
      SafeBefore(cs, indices);
      RangeKeeps(before, indices, schema, row, k);
      if Folded(c, FirstIndexed(cs, indices), indices) {
        TightenKeeps(c, indices, schema, row, k, Choose(before, indices).bounds);
      }
    }
  }

  /** No bound at all comes only from columns compared by != alone. */
  lemma {:induction false} UnboundedIff(cs: seq<Expr>, indices: set<string>)
    requires Numeric(cs, indices)
    ensures Choose(cs, indices).bounds == Bounds(None, None) <==>
      forall i :: 0 <= i < |cs| && Folded(cs[i], FirstIndexed(cs, indices), indices) ==> cs[i].op == NEQ
  {
    if cs != [] {
      var before, c := cs[..|cs| - 1], cs[|cs| - 1];
      NumericBefore(cs, indices);
      UnboundedIff(before, indices);
      assert forall i :: 0 <= i < |before| ==> cs[i] == before[i];
      UnchosenNone(before, indices);
    }
  }

  lemma {:induction false} UnchosenNone(cs: seq<Expr>, indices: set<string>)
    requires Numeric(cs, indices)
    ensures FirstIndexed(cs, indices).None? ==> Choose(cs, indices).bounds == Bounds(None, None)
    ensures FirstIndexed(cs, indices).None? ==> forall i :: 0 <= i < |cs| ==> IndexedColumn(cs[i], indices).None?
  {
    if cs != [] {
      NumericBefore(cs, indices);
      UnchosenNone(cs[..|cs| - 1], indices);
    }
  }
}
