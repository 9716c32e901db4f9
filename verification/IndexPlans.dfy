/** Plans that go through an index, compared with the plain scan and the nested-loop join they replace. */
module IndexPlans {
  import opened Options
  import opened BTreeNode
  import opened BTreeModel
  import opened BTreeEntries
  import opened BTreeRead
  import opened BTreeRuns
  import opened Bytes
  import opened LiteralKeys
  import opened Expressions
  import opened QueryOptimizer
  import opened IndexSelection

  // ---- A table and its index ----

  /** The records a table scan yields. */
  type Records = seq<(Rid, Row)>

  function RowsOf(rs: Records): (rows: seq<Row>)
    ensures |rows| == |rs|
  {
    seq(|rs|, i requires 0 <= i < |rs| => rs[i].1)
  }

  /** The keys of one column, each with its record's rid. */
  function KeysOf(rs: Records, column: nat): (es: seq<Entry>)
    requires forall i :: 0 <= i < |rs| ==> column < |rs[i].1| && rs[i].1[column].IntVal?
    ensures |es| == |rs|
  {
    seq(|rs|, i requires 0 <= i < |rs| => (rs[i].1[column].i, rs[i].0))
  }

  /** `get` finds every record by its rid. */
  ghost predicate Finds(get: map<Rid, Row>, rs: Records) {
    forall i :: 0 <= i < |rs| ==> rs[i].0 in get && get[rs[i].0] == rs[i].1
  }

  /** The index on `column` holds each record's key and rid, once. */
  ghost predicate Indexes(ix: Index, rs: Records, column: nat) {
    && (forall i :: 0 <= i < |rs| ==> column < |rs[i].1| && rs[i].1[column].IntVal? && IsI32(rs[i].1[column].i))
    && BTreeModel.Valid(ix) && Ordered(ix) && Leftmost(ix)
    && multiset(Entries(ix)) == multiset(KeysOf(rs, column))
  }

  // ---- Selecting rows through entries ----

  /** The rows of the entries whose rid is wanted. */
  function Selected(es: seq<Entry>, get: map<Rid, Row>, wanted: set<Rid>): seq<Row> {
    if es == [] then []
    else (if es[0].1 in wanted && es[0].1 in get then [get[es[0].1]] else []) + Selected(es[1..], get, wanted)
  }

  lemma {:induction false} SelectedConcat(a: seq<Entry>, b: seq<Entry>, get: map<Rid, Row>, wanted: set<Rid>)
    ensures Selected(a + b, get, wanted) == Selected(a, get, wanted) + Selected(b, get, wanted)
  {
    if a == [] {
      assert a + b == b;
    } else {
      assert (a + b)[1..] == a[1..] + b;
      SelectedConcat(a[1..], b, get, wanted);
    }
  }

  lemma WithoutFirst(es: seq<Entry>, fs: seq<Entry>) returns (j: nat)
    requires es != [] && multiset(es) == multiset(fs)
    ensures j < |fs| && fs[j] == es[0] && multiset(es[1..]) == multiset(RemoveAt(fs, j))
  {
    assert es[0] in multiset(es);
    assert es[0] in fs;
    j :| 0 <= j < |fs| && fs[j] == es[0];
    RemoveBag(fs, j);
    RemoveBag(es, 0);
    assert RemoveAt(es, 0) == es[1..];
  }

  lemma SelectedRemove(fs: seq<Entry>, j: nat, get: map<Rid, Row>, wanted: set<Rid>)
    requires j < |fs|
    ensures multiset(Selected(fs, get, wanted)) ==
      multiset(Selected(RemoveAt(fs, j), get, wanted)) + multiset(Selected([fs[j]], get, wanted))
  {
    assert fs == fs[..j] + ([fs[j]] + fs[j + 1..]);
    SelectedConcat(fs[..j], [fs[j]] + fs[j + 1..], get, wanted);
    SelectedConcat([fs[j]], fs[j + 1..], get, wanted);
    SelectedConcat(fs[..j], fs[j + 1..], get, wanted);
  }

  /** Only the bag of entries matters. */
  lemma {:induction false} SelectedBag(es: seq<Entry>, fs: seq<Entry>, get: map<Rid, Row>, wanted: set<Rid>)
    requires multiset(es) == multiset(fs)
    ensures multiset(Selected(es, get, wanted)) == multiset(Selected(fs, get, wanted))
  {
    hide Selected;
    if es == [] {
      assert |multiset(fs)| == 0;
    } else {
      var j := WithoutFirst(es, fs);
      SelectedBag(es[1..], RemoveAt(fs, j), get, wanted);
      SelectedRemove(fs, j, get, wanted);
      SelectedRemove(es, 0, get, wanted);
      assert RemoveAt(es, 0) == es[1..];
    }
  }

  // ---- The index scan ----

  /** The rids an index scan reads; equal bounds mean a point search. None stands for the failure to compare. */
  function LookupRids(ix: Index, b: Bounds): Option<seq<Rid>>
    requires Tree(ix, 0) && Chained(ix)
  {
    if b.start == b.end then
      if b.start.None? then SearchNothing(ix) else Some(SearchReal(ix, b.start.value))
    else Some(RangeScanReal(ix, b.start, b.end))
  }

  /** The rids of the entries in bounds. */
  function Within(es: seq<Entry>, b: Bounds): seq<Rid> {
    if es == [] then [] else (if InBounds(es[0].0, b) then [es[0].1] else []) + Within(es[1..], b)
  }

  lemma {:induction false} WithinRange(es: seq<Entry>, b: Bounds)
    ensures Within(es, b) == RidsIn(es, CeilingOf(b.start), FloorOf(b.end))
  {
    if es != [] {
      WithinRange(es[1..], b);
      if b.start.Some? {
        FloorBounds(b.start.value, es[0].0);
      }
      if b.end.Some? {
        FloorBounds(b.end.value, es[0].0);
      }
    }
  }

  lemma {:induction false} WithinPoint(es: seq<Entry>, v: real)
    ensures Within(es, Bounds(Some(v), Some(v))) == if Whole(v) then RidsIn(es, Some(v.Floor), Some(v.Floor)) else []
  {
    if es != [] {
      WithinPoint(es[1..], v);
      PointKey(v, es[0].0);
    }
  }

  lemma PointKey(v: real, k: int)
    ensures InBounds(k, Bounds(Some(v), Some(v))) <==> Whole(v) && k == v.Floor
  {
    FloorBounds(v, k);
  }

  /**
   Point or range, the index yields the rids of exactly the entries in bounds; without any bound it answers, with
   nothing, only on an index that is one empty leaf.
   */
  lemma LookupExact(ix: Index, b: Bounds)
    requires BTreeModel.Valid(ix) && Ordered(ix) && Leftmost(ix)
    ensures LookupRids(ix, b) == if b == Bounds(None, None) && !Hollow(ix) then None else Some(Within(Entries(ix), b))
  {
    var es := Entries(ix);
    if b.start != b.end {
      RangeScanWhole(ix, b.start, b.end);
      RangeExact(ix, CeilingOf(b.start), FloorOf(b.end));
      WithinRange(es, b);
    } else if b.start.Some? {
      var v := b.start.value;
      WithinPoint(es, v);
      SearchWhole(ix, v);
      if Whole(v) {
        SearchExact(ix, v.Floor);
      }
    } else {
      SearchNothingIff(ix);
    }
  }

  /** The rids an index finds are those of records. */
  lemma LookupAmong(ix: Index, b: Bounds, rs: Records, column: nat, get: map<Rid, Row>)
    requires Indexes(ix, rs, column) && Finds(get, rs) && LookupRids(ix, b).Some?
    ensures var rids := LookupRids(ix, b).value; forall i :: 0 <= i < |rids| ==> rids[i] in get && get[rids[i]] in RowsOf(rs)
  {
    hide LookupRids, Within, Ordered, Leftmost, Entries, Sizes, Down, Up, Nodes;
    LookupExact(ix, b);
    var es := Entries(ix);
    forall i | 0 <= i < |Within(es, b)|
      ensures Within(es, b)[i] in get && get[Within(es, b)[i]] in RowsOf(rs)
    {
      var k := WithinAmong(es, b, i);
      var j := InBagInSeq(es, rs, column, k);
      assert RowsOf(rs)[j] == get[Within(es, b)[i]];
    }
  }

  lemma {:induction false} WithinAmong(es: seq<Entry>, b: Bounds, i: nat) returns (k: nat)
    requires i < |Within(es, b)|
    ensures k < |es| && es[k].1 == Within(es, b)[i]
  {
    if InBounds(es[0].0, b) && i == 0 {
      k := 0;
    } else {
      k := WithinAmong(es[1..], b, if InBounds(es[0].0, b) then i - 1 else i);
      k := k + 1;
    }
  }

  function Fetched(rids: seq<Rid>, get: map<Rid, Row>): seq<Row>
    requires forall i :: 0 <= i < |rids| ==> rids[i] in get
  {
    seq(|rids|, i requires 0 <= i < |rids| => get[rids[i]])
  }

  /** Fetches each rid's row and keeps it if the residual holds. */
  method IndexScanNext(rids: seq<Rid>, get: map<Rid, Row>, residual: Expr, schema: seq<ColName>) returns (rows: seq<Row>)
    requires forall i :: 0 <= i < |rids| ==> rids[i] in get
    ensures rows == Keep(Fetched(rids, get), [residual], schema)
  {
    rows := [];
    var i := 0;
    while i < |rids|
      invariant 0 <= i <= |rids| && rows == Keep(Fetched(rids[..i], get), [residual], schema)
    {
      var row := get[rids[i]];
      assert Fetched(rids[..i + 1], get) == Fetched(rids[..i], get) + [row];
      KeepConcat(Fetched(rids[..i], get), [row], [residual], schema);
      KeepOne(row, [residual], schema);
      AllHoldOne(residual, schema, row);
      if Holds(residual, schema, row) {
        rows := rows + [row];
      }
      i := i + 1;
    }
    assert rids[..i] == rids;
  }

  /** What the residual accepts of the fetched rows is what it accepts of all entries, if the range misses none. */
  lemma {:induction false} FetchedSelected(es: seq<Entry>, b: Bounds, get: map<Rid, Row>, e: Expr, schema: seq<ColName>, wanted: set<Rid>)
    requires forall i :: 0 <= i < |es| ==> es[i].1 in get
    requires forall r :: r in wanted <==> r in get && Holds(e, schema, get[r])
    requires forall i :: 0 <= i < |es| && es[i].1 in wanted ==> InBounds(es[i].0, b)
    ensures forall i :: 0 <= i < |Within(es, b)| ==> Within(es, b)[i] in get
    ensures Keep(Fetched(Within(es, b), get), [e], schema) == Selected(es, get, wanted)
  {
    if es != [] {
      var rest := Within(es[1..], b);
      FetchedSelected(es[1..], b, get, e, schema, wanted);
      if InBounds(es[0].0, b) {
        var row := get[es[0].1];
        assert Fetched(Within(es, b), get) == [row] + Fetched(rest, get);
        KeepConcat([row], Fetched(rest, get), [e], schema);
        KeepOne(row, [e], schema);
        AllHoldOne(e, schema, row);
        assert Keep([row], [e], schema) == if es[0].1 in wanted then [row] else [];
      } else {
        assert Within(es, b) == rest && es[0].1 !in wanted;
        assert Selected(es, get, wanted) == Selected(es[1..], get, wanted);
      }
    }
  }

  lemma {:induction false} ScanSelected(rs: Records, column: nat, get: map<Rid, Row>, e: Expr, schema: seq<ColName>, wanted: set<Rid>)
    requires forall i :: 0 <= i < |rs| ==> column < |rs[i].1| && rs[i].1[column].IntVal?
    requires Finds(get, rs)
    requires forall r :: r in wanted <==> r in get && Holds(e, schema, get[r])
    ensures Keep(RowsOf(rs), [e], schema) == Selected(KeysOf(rs, column), get, wanted)
  {
    if rs != [] {
      ScanSelected(rs[1..], column, get, e, schema, wanted);
      assert RowsOf(rs)[1..] == RowsOf(rs[1..]);
      assert KeysOf(rs, column)[1..] == KeysOf(rs[1..], column);
      AllHoldOne(e, schema, rs[0].1);
    }
  }

  lemma InBagInSeq(es: seq<Entry>, rs: Records, column: nat, i: nat) returns (j: nat)
    requires forall i :: 0 <= i < |rs| ==> column < |rs[i].1| && rs[i].1[column].IntVal?
    requires multiset(es) == multiset(KeysOf(rs, column)) && i < |es|
    ensures j < |rs| && es[i] == (rs[j].1[column].i, rs[j].0)
  {
    assert es[i] in multiset(es);
    assert es[i] in KeysOf(rs, column);
    j :| 0 <= j < |rs| && KeysOf(rs, column)[j] == es[i];
  }

  /**
   The index plan of a table scan yields the same bag of rows as reading the whole table and applying the whole
   predicate, for any order of conjuncts and contradictory ones too, when the folded comparisons are used safely.
   It fails to answer exactly when they are all != and the index has anything to compare with.
   */
  lemma IndexPlanSameRows(table: string, columns: seq<string>, indices: set<string>, column: nat,
                          ix: Index, rs: Records, get: map<Rid, Row>, pred: Expr)
    requires AllSafe(SplitConjuncts(pred), indices)
    requires column < |columns| && Rectangular(Relation(columns, RowsOf(rs)))
    requires Binds(pred, ScanSchema(table, columns))
    requires FirstIndexed(SplitConjuncts(pred), indices) == Some(columns[column])
    requires Indexes(ix, rs, column) && Finds(get, rs)
    ensures var b := Choose(SplitConjuncts(pred), indices).bounds; var schema := ScanSchema(table, columns);
      && Combine(SplitConjuncts(pred)).Some?
      && (LookupRids(ix, b).None? <==> b == Bounds(None, None) && !Hollow(ix))
      && (LookupRids(ix, b).Some? ==>
        && (forall i :: 0 <= i < |LookupRids(ix, b).value| ==> LookupRids(ix, b).value[i] in get)
        && multiset(Keep(Fetched(LookupRids(ix, b).value, get), [Combine(SplitConjuncts(pred)).value], schema))
          == multiset(Keep(RowsOf(rs), [pred], schema)))
  {
    hide Holds, Combine, Choose, SafeUse, LookupRids, Keep, Fetched, Within, Sizes, Down, Up, Nodes, Chained, Ordered,
      Leftmost, Entries, InBounds, FirstIndexed, SplitConjuncts, Binds, Rectangular, Hollow;
    var cs, schema := SplitConjuncts(pred), ScanSchema(table, columns);
    var b, es := Choose(cs, indices).bounds, Entries(ix);
    ResidualSame(pred, schema);
    var residual := Combine(cs).value;
    var wanted := set r | r in get && Holds(residual, schema, get[r]);
    LookupExact(ix, b);
    forall i | 0 <= i < |es|
      ensures es[i].1 in get && (es[i].1 in wanted ==> InBounds(es[i].0, b))
    {
      var j := InBagInSeq(es, rs, column, i);
      if es[i].1 in wanted {
        WantedInBounds(table, columns, indices, column, rs, pred, j);
      }
    }
    FetchedSelected(es, b, get, residual, schema, wanted);
    ScanSelected(rs, column, get, pred, schema, wanted);
    SelectedBag(es, KeysOf(rs, column), get, wanted);
  }

  /** A record the predicate accepts has its key in the folded range. */
  lemma WantedInBounds(table: string, columns: seq<string>, indices: set<string>, column: nat, rs: Records, pred: Expr, j: nat)
    requires column < |columns| && AllSafe(SplitConjuncts(pred), indices) && FirstIndexed(SplitConjuncts(pred), indices) == Some(columns[column])
    requires Rectangular(Relation(columns, RowsOf(rs))) && Binds(pred, ScanSchema(table, columns)) && j < |rs|
    requires column < |rs[j].1| && rs[j].1[column].IntVal? && IsI32(rs[j].1[column].i) && Holds(pred, ScanSchema(table, columns), rs[j].1)
    ensures InBounds(rs[j].1[column].i, Choose(SplitConjuncts(pred), indices).bounds)
  {
    hide Holds, Choose, SafeUse, InBounds, FirstIndexed, SplitConjuncts, Binds, KeyIs;
    assert |RowsOf(rs)[j]| == |columns| && RowsOf(rs)[j] == rs[j].1;
    KeyFound(table, columns, column, rs[j].1);
    SplitHolds(pred, ScanSchema(table, columns), rs[j].1);
    RangeKeeps(SplitConjuncts(pred), indices, ScanSchema(table, columns), rs[j].1, rs[j].1[column].i);
  }

  lemma ResidualSame(pred: Expr, schema: seq<ColName>)
    ensures Combine(SplitConjuncts(pred)).Some?
    ensures forall row :: Holds(Combine(SplitConjuncts(pred)).value, schema, row) <==> Holds(pred, schema, row)
  {
    forall row
      ensures Combine(SplitConjuncts(pred)).Some?
      ensures Holds(Combine(SplitConjuncts(pred)).value, schema, row) <==> Holds(pred, schema, row)
    {
      SplitHolds(pred, schema, row);
      CombineHolds(SplitConjuncts(pred), schema, row);
    }
    CombineHolds(SplitConjuncts(pred), schema, []);
  }

  lemma {:induction false} IndexOfName(schema: seq<ColName>, i: nat)
    requires i < |schema| && forall j, k :: 0 <= j < k < |schema| ==> schema[j] != schema[k]
    ensures IndexIn(schema, schema[i]) == Some(i)
  {
    if i < |schema| - 1 {
      IndexOfName(schema[..|schema| - 1], i);
    }
  }

  lemma KeyFound(table: string, columns: seq<string>, column: nat, row: Row)
    requires column < |columns| == |row| && row[column].IntVal? && IsI32(row[column].i)
    requires forall i, j :: 0 <= i < j < |columns| ==> columns[i] != columns[j]
    ensures KeyIs(row, ScanSchema(table, columns), columns[column], row[column].i)
  {
    IndexOfName(ScanSchema(table, columns), column);
  }
}
