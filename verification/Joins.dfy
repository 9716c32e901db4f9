/** The two join operators, compared with the nested-loop equi-join. */
module Joins {
  import opened Options
  import opened BTreeNode
  import opened BTreeModel
  import opened BTreeEntries
  import opened BTreeRead
  import BTreeRuns
  import opened LiteralKeys
  import opened Expressions
  import opened QueryOptimizer
  import opened IndexPlans

  // ---- Hash join ----

  /** Values that are equal as keys, like 1 and 1.0, share one form. */
  function Canon(v: Value): Value {
    if Number(v).Some? then FloatVal(Number(v).value) else v
  }

  lemma CanonSame(a: Value, b: Value)
    ensures Canon(a) == Canon(b) <==> Same(a, b)
  {
  }

  /** The left rows with a key, in order. */
  function Bucket(left: seq<Row>, ls: Side, key: Value): seq<Row> {
    if left == [] then []
    else (if Canon(KeyOf(ls, left[0])) == key then [left[0]] else []) + Bucket(left[1..], ls, key)
  }

  function Glue(bucket: seq<Row>, r: Row): (rows: seq<Row>)
    ensures |rows| == |bucket|
  {
    seq(|bucket|, i requires 0 <= i < |bucket| => bucket[i] + r)
  }

  /** For each right row, the left rows of its bucket. */
  function HashRows(left: seq<Row>, ls: Side, right: seq<Row>, rs: Side): seq<Row> {
    if right == [] then []
    else Glue(Bucket(left, ls, Canon(KeyOf(rs, right[0]))), right[0]) + HashRows(left, ls, right[1..], rs)
  }

  lemma {:induction false} BucketAppend(left: seq<Row>, l: Row, ls: Side, key: Value)
    ensures Bucket(left + [l], ls, key) == Bucket(left, ls, key) + if Canon(KeyOf(ls, l)) == key then [l] else []
  {
    if left == [] {
      assert left + [l] == [l] && [l][1..] == [];
    } else {
      assert (left + [l])[1..] == left[1..] + [l];
      BucketAppend(left[1..], l, ls, key);
    }
  }

  lemma {:induction false} HashAppend(left: seq<Row>, ls: Side, right: seq<Row>, r: Row, rs: Side)
    ensures HashRows(left, ls, right + [r], rs)
      == HashRows(left, ls, right, rs) + Glue(Bucket(left, ls, Canon(KeyOf(rs, r))), r)
  {
    if right == [] {
      assert right + [r] == [r] && [r][1..] == [];
    } else {
      assert (right + [r])[1..] == right[1..] + [r];
      HashAppend(left, ls, right[1..], r, rs);
    }
  }

  lemma HashNone(left: seq<Row>, ls: Side, right: seq<Row>, rs: Side)
    ensures HashRows(left, ls, right[..0], rs) == []
    ensures forall r :: Glue([], r) == []
  {
  }

  lemma HashStep(left: seq<Row>, ls: Side, right: seq<Row>, i: nat, rs: Side)
    requires i < |right|
    ensures HashRows(left, ls, right[..i + 1], rs)
      == HashRows(left, ls, right[..i], rs) + Glue(Bucket(left, ls, Canon(KeyOf(rs, right[i]))), right[i])
  {
    HashAppend(left, ls, right[..i], right[i], rs);
    assert right[..i + 1] == right[..i] + [right[i]];
  }

  method GlueEach(bucket: seq<Row>, r: Row) returns (rows: seq<Row>)
    ensures rows == Glue(bucket, r)
  {
    rows := [];
    var j := 0;
    while j < |bucket|
      invariant 0 <= j <= |bucket| && rows == Glue(bucket[..j], r)
    {
      assert Glue(bucket[..j + 1], r) == Glue(bucket[..j], r) + [bucket[j] + r];
      rows := rows + [bucket[j] + r];
      j := j + 1;
    }
    assert bucket[..j] == bucket;
  }

  class HashJoin {
    var hashTable: map<Value, seq<Row>>

    /** The table holds each key's bucket, and no empty ones. */
    ghost predicate Built(left: seq<Row>, ls: Side)
      reads this
    {
      forall v :: if v in hashTable then hashTable[v] == Bucket(left, ls, v) else Bucket(left, ls, v) == []
    }

    constructor ()
      ensures hashTable == map[]
    {
      hashTable := map[];
    }

    method Open(left: seq<Row>, ls: Side)
      requires hashTable == map[]
      modifies this
      ensures Built(left, ls)
    {
      var i := 0;
      while i < |left|
        invariant 0 <= i <= |left| && Built(left[..i], ls)
      {
        var key := Canon(KeyOf(ls, left[i]));
        forall v
          ensures Bucket(left[..i + 1], ls, v) == Bucket(left[..i], ls, v) + if key == v then [left[i]] else []
        {
          BucketAppend(left[..i], left[i], ls, v);
          assert left[..i + 1] == left[..i] + [left[i]];
        }
        if key !in hashTable {
          hashTable := hashTable[key := []];
        }
        hashTable := hashTable[key := hashTable[key] + [left[i]]];
        i := i + 1;
      }
      assert left[..i] == left;
    }

    method Next(right: seq<Row>, rs: Side, ghost left: seq<Row>, ghost ls: Side) returns (rows: seq<Row>)
      requires Built(left, ls)
      ensures rows == HashRows(left, ls, right, rs)
    {
      hide HashRows, Bucket, Glue, Canon, KeyOf;
      rows := [];
      HashNone(left, ls, right, rs);
      var i := 0;
      while i < |right|
        invariant 0 <= i <= |right| && rows == HashRows(left, ls, right[..i], rs)
      {
        var r := right[i];
        HashStep(left, ls, right, i, rs);
        var key := Canon(KeyOf(rs, r));
        if key in hashTable {
          var glued := GlueEach(hashTable[key], r);
          rows := rows + glued;
        }
        i := i + 1;
      }
      assert right[..i] == right;
    }
  }

  lemma HashEmpty(ls: Side, right: seq<Row>, rs: Side)
    ensures HashRows([], ls, right, rs) == []
  {
  }

  /** The first left row's share of the hash join. */
  lemma {:induction false} HashPeel(left: seq<Row>, ls: Side, right: seq<Row>, rs: Side)
    requires left != []
    ensures multiset(HashRows(left, ls, right, rs))
      == multiset(JoinOne(left[0], ls, right, rs)) + multiset(HashRows(left[1..], ls, right, rs))
  {
    if right != [] {
      var l, r := left[0], right[0];
      HashPeel(left, ls, right[1..], rs);
      CanonSame(KeyOf(ls, l), KeyOf(rs, r));
      var key := Canon(KeyOf(rs, r));
      var mine := if Matches(l, ls, r, rs) then [l] else [];
      assert Bucket(left, ls, key) == mine + Bucket(left[1..], ls, key);
      GlueConcat(mine, Bucket(left[1..], ls, key), r);
      assert Glue(mine, r) == if Matches(l, ls, r, rs) then [l + r] else [];
      Shuffle(Glue(mine, r), Glue(Bucket(left[1..], ls, key), r), HashRows(left, ls, right[1..], rs),
        JoinOne(l, ls, right[1..], rs), HashRows(left[1..], ls, right[1..], rs));
    }
  }

  lemma GlueConcat(a: seq<Row>, b: seq<Row>, r: Row)
    ensures Glue(a + b, r) == Glue(a, r) + Glue(b, r)
  {
  }

  lemma Shuffle(a: seq<Row>, b: seq<Row>, h: seq<Row>, j: seq<Row>, k: seq<Row>)
    requires multiset(h) == multiset(j) + multiset(k)
    ensures multiset((a + b) + h) == multiset(a + j) + multiset(b + k)
  {
  }

  /** The hash join yields the same bag of rows as the nested loops. */
  lemma {:induction false} HashJoinSameRows(left: seq<Row>, ls: Side, right: seq<Row>, rs: Side)
    ensures multiset(HashRows(left, ls, right, rs)) == multiset(NestedLoop(left, ls, right, rs))
  {
    if left == [] {
      HashEmpty(ls, right, rs);
    } else {
      HashPeel(left, ls, right, rs);
      HashJoinSameRows(left[1..], ls, right, rs);
    }
  }

  // ---- Index join ----

  /** The rids an index join finds for a key. */
  function Probe(ix: Index, v: Value): seq<Rid>
    requires Tree(ix, 0) && Chained(ix) && Number(v).Some?
  {
    SearchReal(ix, Number(v).value)
  }

  function Prefixed(l: Row, rids: seq<Rid>, get: map<Rid, Row>): seq<Row>
    requires forall i :: 0 <= i < |rids| ==> rids[i] in get
  {
    seq(|rids|, i requires 0 <= i < |rids| => l + get[rids[i]])
  }

  ghost predicate ProbesFind(ix: Index, left: seq<Row>, ls: Side, get: map<Rid, Row>) {
    && Tree(ix, 0) && Chained(ix)
    && (forall i :: 0 <= i < |left| ==> Number(KeyOf(ls, left[i])).Some?)
    && (forall i, j :: 0 <= i < |left| && 0 <= j < |Probe(ix, KeyOf(ls, left[i]))| ==> Probe(ix, KeyOf(ls, left[i]))[j] in get)
  }

  function IndexJoinRows(ix: Index, left: seq<Row>, ls: Side, get: map<Rid, Row>): seq<Row>
    requires ProbesFind(ix, left, ls, get)
  {
    if left == [] then []
    else
      assert forall j :: 0 <= j < |Probe(ix, KeyOf(ls, left[0]))| ==> Probe(ix, KeyOf(ls, left[0]))[j] in get;
      Prefixed(left[0], Probe(ix, KeyOf(ls, left[0])), get) + IndexJoinRows(ix, left[1..], ls, get)
  }

  lemma {:induction false} PrefixedSelected(es: seq<Entry>, k: int, l: Row, get: map<Rid, Row>, glued: map<Rid, Row>, wanted: set<Rid>)
    requires forall r :: r in get <==> r in glued
    requires forall r :: r in get ==> glued[r] == l + get[r]
    requires forall i :: 0 <= i < |es| ==> es[i].1 in get && (es[i].1 in wanted <==> es[i].0 == k)
    ensures forall i :: 0 <= i < |RidsIn(es, Some(k), Some(k))| ==> RidsIn(es, Some(k), Some(k))[i] in get
    ensures Prefixed(l, RidsIn(es, Some(k), Some(k)), get) == Selected(es, glued, wanted)
  {
    if es != [] {
      PrefixedSelected(es[1..], k, l, get, glued, wanted);
      var rest := RidsIn(es[1..], Some(k), Some(k));
      if es[0].0 == k {
        assert RidsIn(es, Some(k), Some(k)) == [es[0].1] + rest;
        PrefixedStep(l, es[0].1, rest, get);
      } else {
        assert RidsIn(es, Some(k), Some(k)) == rest;
        assert Selected(es, glued, wanted) == Selected(es[1..], glued, wanted);
      }
    }
  }

  lemma PrefixedStep(l: Row, r: Rid, rest: seq<Rid>, get: map<Rid, Row>)
    requires r in get && forall i :: 0 <= i < |rest| ==> rest[i] in get
    ensures forall i :: 0 <= i < |[r] + rest| ==> ([r] + rest)[i] in get
    ensures Prefixed(l, [r] + rest, get) == [l + get[r]] + Prefixed(l, rest, get)
  {
  }

  lemma {:induction false} JoinOneSelected(l: Row, ls: Side, rs: Records, column: nat, side: Side, glued: map<Rid, Row>, wanted: set<Rid>)
    requires forall i :: 0 <= i < |rs| ==> column < |rs[i].1| && rs[i].1[column].IntVal?
    requires forall i :: 0 <= i < |rs| ==> rs[i].0 in glued && glued[rs[i].0] == l + rs[i].1
    requires forall i :: 0 <= i < |rs| ==> (rs[i].0 in wanted <==> Matches(l, ls, rs[i].1, side))
    ensures JoinOne(l, ls, RowsOf(rs), side) == Selected(KeysOf(rs, column), glued, wanted)
  {
    if rs != [] {
      JoinOneSelected(l, ls, rs[1..], column, side, glued, wanted);
      assert RowsOf(rs)[1..] == RowsOf(rs[1..]);
      assert KeysOf(rs, column)[1..] == KeysOf(rs[1..], column);
    }
  }

  lemma ProbeKey(v: Value, k: int)
    requires Number(v).Some?
    ensures Same(v, IntVal(k)) <==> Whole(Number(v).value) && k == Number(v).value.Floor
  {
    PointKey(Number(v).value, k);
  }

  /** The right side's column, found under its qualified name. */
  function TableSide(table: string, columns: seq<string>, column: nat): Side
    requires column < |columns|
  {
    Side(Qualified(table, columns[column]), ScanSchema(table, columns))
  }

  lemma RightKey(table: string, columns: seq<string>, column: nat, row: Row)
    requires column < |columns| == |row|
    requires forall i, j :: 0 <= i < j < |columns| ==> columns[i] != columns[j]
    ensures KeyOf(TableSide(table, columns, column), row) == row[column]
  {
    IndexOfName(ScanSchema(table, columns), column);
  }

  ghost predicate JoinTable(table: string, columns: seq<string>, column: nat, ix: Index, rs: Records, get: map<Rid, Row>) {
    && column < |columns| && Rectangular(Relation(columns, RowsOf(rs)))
    && Indexes(ix, rs, column) && Finds(get, rs)
    && forall i, j :: 0 <= i < j < |rs| ==> rs[i].0 != rs[j].0
  }

  /** One left row's share. */
  lemma ProbeSameRows(l: Row, ls: Side, table: string, columns: seq<string>, column: nat, ix: Index, rs: Records, get: map<Rid, Row>)
    requires JoinTable(table, columns, column, ix, rs, get) && Number(KeyOf(ls, l)).Some?
    ensures var rids := Probe(ix, KeyOf(ls, l));
      && (forall i :: 0 <= i < |rids| ==> rids[i] in get)
      && multiset(Prefixed(l, rids, get)) == multiset(JoinOne(l, ls, RowsOf(rs), TableSide(table, columns, column)))
  {
    var side, es, v := TableSide(table, columns, column), Entries(ix), Number(KeyOf(ls, l)).value;
    var glued := map r | r in get :: l + get[r];
    var wanted := set i | 0 <= i < |rs| && Matches(l, ls, rs[i].1, side) :: rs[i].0;
    forall i | 0 <= i < |rs|
      ensures rs[i].0 in wanted <==> Whole(v) && rs[i].1[column].i == v.Floor
      ensures rs[i].0 in wanted <==> Matches(l, ls, rs[i].1, side)
    {
      WantedIff(l, ls, table, columns, column, rs, i);
    }
    forall i | 0 <= i < |es|
      ensures es[i].1 in get && (es[i].1 in wanted <==> Whole(v) && es[i].0 == v.Floor)
    {
      var j := InBagInSeq(es, rs, column, i);
    }
    JoinOneSelected(l, ls, rs, column, side, glued, wanted);
    SelectedBag(es, KeysOf(rs, column), glued, wanted);
    ProbeSelected(ix, l, ls, get, glued, wanted);
  }

  lemma WantedIff(l: Row, ls: Side, table: string, columns: seq<string>, column: nat, rs: Records, i: nat)
    requires column < |columns| && Rectangular(Relation(columns, RowsOf(rs))) && i < |rs| && Number(KeyOf(ls, l)).Some?
    requires forall i :: 0 <= i < |rs| ==> column < |rs[i].1| && rs[i].1[column].IntVal?
    requires forall i, j :: 0 <= i < j < |rs| ==> rs[i].0 != rs[j].0
    ensures var side := TableSide(table, columns, column); var v := Number(KeyOf(ls, l)).value;
      var wanted := set i | 0 <= i < |rs| && Matches(l, ls, rs[i].1, side) :: rs[i].0;
      && (rs[i].0 in wanted <==> Matches(l, ls, rs[i].1, side))
      && (Matches(l, ls, rs[i].1, side) <==> Whole(v) && rs[i].1[column].i == v.Floor)
  {
    assert RowsOf(rs)[i] == rs[i].1;
    RightKey(table, columns, column, rs[i].1);
    ProbeKey(KeyOf(ls, l), rs[i].1[column].i);
  }

  lemma ProbeSelected(ix: Index, l: Row, ls: Side, get: map<Rid, Row>, glued: map<Rid, Row>, wanted: set<Rid>)
    requires Ordered(ix) && Number(KeyOf(ls, l)).Some?
    requires forall r :: r in get <==> r in glued
    requires forall r :: r in get ==> glued[r] == l + get[r]
    requires var v := Number(KeyOf(ls, l)).value; var es := Entries(ix);
      forall i :: 0 <= i < |es| ==> es[i].1 in get && (es[i].1 in wanted <==> Whole(v) && es[i].0 == v.Floor)
    ensures var rids := Probe(ix, KeyOf(ls, l));
      (forall i :: 0 <= i < |rids| ==> rids[i] in get) && Prefixed(l, rids, get) == Selected(Entries(ix), glued, wanted)
  {
    var v, es := Number(KeyOf(ls, l)).value, Entries(ix);
    SearchWhole(ix, v);
    if Whole(v) {
      SearchExact(ix, v.Floor);
      PrefixedSelected(es, v.Floor, l, get, glued, wanted);
    } else {
      SelectedUnwanted(es, glued, wanted);
    }
  }

  lemma {:induction false} SelectedUnwanted(es: seq<Entry>, get: map<Rid, Row>, wanted: set<Rid>)
    requires forall i :: 0 <= i < |es| ==> es[i].1 !in wanted
    ensures Selected(es, get, wanted) == []
  {
    if es != [] {
      SelectedUnwanted(es[1..], get, wanted);
    }
  }

  /**
   Probing the right table's index for each left row yields the same bag of rows as the nested loops over the whole
   right table.
   */
  lemma {:induction false} IndexJoinSameRows(left: seq<Row>, ls: Side, table: string, columns: seq<string>, column: nat,
                                             ix: Index, rs: Records, get: map<Rid, Row>)
    requires JoinTable(table, columns, column, ix, rs, get)
    requires forall i :: 0 <= i < |left| ==> Number(KeyOf(ls, left[i])).Some?
    ensures ProbesFind(ix, left, ls, get)
    ensures multiset(IndexJoinRows(ix, left, ls, get))
      == multiset(NestedLoop(left, ls, RowsOf(rs), TableSide(table, columns, column)))
  {
    forall i | 0 <= i < |left|
      ensures forall j :: 0 <= j < |Probe(ix, KeyOf(ls, left[i]))| ==> Probe(ix, KeyOf(ls, left[i]))[j] in get
    {
      ProbeSameRows(left[i], ls, table, columns, column, ix, rs, get);
    }
    if left != [] {
      ProbeSameRows(left[0], ls, table, columns, column, ix, rs, get);
      IndexJoinSameRows(left[1..], ls, table, columns, column, ix, rs, get);
    }
  }

  // ---- What the index join does to a predicate pushed into its right side ----

  /** Filtering the right rows first only takes rows from one left row's share, and none exactly when all its matches pass. */
  lemma {:induction false} JoinOneKept(l: Row, ls: Side, right: seq<Row>, rs: Side, c: Expr)
    ensures var all, kept := JoinOne(l, ls, right, rs), JoinOne(l, ls, Keep(right, [c], rs.schema), rs);
      && |kept| <= |all|
      && (|kept| == |all| <==> forall j :: 0 <= j < |right| && Matches(l, ls, right[j], rs) ==> Holds(c, rs.schema, right[j]))
      && (|kept| == |all| ==> kept == all)
  {
    if right != [] {
      JoinOneKept(l, ls, right[1..], rs, c);
      AllHoldOne(c, rs.schema, right[0]);
      var tail := Keep(right[1..], [c], rs.schema);
      assert forall j :: 0 < j < |right| ==> right[j] == right[1..][j - 1];
      if Holds(c, rs.schema, right[0]) {
        assert Keep(right, [c], rs.schema) == [right[0]] + tail;
        assert ([right[0]] + tail)[1..] == tail;
      } else {
        assert Keep(right, [c], rs.schema) == tail;
      }
    }
  }

  lemma {:induction false} NestedLoopKept(left: seq<Row>, ls: Side, right: seq<Row>, rs: Side, c: Expr)
    ensures var all, kept := NestedLoop(left, ls, right, rs), NestedLoop(left, ls, Keep(right, [c], rs.schema), rs);
      && |kept| <= |all|
      && (|kept| == |all| <==> MatchesPass(left, ls, right, rs, c))
      && (|kept| == |all| ==> kept == all)
  {
    if left != [] {
      NestedLoopKept(left[1..], ls, right, rs, c);
      JoinOneKept(left[0], ls, right, rs, c);
      assert forall i :: 0 < i < |left| ==> left[i] == left[1..][i - 1];
    }
  }

  /** Every right row that some left row matches passes `c`. */
  ghost predicate MatchesPass(left: seq<Row>, ls: Side, right: seq<Row>, rs: Side, c: Expr) {
    forall i, j :: 0 <= i < |left| && 0 <= j < |right| && Matches(left[i], ls, right[j], rs) ==> Holds(c, rs.schema, right[j])
  }

  /**
   The index join reads the bare right table: with a predicate on the right side's scan, its rows are the join's rows
   exactly when every right row that some left row matches happens to satisfy that predicate.
   */
  lemma IndexJoinPredicateIff(left: seq<Row>, ls: Side, table: string, columns: seq<string>, column: nat,
                              ix: Index, rs: Records, get: map<Rid, Row>, c: Expr)
    requires JoinTable(table, columns, column, ix, rs, get)
    requires forall i :: 0 <= i < |left| ==> Number(KeyOf(ls, left[i])).Some?
    ensures ProbesFind(ix, left, ls, get)
    ensures var side := TableSide(table, columns, column);
      multiset(IndexJoinRows(ix, left, ls, get)) == multiset(NestedLoop(left, ls, Keep(RowsOf(rs), [c], side.schema), side))
        <==> MatchesPass(left, ls, RowsOf(rs), side, c)
  {
    hide Indexes, ProbesFind, IndexJoinRows, NestedLoop, MatchesPass;
    var side := TableSide(table, columns, column);
    IndexJoinSameRows(left, ls, table, columns, column, ix, rs, get);
    NestedLoopKept(left, ls, RowsOf(rs), side, c);
    var all, kept := NestedLoop(left, ls, RowsOf(rs), side), NestedLoop(left, ls, Keep(RowsOf(rs), [c], side.schema), side);
    assert |multiset(all)| == |all| && |multiset(kept)| == |kept|;
  }

  // ---- A join that goes wrong: t(k) holding 1, u(k, v) holding (1, 2), joined on k where u.v = 3 ----

  const LEFT_ROWS: seq<Row> := [[IntVal(1)]]
  const LEFT_SIDE: Side := Side(Qualified("t", "k"), [Qualified("t", "k")])
  const RIGHT_RECORDS: Records := [((1, 0), [IntVal(1), IntVal(2)])]
  const RIGHT_ROWS: map<Rid, Row> := map[(1, 0) := [IntVal(1), IntVal(2)]]
  const RIGHT_COLUMNS: seq<string> := ["k", "v"]
  const PUSHED: Expr := Comparison(ColumnRef(Qualified("u", "v")), EQ, Literal(IntVal(3)))

  function OneKey(): Index {
    BTreeRuns.Run(100, [BTreeRuns.Ins(1, (1, 0))])
  }

  lemma OneKeyRun()
    ensures BTreeModel.Valid(OneKey()) && Ordered(OneKey()) && Leftmost(OneKey()) && multiset(Entries(OneKey())) == multiset{(1, (1, 0))}
  {
    hide Ordered, Leftmost, Entries, BTreeModel.Valid, BTreeRuns.Run, BTreeRuns.Agrees;
    var ops := [BTreeRuns.Ins(1, (1, 0))];
    assert ops[..0] == [];
    forall n, k | 0 <= n <= |ops|
      ensures BTreeRuns.LiveCopies(ops[..n], k) <= 50
    {
      assert n == 1 ==> ops[..n] == ops;
    }
    BTreeRuns.RunOrdered(100, ops);
    OneLive(OneKey(), ops);
  }

  lemma OneLive(ix: Index, ops: seq<BTreeRuns.Op>)
    requires BTreeRuns.Agrees(ix, ops) && ops == [BTreeRuns.Ins(1, (1, 0))]
    ensures multiset(Entries(ix)) == multiset{(1, (1, 0))}
  {
    assert BTreeRuns.Live(ops[..0]) == multiset{};
  }

  lemma OneKeyHolds(rs: Records, column: nat)
    requires |rs| == 1 && rs[0].0 == (1, 0) && column < |rs[0].1| && rs[0].1[column] == IntVal(1)
    ensures Indexes(OneKey(), rs, column)
  {
    hide Ordered, Leftmost, Entries, BTreeModel.Valid, OneKey;
    OneKeyRun();
    assert KeysOf(rs, column) == [(1, (1, 0))];
  }

  lemma OneKeyIndexes()
    ensures JoinTable("u", RIGHT_COLUMNS, 0, OneKey(), RIGHT_RECORDS, RIGHT_ROWS)
  {
    hide Indexes, OneKey;
    OneKeyHolds(RIGHT_RECORDS, 0);
  }

  lemma NestedLoopOne(l: Row, ls: Side, r: Row, rs: Side)
    ensures NestedLoop([l], ls, [r], rs) == if Matches(l, ls, r, rs) then [l + r] else []
    ensures NestedLoop([l], ls, [], rs) == []
  {
    assert [l][1..] == [] && [r][1..] == [];
    assert JoinOne(l, ls, [], rs) == [] && NestedLoop([], ls, [r], rs) == [] && NestedLoop([], ls, [], rs) == [];
    assert JoinOne(l, ls, [r], rs) == if Matches(l, ls, r, rs) then [l + r] else [];
  }

  lemma ExampleRows()
    ensures var side := TableSide("u", RIGHT_COLUMNS, 0);
      && Binds(PUSHED, side.schema)
      && NestedLoop(LEFT_ROWS, LEFT_SIDE, RowsOf(RIGHT_RECORDS), side) == [[IntVal(1), IntVal(1), IntVal(2)]]
      && NestedLoop(LEFT_ROWS, LEFT_SIDE, Keep(RowsOf(RIGHT_RECORDS), [PUSHED], side.schema), side) == []
  {
    hide NestedLoop, JoinOne, Keep, IndexIn;
    var side, l, r := TableSide("u", RIGHT_COLUMNS, 0), LEFT_ROWS[0], RIGHT_RECORDS[0].1;
    assert RowsOf(RIGHT_RECORDS) == [r];
    RightKey("u", RIGHT_COLUMNS, 0, r);
    IndexOfName(side.schema, 1);
    IndexOfName(LEFT_SIDE.schema, 0);
    assert side.schema[1] == Qualified("u", "v");
    AllHoldOne(PUSHED, side.schema, r);
    KeepOne(r, [PUSHED], side.schema);
    NestedLoopOne(l, LEFT_SIDE, r, side);
    assert LEFT_ROWS == [l] && l + r == [IntVal(1), IntVal(1), IntVal(2)];
    assert Matches(l, LEFT_SIDE, r, side);
  }

  /** The index join yields the joined row, which the pushed predicate rejects; the join itself yields none. */
  lemma IndexJoinDropsPredicate()
    ensures JoinTable("u", RIGHT_COLUMNS, 0, OneKey(), RIGHT_RECORDS, RIGHT_ROWS) && Binds(PUSHED, ScanSchema("u", RIGHT_COLUMNS))
    ensures ProbesFind(OneKey(), LEFT_ROWS, LEFT_SIDE, RIGHT_ROWS)
    ensures multiset(IndexJoinRows(OneKey(), LEFT_ROWS, LEFT_SIDE, RIGHT_ROWS)) == multiset{[IntVal(1), IntVal(1), IntVal(2)]}
    ensures var side := TableSide("u", RIGHT_COLUMNS, 0);
      NestedLoop(LEFT_ROWS, LEFT_SIDE, Keep(RowsOf(RIGHT_RECORDS), [PUSHED], side.schema), side) == []
  {
    hide OneKey, Indexes, ProbesFind, IndexJoinRows, NestedLoop, Keep;
    OneKeyIndexes();
    ExampleRows();
    assert KeyOf(LEFT_SIDE, LEFT_ROWS[0]) == IntVal(1) by {
      IndexOfName(LEFT_SIDE.schema, 0);
    }
    IndexJoinSameRows(LEFT_ROWS, LEFT_SIDE, "u", RIGHT_COLUMNS, 0, OneKey(), RIGHT_RECORDS, RIGHT_ROWS);
  }
}
