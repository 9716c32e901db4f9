/** What the plain operators mean, row by row. */
module QueryMeaning {
  import opened Expressions
  import opened ExpressionLaws
  import opened QueryOptimizer

  // ---- Filters ----

  /** A filter keeps each row it accepts as often as it was there, and no other. */
  lemma {:induction false} KeepCounts(rows: seq<Row>, c: Expr, schema: seq<ColName>, row: Row)
    ensures multiset(Keep(rows, [c], schema))[row] == if Holds(c, schema, row) then multiset(rows)[row] else 0
  {
    if rows != [] {
      KeepCounts(rows[1..], c, schema, row);
      AllHoldOne(c, schema, rows[0]);
      assert rows == [rows[0]] + rows[1..];
    }
  }

  // ---- Joins ----

  /** The positions of a left and a right row with equal keys that join to `row`. */
  ghost function Joining(left: seq<Row>, ls: Side, right: seq<Row>, rs: Side, row: Row): set<(int, int)> {
    set i, j | 0 <= i < |left| && 0 <= j < |right| && Matches(left[i], ls, right[j], rs) && left[i] + right[j] == row :: (i, j)
  }

  /** ... and those of one left row. */
  ghost function JoiningOne(l: Row, ls: Side, right: seq<Row>, rs: Side, row: Row): set<(int, int)> {
    set j | 0 <= j < |right| && Matches(l, ls, right[j], rs) && l + right[j] == row :: (0, j)
  }

  ghost function Moved(s: set<(int, int)>, down: int, across: int): set<(int, int)> {
    set p | p in s :: (p.0 + down, p.1 + across)
  }

  lemma {:induction false} MovedSize(s: set<(int, int)>, down: int, across: int)
    ensures |Moved(s, down, across)| == |s|
  {
    if x :| x in s {
      MovedSize(s - {x}, down, across);
      MovedOne(s, x, down, across);
    } else {
      assert s == {} && Moved(s, down, across) == {};
    }
  }

  lemma MovedOne(s: set<(int, int)>, x: (int, int), down: int, across: int)
    requires x in s
    ensures Moved(s, down, across) == Moved(s - {x}, down, across) + {(x.0 + down, x.1 + across)}
    ensures (x.0 + down, x.1 + across) !in Moved(s - {x}, down, across)
  {
  }

  lemma {:induction false} JoinOneCounts(l: Row, ls: Side, right: seq<Row>, rs: Side, row: Row)
    ensures multiset(JoinOne(l, ls, right, rs))[row] == |JoiningOne(l, ls, right, rs, row)|
  {
    hide Matches, JoiningOne, Moved;
    JoiningOneSplits(l, ls, right, rs, row);
    if right != [] {
      JoinOneCounts(l, ls, right[1..], rs, row);
      MovedSize(JoiningOne(l, ls, right[1..], rs, row), 0, 1);
    }
  }

  lemma JoiningOneSplits(l: Row, ls: Side, right: seq<Row>, rs: Side, row: Row)
    ensures right == [] ==> JoiningOne(l, ls, right, rs, row) == {}
    ensures right != [] ==>
      var rest := Moved(JoiningOne(l, ls, right[1..], rs, row), 0, 1);
      && (0, 0) !in rest
      && JoiningOne(l, ls, right, rs, row) == rest + if Matches(l, ls, right[0], rs) && l + right[0] == row then {(0, 0)} else {}
  {
    hide Matches;
    if right != [] {
      var rest := JoiningOne(l, ls, right[1..], rs, row);
      forall p | p in JoiningOne(l, ls, right, rs, row) && p.1 != 0
        ensures p in Moved(rest, 0, 1)
      {
        assert (0, p.1 - 1) in rest;
        assert p == (0 + 0, (p.1 - 1) + 1);
      }
      forall p | p in Moved(rest, 0, 1)
        ensures p in JoiningOne(l, ls, right, rs, row) && p.1 != 0
      {
        assert (0, p.1 - 1) in rest;
      }
    }
  }

  /** The nested loops yield a row once for each pair of rows with equal keys that it is made of. */
  lemma {:induction false} NestedLoopCounts(left: seq<Row>, ls: Side, right: seq<Row>, rs: Side, row: Row)
    ensures multiset(NestedLoop(left, ls, right, rs))[row] == |Joining(left, ls, right, rs, row)|
  {
    hide Matches, Joining, JoiningOne, Moved;
    JoiningSplits(left, ls, right, rs, row);
    if left != [] {
      NestedLoopCounts(left[1..], ls, right, rs, row);
      JoinOneCounts(left[0], ls, right, rs, row);
      MovedSize(Joining(left[1..], ls, right, rs, row), 1, 0);
    }
  }

  lemma JoiningSplits(left: seq<Row>, ls: Side, right: seq<Row>, rs: Side, row: Row)
    ensures left == [] ==> Joining(left, ls, right, rs, row) == {}
    ensures left != [] ==>
      var first, rest := JoiningOne(left[0], ls, right, rs, row), Moved(Joining(left[1..], ls, right, rs, row), 1, 0);
      Joining(left, ls, right, rs, row) == first + rest && first !! rest
  {
    hide Matches;
    if left != [] {
      var rest := Joining(left[1..], ls, right, rs, row);
      forall p | p in Joining(left, ls, right, rs, row) && p.0 != 0
        ensures p in Moved(rest, 1, 0)
      {
        assert (p.0 - 1, p.1) in rest;
        assert p == ((p.0 - 1) + 1, p.1 + 0);
      }
      forall p | p in Moved(rest, 1, 0)
        ensures p in Joining(left, ls, right, rs, row) && p.0 != 0
      {
        assert (p.0 - 1, p.1) in rest;
      }
    }
  }

  // ---- Select lists ----

  ghost predicate DistinctOutputs(items: seq<(Expr, ColName)>) {
    forall i, j :: 0 <= i < j < |items| ==> items[i].1 != items[j].1
  }

  /** Under its own columns, each row of a select list shows every item's value on the row below it. */
  lemma ProjectionShows(c: Plan, items: seq<(Expr, ColName)>, db: Database, k: nat, i: nat)
    requires DistinctOutputs(items) && k < |Rows(c, db)| && i < |items|
    ensures var p := Projection(c, items);
      && |Rows(p, db)| == |Rows(c, db)|
      && Eval(ColumnRef(items[i].1), Schema(p, db), Rows(p, db)[k]) == Eval(items[i].0, Schema(c, db), Rows(c, db)[k])
  {
    var p := Projection(c, items);
    var schema, row := Schema(p, db), Rows(p, db)[k];
    assert forall j :: 0 <= j < |items| ==> schema[j] == items[j].1;
    ColumnFound(schema, row, i);
  }

  ghost predicate AllInOrder(items: seq<(Expr, ColName)>, schema: seq<ColName>) {
    |items| == |schema| && forall i :: 0 <= i < |items| ==> items[i] == (ColumnRef(schema[i]), schema[i])
  }

  /** A select list of all columns in order changes nothing. */
  lemma ProjectionOfAll(c: Plan, items: seq<(Expr, ColName)>, db: Database)
    requires DatabaseOk(db) && Relational(c, db) && AllInOrder(items, Schema(c, db))
    requires forall i, j :: 0 <= i < j < |Schema(c, db)| ==> Schema(c, db)[i] != Schema(c, db)[j]
    ensures Schema(Projection(c, items), db) == Schema(c, db) && Rows(Projection(c, items), db) == Rows(c, db)
  {
    hide Relational;
    RowsWide(c, db);
    var rows, schema := Rows(c, db), Schema(c, db);
    forall k | 0 <= k < |rows|
      ensures Project(rows, items, schema)[k] == rows[k]
    {
      assert |rows[k]| == |schema|;
      forall i | 0 <= i < |items|
        ensures Eval(items[i].0, schema, rows[k]) == rows[k][i]
      {
        ColumnFound(schema, rows[k], i);
      }
    }
  }
}
