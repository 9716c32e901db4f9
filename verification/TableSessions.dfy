/** What a session on a table comes to: the rows of a plain map, and an index for every column asked for. */
module TableSessions {
  import opened BTreeNode
  import opened HeapModel
  import opened Expressions
  import opened RowCodec
  import opened TableModel

  /** The rid an insert answers; the other operations answer none. */
  ghost function AnswerOf(enc: Encodings, cols: seq<ColumnDef>, t: TableState, op: TableOp): Rid
    requires TableOk(enc, cols, t) && Allowed(enc, cols, t, op)
  {
    if op.AddRow? then Inserted(t.heap, RowBytes(enc, cols, op.row)).1 else (0, 0)
  }

  ghost function Answered(enc: Encodings, cols: seq<ColumnDef>, t: TableState, ops: seq<TableOp>): (rids: seq<Rid>)
    requires SessionAllowed(enc, cols, t, ops)
    ensures |rids| == |ops|
    decreases |ops|
  {
    if ops == [] then []
    else [AnswerOf(enc, cols, t, ops[0])] + Answered(enc, cols, TableStep(enc, cols, t, ops[0]), ops[1..])
  }

  // ---- The plain map ----

  /** A map of rows under the rids the table answers. */
  function PlainStep(rows: map<Rid, Row>, op: TableOp, answer: Rid): map<Rid, Row> {
    match op
    case AddRow(row) => rows[answer := row]
    case DropRow(rid) => rows - {rid}
    case AddIndex(_) => rows
  }

  function PlainRows(rows: map<Rid, Row>, ops: seq<TableOp>, answers: seq<Rid>): map<Rid, Row>
    requires |answers| == |ops|
    decreases |ops|
  {
    if ops == [] then rows else PlainRows(PlainStep(rows, ops[0], answers[0]), ops[1..], answers[1..])
  }

  /** After a session the live rows are those of the plain map. */
  lemma {:induction false} SessionRows(enc: Encodings, cols: seq<ColumnDef>, t: TableState, ops: seq<TableOp>)
    requires TableOk(enc, cols, t) && AllGentle(t) && SessionAllowed(enc, cols, t, ops)
    ensures LiveRows(enc, cols, TableRun(enc, cols, t, ops).heap)
      == PlainRows(LiveRows(enc, cols, t.heap), ops, Answered(enc, cols, t, ops))
    decreases |ops|
  {
    hide TableStep, TableOk, Allowed, AllGentle, LiveRows, Inserted;
    if ops != [] {
      TableStepKeeps(enc, cols, t, ops[0]);
      SessionRows(enc, cols, TableStep(enc, cols, t, ops[0]), ops[1..]);
    }
  }

  // ---- Rids are answered once ----

  lemma UsedStays(enc: Encodings, cols: seq<ColumnDef>, t: TableState, op: TableOp, r: Rid)
    requires TableOk(enc, cols, t) && Allowed(enc, cols, t, op)
    ensures Used(t.heap, r) ==> Used(TableStep(enc, cols, t, op).heap, r)
    ensures op.AddRow? ==> !Used(t.heap, AnswerOf(enc, cols, t, op))
    ensures op.AddRow? ==> Used(TableStep(enc, cols, t, op).heap, AnswerOf(enc, cols, t, op))
  {
    hide Used, Inserted, Deleted, TableOk, LiveRows, RowBytes;
    match op
    case AddRow(row) => InsertRefines(t.heap, RowBytes(enc, cols, row));
    case DropRow(rid) => DeleteRefines(t.heap, rid);
    case AddIndex(_) =>
  }

  lemma {:induction false} NeverAgain(enc: Encodings, cols: seq<ColumnDef>, t: TableState, ops: seq<TableOp>, r: Rid, j: nat)
    requires SessionAllowed(enc, cols, t, ops) && Used(t.heap, r) && j < |ops| && ops[j].AddRow?
    ensures Answered(enc, cols, t, ops)[j] != r
    decreases |ops|
  {
    hide Used, TableStep, TableOk, Allowed, AnswerOf;
    UsedStays(enc, cols, t, ops[0], r);
    if j > 0 {
      NeverAgain(enc, cols, TableStep(enc, cols, t, ops[0]), ops[1..], r, j - 1);
    }
  }

  /** No two inserts of a session answer the same rid, so the plain map never overwrites a row. */
  lemma {:induction false} AnswersFresh(enc: Encodings, cols: seq<ColumnDef>, t: TableState, ops: seq<TableOp>, i: nat, j: nat)
    requires SessionAllowed(enc, cols, t, ops) && i < j < |ops| && ops[i].AddRow? && ops[j].AddRow?
    ensures Answered(enc, cols, t, ops)[i] != Answered(enc, cols, t, ops)[j]
    decreases |ops|
  {
    hide Used, TableStep, TableOk, Allowed, AnswerOf;
    var next := TableStep(enc, cols, t, ops[0]);
    if i > 0 {
      AnswersFresh(enc, cols, next, ops[1..], i - 1, j - 1);
    } else {
      var r := Answered(enc, cols, t, ops)[0];
      UsedStays(enc, cols, t, ops[0], r);
      NeverAgain(enc, cols, next, ops[1..], r, j - 1);
    }
  }

  // ---- Indices ----

  ghost predicate IsIndexed(t: TableState, column: nat) {
    exists i :: 0 <= i < |t.indices| && t.indices[i].column == column
  }

  lemma IndicesStep(enc: Encodings, cols: seq<ColumnDef>, t: TableState, op: TableOp, column: nat)
    requires TableOk(enc, cols, t) && Allowed(enc, cols, t, op)
    ensures IsIndexed(TableStep(enc, cols, t, op), column) <==> IsIndexed(t, column) || op == AddIndex(column)
  {
    hide TableOk, LiveRows, RowBytes, Inserted, Deleted, Filled;
    var t' := TableStep(enc, cols, t, op);
    if i :| 0 <= i < |t.indices| && t.indices[i].column == column {
      assert t'.indices[i].column == column;
    }
    if i :| 0 <= i < |t'.indices| && t'.indices[i].column == column && i < |t.indices| {
      assert t.indices[i].column == column;
    }
    if op == AddIndex(column) && !IsIndexed(t, column) {
      assert t'.indices[|t.indices|].column == column;
    }
  }

  /** The columns indexed are those that some operation of the session asked for. */
  lemma {:induction false} SessionIndices(enc: Encodings, cols: seq<ColumnDef>, t: TableState, ops: seq<TableOp>, column: nat)
    requires SessionAllowed(enc, cols, t, ops)
    ensures IsIndexed(TableRun(enc, cols, t, ops), column) <==> IsIndexed(t, column) || AddIndex(column) in ops
    decreases |ops|
  {
    hide TableStep, TableOk, Allowed, IsIndexed;
    if ops != [] {
      IndicesStep(enc, cols, t, ops[0], column);
      SessionIndices(enc, cols, TableStep(enc, cols, t, ops[0]), ops[1..], column);
    }
  }

  ghost predicate IndexedOnce(t: TableState) {
    forall i, j :: 0 <= i < j < |t.indices| ==> t.indices[i].column != t.indices[j].column
  }

  lemma StepIndexedOnce(enc: Encodings, cols: seq<ColumnDef>, t: TableState, op: TableOp)
    requires TableOk(enc, cols, t) && Allowed(enc, cols, t, op) && IndexedOnce(t)
    ensures IndexedOnce(TableStep(enc, cols, t, op))
  {
    hide TableOk, LiveRows, RowBytes, Inserted, Deleted, Filled;
    var t' := TableStep(enc, cols, t, op);
    assert forall i :: 0 <= i < |t.indices| ==> t'.indices[i].column == t.indices[i].column;
  }

  /** However often it is asked for, no column has two indices. */
  lemma {:induction false} SessionIndexedOnce(enc: Encodings, cols: seq<ColumnDef>, t: TableState, ops: seq<TableOp>)
    requires SessionAllowed(enc, cols, t, ops) && IndexedOnce(t)
    ensures IndexedOnce(TableRun(enc, cols, t, ops))
    decreases |ops|
  {
    hide TableStep, TableOk, Allowed, IndexedOnce;
    if ops != [] {
      StepIndexedOnce(enc, cols, t, ops[0]);
      SessionIndexedOnce(enc, cols, TableStep(enc, cols, t, ops[0]), ops[1..]);
    }
  }
}
