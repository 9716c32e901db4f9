/** Rows as bytes: the lengths of the variable columns first, then every column's bytes in order. */
module RowCodec {
  import opened Options
  import opened Disk
  import opened Bytes
  import opened Expressions

  datatype Kind = INT | FLOAT | BOOL | VARCHAR

  /** A length limit counts characters; no limit and limit 0 are the same. */
  datatype ColumnDef = ColumnDef(name: string, kind: Kind, maxLength: nat)

  /** Text and floating point encodings, which are not modelled, with what is needed of them. */
  datatype Encodings = Encodings(
    utf8: string -> seq<byte>,
    unutf8: seq<byte> -> string,
    isDouble: real -> bool,
    double: real -> seq<byte>,
    undouble: seq<byte> -> real)

  ghost predicate Faithful(enc: Encodings) {
    && (forall s :: enc.unutf8(enc.utf8(s)) == s)
    && (forall x :: |enc.double(x)| == 8)
    && (forall x :: enc.isDouble(x) ==> enc.undouble(enc.double(x)) == x)
  }

  predicate Typed(col: ColumnDef, v: Value) {
    match col.kind
    case INT => v.IntVal?
    case FLOAT => v.FloatVal?
    case BOOL => v.BoolVal?
    case VARCHAR => v.TextVal?
  }

  ghost predicate RowTyped(cols: seq<ColumnDef>, row: Row) {
    |row| == |cols| && forall i :: 0 <= i < |cols| ==> Typed(cols[i], row[i])
  }

  /** Packed bytes, or `False` for a text over its limit, or an exception from packing a number out of range. */
  datatype Outcome = Packed(header: seq<byte>, body: seq<byte>) | Refused | Raised

  function PackCell(enc: Encodings, col: ColumnDef, v: Value): Outcome
    requires Typed(col, v)
  {
    match col.kind
    case INT => if IsI32(v.i) then Packed([], I32(v.i)) else Raised
    case FLOAT => Packed([], enc.double(v.r))
    case BOOL => Packed([], [if v.b then 1 else 0])
    case VARCHAR =>
      if 0 < col.maxLength < |v.s| then Refused
      else if !IsU16(|enc.utf8(v.s)|) then Raised
      else Packed(U16(|enc.utf8(v.s)|), enc.utf8(v.s))
  }

  /** The first `n` columns; the first that does not pack decides. */
  function Pack(enc: Encodings, cols: seq<ColumnDef>, row: Row, n: nat): Outcome
    requires n <= |cols| && RowTyped(cols, row)
  {
    if n == 0 then Packed([], [])
    else
      var before := Pack(enc, cols, row, n - 1);
      if !before.Packed? then before
      else
        var cell := PackCell(enc, cols[n - 1], row[n - 1]);
        if !cell.Packed? then cell else Packed(before.header + cell.header, before.body + cell.body)
  }

  // ---- Which rows have bytes ----

  /** A text longer than its column's limit, if the column has one. */
  predicate OverLimit(col: ColumnDef, v: Value) {
    v.TextVal? && col.maxLength > 0 && |v.s| > col.maxLength
  }

  /** A 32-bit integer; a text within the limit whose encoding has a 16-bit length; any other value. */
  predicate Acceptable(enc: Encodings, col: ColumnDef, v: Value) {
    && (v.IntVal? ==> -2147483648 <= v.i <= 2147483647)
    && (v.TextVal? ==> !OverLimit(col, v) && |enc.utf8(v.s)| <= 65535)
  }

  ghost predicate AllAcceptable(enc: Encodings, cols: seq<ColumnDef>, row: Row) {
    |row| == |cols| && forall i :: 0 <= i < |cols| ==> Acceptable(enc, cols[i], row[i])
  }

  ghost predicate FirstBad(enc: Encodings, cols: seq<ColumnDef>, row: Row, i: int) {
    && 0 <= i < |cols| == |row| && !Acceptable(enc, cols[i], row[i])
    && forall j :: 0 <= j < i ==> Acceptable(enc, cols[j], row[j])
  }

  lemma CellAcceptable(enc: Encodings, col: ColumnDef, v: Value)
    requires Typed(col, v)
    ensures PackCell(enc, col, v).Packed? <==> Acceptable(enc, col, v)
    ensures PackCell(enc, col, v).Refused? <==> OverLimit(col, v)
  {
  }

  /** The first column that does not pack, if there is one among the first `n`. */
  lemma {:induction false} PackUpTo(enc: Encodings, cols: seq<ColumnDef>, row: Row, n: nat) returns (bad: nat)
    requires n <= |cols| && RowTyped(cols, row)
    ensures Pack(enc, cols, row, n).Packed? <==> forall i :: 0 <= i < n ==> Acceptable(enc, cols[i], row[i])
    ensures !Pack(enc, cols, row, n).Packed? ==>
      bad < n && FirstBad(enc, cols, row, bad) && (Pack(enc, cols, row, n).Refused? <==> OverLimit(cols[bad], row[bad]))
  {
    hide Acceptable, OverLimit, PackCell, Typed;
    bad := 0;
    if 0 < n {
      bad := PackUpTo(enc, cols, row, n - 1);
      CellAcceptable(enc, cols[n - 1], row[n - 1]);
      if Pack(enc, cols, row, n - 1).Packed? {
        bad := n - 1;
      }
    }
  }

  /**
   A row is packed exactly when every value is acceptable, and refused, rather than an exception raised, exactly when the
   first value that is not acceptable is a text over its limit.
   */
  lemma PackedIff(enc: Encodings, cols: seq<ColumnDef>, row: Row)
    requires RowTyped(cols, row)
    ensures Storable(enc, cols, row) <==> AllAcceptable(enc, cols, row)
    ensures Pack(enc, cols, row, |cols|).Packed? <==> AllAcceptable(enc, cols, row)
    ensures Pack(enc, cols, row, |cols|).Refused? <==> exists i :: FirstBad(enc, cols, row, i) && OverLimit(cols[i], row[i])
  {
    hide Acceptable, OverLimit, Pack;
    var bad := PackUpTo(enc, cols, row, |cols|);
    forall i, j | FirstBad(enc, cols, row, i) && FirstBad(enc, cols, row, j)
      ensures i == j
    {
    }
  }

  ghost predicate Storable(enc: Encodings, cols: seq<ColumnDef>, row: Row) {
    RowTyped(cols, row) && Pack(enc, cols, row, |cols|).Packed?
  }

  /** The row's bytes, when it has any. */
  function RowBytes(enc: Encodings, cols: seq<ColumnDef>, row: Row): seq<byte>
    requires Storable(enc, cols, row)
  {
    var p := Pack(enc, cols, row, |cols|);
    p.header + p.body
  }

  /** Columns with distinct names; two of one name would share a place and leave another empty. */
  ghost predicate DistinctNames(cols: seq<ColumnDef>) {
    forall i, j :: 0 <= i < j < |cols| ==> cols[i].name != cols[j].name
  }

  // ---- Reading ----

  function Varchars(cols: seq<ColumnDef>, n: nat): (k: nat)
    requires n <= |cols|
    ensures k <= n
  {
    if n == 0 then 0 else Varchars(cols, n - 1) + if cols[n - 1].kind.VARCHAR? then 1 else 0
  }

  /** A slice that ends early when the bytes do. */
  function Slice(raw: seq<byte>, at: nat, n: nat): seq<byte> {
    if |raw| <= at then [] else if |raw| < at + n then raw[at..] else raw[at..at + n]
  }

  /** As many of the bytes as there are. */
  lemma SliceIs(raw: seq<byte>, at: nat, n: nat)
    ensures |Slice(raw, at, n)| <= n && (at <= |raw| ==> HoldsAt(raw, at, Slice(raw, at, n)))
    ensures |Slice(raw, at, n)| < n ==> at + |Slice(raw, at, n)| >= |raw|
    ensures |raw| <= at ==> Slice(raw, at, n) == []
  {
  }

  /** One column's value and the offset after it; None where the source raises on missing bytes. */
  function UnpackCell(enc: Encodings, kind: Kind, raw: seq<byte>, at: nat, length: nat): Option<(Value, nat)> {
    match kind
    case INT => if at + 4 <= |raw| then Some((IntVal(I32At(raw, at)), at + 4)) else None
    case FLOAT => if at + 8 <= |raw| then Some((FloatVal(enc.undouble(raw[at..at + 8])), at + 8)) else None
    case BOOL => if at + 1 <= |raw| then Some((BoolVal(raw[at] != 0), at + 1)) else None
    case VARCHAR => Some((TextVal(enc.unutf8(Slice(raw, at, length))), at + length))
  }

  /** The first `n` columns and the offset after them, given the lengths in the header. */
  function Unpack(enc: Encodings, cols: seq<ColumnDef>, raw: seq<byte>, n: nat): (r: Option<(Row, nat)>)
    requires n <= |cols| && 2 * Varchars(cols, |cols|) <= |raw|
    ensures r.Some? ==> |r.value.0| == n
  {
    if n == 0 then Some(([], 2 * Varchars(cols, |cols|)))
    else
      var before := Unpack(enc, cols, raw, n - 1);
      if before.None? then None
      else
        var (values, at) := before.value;
        var cell := UnpackCell(enc, cols[n - 1].kind, raw, at, LengthAt(cols, raw, n - 1));
        if cell.None? then None else Some((values + [cell.value.0], cell.value.1))
  }

  lemma {:induction false} VarcharsGrow(cols: seq<ColumnDef>, m: nat, n: nat)
    requires m <= n <= |cols|
    ensures Varchars(cols, m) <= Varchars(cols, n)
  {
    if m < n {
      VarcharsGrow(cols, m, n - 1);
    }
  }

  /** The length the header gives column `i`, if it is a varchar. */
  function LengthAt(cols: seq<ColumnDef>, raw: seq<byte>, i: nat): nat
    requires i < |cols| && 2 * Varchars(cols, |cols|) <= |raw|
  {
    VarcharsGrow(cols, i + 1, |cols|);
    if cols[i].kind.VARCHAR? then U16At(raw, 2 * Varchars(cols, i)) else 0
  }

  function Decode(enc: Encodings, cols: seq<ColumnDef>, raw: seq<byte>): Option<Row> {
    if |raw| < 2 * Varchars(cols, |cols|) then None
    else
      var r := Unpack(enc, cols, raw, |cols|);
      if r.None? then None else Some(r.value.0)
  }

  // ---- What any bytes decode to ----

  /** How many bytes a column takes, given its length in the header. */
  function Width(kind: Kind, length: nat): nat {
    match kind
    case INT => 4
    case FLOAT => 8
    case BOOL => 1
    case VARCHAR => length
  }

  /** Where column `i` starts: after the header and the columns before it. */
  function StartOf(cols: seq<ColumnDef>, raw: seq<byte>, i: nat): nat
    requires i <= |cols| && 2 * Varchars(cols, |cols|) <= |raw|
  {
    if i == 0 then 2 * Varchars(cols, |cols|)
    else StartOf(cols, raw, i - 1) + Width(cols[i - 1].kind, LengthAt(cols, raw, i - 1))
  }

  /** The bytes hold column `i` whole, or it is a text, which may end early. */
  predicate Reaches(cols: seq<ColumnDef>, raw: seq<byte>, i: nat)
    requires i < |cols| && 2 * Varchars(cols, |cols|) <= |raw|
  {
    cols[i].kind == VARCHAR || StartOf(cols, raw, i + 1) <= |raw|
  }

  /** Column `i` as it stands in the bytes. */
  ghost predicate ReadAs(enc: Encodings, cols: seq<ColumnDef>, raw: seq<byte>, i: nat, v: Value)
    requires i < |cols| && 2 * Varchars(cols, |cols|) <= |raw|
  {
    var at := StartOf(cols, raw, i);
    match cols[i].kind
    case INT => v.IntVal? && IsI32(v.i) && HoldsAt(raw, at, I32(v.i))
    case FLOAT => at + 8 <= |raw| && v == FloatVal(enc.undouble(raw[at..at + 8]))
    case BOOL => at < |raw| && v == BoolVal(raw[at] > 0)
    case VARCHAR => v == TextVal(enc.unutf8(Slice(raw, at, LengthAt(cols, raw, i))))
  }

  lemma {:induction false} UnpackIs(enc: Encodings, cols: seq<ColumnDef>, raw: seq<byte>, n: nat)
    requires n <= |cols| && 2 * Varchars(cols, |cols|) <= |raw|
    ensures Unpack(enc, cols, raw, n).Some? <==> forall i :: 0 <= i < n ==> Reaches(cols, raw, i)
    ensures Unpack(enc, cols, raw, n).Some? ==> Unpack(enc, cols, raw, n).value.1 == StartOf(cols, raw, n)
    ensures Unpack(enc, cols, raw, n).Some? ==>
      forall i :: 0 <= i < n ==> ReadAs(enc, cols, raw, i, Unpack(enc, cols, raw, n).value.0[i])
  {
    hide LengthAt, Slice, ReadAs;
    if n > 0 {
      UnpackIs(enc, cols, raw, n - 1);
      UnpackedAs(enc, cols, raw, n - 1);
    }
  }

  lemma UnpackedAs(enc: Encodings, cols: seq<ColumnDef>, raw: seq<byte>, i: nat)
    requires i < |cols| && 2 * Varchars(cols, |cols|) <= |raw|
    ensures var cell := UnpackCell(enc, cols[i].kind, raw, StartOf(cols, raw, i), LengthAt(cols, raw, i));
      && (cell.Some? <==> Reaches(cols, raw, i))
      && (cell.Some? ==> cell.value.1 == StartOf(cols, raw, i + 1) && ReadAs(enc, cols, raw, i, cell.value.0))
  {
    hide LengthAt, Slice;
    var at := StartOf(cols, raw, i);
    if cols[i].kind == INT && at + 4 <= |raw| {
      I32Read(raw, at);
    }
  }

  /** Bytes decode exactly when they hold the header and every fixed column, each column then read where it starts. */
  lemma DecodeIff(enc: Encodings, cols: seq<ColumnDef>, raw: seq<byte>)
    ensures Decode(enc, cols, raw).Some? <==>
      2 * Varchars(cols, |cols|) <= |raw| && forall i :: 0 <= i < |cols| ==> Reaches(cols, raw, i)
    ensures Decode(enc, cols, raw).Some? ==>
      var row := Decode(enc, cols, raw).value;
      |row| == |cols| && forall i :: 0 <= i < |cols| ==> ReadAs(enc, cols, raw, i, row[i])
  {
    hide Reaches, ReadAs, Unpack;
    if 2 * Varchars(cols, |cols|) <= |raw| {
      UnpackIs(enc, cols, raw, |cols|);
    }
  }

  /** Integers read back have 32 bits. */
  lemma {:induction false} UnpackInts(enc: Encodings, cols: seq<ColumnDef>, raw: seq<byte>, n: nat, i: nat)
    requires i < n <= |cols| && 2 * Varchars(cols, |cols|) <= |raw| && Unpack(enc, cols, raw, n).Some? && cols[i].kind == INT
    ensures Unpack(enc, cols, raw, n).value.0[i].IntVal? && IsI32(Unpack(enc, cols, raw, n).value.0[i].i)
  {
    if i < n - 1 {
      UnpackInts(enc, cols, raw, n - 1, i);
    }
  }

  // ---- Round trip ----

  lemma {:induction false} PackPrefix(enc: Encodings, cols: seq<ColumnDef>, row: Row, m: nat, n: nat)
    requires m <= n <= |cols| && RowTyped(cols, row) && Pack(enc, cols, row, n).Packed?
    ensures Pack(enc, cols, row, m).Packed?
    ensures Pack(enc, cols, row, m).header <= Pack(enc, cols, row, n).header
    ensures Pack(enc, cols, row, m).body <= Pack(enc, cols, row, n).body
  {
    if m < n {
      PackPrefix(enc, cols, row, m, n - 1);
    }
  }

  lemma {:induction false} HeaderLength(enc: Encodings, cols: seq<ColumnDef>, row: Row, n: nat)
    requires n <= |cols| && RowTyped(cols, row) && Pack(enc, cols, row, n).Packed?
    ensures |Pack(enc, cols, row, n).header| == 2 * Varchars(cols, n)
  {
    if 0 < n {
      HeaderLength(enc, cols, row, n - 1);
    }
  }

  /** One column read back from where it was put. */
  lemma CellBack(enc: Encodings, col: ColumnDef, v: Value, raw: seq<byte>, at: nat)
    requires Faithful(enc) && Typed(col, v) && PackCell(enc, col, v).Packed?
    requires v.FloatVal? ==> enc.isDouble(v.r)
    requires HoldsAt(raw, at, PackCell(enc, col, v).body)
    ensures UnpackCell(enc, col.kind, raw, at, if v.TextVal? then |enc.utf8(v.s)| else 0)
      == Some((v, at + |PackCell(enc, col, v).body|))
  {
    if v.IntVal? {
      I32Back(raw, at, v.i);
    } else if v.BoolVal? {
      assert raw[at] == raw[at..at + 1][0];
    }
  }

  lemma PackStep(enc: Encodings, cols: seq<ColumnDef>, row: Row, i: nat)
    requires i < |cols| && RowTyped(cols, row) && Pack(enc, cols, row, i + 1).Packed?
    ensures Pack(enc, cols, row, i).Packed? && PackCell(enc, cols[i], row[i]).Packed?
    ensures Pack(enc, cols, row, i + 1).header == Pack(enc, cols, row, i).header + PackCell(enc, cols[i], row[i]).header
    ensures Pack(enc, cols, row, i + 1).body == Pack(enc, cols, row, i).body + PackCell(enc, cols[i], row[i]).body
  {
  }

  /** The whole row as one string of bytes holds each column's header and body in its place. */
  lemma CellPlaces(enc: Encodings, cols: seq<ColumnDef>, row: Row, i: nat)
    requires Storable(enc, cols, row) && i < |cols|
    ensures Pack(enc, cols, row, i).Packed? && PackCell(enc, cols[i], row[i]).Packed?
    ensures var raw := RowBytes(enc, cols, row); var cell := PackCell(enc, cols[i], row[i]);
      && HoldsAt(raw, 2 * Varchars(cols, |cols|) + |Pack(enc, cols, row, i).body|, cell.body)
      && HoldsAt(raw, 2 * Varchars(cols, i), cell.header)
  {
    hide Pack, PackCell, HoldsAt, Varchars;
    PackPrefix(enc, cols, row, i + 1, |cols|);
    PackStep(enc, cols, row, i);
    HeaderLength(enc, cols, row, i);
    HeaderLength(enc, cols, row, |cols|);
    var whole, before, cell := Pack(enc, cols, row, |cols|), Pack(enc, cols, row, i), PackCell(enc, cols[i], row[i]);
    InHeader(before.header, cell.header, whole.header, whole.body);
    InBody(before.body, cell.body, whole.header, whole.body);
  }

  lemma InHeader(a: seq<byte>, b: seq<byte>, header: seq<byte>, body: seq<byte>)
    requires a + b <= header
    ensures HoldsAt(header + body, |a|, b)
  {
    assert (header + body)[|a|..|a| + |b|] == (a + b)[|a|..];
  }

  lemma InBody(a: seq<byte>, b: seq<byte>, header: seq<byte>, body: seq<byte>)
    requires a + b <= body
    ensures HoldsAt(header + body, |header| + |a|, b)
  {
    assert (header + body)[|header| + |a|..|header| + |a| + |b|] == (a + b)[|a|..];
  }

  lemma LengthBack(enc: Encodings, cols: seq<ColumnDef>, row: Row, i: nat)
    requires Storable(enc, cols, row) && i < |cols|
    ensures 2 * Varchars(cols, |cols|) <= |RowBytes(enc, cols, row)|
    ensures LengthAt(cols, RowBytes(enc, cols, row), i) == if row[i].TextVal? then |enc.utf8(row[i].s)| else 0
  {
    CellPlaces(enc, cols, row, i);
    HeaderLength(enc, cols, row, |cols|);
    if row[i].TextVal? {
      U16Back(RowBytes(enc, cols, row), 2 * Varchars(cols, i), |enc.utf8(row[i].s)|);
    }
  }

  lemma {:induction false} UnpackPack(enc: Encodings, cols: seq<ColumnDef>, row: Row, n: nat)
    requires Faithful(enc) && Storable(enc, cols, row) && n <= |cols|
    requires forall i :: 0 <= i < |row| && row[i].FloatVal? ==> enc.isDouble(row[i].r)
    ensures 2 * Varchars(cols, |cols|) <= |RowBytes(enc, cols, row)| && Pack(enc, cols, row, n).Packed?
    ensures Unpack(enc, cols, RowBytes(enc, cols, row), n)
      == Some((row[..n], 2 * Varchars(cols, |cols|) + |Pack(enc, cols, row, n).body|))
  {
    hide PackCell, HoldsAt, UnpackCell, RowBytes, LengthAt;
    PackPrefix(enc, cols, row, n, |cols|);
    if 0 < n {
      UnpackPack(enc, cols, row, n - 1);
      CellPlaces(enc, cols, row, n - 1);
      LengthBack(enc, cols, row, n - 1);
      PackStep(enc, cols, row, n - 1);
      CellBack(enc, cols[n - 1], row[n - 1], RowBytes(enc, cols, row),
        2 * Varchars(cols, |cols|) + |Pack(enc, cols, row, n - 1).body|);
      assert row[..n] == row[..n - 1] + [row[n - 1]];
    } else {
      HeaderFits(enc, cols, row);
    }
  }

  lemma HeaderFits(enc: Encodings, cols: seq<ColumnDef>, row: Row)
    requires Storable(enc, cols, row)
    ensures 2 * Varchars(cols, |cols|) <= |RowBytes(enc, cols, row)|
  {
    HeaderLength(enc, cols, row, |cols|);
  }

  /** Whatever the mix of fixed and variable columns, a stored row reads back as itself. */
  lemma DecodeRow(enc: Encodings, cols: seq<ColumnDef>, row: Row)
    requires Faithful(enc) && Storable(enc, cols, row)
    requires forall i :: 0 <= i < |row| && row[i].FloatVal? ==> enc.isDouble(row[i].r)
    ensures Decode(enc, cols, RowBytes(enc, cols, row)) == Some(row)
  {
    UnpackPack(enc, cols, row, |cols|);
    assert row[..|cols|] == row;
  }

  // ---- The loops ----

  datatype Schema = Schema(columns: seq<ColumnDef>, columnNames: map<string, nat>, varchars: nat)

  ghost predicate SchemaOk(s: Schema) {
    && DistinctNames(s.columns) && s.varchars == Varchars(s.columns, |s.columns|)
    && forall i :: 0 <= i < |s.columns| ==> s.columns[i].name in s.columnNames && s.columnNames[s.columns[i].name] == i
  }

  /** `names` gives each name among the first `n` columns, and no other, its last place there. */
  ghost predicate LastIndices(cols: seq<ColumnDef>, names: map<string, nat>, n: nat)
    requires n <= |cols|
  {
    && (forall i :: 0 <= i < n ==> cols[i].name in names && i <= names[cols[i].name])
    && (forall s :: s in names ==> names[s] < n && cols[names[s]].name == s)
  }

  /** Counts the varchars and notes each name's index; a repeated name keeps its last. */
  method NewSchema(columns: seq<ColumnDef>) returns (s: Schema)
    ensures s.columns == columns && (DistinctNames(columns) ==> SchemaOk(s))
    ensures LastIndices(columns, s.columnNames, |columns|)
  {
    var count: nat := 0;
    var names: map<string, nat> := map[];
    var i: nat := 0;
    while i < |columns|
      invariant 0 <= i <= |columns| && count == Varchars(columns, i)
      invariant LastIndices(columns, names, i)
    {
      if columns[i].kind == VARCHAR {
        count := count + 1;
      }
      names := names[columns[i].name := i];
      i := i + 1;
    }
    s := Schema(columns, names, count);
  }

  function Join(parts: seq<seq<byte>>): seq<byte> {
    if parts == [] then [] else Join(parts[..|parts| - 1]) + parts[|parts| - 1]
  }

  method Serialize(enc: Encodings, s: Schema, row: Row) returns (outcome: Outcome)
    requires SchemaOk(s) && RowTyped(s.columns, row)
    ensures outcome == Pack(enc, s.columns, row, |s.columns|)
    ensures outcome.Packed? <==> AllAcceptable(enc, s.columns, row)
    ensures outcome.Refused? <==> exists i :: FirstBad(enc, s.columns, row, i) && OverLimit(s.columns[i], row[i])
  {
    hide AllAcceptable, FirstBad, OverLimit, Acceptable, Typed;
    PackedIff(enc, s.columns, row);
    var header: seq<byte> := [];
    var parts: seq<seq<byte>> := seq(|s.columns|, _ => []);
    var i := 0;
    while i < |s.columns|
      invariant 0 <= i <= |s.columns| == |parts|
      invariant Pack(enc, s.columns, row, i) == Packed(header, Join(parts[..i]))
    {
      var column := s.columns[i];
      var colIndex := s.columnNames[column.name];
      assert colIndex == i;
      var cell := PackCell(enc, column, row[colIndex]);
      if !cell.Packed? {
        PackStuck(enc, s.columns, row, i + 1);
        return cell;
      }
      header := header + cell.header;
      parts := parts[colIndex := cell.body];
      assert parts[..i + 1][..i] == parts[..i];
      i := i + 1;
    }
    assert parts[..i] == parts;
    outcome := Packed(header, Join(parts));
  }

  /** A column that does not pack settles the whole row. */
  lemma {:induction false} PackStuck(enc: Encodings, cols: seq<ColumnDef>, row: Row, n: nat)
    requires n <= |cols| && RowTyped(cols, row) && !Pack(enc, cols, row, n).Packed?
    ensures Pack(enc, cols, row, |cols|) == Pack(enc, cols, row, n)
    decreases |cols| - n
  {
    if n < |cols| {
      PackStuck(enc, cols, row, n + 1);
    }
  }

  method Lengths(raw: seq<byte>, n: nat) returns (lengths: seq<int>)
    requires 2 * n <= |raw|
    ensures |lengths| == n && forall i :: 0 <= i < n ==> lengths[i] == U16At(raw, 2 * i)
  {
    lengths := [];
    var i := 0;
    while i < n
      invariant 0 <= i <= n && |lengths| == i && forall j :: 0 <= j < i ==> lengths[j] == U16At(raw, 2 * j)
    {
      lengths := lengths + [U16At(raw, 2 * i)];
      i := i + 1;
    }
  }

  method Deserialize(enc: Encodings, s: Schema, raw: seq<byte>) returns (row: Option<Row>)
    requires SchemaOk(s)
    ensures row == Decode(enc, s.columns, raw)
  {
    hide UnpackCell, U16At;
    if |raw| < 2 * s.varchars {
      return None;
    }
    var lengths := Lengths(raw, s.varchars);
    var varcharCount, offset: nat := 0, 2 * s.varchars;
    var values: Row := seq(|s.columns|, _ => IntVal(0));
    var i := 0;
    while i < |s.columns|
      invariant 0 <= i <= |s.columns| == |values| && varcharCount == Varchars(s.columns, i)
      invariant Unpack(enc, s.columns, raw, i) == Some((values[..i], offset))
    {
      var column := s.columns[i];
      var colIndex := s.columnNames[column.name];
      assert colIndex == i;
      VarcharsGrow(s.columns, i + 1, |s.columns|);
      var length: nat := 0;
      if column.kind == VARCHAR {
        length := lengths[varcharCount];
        varcharCount := varcharCount + 1;
      }
      var cell := UnpackCell(enc, column.kind, raw, offset, length);
      if cell.None? {
        UnpackStuck(enc, s.columns, raw, i + 1);
        return None;
      }
      values := values[colIndex := cell.value.0];
      offset := cell.value.1;
      assert values[..i + 1] == values[..i] + [cell.value.0];
      i := i + 1;
    }
    assert values[..i] == values;
    row := Some(values);
  }

  lemma {:induction false} UnpackStuck(enc: Encodings, cols: seq<ColumnDef>, raw: seq<byte>, n: nat)
    requires n <= |cols| && 2 * Varchars(cols, |cols|) <= |raw| && Unpack(enc, cols, raw, n).None?
    ensures Unpack(enc, cols, raw, |cols|).None?
    decreases |cols| - n
  {
    if n < |cols| {
      UnpackStuck(enc, cols, raw, n + 1);
    }
  }
}
