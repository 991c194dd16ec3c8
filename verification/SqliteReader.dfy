/** The SQLite result reader: the first batch is read with type inference, later
    batches are converted to the types it settled on. */
module SqliteReader {
  import opened Bytes
  import opened SqliteInfer
  import opened SqliteColumn
  import opened Wrappers

  type Row = seq<Value>

  datatype Ending = Finishes | Fails

  datatype StepResult = ROW(row: Row) | DONE | ERROR

  /** A prepared statement: a list of rows and how the list ends.  After the end a
      further step would execute the query again. */
  class Statement {
    const rows: seq<Row>
    const ending: Ending
    const numColumns: nat
    var pos: nat

    ghost predicate Valid() reads this {
      pos <= |rows| && Rectangular(rows, numColumns)
    }

    constructor (rows: seq<Row>, ending: Ending, numColumns: nat)
      requires Rectangular(rows, numColumns)
      ensures Valid() && pos == 0
      ensures this.rows == rows && this.ending == ending && this.numColumns == numColumns
    {
      this.rows, this.ending, this.numColumns, this.pos := rows, ending, numColumns, 0;
    }

    method Step() returns (rc: StepResult)
      requires Valid()
      modifies this
      ensures Valid()
      ensures if old(pos) < |rows| then pos == old(pos) + 1 && rc == ROW(rows[old(pos)])
              else pos == 0 && rc == if ending == Finishes then DONE else ERROR
    {
      if pos < |rows| {
        rc := ROW(rows[pos]);
        pos := pos + 1;
      } else {
        rc := if ending == Finishes then DONE else ERROR;
        pos := 0;
      }
    }
  }

  // ---------------------------------------------------------------------
  // Converting a value to a settled column type
  // ---------------------------------------------------------------------

  /** `columnText` is SQLite's own conversion of a value to text. */
  datatype ReaderEnv = ReaderEnv(infer: Env, columnText: Value -> seq<byte>)

  function ColumnText(env: ReaderEnv, v: Value): seq<byte> {
    if v.Text? then v.t else env.columnText(v)
  }

  /** StatementReaderGetOneValue; None is the type-mismatch error. */
  function Convert(env: ReaderEnv, t: ColumnType, v: Value): Option<Cell> {
    if v.Null? then Some(NullCell)
    else match t
      case INT64 => if v.Integer? then Some(IntCell(v.i)) else None
      case DOUBLE => if v.Integer? || v.Float? then Some(DoubleCell(AsDouble(env.infer, v))) else None
      case STRING => Some(TextCell(ColumnText(env, v)))
  }

  function TypeRank(t: ColumnType): nat {
    match t case INT64 => 0 case DOUBLE => 1 case STRING => 2
  }

  function ClassRank(v: Value): nat {
    match v case Null => 0 case Integer(_) => 0 case Float(_) => 1 case Text(_) => 2 case Blob(_) => 2
  }

  /** A later value is accepted exactly when its class is at or below the column's
      type, and any value the inference saw is accepted by the type it settled on. */
  lemma ConvertAcceptsUpToType(env: ReaderEnv, t: ColumnType, v: Value, vs: seq<Value>)
    ensures Convert(env, t, v).Some? <==> v.Null? || ClassRank(v) <= TypeRank(t)
    ensures NoBlob(vs) ==> forall k | 0 <= k < |vs| :: Convert(env, SpecType(vs), vs[k]).Some?
  {
    if NoBlob(vs) {
      forall k | 0 <= k < |vs| ensures Convert(env, SpecType(vs), vs[k]).Some? {
        assert !vs[k].Blob?;
      }
    }
  }

  /** The two phases agree: inferred over a column or converted to the type the inference
      settled on, a value becomes the same cell; in a text column this goes for nulls and
      texts, and every other value is as SQLite prints it. */
  lemma PhasesAgree(env: ReaderEnv, vs: seq<Value>, k: nat)
    requires NoBlob(vs) && k < |vs|
    ensures !vs[k].Blob?
    ensures SpecType(vs) != STRING || vs[k].Null? || vs[k].Text? ==>
              Convert(env, SpecType(vs), vs[k]) == Some(SpecCell(env.infer, vs, k))
    ensures SpecType(vs) == STRING && !vs[k].Null? && !vs[k].Text? ==>
              Convert(env, SpecType(vs), vs[k]) == Some(TextCell(env.columnText(vs[k])))
  {
    assert !vs[k].Blob?;
  }

  predicate RowFits(env: ReaderEnv, types: seq<ColumnType>, row: Row) {
    |row| == |types| && forall c | 0 <= c < |types| :: Convert(env, types[c], row[c]).Some?
  }

  /** How many rows at the front can be converted. */
  function FittingPrefix(env: ReaderEnv, types: seq<ColumnType>, rows: seq<Row>): (n: nat)
    ensures n <= |rows|
    ensures forall r | 0 <= r < n :: RowFits(env, types, rows[r])
    ensures n < |rows| ==> !RowFits(env, types, rows[n])
  {
    if rows == [] || !RowFits(env, types, rows[0]) then 0 else 1 + FittingPrefix(env, types, rows[1..])
  }

  function CellOf(env: ReaderEnv, types: seq<ColumnType>, row: Row, c: nat): Cell
    requires c < |types| && RowFits(env, types, row)
  {
    Convert(env, types[c], row[c]).value
  }

  function ConvertedColumn(env: ReaderEnv, types: seq<ColumnType>, rows: seq<Row>, c: nat): (cells: seq<Cell>)
    requires c < |types| && forall r | 0 <= r < |rows| :: RowFits(env, types, rows[r])
    ensures |cells| == |rows|
  {
    seq(|rows|, r requires 0 <= r < |rows| => CellOf(env, types, rows[r], c))
  }

  function ConvertedColumns(env: ReaderEnv, types: seq<ColumnType>, rows: seq<Row>): seq<seq<Cell>>
    requires forall r | 0 <= r < |rows| :: RowFits(env, types, rows[r])
  {
    seq(|types|, c requires 0 <= c < |types| => ConvertedColumn(env, types, rows, c))
  }

  function Column(rows: seq<Row>, c: nat): (vs: seq<Value>)
    requires forall r | 0 <= r < |rows| :: c < |rows[r]|
    ensures |vs| == |rows|
  {
    seq(|rows|, r requires 0 <= r < |rows| => rows[r][c])
  }

  /** A batch handed to the consumer. */
  datatype Batch =
    | Inferred(length: nat, arrays: seq<ArrowArray>)
    | Read(length: nat, columns: seq<seq<Cell>>)

  datatype ReadStatus = Good | IoError

  function Min(a: nat, b: nat): nat { if a < b then a else b }

  class StatementReader {
    const env: ReaderEnv
    const stmt: Statement
    const batchSize: nat
    const types: seq<ColumnType>
    var initialBatch: Option<Batch>
    var done: bool

    ghost predicate Valid() reads this, stmt {
      stmt.Valid() && |types| == stmt.numColumns && batchSize >= 1
    }

    constructor (env: ReaderEnv, stmt: Statement, batchSize: nat, types: seq<ColumnType>, initial: Batch, done: bool)
      requires stmt.Valid() && |types| == stmt.numColumns && batchSize >= 1
      ensures Valid() && this.env == env && this.stmt == stmt && this.batchSize == batchSize && this.types == types
      ensures initialBatch == Some(initial) && this.done == done
    {
      this.env, this.stmt, this.batchSize, this.types := env, stmt, batchSize, types;
      this.initialBatch, this.done := Some(initial), done;
    }

    /** The rows the next call would look at. */
    ghost function Ahead(): seq<Row>
      reads this, stmt
      requires Valid()
    {
      stmt.rows[stmt.pos..][..Min(batchSize, |stmt.rows| - stmt.pos)]
    }

    /** StatementReaderGetNext.  None with a Good status is end-of-stream. */
    method GetNext() returns (status: ReadStatus, out: Option<Batch>)
      requires Valid()
      modifies this`initialBatch, this`done, stmt
      ensures Valid()
      // The inferred batch goes first, once.
      ensures old(initialBatch).Some? ==>
                status == Good && out == old(initialBatch) && initialBatch.None? && done == old(done) && unchanged(stmt)
      // End-of-stream is permanent.
      ensures old(initialBatch).None? && old(done) ==>
                status == Good && out.None? && initialBatch.None? && done && unchanged(stmt)
      // Otherwise up to batchSize rows are read, as far as they fit the types.
      ensures old(initialBatch).None? && !old(done) ==>
                var ahead := old(Ahead());
                var fit := FittingPrefix(env, types, ahead);
                && initialBatch.None?
                && if fit < |ahead| then
                     status == IoError && out.None? && !done && stmt.pos == old(stmt.pos) + fit + 1
                   else if |ahead| == batchSize then
                     status == Good && !done && stmt.pos == old(stmt.pos) + batchSize
                     && out == Some(Read(batchSize, ConvertedColumns(env, types, ahead)))
                   else
                     && done
                     && status == (if stmt.ending == Finishes then Good else IoError)
                     && out == (if status == Good && |ahead| > 0
                                then Some(Read(|ahead|, ConvertedColumns(env, types, ahead))) else None)
    {
      status, out := Good, None;
      if initialBatch.Some? {
        out, initialBatch := initialBatch, None;
        return;
      } else if done {
        return;
      }
      ghost var ahead := Ahead();
      ghost var start := stmt.pos;
      var columns: seq<seq<Cell>> := seq(|types|, _ => []);
      var length := 0;
      while length < batchSize
        invariant Valid() && initialBatch.None? && !done && status == Good && out.None?
        invariant length <= |ahead| && stmt.pos == start + length
        invariant forall r | 0 <= r < length :: RowFits(env, types, ahead[r])
        invariant columns == ConvertedColumns(env, types, ahead[..length])
        modifies this`done, stmt
      {
        var rc := stmt.Step();
        if rc.DONE? {
          done := true;
          break;
        } else if rc.ERROR? {
          done := true;
          status := IoError;
          break;
        }
        assert rc.row == ahead[length];
        var fits;
        fits, columns := AppendRow(env, types, ahead[..length], rc.row, columns);
        if !fits {
          FittingPrefixAt(env, types, ahead, length);
          status := IoError;
          return;
        }
        assert ahead[..length + 1] == ahead[..length] + [rc.row];
        length := length + 1;
      }
      FittingPrefixAt(env, types, ahead, length);
      assert ahead[..length] == ahead;
      if status == Good && length > 0 { out := Some(Read(length, columns)); }
    }
  }

  lemma {:induction false} FittingPrefixAt(env: ReaderEnv, types: seq<ColumnType>, rows: seq<Row>, n: nat)
    requires n <= |rows| && (forall r | 0 <= r < n :: RowFits(env, types, rows[r]))
    requires n < |rows| ==> !RowFits(env, types, rows[n])
    ensures FittingPrefix(env, types, rows) == n
  {
    var f := FittingPrefix(env, types, rows);
    assert !(f < n) && !(n < f);
  }

  /** Append one row's cells to the columns being built, or stop at the first value
      that does not fit its column. */
  method AppendRow(env: ReaderEnv, types: seq<ColumnType>, ghost before: seq<Row>, row: Row, columns: seq<seq<Cell>>)
    returns (fits: bool, columns': seq<seq<Cell>>)
    requires |row| == |types| && (forall r | 0 <= r < |before| :: RowFits(env, types, before[r]))
    requires columns == ConvertedColumns(env, types, before)
    ensures fits == RowFits(env, types, row)
    ensures fits ==> columns' == ConvertedColumns(env, types, before + [row])
  {
    columns' := columns;
    for col := 0 to |types|
      invariant |columns'| == |types|
      invariant forall c | 0 <= c < col ::
                  && Convert(env, types[c], row[c]).Some?
                  && columns'[c] == columns[c] + [Convert(env, types[c], row[c]).value]
      invariant forall c | col <= c < |types| :: columns'[c] == columns[c]
    {
      var cell := Convert(env, types[col], row[col]);
      if cell.None? { return false, columns'; }
      columns' := columns'[col := columns'[col] + [cell.value]];
    }
    fits := true;
    assert RowFits(env, types, row);
    forall c | 0 <= c < |types| ensures columns'[c] == ConvertedColumn(env, types, before + [row], c) {
      assert columns[c] == ConvertedColumn(env, types, before, c);
    }
  }

  // ---------------------------------------------------------------------
  // The first batch
  // ---------------------------------------------------------------------

  /** Builders are distinct objects, one per column, and column c has seen `seen[c]`. */
  ghost predicate Building(builders: seq<ColumnBuilder>, seen: seq<seq<Value>>)
    reads builders
  {
    && |builders| == |seen|
    && (forall i, j | 0 <= i < j < |builders| :: builders[i] != builders[j])
    && (forall c | 0 <= c < |builders| :: builders[c].Valid() && builders[c].seen == seen[c])
  }

  predicate Rectangular(rows: seq<Row>, numColumns: nat) {
    forall r | 0 <= r < |rows| :: |rows[r]| == numColumns
  }

  predicate RowHasBlob(row: Row) {
    exists c | 0 <= c < |row| :: row[c].Blob?
  }

  /** The first n rows hold no BLOB. */
  predicate BlobFree(rows: seq<Row>, n: nat)
    requires n <= |rows|
  {
    forall r | 0 <= r < n :: !RowHasBlob(rows[r])
  }

  function Columns(rows: seq<Row>, numColumns: nat): (cs: seq<seq<Value>>)
    requires Rectangular(rows, numColumns)
    ensures |cs| == numColumns
  {
    seq(numColumns, c requires 0 <= c < numColumns => Column(rows, c))
  }

  function AppendedRow(seen: seq<seq<Value>>, row: Row): (cs: seq<seq<Value>>)
    requires |row| == |seen|
    ensures |cs| == |seen|
  {
    seq(|seen|, c requires 0 <= c < |seen| => seen[c] + [row[c]])
  }

  lemma {:induction false} ColumnsAppend(rows: seq<Row>, n: nat, numColumns: nat)
    requires n < |rows| && Rectangular(rows, numColumns)
    ensures |rows[n]| == numColumns && Rectangular(rows[..n], numColumns) && Rectangular(rows[..n + 1], numColumns)
    ensures AppendedRow(Columns(rows[..n], numColumns), rows[n]) == Columns(rows[..n + 1], numColumns)
  {
    forall c | 0 <= c < numColumns ensures Column(rows[..n], c) + [rows[n][c]] == Column(rows[..n + 1], c) {
    }
  }

  method NewBuilders(env: Env, numColumns: nat, inferRows: nat) returns (builders: seq<ColumnBuilder>)
    ensures |builders| == numColumns && Building(builders, Columns([], numColumns))
    ensures forall c | 0 <= c < numColumns :: fresh(builders[c])
    ensures forall c | 0 <= c < numColumns :: builders[c].env == env && builders[c].inferRows == inferRows
  {
    builders := [];
    for c := 0 to numColumns
      invariant |builders| == c
      invariant forall i | 0 <= i < c :: fresh(builders[i])
      invariant forall i, j | 0 <= i < j < c :: builders[i] != builders[j]
      invariant forall i | 0 <= i < c :: builders[i].env == env && builders[i].inferRows == inferRows
      invariant forall i | 0 <= i < c :: builders[i].Valid() && builders[i].seen == []
    {
      var b := new ColumnBuilder(env, inferRows);
      builders := builders + [b];
    }
  }

  /** What column c has seen once the first `col` columns have taken the row. */
  ghost function Midway(seen: seq<seq<Value>>, row: Row, col: nat): (cs: seq<seq<Value>>)
    requires |row| == |seen| && col <= |seen|
    ensures |cs| == |seen|
  {
    seq(|seen|, c requires 0 <= c < |seen| => if c < col then seen[c] + [row[c]] else seen[c])
  }

  lemma {:induction false} MidwayStep(seen: seq<seq<Value>>, row: Row, col: nat)
    requires |row| == |seen| && col < |seen|
    ensures Midway(seen, row, col)[col] == seen[col]
    ensures Midway(seen, row, col)[col := seen[col] + [row[col]]] == Midway(seen, row, col + 1)
  {
  }

  lemma {:induction false} MidwayEnds(seen: seq<seq<Value>>, row: Row)
    requires |row| == |seen|
    ensures Midway(seen, row, 0) == seen
    ensures Midway(seen, row, |seen|) == AppendedRow(seen, row)
  {
  }

  lemma {:induction false} BlobAppend(row: Row, col: nat)
    requires col < |row|
    ensures RowHasBlob(row[..col + 1]) == (RowHasBlob(row[..col]) || row[col].Blob?)
    ensures row[col].Blob? ==> RowHasBlob(row)
  {
    if c :| 0 <= c < col && row[..col][c].Blob? { assert row[..col + 1][c].Blob?; }
    if row[col].Blob? { assert row[..col + 1][col].Blob?; }
  }

  method InferColumn(builders: seq<ColumnBuilder>, ghost seen: seq<seq<Value>>, col: nat, v: Value)
    returns (status: Status)
    requires Building(builders, seen) && col < |seen| && |seen[col]| < builders[col].inferRows
    modifies builders[col]
    ensures status == if v.Blob? then IO else OK
    ensures status == OK ==> Building(builders, seen[col := seen[col] + [v]])
  {
    var b := builders[col];
    status := b.InferOneValue(v);
    if status == OK {
      forall c | 0 <= c < |builders| && c != col ensures builders[c].Valid() && builders[c].seen == seen[c] {
        assert builders[c] != b;
      }
    }
  }

  lemma BuildingSize(builders: seq<ColumnBuilder>, seen: seq<seq<Value>>)
    requires Building(builders, seen)
    ensures |builders| == |seen|
  {
  }

  lemma NoBlobYet(row: Row)
    ensures !RowHasBlob(row[..0])
  {
  }

  /** One row into the builders, stopping at the first BLOB. */
  method InferRow(builders: seq<ColumnBuilder>, ghost seen: seq<seq<Value>>, row: Row) returns (status: Status)
    requires Building(builders, seen) && |row| == |seen|
    requires forall c | 0 <= c < |seen| :: |seen[c]| < builders[c].inferRows
    modifies builders
    ensures status == if RowHasBlob(row) then IO else OK
    ensures status == OK ==> Building(builders, AppendedRow(seen, row))
  {
    hide Building, RowHasBlob, Midway;
    BuildingSize(builders, seen);
    MidwayEnds(seen, row);
    NoBlobYet(row);
    ghost var now := seen;
    for col := 0 to |builders|
      invariant |now| == |seen| == |builders| && now == Midway(seen, row, col) && Building(builders, now)
      invariant !RowHasBlob(row[..col])
    {
      assert now[col] == seen[col] && now[col := now[col] + [row[col]]] == Midway(seen, row, col + 1) by {
        MidwayStep(seen, row, col);
      }
      BlobAppend(row, col);
      status := InferColumn(builders, now, col, row[col]);
      if status != OK { return; }
      now := now[col := now[col] + [row[col]]];
    }
    assert row[..|builders|] == row;
    status := OK;
  }

  /** An array that says exactly what the specification says about these values, as
      long as their texts fit int32 offsets. */
  ghost predicate Represents(env: Env, a: ArrowArray, vs: seq<Value>) {
    && NoBlob(vs)
    && a.columnType == SpecType(vs) && |a.validity| == |vs|
    && (WellFormed(a) <==> SpecType(vs) != STRING || TextSize(env, vs) < TWO_31)
    && (WellFormed(a) ==> ReadColumn(a) == SpecColumn(env, vs))
  }

  method InferFinalize(env: Env, builders: seq<ColumnBuilder>, ghost seen: seq<seq<Value>>)
    returns (status: Status, arrays: seq<ArrowArray>, types: seq<ColumnType>)
    requires Building(builders, seen) && forall c | 0 <= c < |seen| :: builders[c].env == env
    ensures status == OK && |arrays| == |types| == |seen|
    ensures forall c | 0 <= c < |seen| :: Represents(env, arrays[c], seen[c]) && types[c] == arrays[c].columnType
  {
    status, arrays, types := OK, [], [];
    for c := 0 to |builders|
      invariant status == OK && |arrays| == |types| == c
      invariant forall i | 0 <= i < c :: Represents(env, arrays[i], seen[i]) && types[i] == arrays[i].columnType
    {
      var a;
      status, a := builders[c].Finalize();
      arrays, types := arrays + [a], types + [a.columnType];
    }
  }

  /** The rows of the first batch. */
  ghost function Head(stmt: Statement, batchSize: nat): seq<Row> {
    stmt.rows[..Min(batchSize, |stmt.rows|)]
  }

  ghost predicate CleanHead(stmt: Statement, batchSize: nat) {
    && BlobFree(Head(stmt, batchSize), |Head(stmt, batchSize)|)
    && (|stmt.rows| < batchSize ==> stmt.ending == Finishes)
  }

  /** A reader as the export leaves it: the first batch is waiting, and the statement
      stands behind it or has been seen to end. */
  ghost predicate Exported(env: ReaderEnv, stmt: Statement, batchSize: nat, reader: StatementReader)
    reads reader, stmt
  {
    && reader.stmt == stmt && reader.Valid() && reader.env == env && reader.batchSize == batchSize
    && reader.initialBatch.Some?
    && InitialBatch(env, stmt, batchSize, reader.types, reader.initialBatch.value)
    && reader.done == (|stmt.rows| < batchSize)
    && (if reader.done then stmt.ending == Finishes else stmt.pos == batchSize)
  }

  ghost predicate InitialBatch(env: ReaderEnv, stmt: Statement, batchSize: nat, types: seq<ColumnType>, b: Batch) {
    var head := Head(stmt, batchSize);
    && Rectangular(head, stmt.numColumns)
    && b.Inferred? && b.length == |head| && |b.arrays| == |types| == stmt.numColumns
    && forall c | 0 <= c < stmt.numColumns ::
         Represents(env.infer, b.arrays[c], Columns(head, stmt.numColumns)[c]) && types[c] == b.arrays[c].columnType
  }

  /** The builders have seen the first n rows of the head. */
  ghost predicate HeadSeen(stmt: Statement, batchSize: nat, builders: seq<ColumnBuilder>, n: nat)
    reads builders
  {
    var head := Head(stmt, batchSize);
    && n <= |head| && Rectangular(head[..n], stmt.numColumns)
    && Building(builders, Columns(head[..n], stmt.numColumns))
  }

  /** One step of the statement, and the row it yields into the builders. */
  method InferNext(stmt: Statement, batchSize: nat, builders: seq<ColumnBuilder>)
    returns (rc: StepResult, status: Status)
    requires stmt.Valid() && stmt.pos < batchSize && HeadSeen(stmt, batchSize, builders, stmt.pos)
    requires forall c | 0 <= c < |builders| :: builders[c].inferRows == batchSize
    modifies stmt, builders
    ensures stmt.Valid()
    ensures if old(stmt.pos) < |stmt.rows| then
              && rc == ROW(stmt.rows[old(stmt.pos)]) && stmt.pos == old(stmt.pos) + 1
              && status == (if RowHasBlob(rc.row) then IO else OK)
              && (status == OK ==> HeadSeen(stmt, batchSize, builders, stmt.pos))
            else
              && rc == (if stmt.ending == Finishes then DONE else ERROR)
              && status == (if rc.DONE? then OK else IO)
              && HeadSeen(stmt, batchSize, builders, old(stmt.pos))
  {
    ghost var head, width, n := Head(stmt, batchSize), stmt.numColumns, stmt.pos;
    rc := stmt.Step();
    if rc.ROW? {
      assert Rectangular(head, width) && rc.row == head[n];
      ColumnsAppend(head, n, width);
      status := InferRow(builders, Columns(head[..n], width), rc.row);
    } else {
      status := if rc.DONE? then OK else IO;
    }
  }

  /** Read up to batchSize rows into the builders. */
  method InferRows(stmt: Statement, batchSize: nat, builders: seq<ColumnBuilder>)
    returns (status: Status, numRows: nat, done: bool)
    requires stmt.Valid() && stmt.pos == 0 && HeadSeen(stmt, batchSize, builders, 0)
    requires forall c | 0 <= c < |builders| :: builders[c].inferRows == batchSize
    modifies stmt, builders
    ensures stmt.Valid()
    ensures (status == OK) == CleanHead(stmt, batchSize)
    ensures status == OK ==>
              && numRows == |Head(stmt, batchSize)| && HeadSeen(stmt, batchSize, builders, numRows)
              && done == (|stmt.rows| < batchSize)
              && (!done ==> stmt.pos == batchSize)
  {
    ghost var head := Head(stmt, batchSize);
    status, numRows, done := OK, 0, false;
    while numRows < batchSize
      invariant status == OK && !done && stmt.Valid() && stmt.pos == numRows
      invariant HeadSeen(stmt, batchSize, builders, numRows) && BlobFree(head, numRows)
    {
      var rc;
      rc, status := InferNext(stmt, batchSize, builders);
      if rc.DONE? {
        done := true;
        break;
      }
      if status != OK {
        assert rc.ROW? ==> !BlobFree(head, |head|) by { if rc.ROW? { assert RowHasBlob(head[numRows]); } }
        return;
      }
      assert head[numRows] == rc.row;
      numRows := numRows + 1;
    }
    assert numRows == |head|;
  }

  /** AdbcSqliteExportReader without bind parameters. */
  method ExportReader(env: ReaderEnv, stmt: Statement, batchSize: nat)
    returns (status: Status, reader: Option<StatementReader>)
    requires stmt.Valid() && stmt.pos == 0 && batchSize >= 1
    modifies stmt
    ensures stmt.Valid()
    ensures (status == OK) == CleanHead(stmt, batchSize)
    ensures status == OK ==> reader.Some? && fresh(reader.value) && Exported(env, stmt, batchSize, reader.value)
  {
    reader := None;
    var builders := NewBuilders(env.infer, stmt.numColumns, batchSize);
    assert Head(stmt, batchSize)[..0] == [];
    var numRows, done;
    status, numRows, done := InferRows(stmt, batchSize, builders);
    if status == OK {
      assert Head(stmt, batchSize)[..numRows] == Head(stmt, batchSize);
      var arrays, types;
      status, arrays, types := InferFinalize(env.infer, builders, Columns(Head(stmt, batchSize), stmt.numColumns));
      var r := new StatementReader(env, stmt, batchSize, types, Inferred(numRows, arrays), done);
      reader := Some(r);
    }
  }

  // ---------------------------------------------------------------------
  // The whole stream
  // ---------------------------------------------------------------------

  ghost function TotalLength(batches: seq<Batch>): nat {
    if batches == [] then 0 else TotalLength(batches[..|batches| - 1]) + batches[|batches| - 1].length
  }

  /** Batch i of a stream holds exactly the rows that follow the batches before it. */
  ghost predicate HoldsItsRows(
      env: ReaderEnv, stmt: Statement, batchSize: nat, types: seq<ColumnType>, batches: seq<Batch>, i: nat)
    requires i < |batches|
  {
    var start := TotalLength(batches[..i]);
    && start + batches[i].length <= |stmt.rows|
    && if i == 0 then InitialBatch(env, stmt, batchSize, types, batches[0])
       else
         var rows := stmt.rows[start..start + batches[i].length];
         && (forall r | 0 <= r < |rows| :: RowFits(env, types, rows[r]))
         && batches[i] == Read(|rows|, ConvertedColumns(env, types, rows))
  }

  /** What a consumer that reads the stream to its end has received. */
  ghost predicate WholeStream(
      env: ReaderEnv, stmt: Statement, batchSize: nat, types: seq<ColumnType>, batches: seq<Batch>)
  {
    && TotalLength(batches) == |stmt.rows|
    && |batches| >= 1
    && (forall i | 0 <= i < |batches| :: HoldsItsRows(env, stmt, batchSize, types, batches, i))
    && (forall i | 0 <= i < |batches| - 1 :: batches[i].length == batchSize)
    && (forall i | 0 < i < |batches| :: 0 < batches[i].length <= batchSize)
  }

  lemma {:induction false} StreamExtended(
    env: ReaderEnv, stmt: Statement, batchSize: nat, types: seq<ColumnType>, batches: seq<Batch>, b: Batch)
    requires forall i | 0 <= i < |batches| :: HoldsItsRows(env, stmt, batchSize, types, batches, i)
    requires HoldsItsRows(env, stmt, batchSize, types, batches + [b], |batches|)
    ensures forall i | 0 <= i <= |batches| :: HoldsItsRows(env, stmt, batchSize, types, batches + [b], i)
    ensures TotalLength(batches + [b]) == TotalLength(batches) + b.length
  {
    var bs := batches + [b];
    assert bs[..|batches|] == batches;
    forall i | 0 <= i < |batches| ensures HoldsItsRows(env, stmt, batchSize, types, bs, i) {
      assert bs[..i] == batches[..i];
      assert HoldsItsRows(env, stmt, batchSize, types, batches, i);
    }
  }

  /** The rows behind the first batch all fit the settled types. */
  ghost predicate TailFits(env: ReaderEnv, stmt: Statement, batchSize: nat, types: seq<ColumnType>) {
    forall r | batchSize <= r < |stmt.rows| :: RowFits(env, types, stmt.rows[r])
  }

  /** Where a consumer stands between two calls of GetNext, after the first. */
  ghost predicate Midstream(
      env: ReaderEnv, stmt: Statement, batchSize: nat, reader: StatementReader, batches: seq<Batch>)
    reads reader, stmt
  {
    && reader.stmt == stmt && reader.Valid() && reader.env == env && reader.batchSize == batchSize
    && reader.initialBatch.None?
    && Received(env, stmt, batchSize, reader.types, batches)
    && (if reader.done then TotalLength(batches) == |stmt.rows| && stmt.ending == Finishes
        else batches[|batches| - 1].length == batchSize && stmt.pos == TotalLength(batches) >= batchSize)
  }

  /** Batches that hold consecutive rows from the start, all but the last full. */
  ghost predicate Received(env: ReaderEnv, stmt: Statement, batchSize: nat, types: seq<ColumnType>, batches: seq<Batch>)
  {
    && batches != []
    && (forall i | 0 <= i < |batches| :: HoldsItsRows(env, stmt, batchSize, types, batches, i))
    && (forall i | 0 <= i < |batches| - 1 :: batches[i].length == batchSize)
    && (forall i | 0 < i < |batches| :: 0 < batches[i].length <= batchSize)
    && (forall r | batchSize <= r < TotalLength(batches) && r < |stmt.rows| :: RowFits(env, types, stmt.rows[r]))
  }

  /** The consumer's first call of GetNext. */
  method PullFirst(env: ReaderEnv, stmt: Statement, batchSize: nat, reader: StatementReader)
    returns (batches: seq<Batch>)
    requires Exported(env, stmt, batchSize, reader)
    modifies reader, stmt
    ensures Midstream(env, stmt, batchSize, reader, batches)
  {
    var status, out := reader.GetNext();
    batches := [out.value];
    FirstPulled(env, stmt, batchSize, reader.types, out.value);
  }

  /** A later call.  `more` is false at end-of-stream. */
  method PullNext(env: ReaderEnv, stmt: Statement, batchSize: nat, reader: StatementReader, batches: seq<Batch>)
    returns (status: ReadStatus, more: bool, batches': seq<Batch>)
    requires Midstream(env, stmt, batchSize, reader, batches)
    modifies reader, stmt
    ensures status == Good ==> Midstream(env, stmt, batchSize, reader, batches')
    ensures status == Good && more ==> !old(reader.done) && (!reader.done ==> stmt.pos > old(stmt.pos))
    ensures status == Good && !more ==> reader.done && batches' == batches
    ensures status != Good ==> !(stmt.ending == Finishes && TailFits(env, stmt, batchSize, reader.types))
  {
    if reader.done {
      var out;
      status, out := reader.GetNext();
      return status, false, batches;
    }
    ghost var ahead, start := reader.Ahead(), stmt.pos;
    AheadIs(stmt.rows, start, batchSize, ahead);
    ghost var fit := FittingPrefix(env, reader.types, ahead);
    var out;
    status, out := reader.GetNext();
    more := status == Good && out.Some?;
    batches' := if more then batches + [out.value] else batches;
    if fit < |ahead| {
      assert !RowFits(env, reader.types, stmt.rows[start + fit]);
    } else if more {
      NextPulled(env, stmt, batchSize, reader.types, batches, ahead);
    }
  }

  lemma AheadIs(rows: seq<Row>, start: nat, batchSize: nat, ahead: seq<Row>)
    requires start <= |rows| && ahead == rows[start..][..Min(batchSize, |rows| - start)]
    ensures ahead == rows[start..start + |ahead|]
  {
  }

  lemma {:induction false} FirstPulled(
      env: ReaderEnv, stmt: Statement, batchSize: nat, types: seq<ColumnType>, b: Batch)
    requires InitialBatch(env, stmt, batchSize, types, b)
    ensures Received(env, stmt, batchSize, types, [b])
    ensures TotalLength([b]) == b.length == Min(batchSize, |stmt.rows|)
  {
    assert [b][..0] == [];
  }

  lemma {:induction false} NextPulled(
    env: ReaderEnv, stmt: Statement, batchSize: nat, types: seq<ColumnType>, batches: seq<Batch>, rows: seq<Row>)
    requires Received(env, stmt, batchSize, types, batches) && batches[|batches| - 1].length == batchSize
    requires 0 < |rows| <= batchSize && TotalLength(batches) + |rows| <= |stmt.rows|
    requires rows == stmt.rows[TotalLength(batches)..TotalLength(batches) + |rows|]
    requires forall r | 0 <= r < |rows| :: RowFits(env, types, rows[r])
    ensures var b := Read(|rows|, ConvertedColumns(env, types, rows));
            && Received(env, stmt, batchSize, types, batches + [b])
            && TotalLength(batches + [b]) == TotalLength(batches) + |rows|
  {
    var b, start := Read(|rows|, ConvertedColumns(env, types, rows)), TotalLength(batches);
    assert (batches + [b])[..|batches|] == batches;
    StreamExtended(env, stmt, batchSize, types, batches, b);
    forall r | batchSize <= r < start + |rows| ensures RowFits(env, types, stmt.rows[r]) {
      if r >= start { assert stmt.rows[r] == rows[r - start]; }
    }
  }

  // ---------------------------------------------------------------------
  // What the whole stream says
  // ---------------------------------------------------------------------

  /** A consumer can read column c of the batch. */
  predicate Readable(b: Batch, c: nat) {
    match b
    case Inferred(_, arrays) => c < |arrays| && WellFormed(arrays[c])
    case Read(_, columns) => c < |columns|
  }

  function BatchColumn(b: Batch, c: nat): seq<Cell>
    requires Readable(b, c)
  {
    match b
    case Inferred(_, arrays) => ReadColumn(arrays[c])
    case Read(_, columns) => columns[c]
  }

  function StreamColumn(batches: seq<Batch>, c: nat): seq<Cell>
    requires forall i | 0 <= i < |batches| :: Readable(batches[i], c)
  {
    if batches == [] then [] else StreamColumn(batches[..|batches| - 1], c) + BatchColumn(batches[|batches| - 1], c)
  }

  /** The cell of value r when the first n values settled the type. */
  function CellAt(env: ReaderEnv, vs: seq<Value>, n: nat, r: nat): Option<Cell>
    requires r < |vs| && n <= |vs| && NoBlob(vs[..n])
  {
    if r < n then assert !vs[..n][r].Blob?; Some(SpecCell(env.infer, vs[..n], r))
    else Convert(env, SpecType(vs[..n]), vs[r])
  }

  /** Values that fit a numeric type leave the join as it is. */
  lemma {:induction false} NumericSettled(env: ReaderEnv, vs: seq<Value>, n: nat)
    requires n <= |vs| && NoBlob(vs[..n]) && SpecType(vs[..n]) != STRING
    requires forall r | n <= r < |vs| :: Convert(env, SpecType(vs[..n]), vs[r]).Some?
    ensures NoBlob(vs) && SpecType(vs) == SpecType(vs[..n])
  {
    var t := SpecType(vs[..n]);
    forall r | 0 <= r < |vs|
      ensures !vs[r].Blob? && !vs[r].Text? && (t == INT64 ==> !vs[r].Float?)
    {
      if r < n { assert vs[r] == vs[..n][r]; }
      else { ConvertAcceptsUpToType(env, t, vs[r], []); }
    }
    if t == DOUBLE {
      var k :| 0 <= k < n && vs[..n][k].Float?;
      assert vs[k].Float?;
    }
  }

  /** In a numeric column it makes no difference where the inference stopped; in a text column
      nulls and texts are always themselves. */
  lemma {:induction false} CellAtMeans(env: ReaderEnv, vs: seq<Value>, n: nat, r: nat)
    requires r < |vs| && n <= |vs| && NoBlob(vs[..n])
    ensures SpecType(vs[..n]) != STRING && NoBlob(vs) && SpecType(vs) == SpecType(vs[..n]) ==>
              !vs[r].Blob? && CellAt(env, vs, n, r) == Some(SpecCell(env.infer, vs, r))
    ensures SpecType(vs[..n]) == STRING ==>
              && (vs[r].Null? ==> CellAt(env, vs, n, r) == Some(NullCell))
              && (vs[r].Text? ==> CellAt(env, vs, n, r) == Some(TextCell(vs[r].t)))
              && (r >= n && !vs[r].Null? && !vs[r].Text? ==>
                    CellAt(env, vs, n, r) == Some(TextCell(env.columnText(vs[r]))))
  {
    if r < n {
      assert vs[..n][r] == vs[r];
      PhasesAgree(env, vs[..n], r);
    }
    if NoBlob(vs) { PhasesAgree(env, vs, r); }
  }

  /** Cell by cell, what a consumer of the batches up to i has read in column c. */
  ghost predicate Says(env: ReaderEnv, vs: seq<Value>, n: nat, cells: seq<Cell>) {
    && n <= |vs| && NoBlob(vs[..n]) && |cells| <= |vs|
    && forall r | 0 <= r < |cells| :: CellAt(env, vs, n, r) == Some(cells[r])
  }

  lemma {:induction false} HeadSays(
    env: ReaderEnv, stmt: Statement, batchSize: nat, types: seq<ColumnType>, b: Batch, c: nat)
    requires InitialBatch(env, stmt, batchSize, types, b) && c < stmt.numColumns && Readable(b, c)
    requires Rectangular(stmt.rows, stmt.numColumns)
    ensures var (vs, n) := (Column(stmt.rows, c), |Head(stmt, batchSize)|);
            && Says(env, vs, n, BatchColumn(b, c)) && |BatchColumn(b, c)| == b.length == n
            && types[c] == SpecType(vs[..n])
  {
    var head, vs := Head(stmt, batchSize), Column(stmt.rows, c);
    var seen := Columns(head, stmt.numColumns)[c];
    assert seen == Column(head, c) == vs[..|head|];
    assert Represents(env.infer, b.arrays[c], seen);
    assert ReadColumn(b.arrays[c]) == SpecColumn(env.infer, seen);
    forall r | 0 <= r < |head| ensures CellAt(env, vs, |head|, r) == Some(BatchColumn(b, c)[r]) {
      assert SpecColumn(env.infer, seen)[r] == SpecCell(env.infer, seen, r);
    }
  }

  lemma {:induction false} BatchSays(
    env: ReaderEnv, stmt: Statement, batchSize: nat, types: seq<ColumnType>, batches: seq<Batch>, i: nat, c: nat)
    requires 0 < i < |batches| && HoldsItsRows(env, stmt, batchSize, types, batches, i)
    requires c < stmt.numColumns == |types| && Rectangular(stmt.rows, stmt.numColumns)
    ensures Readable(batches[i], c)
    ensures var (start, cells) := (TotalLength(batches[..i]), BatchColumn(batches[i], c));
            && |cells| == batches[i].length && start + |cells| <= |stmt.rows|
            && forall r | 0 <= r < |cells| :: Convert(env, types[c], stmt.rows[start + r][c]) == Some(cells[r])
  {
    var start := TotalLength(batches[..i]);
    var rows := stmt.rows[start..start + batches[i].length];
    var cells := ConvertedColumn(env, types, rows, c);
    forall r | 0 <= r < |cells| ensures Convert(env, types[c], stmt.rows[start + r][c]) == Some(cells[r]) {
      assert rows[r] == stmt.rows[start + r] && cells[r] == CellOf(env, types, rows[r], c);
    }
  }

  lemma {:induction false} PrefixSays(
    env: ReaderEnv, stmt: Statement, batchSize: nat, types: seq<ColumnType>, batches: seq<Batch>, i: nat, c: nat)
    requires WholeStream(env, stmt, batchSize, types, batches) && 0 < i <= |batches|
    requires c < stmt.numColumns == |types| && Rectangular(stmt.rows, stmt.numColumns) && Readable(batches[0], c)
    ensures forall k | 0 <= k < i :: Readable(batches[k], c)
    ensures var cells := StreamColumn(batches[..i], c);
            |cells| == TotalLength(batches[..i]) && Says(env, Column(stmt.rows, c), |Head(stmt, batchSize)|, cells)
  {
    hide HoldsItsRows, InitialBatch, BatchColumn, CellAt, Readable;
    var vs, n := Column(stmt.rows, c), |Head(stmt, batchSize)|;
    assert HoldsItsRows(env, stmt, batchSize, types, batches, i - 1);
    FirstHolds(env, stmt, batchSize, types, batches);
    HeadSays(env, stmt, batchSize, types, batches[0], c);
    assert batches[..i][..i - 1] == batches[..i - 1];
    if i == 1 {
      assert batches[..0] == [];
      assert [] + BatchColumn(batches[0], c) == BatchColumn(batches[0], c);
    } else {
      PrefixSays(env, stmt, batchSize, types, batches, i - 1, c);
      BatchSays(env, stmt, batchSize, types, batches, i - 1, c);
      LaterCells(env, vs, n, StreamColumn(batches[..i - 1], c), BatchColumn(batches[i - 1], c));
    }
  }

  lemma FirstHolds(env: ReaderEnv, stmt: Statement, batchSize: nat, types: seq<ColumnType>, batches: seq<Batch>)
    requires WholeStream(env, stmt, batchSize, types, batches)
    ensures batches != [] && InitialBatch(env, stmt, batchSize, types, batches[0])
  {
    assert HoldsItsRows(env, stmt, batchSize, types, batches, 0);
  }

  lemma {:induction false} LaterCells(env: ReaderEnv, vs: seq<Value>, n: nat, cells: seq<Cell>, more: seq<Cell>)
    requires Says(env, vs, n, cells) && n <= |cells| && |cells| + |more| <= |vs|
    requires forall r | 0 <= r < |more| :: Convert(env, SpecType(vs[..n]), vs[|cells| + r]) == Some(more[r])
    ensures Says(env, vs, n, cells + more)
  {
    forall r | 0 <= r < |cells + more| ensures CellAt(env, vs, n, r) == Some((cells + more)[r]) {
      if r >= |cells| { assert (cells + more)[r] == more[r - |cells|]; }
    }
  }

  /** The column a consumer reads off the stream says what the statement yielded: a numeric
      column is the specified column of all rows, as if the inference had seen them all, and
      a text column has every null and every text, and the rest as it was inferred from the
      first batch or as SQLite prints it. */
  ghost predicate SaysColumn(env: ReaderEnv, vs: seq<Value>, n: nat, t: ColumnType, cells: seq<Cell>) {
    && |cells| == |vs| && n <= |vs| && NoBlob(vs[..n]) && t == SpecType(vs[..n])
    && (t != STRING ==> NoBlob(vs) && SpecType(vs) == t && cells == SpecColumn(env.infer, vs))
    && (t == STRING ==> forall r | 0 <= r < |vs| ::
          && (vs[r].Null? <==> cells[r].NullCell?)
          && (vs[r].Text? ==> cells[r] == TextCell(vs[r].t))
          && (r < n && !vs[r].Null? ==> !vs[r].Blob? && cells[r] == TextCell(SpecText(env.infer, vs[..n], r)))
          && (r >= n && !vs[r].Null? && !vs[r].Text? ==> cells[r] == TextCell(env.columnText(vs[r]))))
  }

  lemma {:induction false} StreamSays(
    env: ReaderEnv, stmt: Statement, batchSize: nat, types: seq<ColumnType>, batches: seq<Batch>, c: nat)
    requires WholeStream(env, stmt, batchSize, types, batches)
    requires c < stmt.numColumns == |types| && Rectangular(stmt.rows, stmt.numColumns) && Readable(batches[0], c)
    ensures forall k | 0 <= k < |batches| :: Readable(batches[k], c)
    ensures SaysColumn(env, Column(stmt.rows, c), |Head(stmt, batchSize)|, types[c], StreamColumn(batches, c))
  {
    var vs, n := Column(stmt.rows, c), |Head(stmt, batchSize)|;
    PrefixSays(env, stmt, batchSize, types, batches, |batches|, c);
    assert batches[..|batches|] == batches;
    FirstHolds(env, stmt, batchSize, types, batches);
    HeadSays(env, stmt, batchSize, types, batches[0], c);
    SaidColumn(env, vs, n, StreamColumn(batches, c));
  }

  lemma {:induction false} SaidColumn(env: ReaderEnv, vs: seq<Value>, n: nat, cells: seq<Cell>)
    requires Says(env, vs, n, cells) && |cells| == |vs|
    ensures SaysColumn(env, vs, n, SpecType(vs[..n]), cells)
  {
    var t := SpecType(vs[..n]);
    if t != STRING {
      forall r | n <= r < |vs| ensures Convert(env, t, vs[r]).Some? { assert CellAt(env, vs, n, r).Some?; }
      NumericSettled(env, vs, n);
      forall r | 0 <= r < |vs| ensures cells[r] == SpecColumn(env.infer, vs)[r] {
        CellAtMeans(env, vs, n, r);
      }
    } else {
      forall r | 0 <= r < |vs|
        ensures vs[r].Null? <==> cells[r].NullCell?
        ensures vs[r].Text? ==> cells[r] == TextCell(vs[r].t)
        ensures r < n && !vs[r].Null? ==> !vs[r].Blob? && cells[r] == TextCell(SpecText(env.infer, vs[..n], r))
        ensures r >= n && !vs[r].Null? && !vs[r].Text? ==> cells[r] == TextCell(env.columnText(vs[r]))
      {
        CellAtMeans(env, vs, n, r);
        if r < n { assert vs[..n][r] == vs[r]; }
      }
    }
  }

  /** So does every column that can be read in the first batch. */
  ghost predicate SaysRows(
      env: ReaderEnv, stmt: Statement, batchSize: nat, types: seq<ColumnType>, batches: seq<Batch>)
  {
    && batches != [] && |types| == stmt.numColumns && Rectangular(stmt.rows, stmt.numColumns)
    && forall c | 0 <= c < stmt.numColumns && Readable(batches[0], c) ::
         && (forall k | 0 <= k < |batches| :: Readable(batches[k], c))
         && SaysColumn(env, Column(stmt.rows, c), |Head(stmt, batchSize)|, types[c], StreamColumn(batches, c))
  }

  lemma {:induction false} StreamSaysRows(
    env: ReaderEnv, stmt: Statement, batchSize: nat, types: seq<ColumnType>, batches: seq<Batch>)
    requires WholeStream(env, stmt, batchSize, types, batches)
    requires |types| == stmt.numColumns && Rectangular(stmt.rows, stmt.numColumns)
    ensures SaysRows(env, stmt, batchSize, types, batches)
  {
    hide WholeStream, SaysColumn, Readable, StreamColumn;
    assert batches != [] by { FirstHolds(env, stmt, batchSize, types, batches); }
    forall c | 0 <= c < stmt.numColumns && Readable(batches[0], c)
      ensures forall k | 0 <= k < |batches| :: Readable(batches[k], c)
      ensures SaysColumn(env, Column(stmt.rows, c), |Head(stmt, batchSize)|, types[c], StreamColumn(batches, c))
    {
      StreamSays(env, stmt, batchSize, types, batches, c);
    }
  }

  /** A consumer that reads to the end succeeds exactly when the statement finishes and
      every later row fits; it then has every row once, in order, in full batches, and each
      column that can be read says what the statement yielded. */
  method ReadAll(env: ReaderEnv, stmt: Statement, batchSize: nat, reader: StatementReader)
    returns (ok: bool, batches: seq<Batch>)
    requires Exported(env, stmt, batchSize, reader)
    modifies reader, stmt
    ensures ok == (stmt.ending == Finishes && TailFits(env, stmt, batchSize, reader.types))
    ensures ok ==> reader.done && reader.initialBatch.None? && WholeStream(env, stmt, batchSize, reader.types, batches)
    ensures ok ==> SaysRows(env, stmt, batchSize, reader.types, batches)
  {
    batches := PullFirst(env, stmt, batchSize, reader);
    while true
      invariant Midstream(env, stmt, batchSize, reader, batches)
      decreases if reader.done then 0 else 1, |stmt.rows| - stmt.pos
    {
      var status, more, batches' := PullNext(env, stmt, batchSize, reader, batches);
      if status != Good { return false, batches; }
      batches := batches';
      if !more {
        StreamSaysRows(env, stmt, batchSize, reader.types, batches);
        return true, batches;
      }
    }
  }
}
