/** The SQLite parameter binder, which flattens a stream of batches into rows, and
    the bulk ingest that drives it. */
module SqliteBinder {
  import opened Bytes
  import opened Wrappers

  type Double = UInt64

  datatype Status = OK | IO | INTERNAL | INVALID_ARGUMENT | NOT_IMPLEMENTED | INVALID_STATE

  /** Arrow column types, grouped as the binder's switch groups them. */
  datatype ParamType = BinaryLike | Unsigned_ | Signed_ | Floating | StringLike | Unsupported

  /** One cell of a parameter batch. */
  datatype Param =
    | NullParam
    | UIntParam(u: UInt64)
    | IntParam(i: Int64)
    | DoubleParam(d: Double)
    | BytesParam(b: seq<byte>)
    | OtherParam

  type ParamRow = seq<Param>

  /** What ends up bound to a statement parameter. */
  datatype Bound = BoundNull | BoundText(b: seq<byte>) | BoundInt(i: Int64) | BoundDouble(d: Double)

  /** `throughInt64` is the conversion of a double to int64_t and back: the binder
      keeps floating-point parameters in an int64_t before binding them. */
  datatype Env = Env(throughInt64: Double -> Double)

  predicate WellTyped(t: ParamType, p: Param) {
    || p.NullParam?
    || (match t
        case BinaryLike => p.BytesParam?
        case Unsigned_ => p.UIntParam?
        case Signed_ => p.IntParam?
        case Floating => p.DoubleParam?
        case StringLike => p.BytesParam?
        case Unsupported => p.OtherParam?)
  }

  predicate WellTypedRow(types: seq<ParamType>, row: ParamRow) {
    |row| == |types| && forall c | 0 <= c < |types| :: WellTyped(types[c], row[c])
  }

  datatype Result<+T> = Ok(value: T) | Err(status: Status)

  /** `takes` is whether SQLite accepts the binding. */
  function BindCell(env: Env, t: ParamType, p: Param, takes: bool): Result<Bound>
    requires WellTyped(t, p)
  {
    if p.OtherParam? then Err(NOT_IMPLEMENTED)
    else if p.UIntParam? && p.u >= TWO_63 then Err(INVALID_ARGUMENT)
    else if !takes then Err(INTERNAL)
    else match p
      case NullParam => Ok(BoundNull)
      case UIntParam(u) => Ok(BoundInt(u))
      case IntParam(i) => Ok(BoundInt(i))
      case DoubleParam(d) => Ok(BoundDouble(env.throughInt64(d)))
      case BytesParam(b) => Ok(BoundText(b))
  }

  /** What a bound value says in a column of type t. */
  function ReadBack(t: ParamType, b: Bound): Param {
    match b
    case BoundNull => NullParam
    case BoundText(s) => BytesParam(s)
    case BoundInt(i) => if t == Unsigned_ && i >= 0 then UIntParam(i) else IntParam(i)
    case BoundDouble(d) => DoubleParam(d)
  }

  /** The cell as it survives binding: a double has gone through an int64_t. */
  function Survives(env: Env, p: Param): Param {
    if p.DoubleParam? then DoubleParam(env.throughInt64(p.d)) else p
  }

  predicate Representable(p: Param) { !p.OtherParam? && (p.UIntParam? ==> p.u < TWO_63) }

  /** What is bound says the cell again; it is bound exactly when SQLite can represent it and
      takes it, and each failure has its own error. */
  lemma CellReadsBack(env: Env, t: ParamType, p: Param, takes: bool)
    requires WellTyped(t, p)
    ensures var r := BindCell(env, t, p, takes);
            && (r.Ok? <==> Representable(p) && takes)
            && (r.Ok? ==> ReadBack(t, r.value) == Survives(env, p))
            && (r.Err? ==> r.status == if p.OtherParam? then NOT_IMPLEMENTED
                                       else if !Representable(p) then INVALID_ARGUMENT
                                       else INTERNAL)
  {
  }

  function ReadRow(types: seq<ParamType>, bound: seq<Bound>): ParamRow
    requires |bound| == |types|
  {
    seq(|types|, c requires 0 <= c < |types| => ReadBack(types[c], bound[c]))
  }

  function SurvivingRow(env: Env, row: ParamRow): ParamRow {
    seq(|row|, c requires 0 <= c < |row| => Survives(env, row[c]))
  }

  /** The parameters of a row as bound, or the error of its first column that cannot be. */
  ghost predicate BindsTo(env: Env, types: seq<ParamType>, row: ParamRow, takes: nat -> bool, r: Result<seq<Bound>>)
    requires WellTypedRow(types, row)
  {
    match r
    case Ok(bound) =>
      |bound| == |types| && forall c | 0 <= c < |types| :: BindCell(env, types[c], row[c], takes(c)) == Ok(bound[c])
    case Err(status) =>
      exists c | 0 <= c < |types| ::
        && BindCell(env, types[c], row[c], takes(c)) == Err(status)
        && forall k | 0 <= k < c :: BindCell(env, types[k], row[k], takes(k)).Ok?
  }

  predicate Binds(env: Env, types: seq<ParamType>, row: ParamRow, takes: nat -> bool)
    requires WellTypedRow(types, row)
  {
    forall c | 0 <= c < |types| :: BindCell(env, types[c], row[c], takes(c)).Ok?
  }

  /** A row as bound says the row again. */
  lemma {:induction false} RowReadsBack(
    env: Env, types: seq<ParamType>, row: ParamRow, takes: nat -> bool, bound: seq<Bound>)
    requires WellTypedRow(types, row) && BindsTo(env, types, row, takes, Ok(bound))
    ensures ReadRow(types, bound) == SurvivingRow(env, row)
  {
    forall c | 0 <= c < |types| ensures ReadRow(types, bound)[c] == SurvivingRow(env, row)[c] {
      CellReadsBack(env, types[c], row[c], takes(c));
    }
  }

  /** Rows without floating-point columns that are bound alike are alike. */
  lemma {:induction false} BoundDistinguishes(
    env: Env, types: seq<ParamType>, a: ParamRow, b: ParamRow, takes: nat -> bool, bound: seq<Bound>)
    requires WellTypedRow(types, a) && WellTypedRow(types, b) && Floating !in types
    requires BindsTo(env, types, a, takes, Ok(bound)) && BindsTo(env, types, b, takes, Ok(bound))
    ensures a == b
  {
    RowReadsBack(env, types, a, takes, bound);
    RowReadsBack(env, types, b, takes, bound);
    ExactlySurvives(env, types, a);
    ExactlySurvives(env, types, b);
  }

  lemma {:induction false} ExactlySurvives(env: Env, types: seq<ParamType>, row: ParamRow)
    requires WellTypedRow(types, row) && Floating !in types
    ensures SurvivingRow(env, row) == row
  {
    forall c | 0 <= c < |row| ensures Survives(env, row[c]) == row[c] { assert types[c] != Floating; }
  }

  /** A row binds exactly when every cell is representable and taken. */
  lemma {:induction false} BindsExactly(env: Env, types: seq<ParamType>, row: ParamRow, takes: nat -> bool)
    requires WellTypedRow(types, row)
    ensures Binds(env, types, row, takes) <==> forall c | 0 <= c < |row| :: Representable(row[c]) && takes(c)
  {
    forall c | 0 <= c < |row| ensures BindCell(env, types[c], row[c], takes(c)).Ok?
        <==> Representable(row[c]) && takes(c)
    {
      CellReadsBack(env, types[c], row[c], takes(c));
    }
  }

  /** The loop over the columns of the row. */
  method BindRow(env: Env, types: seq<ParamType>, row: ParamRow, takes: nat -> bool) returns (r: Result<seq<Bound>>)
    requires WellTypedRow(types, row)
    ensures BindsTo(env, types, row, takes, r)
    ensures r.Ok? <==> forall c | 0 <= c < |row| :: Representable(row[c]) && takes(c)
    ensures r.Ok? ==> |r.value| == |types| && ReadRow(types, r.value) == SurvivingRow(env, row)
  {
    var bound: seq<Bound> := [];
    for col := 0 to |types|
      invariant |bound| == col
      invariant forall c | 0 <= c < col :: BindCell(env, types[c], row[c], takes(c)) == Ok(bound[c])
    {
      var cell := BindCell(env, types[col], row[col], takes(col));
      if cell.Err? { return Err(cell.status); }
      bound := bound + [cell.value];
    }
    r := Ok(bound);
    RowReadsBack(env, types, row, takes, bound);
  }

  // ---------------------------------------------------------------------
  // Streams of batches
  // ---------------------------------------------------------------------

  /** What get_next answers: a batch that fits the schema, an array that does not, or an
      error.  After the last event the stream is at its end. */
  datatype Event = Batch(rows: seq<ParamRow>) | Mismatch | StreamError

  /** The rows a consumer can still get, batch after batch. */
  ghost function Flatten(stream: seq<Event>): seq<ParamRow> {
    if stream == [] || !stream[0].Batch? then [] else stream[0].rows + Flatten(stream[1..])
  }

  /** How a consumer that reads on to the end of the rows is stopped. */
  ghost function Ending(stream: seq<Event>): Status {
    if stream == [] then OK
    else match stream[0]
      case Batch(_) => Ending(stream[1..])
      case Mismatch => INTERNAL
      case StreamError => IO
  }

  ghost predicate EndsWell(stream: seq<Event>) { Ending(stream) == OK }

  ghost predicate WellTypedStream(types: seq<ParamType>, stream: seq<Event>) {
    forall k | 0 <= k < |stream| && stream[k].Batch? ::
      forall r | 0 <= r < |stream[k].rows| :: WellTypedRow(types, stream[k].rows[r])
  }

  class Binder {
    const env: Env
    const types: seq<ParamType>
    var live: bool                       // false once released
    var spoilt: bool                     // true once an array did not fit the schema
    var stream: seq<Event>
    var batch: Option<seq<ParamRow>>     // the ArrowArray being bound
    var nextRow: nat

    ghost predicate Valid() reads this {
      && WellTypedStream(types, stream)
      && (batch.Some? ==>
            nextRow <= |batch.value| && forall r | 0 <= r < |batch.value| :: WellTypedRow(types, batch.value[r]))
    }

    constructor (env: Env, types: seq<ParamType>, stream: seq<Event>)
      requires WellTypedStream(types, stream)
      ensures Valid() && live && !spoilt && this.env == env && this.types == types
      ensures Ahead() == Flatten(stream) && this.stream == stream
    {
      this.env, this.types, this.live, this.spoilt := env, types, true, false;
      this.stream, this.batch, this.nextRow := stream, None, 0;
    }

    /** The rows not yet bound: the rest of the batch at hand, then the stream. */
    ghost function Ahead(): seq<ParamRow>
      reads this
      requires Valid()
    {
      (if batch.Some? then batch.value[nextRow..] else []) + Flatten(stream)
    }

    /** AdbcSqliteBinderRelease. */
    method Release()
      modifies this
      ensures Valid() && !live && !spoilt && batch.None? && stream == []
    {
      live, spoilt, stream, batch, nextRow := false, false, [], None, 0;
    }

    /** AdbcSqliteBinderBindNext: bind the next row of the flattened stream, or report
        that there is none.  `accepts` is whether SQLite resets the statement and clears
        its bindings, `takes` whether it accepts the binding of a column.  A row that
        cannot be bound stays the next row. */
    method BindNext(accepts: bool, takes: nat -> bool) returns (status: Status, finished: bool, bound: seq<Bound>)
      requires Valid() && live && !spoilt
      modifies this
      ensures Valid()
      ensures old(Ahead()) == [] ==>
                && status == Ending(old(stream)) && finished == (status == OK)
                && live == !finished && spoilt == (status == INTERNAL)
      ensures old(Ahead()) != [] ==>
                && !finished && live && !spoilt && Ending(stream) == Ending(old(stream))
                && WellTypedRow(types, old(Ahead())[0])
                && if !accepts then status == INTERNAL && Ahead() == old(Ahead())
                   else if status == OK then
                     && BindsTo(env, types, old(Ahead())[0], takes, Ok(bound)) && Ahead() == old(Ahead())[1..]
                     && |bound| == |types| && ReadRow(types, bound) == SurvivingRow(env, old(Ahead())[0])
                   else
                     BindsTo(env, types, old(Ahead())[0], takes, Err(status)) && Ahead() == old(Ahead())
    {
      bound := [];
      ghost var all := Ahead();
      status, finished := Refill();
      if status != OK || finished { return; }
      var row := batch.value[nextRow];
      assert all[0] == row && all[1..] == batch.value[nextRow + 1..] + Flatten(stream);
      if !accepts { return INTERNAL, false, []; }
      var r := BindRow(env, types, row, takes);
      if r.Err? { return r.status, false, []; }
      bound := r.value;
      nextRow := nextRow + 1;
    }

    /** The loop that fetches batches until one has a row left, passing over empty ones. */
    method Refill() returns (status: Status, finished: bool)
      requires Valid() && live && !spoilt
      modifies this
      ensures Valid()
      ensures old(Ahead()) == [] ==>
                && status == Ending(old(stream)) && finished == (status == OK)
                && live == !finished && spoilt == (status == INTERNAL) && (!spoilt ==> batch.None?)
      ensures old(Ahead()) != [] ==>
                && status == OK && !finished && live && !spoilt && Ending(stream) == Ending(old(stream))
                && Ahead() == old(Ahead()) && batch.Some? && nextRow < |batch.value|
    {
      while batch.None? || nextRow >= |batch.value|
        invariant Valid() && live && !spoilt && Ahead() == old(Ahead())
        invariant Ending(stream) == Ending(old(stream))
        decreases |stream|
      {
        batch := None;
        if stream == [] {
          Release();
          return OK, true;
        }
        var event := stream[0];
        stream := stream[1..];
        if event.StreamError? { return IO, false; }
        if event.Mismatch? {
          spoilt := true;
          return INTERNAL, false;
        }
        batch, nextRow := Some(event.rows), 0;
        assert event.rows[0..] == event.rows;
      }
      status, finished := OK, false;
    }
  }

  // ---------------------------------------------------------------------
  // Bulk ingest
  // ---------------------------------------------------------------------

  /** What SQLite does with the k-th row of the ingest: whether it resets the statement
      and clears its bindings, whether it takes the binding of each column, and whether
      stepping past any SQLITE_ROW ends in DONE. */
  datatype Database =
    Database(preparesInsert: bool, accepts: nat -> bool, takes: nat -> nat -> bool, executes: nat -> bool)

  /** Row k gets through: the statement resets, every column binds, the insert succeeds. */
  ghost predicate RowIngests(env: Env, types: seq<ParamType>, db: Database, rows: seq<ParamRow>, k: nat)
    requires k < |rows|
  {
    WellTypedRow(types, rows[k]) && db.accepts(k) && Binds(env, types, rows[k], db.takes(k)) && db.executes(k)
  }

  /** The table holds, in order, the bound form of the first rows, all of which get through. */
  ghost predicate Ingested(env: Env, types: seq<ParamType>, db: Database, rows: seq<ParamRow>, table: seq<seq<Bound>>) {
    && |table| <= |rows|
    && forall k | 0 <= k < |table| ::
         RowIngests(env, types, db, rows, k) && BindsTo(env, types, rows[k], db.takes(k), Ok(table[k]))
  }

  /** The table says the first rows again, row by row. */
  ghost predicate SaysRows(env: Env, types: seq<ParamType>, rows: seq<ParamRow>, table: seq<seq<Bound>>) {
    && |table| <= |rows|
    && forall k | 0 <= k < |table| ::
         |table[k]| == |types| && ReadRow(types, table[k]) == SurvivingRow(env, rows[k])
         && (Floating !in types ==> ReadRow(types, table[k]) == rows[k])
  }

  lemma {:induction false} IngestedSaysRows(
    env: Env, types: seq<ParamType>, db: Database, rows: seq<ParamRow>, table: seq<seq<Bound>>)
    requires Ingested(env, types, db, rows, table)
    ensures SaysRows(env, types, rows, table)
  {
    forall k | 0 <= k < |table|
      ensures |table[k]| == |types| && ReadRow(types, table[k]) == SurvivingRow(env, rows[k])
      ensures Floating !in types ==> SurvivingRow(env, rows[k]) == rows[k]
    {
      assert RowIngests(env, types, db, rows, k) && BindsTo(env, types, rows[k], db.takes(k), Ok(table[k]));
      RowReadsBack(env, types, rows[k], db.takes(k), table[k]);
      if Floating !in types { ExactlySurvives(env, types, rows[k]); }
    }
  }

  /** A row gets through exactly when every cell is representable and SQLite plays along. */
  lemma {:induction false} IngestsExactly(env: Env, types: seq<ParamType>, db: Database, rows: seq<ParamRow>, k: nat)
    requires k < |rows| && WellTypedRow(types, rows[k])
    ensures RowIngests(env, types, db, rows, k) <==>
            && db.accepts(k) && db.executes(k)
            && forall c | 0 <= c < |rows[k]| :: Representable(rows[k][c]) && db.takes(k)(c)
  {
    BindsExactly(env, types, rows[k], db.takes(k));
  }

  /** SqliteStatementExecuteIngest.  Without a bound stream the call is refused and writes no
      row count.  In every other outcome rowsAffected is the number of rows in the table, and
      the table is the bound form of that many rows from the front of the flattened stream,
      stopping only at a row that does not get through.  Success is exactly that nothing on
      the way fails, and then every row is there.  The binder is never asked again once it
      has finished. */
  method ExecuteIngest(binder: Binder, db: Database)
    returns (status: Status, rowsAffected: Option<nat>, table: seq<seq<Bound>>)
    requires binder.Valid() && !binder.spoilt
    modifies binder
    ensures !old(binder.live) ==> status == INVALID_STATE && table == []
    ensures !binder.live
    ensures rowsAffected == if old(binder.live) then Some(|table|) else None
    ensures Ingested(binder.env, binder.types, db, old(binder.Ahead()), table)
    ensures SaysRows(binder.env, binder.types, old(binder.Ahead()), table)
    ensures old(binder.live) && db.preparesInsert && |table| < |old(binder.Ahead())| ==>
              !RowIngests(binder.env, binder.types, db, old(binder.Ahead()), |table|)
    ensures status == OK <==>
              old(binder.live) && db.preparesInsert && EndsWell(old(binder.stream)) && |table| == |old(binder.Ahead())|
  {
    if !binder.live { return INVALID_STATE, None, []; }
    if !db.preparesInsert {
      binder.Release();
      return INTERNAL, Some(0), [];
    }
    var rowCount;
    status, rowCount, table := IngestRows(binder, db);
    rowsAffected := Some(rowCount);
    binder.Release();
  }

  method IngestRows(binder: Binder, db: Database) returns (status: Status, rowCount: nat, table: seq<seq<Bound>>)
    requires binder.Valid() && binder.live && !binder.spoilt
    modifies binder
    ensures rowCount == |table| && Ingested(binder.env, binder.types, db, old(binder.Ahead()), table)
    ensures SaysRows(binder.env, binder.types, old(binder.Ahead()), table)
    ensures |table| < |old(binder.Ahead())| ==>
              status != OK && !RowIngests(binder.env, binder.types, db, old(binder.Ahead()), |table|)
    ensures |table| == |old(binder.Ahead())| ==> status == Ending(old(binder.stream))
  {
    hide BindsTo, Binds, BindCell, ReadRow, SurvivingRow, WellTypedRow, Flatten, WellTypedStream, RowIngests;
    ghost var all := binder.Ahead();
    table, rowCount := [], 0;
    while true
      invariant binder.Valid() && binder.live && !binder.spoilt && rowCount == |table|
      invariant Ingested(binder.env, binder.types, db, all, table)
      invariant binder.Ahead() == all[|table|..] && Ending(binder.stream) == Ending(old(binder.stream))
      decreases |all| - |table|
    {
      ghost var ahead := all[rowCount..];
      assert ahead != [] ==> ahead[0] == all[rowCount] && ahead[1..] == all[rowCount + 1..];
      var finished, bound;
      status, finished, bound := binder.BindNext(db.accepts(rowCount), db.takes(rowCount));
      if status != OK || finished {
        IngestedSaysRows(binder.env, binder.types, db, all, table);
        if rowCount < |all| { FailedRowDoesNotBind(binder.env, binder.types, db, all, rowCount, status); }
        return;
      }
      if !db.executes(rowCount) {
        IngestedSaysRows(binder.env, binder.types, db, all, table);
        UnexecutedRow(binder.env, binder.types, db, all, rowCount);
        return INTERNAL, rowCount, table;
      }
      RowIngested(binder.env, binder.types, db, all, table, bound);
      table := table + [bound];
      rowCount := rowCount + 1;
    }
  }

  lemma UnexecutedRow(env: Env, types: seq<ParamType>, db: Database, rows: seq<ParamRow>, k: nat)
    requires k < |rows| && !db.executes(k)
    ensures !RowIngests(env, types, db, rows, k)
  {
  }

  lemma FailedRowDoesNotBind(env: Env, types: seq<ParamType>, db: Database, rows: seq<ParamRow>, k: nat, status: Status)
    requires k < |rows| && WellTypedRow(types, rows[k])
    requires !db.accepts(k) || BindsTo(env, types, rows[k], db.takes(k), Err(status))
    ensures !RowIngests(env, types, db, rows, k)
  {
  }

  lemma {:induction false} RowIngested(
    env: Env, types: seq<ParamType>, db: Database, rows: seq<ParamRow>, table: seq<seq<Bound>>, bound: seq<Bound>)
    requires Ingested(env, types, db, rows, table) && |table| < |rows| && WellTypedRow(types, rows[|table|])
    requires db.accepts(|table|) && BindsTo(env, types, rows[|table|], db.takes(|table|), Ok(bound))
              && db.executes(|table|)
    ensures Ingested(env, types, db, rows, table + [bound])
  {
    assert Binds(env, types, rows[|table|], db.takes(|table|));
  }
}
