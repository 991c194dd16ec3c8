/** Binding parameters to a prepared statement: every row is laid out in one reused
    buffer and one reused set of pointer and length vectors, then executed. */
module PgBind {
  import opened Bytes
  import opened PgTypes
  import opened Wrappers

  datatype ArrowType = INT16 | INT32 | INT64 | STRING | UNSUPPORTED

  datatype Cell = NullCell | IntCell(i: Int64) | TextCell(text: seq<byte>)

  type Row = seq<Cell>

  predicate CellFits(t: ArrowType, cell: Cell) {
    match t
    case INT16 => cell.NullCell? || cell.IntCell?
    case INT32 => cell.NullCell? || cell.IntCell?
    case INT64 => cell.NullCell? || cell.IntCell?
    case STRING => cell.NullCell? || cell.TextCell?
    case UNSUPPORTED => true
  }

  predicate RowFits(schema: seq<ArrowType>, row: Row) {
    |row| == |schema| && forall c | 0 <= c < |row| :: CellFits(schema[c], row[c])
  }

  /** What the server receives for one parameter. */
  datatype Param = Absent | Value(bytes: seq<byte>)

  /** The parameter a cell stands for. */
  function Sent(cell: Cell): Param {
    match cell
    case NullCell => Absent
    case IntCell(i) => Value(BE(8, Unsigned(TWO_64, i)))
    case TextCell(text) => Value(text)
  }

  function SentRow(row: Row): seq<Param> {
    seq(|row|, c requires 0 <= c < |row| => Sent(row[c]))
  }

  function SentRows(rows: seq<Row>): seq<seq<Param>> {
    seq(|rows|, r requires 0 <= r < |rows| => SentRow(rows[r]))
  }

  /** The server reads an integer parameter as the integer that was bound. */
  lemma {:induction false} IntReadsBack(i: Int64)
    ensures Signed(TWO_64, FromBE(Sent(IntCell(i)).bytes)) == i
  {
    Widths();
    BERoundTrip(8, Unsigned(TWO_64, i));
    SignedUnsigned(TWO_64, i);
  }

  /** What reaches the server for a cell: nothing for a null, exactly the bytes of a text, and
      for an integer eight bytes, the most significant first, that denote it. */
  ghost predicate Conveys(p: Param, cell: Cell) {
    match cell
    case NullCell => p == Absent
    case TextCell(text) => p == Value(text)
    case IntCell(i) =>
      && p.Value? && |p.bytes| == 8 && Signed(TWO_64, FromBE(p.bytes)) == i
      && forall k | 0 <= k < 8 :: p.bytes[k] == (i % TWO_64) / Pow256(7 - k) % 256
  }

  lemma {:induction false} SentConveys(cell: Cell)
    ensures Conveys(Sent(cell), cell)
  {
    if cell.IntCell? {
      IntReadsBack(cell.i);
      var u := Unsigned(TWO_64, cell.i);
      forall k | 0 <= k < 8 ensures BE(8, u)[k] == u / Pow256(7 - k) % 256 { BEWeights(8, u, k); }
    }
  }

  /** The entries of a server's log convey these rows, cell by cell. */
  ghost predicate ConveysRows(log: seq<seq<Param>>, rows: seq<Row>) {
    && |log| == |rows|
    && forall r | 0 <= r < |rows| ::
         |log[r]| == |rows[r]| && forall c | 0 <= c < |rows[r]| :: Conveys(log[r][c], rows[r][c])
  }

  lemma {:induction false} SentRowsConvey(rows: seq<Row>)
    ensures ConveysRows(SentRows(rows), rows)
  {
    hide Conveys, Sent;
    forall r | 0 <= r < |rows| ensures |SentRow(rows[r])| == |rows[r]|
      ensures forall c | 0 <= c < |rows[r]| :: Conveys(SentRow(rows[r])[c], rows[r][c])
    {
      forall c | 0 <= c < |rows[r]| ensures Conveys(SentRow(rows[r])[c], rows[r][c]) { SentConveys(rows[r][c]); }
    }
  }

  /** Rows of one schema that reach the server alike are alike. */
  lemma {:induction false} SentDistinguishes(schema: seq<ArrowType>, a: Row, b: Row)
    requires RowFits(schema, a) && RowFits(schema, b) && UNSUPPORTED !in schema
    ensures SentRow(a) == SentRow(b) <==> a == b
  {
    hide BE, FromBE;
    if SentRow(a) == SentRow(b) {
      forall c | 0 <= c < |a| ensures a[c] == b[c] {
        assert CellFits(schema[c], a[c]) && CellFits(schema[c], b[c]);
        assert SentRow(a)[c] == SentRow(b)[c];
        if a[c].IntCell? && b[c].IntCell? {
          IntReadsBack(a[c].i);
          IntReadsBack(b[c].i);
        }
      }
    }
  }

  /** A parameter pointer: null, into the values buffer, or into the batch's own text. */
  datatype Pointer = NullPointer | Slot(offset: nat) | Borrowed(text: seq<byte>)

  predicate InBounds(p: Pointer, length: int, buffer: seq<byte>) {
    match p
    case NullPointer => true
    case Slot(offset) => 0 <= length && offset + length <= |buffer|
    case Borrowed(text) => 0 <= length <= |text|
  }

  /** The bytes libpq takes from a pointer and a length. */
  function Taken(p: Pointer, length: int, buffer: seq<byte>): Param
    requires InBounds(p, length, buffer)
  {
    match p
    case NullPointer => Absent
    case Slot(offset) => Value(buffer[offset..offset + length])
    case Borrowed(text) => Value(text[..length])
  }

  // ---------------------------------------------------------------------
  // Slots
  // ---------------------------------------------------------------------

  function SlotLength(t: ArrowType): nat {
    match t case INT16 => 2 case INT32 => 4 case INT64 => 8 case STRING => 0 case UNSUPPORTED => 0
  }

  function SlotStart(schema: seq<ArrowType>, k: nat): nat
    requires k <= |schema|
  {
    if k == 0 then 0 else SlotStart(schema, k - 1) + SlotLength(schema[k - 1])
  }

  /** Slots are disjoint and in order. */
  lemma {:induction false} SlotsDisjoint(schema: seq<ArrowType>, c: nat, d: nat)
    requires c < d <= |schema|
    ensures SlotStart(schema, c) + SlotLength(schema[c]) <= SlotStart(schema, d)
  {
    if c + 1 < d { SlotsDisjoint(schema, c, d - 1); }
  }

  predicate Ingestible(t: ArrowType) { t == INT64 || t == STRING }

  function PgTypeFor(t: ArrowType): Option<PgType> {
    match t
    case INT16 => Some(Int2)
    case INT32 => Some(Int4)
    case INT64 => Some(Int8)
    case STRING => Some(Text)
    case UNSUPPORTED => None
  }

  datatype Status = OK | NOT_IMPLEMENTED | INTERNAL | IO

  predicate HasOid(t: ArrowType, mapping: TypeMapping)
    reads mapping
  {
    PgTypeFor(t).Some? && mapping.GetOid(PgTypeFor(t).value) != 0
  }

  /** A type with an OID is one Execute can send: the mapping knows only int8 and text. */
  lemma MappedIsIngestible(t: ArrowType, mapping: TypeMapping)
    requires mapping.Valid() && HasOid(t, mapping)
    ensures Ingestible(t)
  {
  }

  /** The fields that can be sent: int64 and string, as far as the server has int8 and text. */
  predicate Sendable(t: ArrowType, mapping: TypeMapping)
    reads mapping
  {
    (t == INT64 && mapping.GetOid(Int8) != 0) || (t == STRING && mapping.GetOid(Text) != 0)
  }

  /** The server is told int8 for int64 and text for string. */
  predicate Typed(t: ArrowType, oid: UInt32, mapping: TypeMapping)
    reads mapping
  {
    oid != 0 && ((t == INT64 && oid == mapping.GetOid(Int8)) || (t == STRING && oid == mapping.GetOid(Text)))
  }

  lemma SendableExactly(t: ArrowType, mapping: TypeMapping)
    requires mapping.Valid()
    ensures HasOid(t, mapping) <==> Sendable(t, mapping)
  {
  }

  // ---------------------------------------------------------------------
  // The server
  // ---------------------------------------------------------------------

  /** Executions of the prepared statement, in order; whether one succeeds may depend on
      everything executed so far. */
  class Server {
    const accepts: seq<seq<Param>> -> bool
    var log: seq<seq<Param>>

    constructor (accepts: seq<seq<Param>> -> bool)
      ensures this.accepts == accepts && log == []
    {
      this.accepts := accepts;
      log := [];
    }

    method ExecPrepared(params: seq<Param>) returns (ok: bool)
      modifies this
      ensures log == old(log) + [params] && ok == accepts(log)
    {
      log := log + [params];
      ok := accepts(log);
    }
  }

  function Flatten(batches: seq<seq<Row>>): seq<Row> {
    if batches == [] then [] else batches[0] + Flatten(batches[1..])
  }

  class BindStream {
    const schema: seq<ArrowType>
    var stream: seq<seq<Row>>
    const streamOk: bool
    /** nanoarrow's check of a batch against the schema. */
    const viewOk: seq<Row> -> bool
    var paramTypes: seq<UInt32>
    var paramValues: seq<Pointer>
    var paramLengths: seq<int>
    var offsets: seq<nat>
    var buffer: array<byte>

    constructor (schema: seq<ArrowType>, batches: seq<seq<Row>>, streamOk: bool, viewOk: seq<Row> -> bool)
      ensures this.schema == schema && stream == batches && this.streamOk == streamOk && this.viewOk == viewOk
      ensures fresh(buffer) && offsets == []
    {
      this.schema, this.stream, this.streamOk, this.viewOk := schema, batches, streamOk, viewOk;
      paramTypes, paramValues, paramLengths, offsets := [], [], [], [];
      buffer := new byte[0];
    }

    /** One vector entry per field, and slots laid end to end from the buffer's start to
        its end.  The length of a text field is whatever the last row left there. */
    predicate Ready()
      reads this
    {
      && |paramValues| == |paramLengths| == |offsets| == |schema|
      && (forall c | 0 <= c < |schema| :: offsets[c] == SlotStart(schema, c))
      && (forall c | 0 <= c < |schema| && schema[c] != STRING :: paramLengths[c] == SlotLength(schema[c]))
      && buffer.Length == SlotStart(schema, |schema|)
    }

    method SetParamTypes(mapping: TypeMapping) returns (status: Status)
      requires offsets == [] && mapping.Valid()
      modifies this`paramTypes, this`paramValues, this`paramLengths, this`offsets, this`buffer
      ensures status == if forall c | 0 <= c < |schema| :: Sendable(schema[c], mapping) then OK else NOT_IMPLEMENTED
      ensures status == OK ==>
                && Ready() && fresh(buffer) && |paramTypes| == |schema|
                && forall c | 0 <= c < |schema| :: Typed(schema[c], paramTypes[c], mapping)
    {
      paramTypes := seq(|schema|, _ => 0);
      paramValues := seq(|schema|, _ => NullPointer);
      paramLengths := seq(|schema|, _ => 0);
      for i := 0 to |schema|
        invariant |paramTypes| == |paramLengths| == |paramValues| == |schema| && offsets == []
        invariant forall c | 0 <= c < i :: HasOid(schema[c], mapping)
        invariant forall c | 0 <= c < i :: paramTypes[c] == mapping.GetOid(PgTypeFor(schema[c]).value)
        invariant forall c | 0 <= c < i :: paramLengths[c] == SlotLength(schema[c])
      {
        var pgType := PgTypeFor(schema[i]);
        if pgType.None? { return NOT_IMPLEMENTED; }
        paramLengths := paramLengths[i := SlotLength(schema[i])];
        paramTypes := paramTypes[i := mapping.GetOid(pgType.value)];
        if paramTypes[i] == 0 { return NOT_IMPLEMENTED; }
      }
      forall c | 0 <= c < |schema| ensures Typed(schema[c], paramTypes[c], mapping) {
        MappedIsIngestible(schema[c], mapping);
      }
      LayOutSlots();
      return OK;
    }

    method LayOutSlots()
      requires offsets == [] && |paramLengths| == |schema|
      requires forall c | 0 <= c < |schema| :: paramLengths[c] == SlotLength(schema[c])
      modifies this`offsets, this`buffer
      ensures |offsets| == |schema| && forall c | 0 <= c < |schema| :: offsets[c] == SlotStart(schema, c)
      ensures fresh(buffer) && buffer.Length == SlotStart(schema, |schema|)
    {
      var length := 0;
      for i := 0 to |schema|
        invariant |offsets| == i && length == SlotStart(schema, i)
        invariant forall c | 0 <= c < i :: offsets[c] == SlotStart(schema, c)
      {
        offsets := offsets + [length];
        length := length + paramLengths[i];
      }
      buffer := new byte[length](_ => 0);
    }

    /** Column c now stands for this cell. */
    predicate Stands(c: nat, cell: Cell)
      requires |paramValues| == |paramLengths| == |schema| && c < |schema|
      reads this, buffer
    {
      && InBounds(paramValues[c], paramLengths[c], buffer[..])
      && Taken(paramValues[c], paramLengths[c], buffer[..]) == Sent(cell)
      && (paramValues[c].Slot? ==> schema[c] != STRING && paramValues[c].offset == SlotStart(schema, c))
    }

    /** Lay out one row. */
    method FillRow(row: Row) returns (status: Status)
      requires Ready() && RowFits(schema, row)
      modifies this`paramValues, this`paramLengths, buffer
      ensures Ready()
      ensures status == if forall c | 0 <= c < |schema| ::
                row[c].NullCell? || Ingestible(schema[c]) then OK else NOT_IMPLEMENTED
      ensures status == OK ==> forall c | 0 <= c < |schema| :: Stands(c, row[c])
    {
      for col := 0 to |schema|
        invariant Ready()
        invariant forall c | 0 <= c < col :: row[c].NullCell? || Ingestible(schema[c])
        invariant forall c | 0 <= c < col :: Stands(c, row[c])
      {
        status := FillCell(col, row[col], row[..col]);
        if status != OK { return; }
        assert forall c | 0 <= c < col :: Stands(c, row[..col][c]);
      }
      return OK;
    }

    /** Lay out one cell without disturbing the columns before it. */
    method FillCell(col: nat, cell: Cell, ghost before: Row)
      returns (status: Status)
      requires Ready() && col < |schema| && CellFits(schema[col], cell)
      requires |before| == col && forall c | 0 <= c < col :: Stands(c, before[c])
      modifies this`paramValues, this`paramLengths, buffer
      ensures Ready()
      ensures status == if cell.NullCell? || Ingestible(schema[col]) then OK else NOT_IMPLEMENTED
      ensures status == OK ==> Stands(col, cell) && forall c | 0 <= c < col :: Stands(c, before[c])
    {
      if cell.NullCell? {
        paramValues := paramValues[col := NullPointer];
        return OK;
      }
      paramValues := paramValues[col := Slot(offsets[col])];
      match schema[col] {
        case INT64 =>
          ghost var bytes := buffer[..];
          CopyInt(col, cell.i);
          forall c | 0 <= c < col ensures Stands(c, before[c]) { KeepsSlot(c, col, before[c], bytes); }
          return OK;
        case STRING =>
          paramLengths := paramLengths[col := |cell.text|];
          paramValues := paramValues[col := Borrowed(cell.text)];
          return OK;
        case INT16 => return NOT_IMPLEMENTED;
        case INT32 => return NOT_IMPLEMENTED;
        case UNSUPPORTED => return NOT_IMPLEMENTED;
      }
    }

    /** Writing from slot `col` on leaves the earlier column c as it was. */
    lemma KeepsSlot(c: nat, col: nat, cell: Cell, bytes: seq<byte>)
      requires Ready() && c < col < |schema| && |bytes| == buffer.Length
      requires var start := SlotStart(schema, col); start <= |bytes| && buffer[..start] == bytes[..start]
      requires InBounds(paramValues[c], paramLengths[c], bytes)
                && Taken(paramValues[c], paramLengths[c], bytes) == Sent(cell)
      requires paramValues[c].Slot? ==> schema[c] != STRING && paramValues[c].offset == SlotStart(schema, c)
      ensures Stands(c, cell)
    {
      SlotsDisjoint(schema, c, col);
      var from, to, start := SlotStart(schema, c), SlotStart(schema, c) + SlotLength(schema[c]), SlotStart(schema, col);
      assert buffer[..start][from..to] == bytes[..start][from..to];
      assert buffer[from..to] == bytes[from..to];
    }

    method CopyInt(col: nat, i: Int64)
      requires Ready() && col < |schema| && schema[col] == INT64
      modifies buffer
      ensures var start := SlotStart(schema, col);
              && start + 8 <= buffer.Length
              && buffer[start..start + 8] == BE(8, Unsigned(TWO_64, i))
              && buffer[..start] == old(buffer[..start])
    {
      SlotsDisjoint(schema, col, |schema|);
      var start, bytes := offsets[col], BE(8, Unsigned(TWO_64, i));
      for k := 0 to 8
        invariant buffer[start..start + k] == bytes[..k]
        invariant buffer[..start] == old(buffer[..start])
      {
        buffer[start + k] := bytes[k];
      }
      assert bytes[..8] == bytes;
    }

    function Received(): seq<Param>
      requires Ready() && forall c | 0 <= c < |schema| :: InBounds(paramValues[c], paramLengths[c], buffer[..])
      reads this, buffer
    {
      seq(|schema|, c requires 0 <= c < |schema| reads this, buffer
                      requires Ready() && InBounds(paramValues[c], paramLengths[c], buffer[..]) =>
          Taken(paramValues[c], paramLengths[c], buffer[..]))
    }

    /** Lay out and execute one row: the server receives exactly that row. */
    method ExecuteRow(row: Row, server: Server) returns (status: Status)
      requires Ready() && RowFits(schema, row)
      modifies this`paramValues, this`paramLengths, buffer, server
      ensures Ready()
      ensures status == NOT_IMPLEMENTED <==> exists c | 0 <= c < |schema| :: !row[c].NullCell? && !Ingestible(schema[c])
      ensures status != INTERNAL
      ensures status == NOT_IMPLEMENTED ==> server.log == old(server.log)
      ensures status != NOT_IMPLEMENTED ==>
                && server.log == old(server.log) + [SentRow(row)]
                && status == if server.accepts(server.log) then OK else IO
    {
      status := FillRow(row);
      if status != OK { return; }
      assert Received() == SentRow(row);
      var ok := server.ExecPrepared(Received());
      status := if ok then OK else IO;
    }

    /** The check passes only batches that fit the schema. */
    predicate AllFit(batches: seq<seq<Row>>) {
      forall b | 0 <= b < |batches| && viewOk(batches[b]) :: BatchFits(batches[b])
    }

    predicate BatchFits(batch: seq<Row>) {
      forall r | 0 <= r < |batch| :: RowFits(schema, batch[r])
    }

    /** The rows of one batch in order, up to the first failure.  n counts executions. */
    method ExecuteBatch(batch: seq<Row>, server: Server) returns (status: Status, ghost n: nat)
      requires Ready() && BatchFits(batch)
      modifies this`paramValues, this`paramLengths, buffer, server
      ensures Ready()
      ensures n <= |batch| && server.log == old(server.log) + SentRows(batch[..n])
      ensures Verdict(server.accepts, server.log, |old(server.log)|, status)
      ensures status == OK ==> n == |batch|
      ensures status == NOT_IMPLEMENTED ==> exists c | 0 <= c < |schema| :: !Ingestible(schema[c])
      ensures status != INTERNAL
    {
      n, status := 0, OK;
      ghost var start := server.log;
      var row := 0;
      while row < |batch|
        invariant Ready() && row == n <= |batch| && status == OK
        invariant server.log == start + SentRows(batch[..n])
        invariant Verdict(server.accepts, server.log, |start|, OK)
      {
        assert RowFits(schema, batch[row]);
        ghost var log := server.log;
        status := ExecuteRow(batch[row], server);
        if status == NOT_IMPLEMENTED { return; }
        assert SentRows(batch[..n + 1]) == SentRows(batch[..n]) + [SentRow(batch[n])];
        OneMoreVerdict(server.accepts, log, |start|, SentRow(batch[n]));
        row, n := row + 1, n + 1;
        if status != OK { return; }
      }
    }

    /** Batch after batch until the stream ends.  Over all the rows of the stream, the
        server receives a prefix of them, in order, each exactly as it stands in the
        stream; the count of affected rows covers the batches that completed. */
    method Execute(server: Server) returns (status: Status, rowsAffected: nat, ghost n: nat)
      requires Ready() && AllFit(stream)
      modifies this`stream, this`paramValues, this`paramLengths, buffer, server
      ensures n <= |Flatten(old(stream))| && server.log == old(server.log) + SentRows(Flatten(old(stream))[..n])
      ensures status == OK ==> streamOk && n == rowsAffected == |Flatten(old(stream))|
      ensures status == OK ==> forall b | 0 <= b < |old(stream)| :: viewOk(old(stream)[b])
      ensures status == INTERNAL ==> n == rowsAffected && exists b | 0 <= b < |old(stream)| :: !viewOk(old(stream)[b])
      ensures status == OK ==> Verdict(server.accepts, server.log, |old(server.log)|, OK)
      ensures status == IO ==>
                || (!streamOk && n == rowsAffected == |Flatten(old(stream))|
                    && Verdict(server.accepts, server.log, |old(server.log)|, OK))
                || Verdict(server.accepts, server.log, |old(server.log)|, IO)
      ensures status == NOT_IMPLEMENTED ==> exists c | 0 <= c < |schema| :: !Ingestible(schema[c])
      ensures rowsAffected <= n && exists b | 0 <= b <= |old(stream)| :: rowsAffected == |Flatten(old(stream)[..b])|
    {
      hide Verdict, SentRows, RowFits, SlotStart, SlotLength;
      ghost var start, batches := server.log, stream;
      ghost var b := 0;
      rowsAffected, n := 0, 0;
      NoVerdict(server.accepts, start);
      while true
        invariant Ready() && b <= |batches| && stream == batches[b..]
        invariant forall i | 0 <= i < b :: viewOk(batches[i])
        invariant n == rowsAffected == |Flatten(batches[..b])|
        invariant server.log == start + SentRows(Flatten(batches[..b]))
        invariant Verdict(server.accepts, server.log, |start|, OK)
        decreases |stream|
      {
        FlattenSplit(batches, b);
        if stream == [] {
          assert batches[..b] == batches && Flatten(batches)[..n] == Flatten(batches);
          status := if streamOk then OK else IO;
          return;
        }
        ghost var log := server.log;
        var batch := stream[0];
        stream := stream[1..];
        assert batch == batches[b];
        if !viewOk(batch) {
          assert Flatten(batches)[..n] == Flatten(batches[..b]);
          return INTERNAL, rowsAffected, n;
        }
        ghost var m;
        status, m := ExecuteBatch(batch, server);
        JoinVerdicts(server.accepts, log, server.log, |start|, status);
        SentTogether(Flatten(batches[..b]), batch, m);
        if status != OK {
          n := n + m;
          assert Flatten(batches)[..n] == Flatten(batches[..b]) + batch[..m];
          return;
        }
        assert batch[..m] == batch;
        rowsAffected := rowsAffected + |batch|;
        n, b := n + m, b + 1;
      }
    }

    /** Prepared execution from end to end.  NOT_IMPLEMENTED means a field had no server
        type when the parameters were set up: the same complaint later, row by row, is
        unreachable, because the mapping gives OIDs to nothing that Execute cannot send. */
    method ExecutePrepared(mapping: TypeMapping, prepareOk: bool, server: Server)
      returns (status: Status, rowsAffected: nat, ghost n: nat)
      requires offsets == [] && mapping.Valid() && AllFit(stream)
      modifies this, server
      ensures status == NOT_IMPLEMENTED <==> exists c | 0 <= c < |schema| :: !old(Sendable(schema[c], mapping))
      ensures n <= |Flatten(old(stream))| && server.log == old(server.log) + SentRows(Flatten(old(stream))[..n])
      ensures |old(server.log)| <= |server.log|
      ensures ConveysRows(server.log[|old(server.log)|..], Flatten(old(stream))[..n])
      ensures status == OK ==> prepareOk && streamOk && n == rowsAffected == |Flatten(old(stream))|
    {
      hide Verdict, SlotStart, SlotLength, SentRows, ConveysRows;
      rowsAffected, n := 0, 0;
      ghost var log, rows := server.log, Flatten(stream);
      SentNothing();
      SentRowsConvey(rows[..0]);
      assert rows[..0] == [] && log == log + [] && log[|log|..] == [];
      status := SetParamTypes(mapping);
      if status != OK { return; }
      forall c | 0 <= c < |schema| ensures Ingestible(schema[c]) { MappedIsIngestible(schema[c], mapping); }
      if !prepareOk { return IO, 0, 0; }
      status, rowsAffected, n := Execute(server);
      SentRowsConvey(rows[..n]);
      assert server.log[|log|..] == SentRows(rows[..n]);
    }
  }

  /** How a series of executions that began after entry `from` ended: all succeeded, or
      the last one failed and those before it succeeded. */
  ghost predicate Verdict(accepts: seq<seq<Param>> -> bool, log: seq<seq<Param>>, from: nat, status: Status) {
    && from <= |log|
    && if status == IO then from < |log| && !Accepted(accepts, log, |log| - 1)
       && AllAccepted(accepts, log, from, |log| - 1)
       else AllAccepted(accepts, log, from, |log|)
  }

  predicate Accepted(accepts: seq<seq<Param>> -> bool, log: seq<seq<Param>>, k: nat)
    requires k < |log|
  {
    accepts(log[..k + 1])
  }

  ghost predicate AllAccepted(accepts: seq<seq<Param>> -> bool, log: seq<seq<Param>>, from: nat, to: nat)
    requires to <= |log|
  {
    forall k | from <= k < to :: Accepted(accepts, log, k)
  }

  lemma AcceptedLater(accepts: seq<seq<Param>> -> bool, log: seq<seq<Param>>, later: seq<seq<Param>>, k: nat)
    requires k < |log| && log <= later
    ensures Accepted(accepts, later, k) == Accepted(accepts, log, k)
  {
    assert later[..k + 1] == log[..k + 1];
  }

  lemma SentNothing()
    ensures SentRows([]) == []
  {
  }

  lemma NoVerdict(accepts: seq<seq<Param>> -> bool, log: seq<seq<Param>>)
    ensures Verdict(accepts, log, |log|, OK) && log == log + SentRows([])
  {
  }

  lemma {:induction false} OneMoreVerdict(
      accepts: seq<seq<Param>> -> bool, log: seq<seq<Param>>, from: nat, entry: seq<Param>)
    requires Verdict(accepts, log, from, OK)
    ensures Verdict(accepts, log + [entry], from, if accepts(log + [entry]) then OK else IO)
  {
    var later := log + [entry];
    assert later[..|later|] == later;
    forall k | from <= k < |log| ensures Accepted(accepts, later, k) { AcceptedLater(accepts, log, later, k); }
  }

  lemma {:induction false} JoinVerdicts(
    accepts: seq<seq<Param>> -> bool, log: seq<seq<Param>>, later: seq<seq<Param>>, from: nat, status: Status)
    requires Verdict(accepts, log, from, OK) && log <= later && Verdict(accepts, later, |log|, status)
    ensures Verdict(accepts, later, from, status)
  {
    forall k | from <= k < |log| ensures Accepted(accepts, later, k) { AcceptedLater(accepts, log, later, k); }
  }

  lemma {:induction false} FlattenSplit(batches: seq<seq<Row>>, b: nat)
    requires b <= |batches|
    ensures Flatten(batches) == Flatten(batches[..b]) + Flatten(batches[b..])
    ensures b < |batches| ==> Flatten(batches[..b + 1]) == Flatten(batches[..b]) + batches[b]
  {
    if b == 0 {
      assert batches[b..] == batches;
      if |batches| > 0 { assert batches[..1] == [batches[0]]; }
    } else {
      FlattenSplit(batches[1..], b - 1);
      assert batches[..b][1..] == batches[1..][..b - 1] && batches[1..][b - 1..] == batches[b..];
      if b < |batches| { assert batches[..b + 1][1..] == batches[1..][..b]; }
    }
  }

  lemma {:induction false} SentTogether(rows: seq<Row>, batch: seq<Row>, m: nat)
    requires m <= |batch|
    ensures SentRows(rows) + SentRows(batch[..m]) == SentRows(rows + batch[..m])
  {
  }
}
