/** The driver's COPY reader as it runs: a cursor moved over each message, columns that
    grow in place, and a result that is consumed by the first call. */
module PgReader {
  import opened Bytes
  import opened PgCopy
  import opened PgTuple

  /** The array under construction. */
  class Batch {
    const types: seq<FieldType>
    var columns: seq<Column>
    var count: nat

    predicate Valid()
      reads this
    {
      AllSized(types, columns, count)
    }

    constructor (types: seq<FieldType>)
      ensures Valid() && this.types == types && count == 0 && columns == EmptyColumns(types)
    {
      this.types := types;
      columns := EmptyColumns(types);
      count := 0;
    }

    /** One tuple, or the trailer.  A failure leaves the row count alone; the columns may
        then have taken a part of the tuple. */
    method AppendNext(buf: seq<byte>, p: nat) returns (code: Code)
      requires Valid()
      modifies this
      ensures code == AppendSpec(types, buf, p, old(count), old(columns)).code
      ensures code == SUCCESS ==>
                var r := AppendSpec(types, buf, p, old(count), old(columns)); count == r.count && columns == r.columns
      ensures code != SUCCESS ==> count == old(count)
    {
      hide DecodeField, Sized, FromBE, Pow256;
      ghost var before, row := columns, count;
      if p + 2 > |buf| { return FAULT; }
      var fieldCount := Signed(0x1_0000, FromBE(buf[p..p + 2]));
      var cursor: int := p + 2;
      if fieldCount == -1 { return SUCCESS; }
      if fieldCount != |types| { return EIO; }
      var col := 0;
      while col < |types|
        invariant 0 <= col <= |types| && count == row
        invariant DecodeFields(types, buf, p + 2, row, before, col) == FieldsDone(cursor, columns)
      {
        match DecodeField(types[col], buf, cursor, count, columns[col]) {
          case Fault =>
            FailureStays(types, buf, p + 2, row, before, col + 1, |types|);
            return FAULT;
          case Invalid =>
            FailureStays(types, buf, p + 2, row, before, col + 1, |types|);
            return EINVAL;
          case Done(next, column) =>
            cursor := next;
            columns := columns[col := column];
        }
        col := col + 1;
      }
      count := count + 1;
      return SUCCESS;
    }
  }

  lemma {:induction false} FailureStays(
    types: seq<FieldType>, buf: seq<byte>, p: int, row: nat, columns: seq<Column>, k: nat, n: nat)
    requires k <= n <= |types| && AllSized(types, columns, row)
    requires !DecodeFields(types, buf, p, row, columns, k).FieldsDone?
    ensures DecodeFields(types, buf, p, row, columns, n) == DecodeFields(types, buf, p, row, columns, k)
  {
    hide DecodeField, Sized;
    if k < n { FailureStays(types, buf, p, row, columns, k, n - 1); }
  }

  /** The connection after COPY ... TO STDOUT has been accepted: the messages PQgetCopyData
      will hand out, and whether the command completes. */
  class Connection {
    var messages: seq<seq<byte>>
    const commandOk: bool

    constructor (messages: seq<seq<byte>>, commandOk: bool)
      ensures this.messages == messages && this.commandOk == commandOk
    {
      this.messages := messages;
      this.commandOk := commandOk;
    }

    /** The next message, or none once the stream has ended. */
    method GetCopyData() returns (more: bool, message: seq<byte>)
      modifies this
      ensures more == (old(messages) != [])
      ensures more ==> message == old(messages)[0] && messages == old(messages)[1..]
      ensures !more ==> messages == []
    {
      more, message := messages != [], [];
      if more { message, messages := messages[0], messages[1..]; }
    }
  }

  class TupleReader {
    const types: seq<FieldType>
    const conn: Connection
    var hasResult: bool

    constructor (types: seq<FieldType>, conn: Connection)
      ensures this.types == types && this.conn == conn && hasResult
    {
      this.types := types;
      this.conn := conn;
      hasResult := true;
    }

    /** The first call drains the connection into one batch; every later call reports the
        end of the stream (no batch, success) without touching the connection.  `finishOk`
        is whether the array can be finished. */
    method GetNext(finishOk: bool) returns (code: Code, batch: Batch?)
      modifies this`hasResult, conn
      ensures !hasResult
      ensures batch != null ==> fresh(batch) && batch.types == types
      ensures !old(hasResult) ==> code == SUCCESS && batch == null && conn.messages == old(conn.messages)
      ensures old(hasResult) ==>
                var r := GetNextSpec(types, old(conn.messages), finishOk, conn.commandOk);
                && code == r.code
                && (code == SUCCESS ==> batch != null && batch.count == r.count && batch.columns == r.columns)
    {
      hide AppendSpec, ParseHeader;
      if !hasResult { return SUCCESS, null; }
      hasResult := false;
      ghost var messages := conn.messages;
      var out := new Batch(types);
      batch := out;

      var more, buf := conn.GetCopyData();
      if !more { return FAULT, batch; }
      var header := ParseHeader(buf);
      if header.BadHeader? { return EIO, batch; }
      var pos := header.pos;

      ghost var first := AppendSpec(types, buf, pos, 0, EmptyColumns(types));
      code := out.AppendNext(buf, pos);
      while code == SUCCESS && more
        invariant !hasResult
        invariant !more ==> conn.messages == [] && code == SUCCESS
        invariant code == SUCCESS ==>
                    && out.Valid()
                    && Drained(types, first, messages) == AppendMessages(types, conn.messages, out.count, out.columns)
        invariant code != SUCCESS ==> Drained(types, first, messages).code == code
        decreases |conn.messages|, more
      {
        more, buf := conn.GetCopyData();
        if more { code := out.AppendNext(buf, 0); }
      }
      if code == FAULT { return; }
      if !finishOk { code := UNFINISHED; }
      if !conn.commandOk { code := EIO; }
    }
  }

  /** What the loop over the messages yields, given the first tuple's outcome. */
  ghost function Drained(types: seq<FieldType>, first: Rows, messages: seq<seq<byte>>): Rows
    requires messages != [] && (first.code == SUCCESS ==> AllSized(types, first.columns, first.count))
  {
    if first.code != SUCCESS then first else AppendMessages(types, messages[1..], first.count, first.columns)
  }
}
