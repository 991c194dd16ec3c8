/** Whole tuples and whole COPY streams: the decoder undoes the server's encoding. */
module PgTuple {
  import opened Bytes
  import opened PgCopy

  datatype FieldsResult = FieldsFault | FieldsInvalid | FieldsDone(next: int, columns: seq<Column>)

  predicate AllSized(types: seq<FieldType>, columns: seq<Column>, row: nat) {
    |columns| == |types| && forall c | 0 <= c < |types| :: Sized(types[c], columns[c], row)
  }

  /** The loop of AppendNext over the first k columns, starting at cursor p. */
  function DecodeFields(
      types: seq<FieldType>, buf: seq<byte>, p: int, row: nat, columns: seq<Column>, k: nat): (r: FieldsResult)
    requires k <= |types| && AllSized(types, columns, row)
    ensures r.FieldsDone? ==>
              && |r.columns| == |types|
              && (forall c | 0 <= c < k :: Sized(types[c], r.columns[c], row + 1))
              && (forall c | k <= c < |types| :: r.columns[c] == columns[c])
  {
    if k == 0 then FieldsDone(p, columns)
    else
      match DecodeFields(types, buf, p, row, columns, k - 1)
      case FieldsFault => FieldsFault
      case FieldsInvalid => FieldsInvalid
      case FieldsDone(q, cs) =>
        match DecodeField(types[k - 1], buf, q, row, cs[k - 1])
        case Fault => FieldsFault
        case Invalid => FieldsInvalid
        case Done(next, column) => FieldsDone(next, cs[k - 1 := column])
  }

  /** errno-style results; UNFINISHED is whatever finishing the array reports, FAULT a read
      outside the message. */
  datatype Code = SUCCESS | EIO | EINVAL | UNFINISHED | FAULT

  datatype Rows = Rows(code: Code, count: nat, columns: seq<Column>)

  /** AppendNext on the message `buf` at cursor p. */
  function AppendSpec(types: seq<FieldType>, buf: seq<byte>, p: nat, row: nat, columns: seq<Column>): (r: Rows)
    requires AllSized(types, columns, row)
    ensures r.code == SUCCESS ==> AllSized(types, r.columns, r.count)
  {
    if p + 2 > |buf| then Rows(FAULT, row, columns)
    else
      var count := Signed(0x1_0000, FromBE(buf[p..p + 2]));
      if count == -1 then Rows(SUCCESS, row, columns)
      else if count != |types| then Rows(EIO, row, columns)
      else
        match DecodeFields(types, buf, p + 2, row, columns, |types|)
        case FieldsFault => Rows(FAULT, row, columns)
        case FieldsInvalid => Rows(EINVAL, row, columns)
        case FieldsDone(_, cs) => Rows(SUCCESS, row + 1, cs)
  }

  /** The messages after the first, one AppendNext each. */
  function AppendMessages(types: seq<FieldType>, messages: seq<seq<byte>>, row: nat, columns: seq<Column>): (r: Rows)
    requires AllSized(types, columns, row)
    decreases |messages|
  {
    if messages == [] then Rows(SUCCESS, row, columns)
    else
      var r := AppendSpec(types, messages[0], 0, row, columns);
      if r.code != SUCCESS then r else AppendMessages(types, messages[1..], r.count, r.columns)
  }

  function EmptyColumns(types: seq<FieldType>): (cs: seq<Column>)
    ensures AllSized(types, cs, 0)
  {
    seq(|types|, c requires 0 <= c < |types| => EmptyColumn(types[c]))
  }

  const HEADER_LENGTH: nat := 19

  /** Where the first tuple starts in the first message, if its header is acceptable. */
  datatype HeaderResult = BadHeader | TupleAt(pos: nat)

  function ParseHeader(buf: seq<byte>): HeaderResult {
    if |buf| < HEADER_LENGTH || buf[..11] != SIGNATURE || FromBE(buf[11..15]) != 0 then BadHeader
    else TupleAt(HEADER_LENGTH + FromBE(buf[15..19]))
  }

  /** TupleReader::GetNext on the messages of the connection.  The connection delivers at
      least one message after a successful COPY; a missing one would be read through a
      null pointer. */
  function GetNextSpec(types: seq<FieldType>, messages: seq<seq<byte>>, finishOk: bool, commandOk: bool): Rows {
    var empty := EmptyColumns(types);
    if messages == [] then Rows(FAULT, 0, empty)
    else match ParseHeader(messages[0])
      case BadHeader => Rows(EIO, 0, empty)
      case TupleAt(pos) =>
        var first := AppendSpec(types, messages[0], pos, 0, empty);
        var all := if first.code != SUCCESS then first
                   else AppendMessages(types, messages[1..], first.count, first.columns);
        if all.code == FAULT then all
        else if !commandOk then all.(code := EIO)
        else if !finishOk then all.(code := UNFINISHED)
        else all
  }

  // ---------------------------------------------------------------------
  // One tuple
  // ---------------------------------------------------------------------

  /** Column c of a list of tuples. */
  function ColumnOf(tuples: seq<Tuple>, c: nat): (vs: seq<Field>)
    requires forall r | 0 <= r < |tuples| :: c < |tuples[r]|
    ensures |vs| == |tuples|
  {
    seq(|tuples|, r requires 0 <= r < |tuples| => tuples[r][c])
  }

  predicate AllTuples(types: seq<FieldType>, tuples: seq<Tuple>) {
    forall r | 0 <= r < |tuples| :: IsTuple(types, tuples[r])
  }

  /** The columns hold exactly these tuples. */
  ghost predicate Hold(types: seq<FieldType>, columns: seq<Column>, tuples: seq<Tuple>) {
    && |columns| == |types| && AllTuples(types, tuples)
    && forall c | 0 <= c < |types| :: Holds(types[c], columns[c], ColumnOf(tuples, c))
  }

  /** Tuples the decoder handles: nulls and int2 values put the cursor out of step, so
      they are harmless only in the last column, and only where the value itself is
      stored correctly. */
  predicate Decodable(types: seq<FieldType>, tuple: Tuple) {
    && IsTuple(types, tuple) && |types| < 0x8000
    && forall c | 0 <= c < |types| ::
         InStep(types[c], tuple[c]) || (c == |types| - 1 && GoodLast(types[c], tuple[c]))
  }

  lemma SliceOfPrefix(whole: seq<byte>, a: seq<byte>, b: seq<byte>)
    requires a + b <= whole
    ensures |a| + |b| <= |whole| && whole[|a|..|a| + |b|] == b
  {
    assert whole[..|a| + |b|] == a + b;
    assert whole[|a|..|a| + |b|] == whole[..|a| + |b|][|a|..];
  }

  lemma SliceOfSlice(buf: seq<byte>, p: nat, whole: seq<byte>, i: nat, j: nat)
    requires p + |whole| <= |buf| && buf[p..p + |whole|] == whole && i <= j <= |whole|
    ensures buf[p + i..p + j] == whole[i..j]
  {
    forall m | 0 <= m < j - i ensures buf[p + i..p + j][m] == whole[i..j][m] {
      assert buf[p..p + |whole|][i + m] == whole[i + m];
    }
  }

  lemma {:induction false} OneMoreField(tuple: Tuple, k: nat)
    requires k < |tuple|
    ensures EncodeFields(tuple[..k + 1]) == EncodeFields(tuple[..k]) + EncodeField(tuple[k])
    ensures Boundary(tuple, k + 1) == Boundary(tuple, k) + |EncodeField(tuple[k])|
  {
    assert tuple[..k + 1][..k] == tuple[..k];
  }

  lemma {:induction false} FieldsGrow(tuple: Tuple, k: nat)
    requires k <= |tuple|
    ensures EncodeFields(tuple[..k]) <= EncodeFields(tuple)
    decreases |tuple| - k
  {
    if k == |tuple| { assert tuple[..k] == tuple; }
    else {
      FieldsGrow(tuple, k + 1);
      assert tuple[..k + 1][..k] == tuple[..k];
    }
  }

  /** Where field k starts in the server's encoding, counted from the first field. */
  function Boundary(tuple: Tuple, k: nat): nat
    requires k <= |tuple|
  {
    |EncodeFields(tuple[..k])|
  }

  lemma StartBoundary(tuple: Tuple)
    ensures Boundary(tuple, 0) == 0
  {
  }

  lemma {:induction false} FieldAt(buf: seq<byte>, p: nat, tuple: Tuple, k: nat)
    requires BytesHere(buf, p, EncodeFields(tuple)) && k < |tuple|
    ensures FieldHere(buf, p + Boundary(tuple, k), tuple[k])
  {
    var all, head, field := EncodeFields(tuple), EncodeFields(tuple[..k]), EncodeField(tuple[k]);
    assert head + field <= all by {
      OneMoreField(tuple, k);
      FieldsGrow(tuple, k + 1);
    }
    PieceAt(buf, p, all, head, field);
  }

  lemma PieceAt(buf: seq<byte>, p: nat, whole: seq<byte>, head: seq<byte>, piece: seq<byte>)
    requires BytesHere(buf, p, whole) && head + piece <= whole
    ensures BytesHere(buf, p + |head|, piece)
  {
    SliceOfPrefix(whole, head, piece);
    SliceOfSlice(buf, p, whole, |head|, |head| + |piece|);
  }

  /** The first k columns have taken the tuple's fields, the others are untouched. */
  ghost predicate HoldUpTo(
      types: seq<FieldType>, before: seq<Column>, after: seq<Column>, tuples: seq<Tuple>, tuple: Tuple, k: nat)
    requires AllTuples(types, tuples) && IsTuple(types, tuple) && k <= |types|
  {
    && |before| == |after| == |types|
    && (forall c | 0 <= c < k :: Holds(types[c], after[c], ColumnOf(tuples, c) + [tuple[c]]))
    && (forall c | k <= c < |types| :: after[c] == before[c])
  }

  /** One more column, in isolation from the bytes. */
  lemma {:induction false} OneMoreColumn(
    types: seq<FieldType>, buf: seq<byte>, p: nat, columns: seq<Column>, tuples: seq<Tuple>, tuple: Tuple, k: nat,
        column: Column, next: int)
    requires AllTuples(types, tuples) && AllSized(types, columns, |tuples|) && IsTuple(types, tuple) && k < |types|
    requires var r := DecodeFields(types, buf, p, |tuples|, columns, k);
             && r.FieldsDone? && HoldUpTo(types, columns, r.columns, tuples, tuple, k)
             && DecodeField(types[k], buf, r.next, |tuples|, columns[k]) == Done(next, column)
    requires Holds(types[k], column, ColumnOf(tuples, k) + [tuple[k]])
    ensures var r := DecodeFields(types, buf, p, |tuples|, columns, k + 1);
            r.FieldsDone? && r.next == next && HoldUpTo(types, columns, r.columns, tuples, tuple, k + 1)
  {
    var cs := DecodeFields(types, buf, p, |tuples|, columns, k).columns;
    assert DecodeFields(types, buf, p, |tuples|, columns, k + 1) == FieldsDone(next, cs[k := column]);
  }

  lemma {:induction false} FieldsInStep(
    types: seq<FieldType>, buf: seq<byte>, p: nat, columns: seq<Column>, tuples: seq<Tuple>, tuple: Tuple, k: nat)
    requires Hold(types, columns, tuples) && AllSized(types, columns, |tuples|) && IsTuple(types, tuple) && k <= |types|
    requires BytesHere(buf, p, EncodeFields(tuple))
    requires forall c | 0 <= c < k :: InStep(types[c], tuple[c])
    ensures var r := DecodeFields(types, buf, p, |tuples|, columns, k);
            && r.FieldsDone? && r.next == p + Boundary(tuple, k)
            && HoldUpTo(types, columns, r.columns, tuples, tuple, k)
  {
    hide DecodeField, Holds, Sized, HasType, BytesHere, EncodeFields, EncodeField;
    if k == 0 {
      StartBoundary(tuple);
    } else {
      FieldsInStep(types, buf, p, columns, tuples, tuple, k - 1);
      var next, column := FieldTaken(types, buf, p, columns, tuples, tuple, k - 1);
      OneMoreColumn(types, buf, p, columns, tuples, tuple, k - 1, column, next);
    }
  }

  /** Decoding the field at its boundary. */
  lemma {:induction false} FieldTaken(
    types: seq<FieldType>, buf: seq<byte>, p: nat, columns: seq<Column>, tuples: seq<Tuple>, tuple: Tuple, k: nat)
    returns (next: int, column: Column)
    requires Hold(types, columns, tuples) && IsTuple(types, tuple) && k < |types|
    requires BytesHere(buf, p, EncodeFields(tuple))
    requires InStep(types[k], tuple[k]) || GoodLast(types[k], tuple[k])
    ensures Sized(types[k], columns[k], |tuples|)
    ensures DecodeField(types[k], buf, p + Boundary(tuple, k), |tuples|, columns[k]) == Done(next, column)
    ensures Holds(types[k], column, ColumnOf(tuples, k) + [tuple[k]])
    ensures InStep(types[k], tuple[k]) ==> next == p + Boundary(tuple, k + 1)
  {
    hide BytesHere, EncodeFields, EncodeField;
    var q := p + Boundary(tuple, k);
    FieldAt(buf, p, tuple, k);
    OneMoreField(tuple, k);
    FieldStored(types[k], buf, q, columns[k], ColumnOf(tuples, k), tuple[k]);
    InStepExactly(types[k], buf, q, |tuples|, columns[k], tuple[k]);
    var r := DecodeField(types[k], buf, q, |tuples|, columns[k]);
    next, column := r.next, r.column;
  }

  /** All fields of a decodable tuple reach their columns. */
  lemma {:induction false} FieldsDecoded(
    types: seq<FieldType>, buf: seq<byte>, p: nat, columns: seq<Column>, tuples: seq<Tuple>, tuple: Tuple)
    requires Hold(types, columns, tuples) && AllSized(types, columns, |tuples|) && Decodable(types, tuple)
    requires BytesHere(buf, p, EncodeFields(tuple))
    ensures var r := DecodeFields(types, buf, p, |tuples|, columns, |types|);
            r.FieldsDone? && HoldUpTo(types, columns, r.columns, tuples, tuple, |types|)
  {
    hide DecodeField, Holds, Sized, HasType, BytesHere, EncodeFields, EncodeField;
    var n := |types|;
    if n > 0 {
      FieldsInStep(types, buf, p, columns, tuples, tuple, n - 1);
      var next, column := FieldTaken(types, buf, p, columns, tuples, tuple, n - 1);
      OneMoreColumn(types, buf, p, columns, tuples, tuple, n - 1, column, next);
    }
  }

  /** The decoder's cursor agrees with the server's field boundaries at every column
      exactly when no field is null and no column is int2. */
  lemma {:induction false} StaysInStepExactly(
    types: seq<FieldType>, buf: seq<byte>, p: nat, columns: seq<Column>, tuples: seq<Tuple>, tuple: Tuple)
    requires Hold(types, columns, tuples) && AllSized(types, columns, |tuples|) && IsTuple(types, tuple)
    requires BytesHere(buf, p, EncodeFields(tuple))
    ensures (forall k | 0 <= k <= |types| ::
               var r := DecodeFields(types, buf, p, |tuples|, columns, k);
               r.FieldsDone? && r.next == p + Boundary(tuple, k))
            <==> (forall c | 0 <= c < |types| :: InStep(types[c], tuple[c]))
  {
    hide DecodeField, Holds, Sized, HasType, BytesHere, EncodeFields, EncodeField;
    if forall c | 0 <= c < |types| :: InStep(types[c], tuple[c]) {
      forall k | 0 <= k <= |types|
        ensures var r := DecodeFields(types, buf, p, |tuples|, columns, k);
                r.FieldsDone? && r.next == p + Boundary(tuple, k)
      {
        FieldsInStep(types, buf, p, columns, tuples, tuple, k);
      }
    } else {
      var bad :| 0 <= bad < |types| && !InStep(types[bad], tuple[bad]);
      var r, r' := DecodeFields(types, buf, p, |tuples|, columns, bad),
          DecodeFields(types, buf, p, |tuples|, columns, bad + 1);
      if r.FieldsDone? && r.next == p + Boundary(tuple, bad) {
        FieldAt(buf, p, tuple, bad);
        OneMoreField(tuple, bad);
        InStepExactly(types[bad], buf, p + Boundary(tuple, bad), |tuples|, columns[bad], tuple[bad]);
        assert !(r'.FieldsDone? && r'.next == p + Boundary(tuple, bad + 1));
      }
    }
  }

  lemma {:induction false} ColumnsExtend(
      types: seq<FieldType>, before: seq<Column>, after: seq<Column>, tuples: seq<Tuple>, tuple: Tuple)
    requires AllTuples(types, tuples) && IsTuple(types, tuple)
    requires HoldUpTo(types, before, after, tuples, tuple, |types|)
    ensures Hold(types, after, tuples + [tuple])
  {
    forall c | 0 <= c < |types| ensures Holds(types[c], after[c], ColumnOf(tuples + [tuple], c)) {
      assert ColumnOf(tuples + [tuple], c) == ColumnOf(tuples, c) + [tuple[c]];
    }
  }

  lemma {:induction false} CountRead(buf: seq<byte>, p: nat, n: nat)
    requires n < 0x1_0000 && BytesHere(buf, p, BE(2, n))
    ensures FromBE(buf[p..p + 2]) == n
  {
    Widths();
    BERoundTrip(2, n);
  }

  /** One AppendNext adds one decodable tuple. */
  lemma {:induction false} TupleAppended(
    types: seq<FieldType>, buf: seq<byte>, p: nat, columns: seq<Column>, tuples: seq<Tuple>, tuple: Tuple)
    requires Hold(types, columns, tuples) && AllSized(types, columns, |tuples|) && Decodable(types, tuple)
    requires BytesHere(buf, p, EncodeTuple(tuple))
    ensures var r := AppendSpec(types, buf, p, |tuples|, columns);
            r.code == SUCCESS && r.count == |tuples| + 1 && Hold(types, r.columns, tuples + [tuple])
  {
    var n := |types|;
    assert n % 0x1_0000 == n;
    SplitAt(buf, p, BE(2, n), EncodeFields(tuple));
    CountRead(buf, p, n);
    FieldsDecoded(types, buf, p + 2, columns, tuples, tuple);
    ColumnsExtend(types, columns, DecodeFields(types, buf, p + 2, |tuples|, columns, n).columns, tuples, tuple);
  }

  lemma {:induction false} TrailerAppended(
      types: seq<FieldType>, buf: seq<byte>, p: nat, row: nat, columns: seq<Column>)
    requires AllSized(types, columns, row) && BytesHere(buf, p, TRAILER)
    ensures AppendSpec(types, buf, p, row, columns) == Rows(SUCCESS, row, columns)
  {
    assert TRAILER[..1] == [255];
    assert FromBE([255]) == 256 * FromBE([255][..0]) + 255;
    assert FromBE(TRAILER) == 256 * FromBE(TRAILER[..1]) + 255;
  }

  // ---------------------------------------------------------------------
  // Which tuples are rebuilt
  // ---------------------------------------------------------------------

  /** Column c of a decoded tuple is what decoding its field at some cursor gave. */
  lemma {:induction false} ColumnFrom(
    types: seq<FieldType>, buf: seq<byte>, p: int, row: nat, columns: seq<Column>, c: nat, n: nat)
    requires c < n <= |types| && AllSized(types, columns, row)
    requires DecodeFields(types, buf, p, row, columns, n).FieldsDone?
    ensures var r := DecodeFields(types, buf, p, row, columns, c);
            && r.FieldsDone?
            && var f := DecodeField(types[c], buf, r.next, row, columns[c]);
               && f.Done?
               && DecodeFields(types, buf, p, row, columns, n).columns[c] == f.column
               && DecodeFields(types, buf, p, row, columns, c + 1).FieldsDone?
               && DecodeFields(types, buf, p, row, columns, c + 1).next == f.next
  {
    hide DecodeField, Sized;
    if c < n - 1 { ColumnFrom(types, buf, p, row, columns, c, n - 1); }
  }

  /** A tuple whose fields all reached their columns. */
  ghost predicate Rebuilt(
    types: seq<FieldType>, buf: seq<byte>, p: int, columns: seq<Column>, tuples: seq<Tuple>, tuple: Tuple)
  {
    && AllSized(types, columns, |tuples|)
    && var r := DecodeFields(types, buf, p, |tuples|, columns, |types|);
       r.FieldsDone? && Hold(types, r.columns, tuples + [tuple])
  }

  lemma {:induction false} FieldRebuilt(
    types: seq<FieldType>, buf: seq<byte>, p: int, columns: seq<Column>, tuples: seq<Tuple>, tuple: Tuple, c: nat)
    requires Rebuilt(types, buf, p, columns, tuples, tuple) && c < |types|
    ensures AllTuples(types, tuples) && IsTuple(types, tuple)
    ensures var r := DecodeFields(types, buf, p, |tuples|, columns, c);
            r.FieldsDone? && Stores(types[c], buf, r.next, columns[c], ColumnOf(tuples, c), tuple[c])
  {
    hide DecodeField, DecodeFields, Holds, Sized;
    BothTuples(types, tuples, tuple);
    ColumnFrom(types, buf, p, |tuples|, columns, c, |types|);
    assert ColumnOf(tuples + [tuple], c) == ColumnOf(tuples, c) + [tuple[c]];
  }

  lemma BothTuples(types: seq<FieldType>, tuples: seq<Tuple>, tuple: Tuple)
    requires AllTuples(types, tuples + [tuple])
    ensures AllTuples(types, tuples) && IsTuple(types, tuple)
  {
    hide IsTuple;
    var all := tuples + [tuple];
    assert all[|tuples|] == tuple && forall r | 0 <= r < |tuples| :: all[r] == tuples[r];
  }

  /** The columns held the tuples before this one already. */
  lemma {:induction false} HoldBefore(
    types: seq<FieldType>, buf: seq<byte>, p: int, columns: seq<Column>, tuples: seq<Tuple>, tuple: Tuple)
    requires Rebuilt(types, buf, p, columns, tuples, tuple)
    ensures Hold(types, columns, tuples) && IsTuple(types, tuple)
  {
    hide DecodeField, DecodeFields, Holds, Sized;
    BothTuples(types, tuples, tuple);
    forall c | 0 <= c < |types| ensures Holds(types[c], columns[c], ColumnOf(tuples, c)) {
      FieldRebuilt(types, buf, p, columns, tuples, tuple, c);
      var q := DecodeFields(types, buf, p, |tuples|, columns, c).next;
      HeldBefore(types[c], buf, q, columns[c], ColumnOf(tuples, c), tuple[c]);
    }
  }

  predicate AllInStep(types: seq<FieldType>, tuple: Tuple, k: nat)
    requires k <= |types| == |tuple|
  {
    forall c | 0 <= c < k :: InStep(types[c], tuple[c])
  }

  predicate NoNullBool(types: seq<FieldType>, tuple: Tuple, k: nat)
    requires k <= |types| == |tuple|
  {
    forall c | 0 <= c < k :: !NullBool(types[c], tuple[c])
  }

  /** While a tuple is rebuilt the cursor is never behind the server's boundaries, and on
      them exactly as long as every field is in step. */
  lemma {:induction false} NeverBehind(
    types: seq<FieldType>, buf: seq<byte>, p: nat, columns: seq<Column>, tuples: seq<Tuple>, tuple: Tuple, k: nat)
    requires Rebuilt(types, buf, p, columns, tuples, tuple) && IsTuple(types, tuple) && k <= |types|
    ensures var r := DecodeFields(types, buf, p, |tuples|, columns, k);
            && r.FieldsDone? && r.next >= p + Boundary(tuple, k)
            && (r.next == p + Boundary(tuple, k) <==> AllInStep(types, tuple, k))
            && (AllInStep(types, tuple, k) || !NoNullBool(types, tuple, k) || r.next >= p + Boundary(tuple, k) + 2)
  {
    hide DecodeField, Holds, Sized, EncodeFields, EncodeField;
    if k == 0 {
      StartBoundary(tuple);
    } else {
      NeverBehind(types, buf, p, columns, tuples, tuple, k - 1);
      FieldRebuilt(types, buf, p, columns, tuples, tuple, k - 1);
      ColumnFrom(types, buf, p, |tuples|, columns, k - 1, |types|);
      OneMoreField(tuple, k - 1);
      var q := DecodeFields(types, buf, p, |tuples|, columns, k - 1).next;
      StoredAdvances(types[k - 1], buf, q, columns[k - 1], ColumnOf(tuples, k - 1), tuple[k - 1]);
    }
  }

  /** A rebuilt tuple that ends its message is decodable: a cursor ahead of the boundaries
      would make the last field read past the end. */
  lemma {:induction false} RebuiltIsDecodable(
    types: seq<FieldType>, buf: seq<byte>, p: nat, columns: seq<Column>, tuples: seq<Tuple>, tuple: Tuple)
    requires Rebuilt(types, buf, p, columns, tuples, tuple) && |types| < 0x8000
    requires BytesHere(buf, p, EncodeFields(tuple)) && p + |EncodeFields(tuple)| == |buf|
    ensures Decodable(types, tuple)
  {
    hide DecodeField, DecodeFields, Holds, Sized, EncodeFields, EncodeField, BytesHere;
    HoldBefore(types, buf, p, columns, tuples, tuple);
    var n := |types|;
    if n > 0 {
      var m, v := n - 1, tuple[n - 1];
      NeverBehind(types, buf, p, columns, tuples, tuple, m);
      FieldRebuilt(types, buf, p, columns, tuples, tuple, m);
      var q := DecodeFields(types, buf, p, |tuples|, columns, m).next;
      StoredAdvances(types[m], buf, q, columns[m], ColumnOf(tuples, m), v);
      OneMoreField(tuple, m);
      assert tuple[..n] == tuple;
      FieldAt(buf, p, tuple, m);
      LastFieldExactly(types[m], buf, q, columns[m], ColumnOf(tuples, m), v);
    }
  }

  /** One message, one tuple: AppendNext adds exactly that tuple, without a read outside the
      message, if and only if the tuple is decodable. */
  lemma {:induction false} TupleExactly(
    types: seq<FieldType>, buf: seq<byte>, p: nat, columns: seq<Column>, tuples: seq<Tuple>, tuple: Tuple)
    requires Hold(types, columns, tuples) && AllSized(types, columns, |tuples|)
    requires IsTuple(types, tuple) && |types| < 0x8000
    requires BytesHere(buf, p, EncodeTuple(tuple)) && p + |EncodeTuple(tuple)| == |buf|
    ensures (var r := AppendSpec(types, buf, p, |tuples|, columns);
             r.code == SUCCESS && Hold(types, r.columns, tuples + [tuple]))
            <==> Decodable(types, tuple)
  {
    hide DecodeFields, Hold, AllSized, Decodable, EncodeFields;
    if Decodable(types, tuple) { TupleAppended(types, buf, p, columns, tuples, tuple); }
    else {
      var r := AppendSpec(types, buf, p, |tuples|, columns);
      CountOfTuple(types, buf, p, tuple);
      if r.code == SUCCESS && Hold(types, r.columns, tuples + [tuple]) {
        RebuiltIsDecodable(types, buf, p + 2, columns, tuples, tuple);
      }
    }
  }

  /** Where the decoder looks for field k, if it has stored the fields before it. */
  function CursorAt(types: seq<FieldType>, tuple: Tuple, p: nat, k: nat): nat
    requires k <= |types| == |tuple|
  {
    if k == 0 then p else CursorAt(types, tuple, p, k - 1) + Stride(types[k - 1], tuple[k - 1])
  }

  ghost predicate SeesUpTo(types: seq<FieldType>, buf: seq<byte>, p: nat, tuple: Tuple, k: nat)
    requires k <= |types| && IsTuple(types, tuple)
  {
    forall c | 0 <= c < k :: Sees(types[c], buf, CursorAt(types, tuple, p, c), tuple[c])
  }

  /** One field more. */
  lemma SeesOneMore(types: seq<FieldType>, buf: seq<byte>, p: nat, tuple: Tuple, k: nat)
    requires k < |types| && IsTuple(types, tuple)
    ensures SeesUpTo(types, buf, p, tuple, k + 1)
       <==> SeesUpTo(types, buf, p, tuple, k) && Sees(types[k], buf, CursorAt(types, tuple, p, k), tuple[k])
    ensures CursorAt(types, tuple, p, k + 1) == CursorAt(types, tuple, p, k) + Stride(types[k], tuple[k])
  {
    hide Sees, Stride, HasType;
  }

  lemma NoFields(types: seq<FieldType>, buf: seq<byte>, p: nat, row: nat, columns: seq<Column>, tuple: Tuple)
    requires AllSized(types, columns, row) && IsTuple(types, tuple)
    ensures DecodeFields(types, buf, p, row, columns, 0) == FieldsDone(CursorAt(types, tuple, p, 0), columns)
    ensures SeesUpTo(types, buf, p, tuple, 0)
  {
  }

  lemma {:induction false} FieldWhileRebuilt(
    types: seq<FieldType>, buf: seq<byte>, p: nat, columns: seq<Column>, tuples: seq<Tuple>, tuple: Tuple, k: nat,
        q: nat)
    requires Rebuilt(types, buf, p, columns, tuples, tuple) && IsTuple(types, tuple) && k < |types|
    requires var r := DecodeFields(types, buf, p, |tuples|, columns, k); r.FieldsDone? ==> r.next == q
    ensures Sees(types[k], buf, q, tuple[k])
    ensures var r := DecodeFields(types, buf, p, |tuples|, columns, k + 1);
            r.FieldsDone? && r.next == q + Stride(types[k], tuple[k])
  {
    hide DecodeField, DecodeFields, Holds, Sized, Sees, Stride, HasType;
    HoldBefore(types, buf, p, columns, tuples, tuple);
    FieldRebuilt(types, buf, p, columns, tuples, tuple, k);
    ColumnFrom(types, buf, p, |tuples|, columns, k, |types|);
    StoresExactly(types[k], buf, q, columns[k], ColumnOf(tuples, k), tuple[k]);
  }

  lemma {:induction false} CursorWhileRebuilt(
    types: seq<FieldType>, buf: seq<byte>, p: nat, columns: seq<Column>, tuples: seq<Tuple>, tuple: Tuple, k: nat)
    requires Rebuilt(types, buf, p, columns, tuples, tuple) && IsTuple(types, tuple) && k <= |types|
    ensures var r := DecodeFields(types, buf, p, |tuples|, columns, k);
            r.FieldsDone? && r.next == CursorAt(types, tuple, p, k)
    ensures SeesUpTo(types, buf, p, tuple, k)
  {
    hide DecodeField, DecodeFields, Hold, AllSized, Sees, Stride, HasType, SeesUpTo, CursorAt;
    if k == 0 { NoFields(types, buf, p, |tuples|, columns, tuple); } else {
      SeesOneMore(types, buf, p, tuple, k - 1);
      CursorWhileRebuilt(types, buf, p, columns, tuples, tuple, k - 1);
      FieldWhileRebuilt(types, buf, p, columns, tuples, tuple, k - 1, CursorAt(types, tuple, p, k - 1));
    }
  }

  lemma {:induction false} SeenFieldTaken(
    types: seq<FieldType>, buf: seq<byte>, q: nat, columns: seq<Column>, tuples: seq<Tuple>, tuple: Tuple, k: nat)
    returns (column: Column)
    requires Hold(types, columns, tuples) && IsTuple(types, tuple) && k < |types|
    requires Sees(types[k], buf, q, tuple[k])
    ensures Sized(types[k], columns[k], |tuples|)
    ensures DecodeField(types[k], buf, q, |tuples|, columns[k]) == Done(q + Stride(types[k], tuple[k]), column)
    ensures Holds(types[k], column, ColumnOf(tuples, k) + [tuple[k]])
  {
    hide DecodeField, Holds, Sees, Stride, HasType;
    StoresExactly(types[k], buf, q, columns[k], ColumnOf(tuples, k), tuple[k]);
    column := DecodeField(types[k], buf, q, |tuples|, columns[k]).column;
  }

  lemma {:induction false} SeenFieldsHeld(
    types: seq<FieldType>, buf: seq<byte>, p: nat, columns: seq<Column>, tuples: seq<Tuple>, tuple: Tuple, k: nat)
    requires Hold(types, columns, tuples) && AllSized(types, columns, |tuples|) && IsTuple(types, tuple)
    requires k <= |types| && SeesUpTo(types, buf, p, tuple, k)
    ensures var r := DecodeFields(types, buf, p, |tuples|, columns, k);
            && r.FieldsDone? && r.next == CursorAt(types, tuple, p, k)
            && HoldUpTo(types, columns, r.columns, tuples, tuple, k)
  {
    hide DecodeField, DecodeFields, Holds, Sized, Sees, Stride, HasType, SeesUpTo, CursorAt;
    if k == 0 { NoFields(types, buf, p, |tuples|, columns, tuple); } else {
      SeesOneMore(types, buf, p, tuple, k - 1);
      SeenFieldsHeld(types, buf, p, columns, tuples, tuple, k - 1);
      var q := CursorAt(types, tuple, p, k - 1);
      var column := SeenFieldTaken(types, buf, q, columns, tuples, tuple, k - 1);
      OneMoreColumn(types, buf, p, columns, tuples, tuple, k - 1, column, q + Stride(types[k - 1], tuple[k - 1]));
    }
  }

  /** In any buffer whatsoever, a tuple is added exactly when the bytes at the decoder's own
      cursor pass for each of its fields. */
  lemma {:induction false} RebuiltExactly(
    types: seq<FieldType>, buf: seq<byte>, p: nat, columns: seq<Column>, tuples: seq<Tuple>, tuple: Tuple)
    requires Hold(types, columns, tuples) && AllSized(types, columns, |tuples|) && IsTuple(types, tuple)
    ensures Rebuilt(types, buf, p, columns, tuples, tuple) <==> SeesUpTo(types, buf, p, tuple, |types|)
  {
    hide DecodeField, DecodeFields, Holds, Sized, Sees, Stride, SeesUpTo;
    var n := |types|;
    if Rebuilt(types, buf, p, columns, tuples, tuple) { CursorWhileRebuilt(types, buf, p, columns, tuples, tuple, n); }
    if SeesUpTo(types, buf, p, tuple, n) {
      SeenFieldsHeld(types, buf, p, columns, tuples, tuple, n);
      ColumnsExtend(types, columns, DecodeFields(types, buf, p, |tuples|, columns, n).columns, tuples, tuple);
    }
  }

  /** Decodable where a terminator follows the message: the last field may be a null bool. */
  predicate DecodableTerminated(types: seq<FieldType>, tuple: Tuple) {
    && IsTuple(types, tuple) && |types| < 0x8000
    && forall c | 0 <= c < |types| ::
         || InStep(types[c], tuple[c])
         || (c == |types| - 1 && (GoodLast(types[c], tuple[c]) || NullBool(types[c], tuple[c])))
  }

  lemma {:induction false} RebuiltTerminated(
    types: seq<FieldType>, buf: seq<byte>, p: nat, columns: seq<Column>, tuples: seq<Tuple>, tuple: Tuple)
    requires Rebuilt(types, buf, p, columns, tuples, tuple) && |types| < 0x8000
    requires BytesHere(buf, p, EncodeFields(tuple)) && EndsTerminated(buf, p + |EncodeFields(tuple)|)
    requires |tuple| == |types| && NoNullBool(types, tuple, if types == [] then 0 else |types| - 1)
    ensures DecodableTerminated(types, tuple)
  {
    hide DecodeField, DecodeFields, Holds, Sized, EncodeFields, EncodeField, BytesHere;
    HoldBefore(types, buf, p, columns, tuples, tuple);
    var n := |types|;
    if n > 0 {
      var m, v := n - 1, tuple[n - 1];
      NeverBehind(types, buf, p, columns, tuples, tuple, m);
      FieldRebuilt(types, buf, p, columns, tuples, tuple, m);
      var q := DecodeFields(types, buf, p, |tuples|, columns, m).next;
      StoredAdvances(types[m], buf, q, columns[m], ColumnOf(tuples, m), v);
      OneMoreField(tuple, m);
      assert tuple[..n] == tuple;
      FieldAt(buf, p, tuple, m);
      LastFieldTerminated(types[m], buf, q, columns[m], ColumnOf(tuples, m), v);
    }
  }

  lemma {:induction false} TerminatedDecoded(
    types: seq<FieldType>, buf: seq<byte>, p: nat, columns: seq<Column>, tuples: seq<Tuple>, tuple: Tuple)
    requires Hold(types, columns, tuples) && AllSized(types, columns, |tuples|) && DecodableTerminated(types, tuple)
    requires BytesHere(buf, p, EncodeFields(tuple)) && EndsTerminated(buf, p + |EncodeFields(tuple)|)
    ensures Rebuilt(types, buf, p, columns, tuples, tuple)
  {
    hide DecodeField, Holds, Sized, HasType, BytesHere, EncodeFields, EncodeField;
    var n := |types|;
    if n > 0 {
      var m, v := n - 1, tuple[n - 1];
      FieldsInStep(types, buf, p, columns, tuples, tuple, m);
      FieldAt(buf, p, tuple, m);
      OneMoreField(tuple, m);
      assert tuple[..n] == tuple;
      var q := p + Boundary(tuple, m);
      LastFieldTerminated(types[m], buf, q, columns[m], ColumnOf(tuples, m), v);
      var r := DecodeField(types[m], buf, q, |tuples|, columns[m]);
      OneMoreColumn(types, buf, p, columns, tuples, tuple, m, r.column, r.next);
    }
    ColumnsExtend(types, columns, DecodeFields(types, buf, p, |tuples|, columns, n).columns, tuples, tuple);
  }

  /** On a message with its terminator, and a tuple with no null bool before the last column,
      AppendNext adds exactly that tuple if and only if it is decodable there. */
  lemma {:induction false} TerminatedTupleExactly(
    types: seq<FieldType>, buf: seq<byte>, p: nat, columns: seq<Column>, tuples: seq<Tuple>, tuple: Tuple)
    requires Hold(types, columns, tuples) && AllSized(types, columns, |tuples|)
    requires IsTuple(types, tuple) && |types| < 0x8000
    requires NoNullBool(types, tuple, if types == [] then 0 else |types| - 1)
    requires BytesHere(buf, p, EncodeTuple(tuple)) && EndsTerminated(buf, p + |EncodeTuple(tuple)|)
    ensures (var r := AppendSpec(types, buf, p, |tuples|, columns);
             r.code == SUCCESS && Hold(types, r.columns, tuples + [tuple]))
            <==> DecodableTerminated(types, tuple)
  {
    hide DecodeFields, Hold, AllSized, DecodableTerminated, EncodeFields, EncodeTuple, NoNullBool;
    CountOfTuple(types, buf, p, tuple);
    if DecodableTerminated(types, tuple) {
      TerminatedDecoded(types, buf, p + 2, columns, tuples, tuple);
    } else {
      var r := AppendSpec(types, buf, p, |tuples|, columns);
      if r.code == SUCCESS && Hold(types, r.columns, tuples + [tuple]) {
        RebuiltTerminated(types, buf, p + 2, columns, tuples, tuple);
      }
    }
  }

  lemma {:induction false} CountOfTuple(types: seq<FieldType>, buf: seq<byte>, p: nat, tuple: Tuple)
    requires |tuple| == |types| < 0x8000 && BytesHere(buf, p, EncodeTuple(tuple))
    ensures p + 2 <= |buf| && Signed(0x1_0000, FromBE(buf[p..p + 2])) == |types|
    ensures BytesHere(buf, p + 2, EncodeFields(tuple)) && |EncodeTuple(tuple)| == 2 + |EncodeFields(tuple)|
  {
    hide EncodeFields, BE;
    assert |tuple| % 0x1_0000 == |tuple|;
    SplitAt(buf, p, BE(2, |tuple|), EncodeFields(tuple));
    CountRead(buf, p, |tuple|);
  }

  // ---------------------------------------------------------------------
  // Whole streams
  // ---------------------------------------------------------------------

  /** The tuples, then the trailer. */
  function Items(tuples: seq<Tuple>): (items: seq<seq<byte>>)
    ensures |items| == |tuples| + 1
  {
    seq(|tuples|, r requires 0 <= r < |tuples| => EncodeTuple(tuples[r])) + [TRAILER]
  }

  /** The messages of the connection: the header travels with the first item, every other
      item is a message of its own. */
  function Frame(extension: seq<byte>, tuples: seq<Tuple>): (messages: seq<seq<byte>>)
    ensures |messages| == |tuples| + 1
  {
    [EncodeHeader(extension) + Items(tuples)[0]] + Items(tuples)[1..]
  }

  predicate AllDecodable(types: seq<FieldType>, tuples: seq<Tuple>) {
    forall r | 0 <= r < |tuples| :: Decodable(types, tuples[r])
  }

  /** Item k, standing at p, is appended to the k rows before it. */
  lemma {:induction false} ItemAppended(
      types: seq<FieldType>, buf: seq<byte>, p: nat, columns: seq<Column>, tuples: seq<Tuple>, k: nat)
    requires k <= |tuples| && AllDecodable(types, tuples) && Hold(types, columns, tuples[..k])
              && AllSized(types, columns, k)
    requires BytesHere(buf, p, Items(tuples)[k])
    ensures var r := AppendSpec(types, buf, p, k, columns);
            var done := if k < |tuples| then k + 1 else k;
            r.code == SUCCESS && r.count == done && AllSized(types, r.columns, done)
                && Hold(types, r.columns, tuples[..done])
  {
    hide Hold, AllSized, Decodable, DecodeFields, EncodeTuple;
    if k < |tuples| {
      TupleAppended(types, buf, p, columns, tuples[..k], tuples[k]);
      assert tuples[..k] + [tuples[k]] == tuples[..k + 1];
    } else {
      TrailerAppended(types, buf, p, k, columns);
    }
  }

  lemma {:induction false} ItemsAppended(types: seq<FieldType>, columns: seq<Column>, tuples: seq<Tuple>, k: nat)
    requires k <= |tuples| && AllDecodable(types, tuples) && Hold(types, columns, tuples[..k])
              && AllSized(types, columns, k)
    ensures var r := AppendMessages(types, Items(tuples)[k..], k, columns);
            r.code == SUCCESS && r.count == |tuples| && Hold(types, r.columns, tuples)
    decreases |tuples| - k
  {
    hide Hold, AllSized, Decodable, AppendSpec;
    var messages := Items(tuples)[k..];
    var item := messages[0];
    assert BytesHere(item, 0, item) by { assert item[0..|item|] == item; }
    ItemAppended(types, item, 0, columns, tuples, k);
    assert messages[1..] == Items(tuples)[k + 1..];
    if k < |tuples| {
      ItemsAppended(types, AppendSpec(types, item, 0, k, columns).columns, tuples, k + 1);
    } else {
      assert tuples[..k] == tuples;
    }
  }

  lemma {:induction false} HeaderParsed(extension: seq<byte>, rest: seq<byte>)
    requires |extension| < TWO_32
    ensures ParseHeader(EncodeHeader(extension) + rest) == TupleAt(|EncodeHeader(extension)|)
  {
    var buf := EncodeHeader(extension) + rest;
    assert buf[..11] == SIGNATURE;
    assert buf[11..15] == BE(4, 0) && buf[15..19] == BE(4, |extension|);
    Widths();
    BERoundTrip(4, 0);
    BERoundTrip(4, |extension|);
  }

  lemma {:induction false} FirstOffset()
    ensures Elements(4, LE(4, 0)) == [0]
  {
    Widths();
    AppendElement(4, [], 0);
    assert [] + LE(4, 0) == LE(4, 0);
  }

  lemma {:induction false} NothingHeldBy(t: FieldType)
    ensures Holds(t, EmptyColumn(t), [])
  {
    if t == BYTEA || t == TEXT {
      FirstOffset();
      assert BytesOf([]) == [];
    }
  }

  lemma {:induction false} NothingHeld(types: seq<FieldType>)
    ensures Hold(types, EmptyColumns(types), [])
  {
    hide Holds, EmptyColumn;
    forall c | 0 <= c < |types| ensures Holds(types[c], EmptyColumn(types[c]), ColumnOf([], c)) {
      NothingHeldBy(types[c]);
      assert ColumnOf([], c) == [];
    }
  }

  /** COPY decode undoes COPY encode, for any header extension; a command that fails on the
      server is reported all the same, and so is an array that cannot be finished. */
  lemma {:induction false} CopyRoundTrip(
      types: seq<FieldType>, extension: seq<byte>, tuples: seq<Tuple>, finishOk: bool, commandOk: bool)
    requires |extension| < TWO_32 && AllDecodable(types, tuples)
    ensures var r := GetNextSpec(types, Frame(extension, tuples), finishOk, commandOk);
            && (r.code == SUCCESS <==> finishOk && commandOk)
            && (r.code == EIO <==> !commandOk) && (r.code == UNFINISHED <==> commandOk && !finishOk)
            && r.count == |tuples| && Hold(types, r.columns, tuples)
  {
    hide Hold, AllSized, Decodable, AppendSpec, EncodeHeader, ParseHeader;
    var messages, header, item := Frame(extension, tuples), EncodeHeader(extension), Items(tuples)[0];
    HeaderParsed(extension, item);
    NothingHeld(types);
    assert tuples[..0] == [];
    assert BytesHere(header + item, |header|, item) by { assert (header + item)[|header|..|header| + |item|] == item; }
    ItemAppended(types, header + item, |header|, EmptyColumns(types), tuples, 0);
    assert messages[1..] == Items(tuples)[1..];
    if |tuples| > 0 {
      ItemsAppended(types, AppendSpec(types, header + item, |header|, 0, EmptyColumns(types)).columns, tuples, 1);
    } else {
      assert tuples == [];
    }
  }

  /** Item k was appended rightly only if its tuple is decodable and the columns were right
      before it. */
  lemma {:induction false} ItemRebuilt(
    types: seq<FieldType>, buf: seq<byte>, p: nat, columns: seq<Column>, tuples: seq<Tuple>, k: nat)
    requires k < |tuples| && IsTuple(types, tuples[k]) && |types| < 0x8000 && AllSized(types, columns, k)
    requires BytesHere(buf, p, EncodeTuple(tuples[k])) && p + |EncodeTuple(tuples[k])| == |buf|
    requires AppendSpec(types, buf, p, k, columns).code == SUCCESS
    ensures AppendSpec(types, buf, p, k, columns).count == k + 1
    ensures Hold(types, AppendSpec(types, buf, p, k, columns).columns, tuples[..k + 1]) ==>
              Hold(types, columns, tuples[..k]) && Decodable(types, tuples[k])
  {
    hide DecodeFields, Hold, AllSized, Decodable, EncodeFields, EncodeTuple;
    CountOfTuple(types, buf, p, tuples[k]);
    assert tuples[..k + 1] == tuples[..k] + [tuples[k]];
    if Hold(types, AppendSpec(types, buf, p, k, columns).columns, tuples[..k + 1]) {
      HoldBefore(types, buf, p + 2, columns, tuples[..k], tuples[k]);
      RebuiltIsDecodable(types, buf, p + 2, columns, tuples[..k], tuples[k]);
    }
  }

  ghost predicate DecodableFrom(types: seq<FieldType>, tuples: seq<Tuple>, k: nat) {
    forall r | k <= r < |tuples| :: Decodable(types, tuples[r])
  }

  lemma {:induction false} ItemsRebuilt(types: seq<FieldType>, columns: seq<Column>, tuples: seq<Tuple>, k: nat)
    requires k <= |tuples| && AllTuples(types, tuples) && |types| < 0x8000 && AllSized(types, columns, k)
    requires var r := AppendMessages(types, Items(tuples)[k..], k, columns);
             r.code == SUCCESS && Hold(types, r.columns, tuples)
    ensures Hold(types, columns, tuples[..k]) && DecodableFrom(types, tuples, k)
    decreases |tuples| - k
  {
    hide Hold, AllSized, Decodable, AppendSpec, EncodeTuple;
    var messages := Items(tuples)[k..];
    var item := messages[0];
    assert BytesHere(item, 0, item) by { assert item[0..|item|] == item; }
    assert messages[1..] == Items(tuples)[k + 1..];
    if k < |tuples| {
      ItemRebuilt(types, item, 0, columns, tuples, k);
      ItemsRebuilt(types, AppendSpec(types, item, 0, k, columns).columns, tuples, k + 1);
    } else {
      TrailerAppended(types, item, 0, k, columns);
      assert tuples[..k] == tuples;
    }
  }

  /** COPY decode undoes COPY encode, without a read outside a message, if and only if every
      tuple is decodable. */
  lemma {:induction false} CopyExactly(types: seq<FieldType>, extension: seq<byte>, tuples: seq<Tuple>)
    requires |extension| < TWO_32 && AllTuples(types, tuples) && |types| < 0x8000
    ensures (var r := GetNextSpec(types, Frame(extension, tuples), true, true);
             r.code == SUCCESS && r.count == |tuples| && Hold(types, r.columns, tuples))
            <==> AllDecodable(types, tuples)
  {
    hide Hold, AllSized, Decodable, AppendSpec, EncodeHeader, ParseHeader, EncodeTuple;
    var r := GetNextSpec(types, Frame(extension, tuples), true, true);
    if AllDecodable(types, tuples) { CopyRoundTrip(types, extension, tuples, true, true); }
    else if r.code == SUCCESS && Hold(types, r.columns, tuples) {
      var messages, header, item := Frame(extension, tuples), EncodeHeader(extension), Items(tuples)[0];
      var buf, p, empty := header + item, |header|, EmptyColumns(types);
      HeaderParsed(extension, item);
      assert BytesHere(buf, p, item) by { assert buf[p..p + |item|] == item; }
      assert messages[1..] == Items(tuples)[1..];
      ItemRebuilt(types, buf, p, empty, tuples, 0);
      ItemsRebuilt(types, AppendSpec(types, buf, p, 0, empty).columns, tuples, 1);
    }
  }

  /** An Arrow consumer can read a column exactly when its fields come to less than 2^31
      bytes, and then reads exactly these tuples. */
  ghost predicate Shows(types: seq<FieldType>, columns: seq<Column>, tuples: seq<Tuple>) {
    && |columns| == |types| && AllTuples(types, tuples)
    && forall c | 0 <= c < |types| :: ShowsColumn(types[c], columns[c], ColumnOf(tuples, c))
  }

  ghost predicate ShowsColumn(t: FieldType, col: Column, vs: seq<Field>) {
    && (Readable(t, col, |vs|) <==> (t == BYTEA || t == TEXT ==> ByteCount(vs) < TWO_31))
    && (Readable(t, col, |vs|) ==> forall k | 0 <= k < |vs| :: ReadField(t, col, |vs|, k) == vs[k])
  }

  lemma {:induction false} HeldIsShown(types: seq<FieldType>, columns: seq<Column>, tuples: seq<Tuple>)
    requires Hold(types, columns, tuples)
    ensures Shows(types, columns, tuples)
  {
    hide Holds, Readable, ReadField, ByteCount;
    forall c | 0 <= c < |types| ensures ShowsColumn(types[c], columns[c], ColumnOf(tuples, c)) {
      ColumnReadsBack(types[c], columns[c], ColumnOf(tuples, c));
    }
  }

  lemma {:induction false} CopyReadsBack(types: seq<FieldType>, extension: seq<byte>, tuples: seq<Tuple>)
    requires |extension| < TWO_32 && AllDecodable(types, tuples)
    ensures Shows(types, GetNextSpec(types, Frame(extension, tuples), true, true).columns, tuples)
  {
    hide Hold, Shows, Decodable, GetNextSpec, Frame;
    CopyRoundTrip(types, extension, tuples, true, true);
    HeldIsShown(types, GetNextSpec(types, Frame(extension, tuples), true, true).columns, tuples);
  }

  lemma {:induction false} TwoBytesAhead(buf: seq<byte>, p: nat)
    requires |buf| == p + 14
    ensures DecodeFields([INT2, INT4], buf, p, 0, EmptyColumns([INT2, INT4]), 2).FieldsFault?
  {
    hide LE, FromBE;
    var types := [INT2, INT4];
    var columns := EmptyColumns(types);
    assert DecodeFields(types, buf, p, 0, columns, 0) == FieldsDone(p, columns);
    var first := DecodeField(INT2, buf, p, 0, columns[0]);
    assert first.Done? && first.next == p + 8;
    assert DecodeFields(types, buf, p, 0, columns, 1) == FieldsDone(p + 8, columns[0 := first.column]);
  }

  /** An int2 column before an int4 column: every tuple sends the decoder past the end of
      its message, because the cursor is then two bytes ahead of the fields. */
  lemma {:induction false} Int2BeforeInt4Faults(i: Int16, j: Int32)
    ensures GetNextSpec([INT2, INT4], Frame([], [[Int2Field(i), Int4Field(j)]]), true, true).code == FAULT
  {
    hide EncodeHeader, ParseHeader, BE, DecodeFields;
    var types, tuple := [INT2, INT4], [Int2Field(i), Int4Field(j)];
    var header, item := EncodeHeader([]), EncodeTuple(tuple);
    var buf, p := header + item, |header|;
    assert Items([tuple])[0] == item && Frame([], [tuple])[0] == buf;
    HeaderParsed([], item);
    assert BytesHere(buf, p, BE(2, 2)) by { assert buf[p..p + 2] == BE(2, 2); }
    CountRead(buf, p, 2);
    OneMoreField(tuple, 0);
    OneMoreField(tuple, 1);
    assert tuple[..2] == tuple && tuple[..0] == [];
    TwoBytesAhead(buf, p + 2);
  }

  lemma {:induction false} WordBytes()
    ensures BE(4, TWO_32 - 1) == [255, 255, 255, 255] && BE(4, 4) == [0, 0, 0, 4] && BE(4, 0) == [0, 0, 0, 0]
  {
    assert ByteOf(0xFF_FFFF, 1) == 255 && ByteOf(0xFF_FFFF, 2) == ByteOf(0xFFFF, 1) == 255;
    assert ByteOf(TWO_32 - 1, 1) == 255 && ByteOf(TWO_32 - 1, 2) == 255 && ByteOf(TWO_32 - 1, 3) == 255;
    assert ByteOf(4, 1) == 0 && ByteOf(4, 2) == 0 && ByteOf(4, 3) == 0;
    assert ByteOf(0, 1) == 0 && ByteOf(0, 2) == 0 && ByteOf(0, 3) == 0;
  }

  /** With the terminator in reach, a cursor that a null bool has put one byte ahead can go
      unnoticed: every byte it reads of an int4 zero is the zero after it. */
  lemma {:induction false} NullBoolBeforeZero()
    ensures var types, tuple := [BOOL, INT4], [NullField, Int4Field(0)];
            var buf := EncodeFields(tuple) + [0];
            && EndsTerminated(buf, |EncodeFields(tuple)|) && !DecodableTerminated(types, tuple)
            && Rebuilt(types, buf, 0, EmptyColumns(types), [], tuple)
  {
    hide Hold, Rebuilt, EncodeFields, Sees;
    var types, tuple := [BOOL, INT4], [NullField, Int4Field(0)];
    var buf := EncodeFields(tuple) + [0];
    NullBoolBeforeZeroBytes();
    PassesForBoth(buf);
    NothingHeld(types);
    NoFields(types, buf, 0, 0, EmptyColumns(types), tuple);
    SeesOneMore(types, buf, 0, tuple, 0);
    SeesOneMore(types, buf, 0, tuple, 1);
    RebuiltExactly(types, buf, 0, EmptyColumns(types), [], tuple);
  }

  lemma {:induction false} NullBoolBeforeZeroBytes()
    ensures EncodeFields([NullField, Int4Field(0)]) == [255, 255, 255, 255, 0, 0, 0, 4, 0, 0, 0, 0]
  {
    hide BE;
    var tuple := [NullField, Int4Field(0)];
    WordBytes();
    OneMoreField(tuple, 0);
    OneMoreField(tuple, 1);
    assert tuple[..0] == [] && tuple[..2] == tuple;
  }

  lemma {:induction false} PassesForBoth(buf: seq<byte>)
    requires buf == [255, 255, 255, 255, 0, 0, 0, 4, 0, 0, 0, 0, 0]
    ensures Sees(BOOL, buf, 0, NullField) && Sees(INT4, buf, 5, Int4Field(0))
  {
    WordBytes();
    Widths();
    assert buf[0..4] == BE(4, TWO_32 - 1) && buf[9..13] == BE(4, 0);
    BERoundTrip(4, TWO_32 - 1);
    BERoundTrip(4, 0);
    var word := buf[5..9];
    assert word == [0, 0, 4, 0] && word[..3] == [0, 0, 4] && word[..3][..2] == [0, 0] && [0, 0][..1] == [0];
    assert FromBE([0]) == 0 && FromBE([0, 0]) == 0 && FromBE([0, 0, 4]) == 4 && FromBE(word) == 1024;
  }
}
