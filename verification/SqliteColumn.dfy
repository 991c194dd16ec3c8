/** The in-place column builder: StatementReaderInferOneValue and the upcasts. */
module SqliteColumn {
  import opened Bytes
  import opened VarLength
  import opened SqliteInfer

  /** Eight-byte entries of an int64 column; a null holds 0. */
  ghost predicate HoldsInts(data: seq<byte>, vs: seq<Value>) {
    && |data| == 8 * |vs|
    && (forall k | 0 <= k < |vs| && vs[k].Integer? :: Elements(8, data)[k] == Unsigned(TWO_64, vs[k].i))
    && (forall k | 0 <= k < |vs| && vs[k].Null? :: Elements(8, data)[k] == 0)
  }

  ghost predicate HoldsDoubles(env: Env, data: seq<byte>, vs: seq<Value>) {
    && |data| == 8 * |vs|
    && forall k | 0 <= k < |vs| && Numeric(vs[k]) ::
         Elements(8, data)[k] == StoredDouble(env, vs, k)
  }

  ghost predicate PiecesMatch(env: Env, pieces: seq<seq<byte>>, vs: seq<Value>) {
    && |pieces| == |vs| && NoBlob(vs)
    && forall k | 0 <= k < |vs| :: pieces[k] == StoredText(env, vs, k)
  }

  ghost predicate Layout(env: Env, t: ColumnType, data: Buffer, binary: Buffer, pieces: seq<seq<byte>>, vs: seq<Value>)
  {
    match t
    case INT64 => HoldsInts(data.bytes, vs)
    case DOUBLE => HoldsDoubles(env, data.bytes, vs)
    case STRING =>
      binary.hasData && HoldsPieces(data.bytes, binary.bytes, pieces) && PiecesMatch(env, pieces, vs)
  }

  ghost predicate ValidityMatches(validity: seq<bool>, vs: seq<Value>) {
    && |vs| == |validity| && NoBlob(vs)
    && forall k | 0 <= k < |vs| :: validity[k] == !vs[k].Null?
  }

  lemma {:induction false} ValidityAppended(validity: seq<bool>, vs: seq<Value>, v: Value)
    requires ValidityMatches(validity, vs) && !v.Blob?
    ensures ValidityMatches(validity + [!v.Null?], vs + [v])
  {
  }

  /** The bits a numeric column of type t stores for v. */
  ghost predicate NumberBits(env: Env, t: ColumnType, v: Value, bits: UInt64) {
    || (v.Null? && bits == 0)
    || (t == INT64 && v.Integer? && bits == Unsigned(TWO_64, v.i))
    || (t == DOUBLE && (v.Integer? || v.Float?) && bits == AsDouble(env, v))
  }

  lemma {:induction false} NumberAppended(
    env: Env, t: ColumnType, data: Buffer, binary: Buffer, pieces: seq<seq<byte>>, vs: seq<Value>, v: Value,
        bits: UInt64)
    requires t != STRING && Layout(env, t, data, binary, pieces, vs) && NumberBits(env, t, v, bits)
    requires v.Null? && t == DOUBLE ==> HasFloat(vs)
    ensures |data.bytes| == 8 * |vs|
    ensures Layout(env, t, data.(bytes := data.bytes + LE(8, bits)), binary, pieces, vs + [v])
  {
    Widths();
    AppendElement(8, data.bytes, bits);
    if t == DOUBLE {
      var ws := vs + [v];
      forall k | 0 <= k < |ws| && Numeric(ws[k])
        ensures Elements(8, data.bytes + LE(8, bits))[k] == StoredDouble(env, ws, k)
      {
        if k < |vs| { StoredDoubleAppend(env, vs, v, k); } else { assert ws[..|vs|] == vs; }
      }
    }
  }

  /** One more entry on a column that is a string column already. */
  lemma {:induction false} MatchAppended(env: Env, pieces: seq<seq<byte>>, vs: seq<Value>, v: Value, p: seq<byte>)
    requires PiecesMatch(env, pieces, vs) && SpecType(vs) == STRING
    requires !v.Blob? && p == (if v.Null? then [] else OwnText(env, v))
    ensures PiecesMatch(env, pieces + [p], vs + [v]) && SpecType(vs + [v]) == STRING
  {
    var ws := vs + [v];
    FirstTextAppend(vs, v);
    forall k | 0 <= k < |ws| ensures (pieces + [p])[k] == StoredText(env, ws, k) {
      if k < |vs| { StoredTextAppend(env, vs, v, k); }
    }
  }

  /** The prefix as the upcast prints it, then the first TEXT value itself. */
  lemma {:induction false} MatchAtFirst(env: Env, pieces: seq<seq<byte>>, vs: seq<Value>, v: Value)
    requires NoBlob(vs) && SpecType(vs) != STRING && v.Text? && |pieces| == |vs|
    requires forall k | 0 <= k < |vs| ::
               pieces[k] == if SpecType(vs) == DOUBLE then env.formatE(StoredDouble(env, vs, k))
                            else Decimal(if vs[k].Null? then 0 else vs[k].i)
    ensures PiecesMatch(env, pieces + [v.t], vs + [v]) && SpecType(vs + [v]) == STRING
  {
    var ws := vs + [v];
    FirstTextAppend(vs, v);
    forall k | 0 <= k < |ws| ensures (pieces + [v.t])[k] == StoredText(env, ws, k) {
      if k < |vs| { StoredTextAtFirst(env, vs, v, k); }
    }
  }

  // ---------------------------------------------------------------------
  // Printing into a binary buffer
  // ---------------------------------------------------------------------

  /** Print one int64 at the end of `binary` and record where it ends. */
  method AppendInt64ToBinary(
      offsets: Buffer, binary: Buffer, value: Int64, offset: UInt32, ghost pieces: seq<seq<byte>>)
    returns (offsets': Buffer, binary': Buffer, offset': UInt32)
    requires offsets.Valid() && binary.Valid() && |offsets.bytes| + 4 <= offsets.capacity
    requires HoldsPieces(offsets.bytes, binary.bytes, pieces) && offset == Wrapped(|binary.bytes|)
    ensures offsets'.Valid() && offsets'.capacity == offsets.capacity
    ensures binary'.Valid() && binary'.hasData
    ensures HoldsPieces(offsets'.bytes, binary'.bytes, pieces + [Decimal(value)]) && offset' == Wrapped(|binary'.bytes|)
  {
    DecimalFits(value);
    binary', offset' := Print(binary, Decimal(value), 21, offset);
    offsets' := offsets.AppendUnsafe(LE(4, offset'));
    assert offset' == Wrapped(|binary.bytes| + |Decimal(value)|) by { WrapAdd(|binary.bytes|, |Decimal(value)|); }
    PieceHeld(offsets.bytes, binary.bytes, pieces, Decimal(value));
  }

  method AppendDoubleToBinary(
      env: Env, offsets: Buffer, binary: Buffer, value: Double, offset: UInt32, ghost pieces: seq<seq<byte>>)
    returns (offsets': Buffer, binary': Buffer, offset': UInt32)
    requires offsets.Valid() && binary.Valid() && |offsets.bytes| + 4 <= offsets.capacity
    requires HoldsPieces(offsets.bytes, binary.bytes, pieces) && offset == Wrapped(|binary.bytes|)
    ensures offsets'.Valid() && offsets'.capacity == offsets.capacity
    ensures binary'.Valid() && binary'.hasData
    ensures HoldsPieces(offsets'.bytes, binary'.bytes, pieces + [env.formatE(value)])
              && offset' == Wrapped(|binary'.bytes|)
  {
    binary', offset' := Print(binary, env.formatE(value), 64, offset);
    offsets' := offsets.AppendUnsafe(LE(4, offset'));
    assert offset' == Wrapped(|binary.bytes| + |env.formatE(value)|) by {
      WrapAdd(|binary.bytes|, |env.formatE(value)|);
    }
    PieceHeld(offsets.bytes, binary.bytes, pieces, env.formatE(value));
  }

  /** snprintf into `reserve` reserved bytes: the text and its terminator fit, so the
      truncated-and-retry branch of the driver is never taken. */
  method Print(binary: Buffer, text: seq<byte>, reserve: nat, offset: UInt32) returns (binary': Buffer, offset': UInt32)
    requires binary.Valid() && |text| < reserve
    ensures binary'.Valid() && binary'.hasData
    ensures binary'.bytes == binary.bytes + text
    ensures offset' == (offset + |text|) % TWO_32
  {
    var b := binary.Reserve(reserve);
    var written := |text|;
    assert |b.bytes| + written + 1 <= b.capacity;
    binary' := Buffer(b.bytes + text, b.capacity, b.hasData);
    offset' := (offset + written) % TWO_32;
  }

  // ---------------------------------------------------------------------
  // The upcasts
  // ---------------------------------------------------------------------

  function Doubled(env: Env, elements: seq<nat>): seq<int> {
    seq(|elements|, k requires 0 <= k < |elements| => env.toDouble(AsInt64(elements[k])))
  }

  function PrintedInts(elements: seq<nat>): seq<seq<byte>> {
    seq(|elements|, k requires 0 <= k < |elements| => Decimal(AsInt64(elements[k])))
  }

  function PrintedDoubles(env: Env, elements: seq<nat>): seq<seq<byte>> {
    seq(|elements|, k requires 0 <= k < |elements| => env.formatE(AsBits(elements[k])))
  }

  /** Every entry is converted, placeholders included. */
  method UpcastInt64ToDouble(env: Env, data: Buffer) returns (doubles: Buffer)
    requires data.Valid() && |data.bytes| % 8 == 0
    ensures doubles.Valid() && doubles.capacity == data.capacity
    ensures |doubles.bytes| == |data.bytes|
    ensures Elements(8, doubles.bytes) == Doubled(env, Elements(8, data.bytes))
  {
    Widths();
    doubles := EMPTY.Reserve(data.capacity);
    var elements := Elements(8, data.bytes);
    for i := 0 to |elements|
      invariant doubles.Valid() && doubles.capacity == data.capacity
      invariant |doubles.bytes| == 8 * i
      invariant Elements(8, doubles.bytes) == Doubled(env, elements)[..i]
    {
      var value := env.toDouble(AsInt64(elements[i]));
      AppendElement(8, doubles.bytes, value);
      doubles := doubles.AppendUnsafe(LE(8, value));
    }
  }

  /** 4(n+1) <= 8n' bytes of offsets fit in the room the numbers had reserved. */
  method UpcastInt64ToBinary(data: Buffer) returns (offsets: Buffer, binary: Buffer)
    requires data.Valid() && |data.bytes| % 8 == 0 && |data.bytes| / 2 + 4 <= data.capacity
    ensures offsets.Valid() && offsets.capacity == data.capacity
    ensures binary.Valid() && binary.hasData
    ensures HoldsPieces(offsets.bytes, binary.bytes, PrintedInts(Elements(8, data.bytes)))
  {
    var elements := Elements(8, data.bytes);
    ghost var printed := PrintedInts(elements);
    offsets, binary := StartOffsets(data.capacity);
    var offset: UInt32 := 0;
    for i := 0 to |elements|
      invariant offsets.Valid() && offsets.capacity == data.capacity && binary.Valid() && binary.hasData
      invariant offset == Wrapped(|binary.bytes|) && |offsets.bytes| == 4 * (i + 1)
      invariant HoldsPieces(offsets.bytes, binary.bytes, printed[..i])
    {
      assert printed[..i + 1] == printed[..i] + [printed[i]];
      offsets, binary, offset := AppendInt64ToBinary(offsets, binary, AsInt64(elements[i]), offset, printed[..i]);
    }
    assert printed[..|elements|] == printed;
  }

  method UpcastDoubleToBinary(env: Env, data: Buffer) returns (offsets: Buffer, binary: Buffer)
    requires data.Valid() && |data.bytes| % 8 == 0 && |data.bytes| / 2 + 4 <= data.capacity
    ensures offsets.Valid() && offsets.capacity == data.capacity
    ensures binary.Valid() && binary.hasData
    ensures HoldsPieces(offsets.bytes, binary.bytes, PrintedDoubles(env, Elements(8, data.bytes)))
  {
    var elements := Elements(8, data.bytes);
    ghost var printed := PrintedDoubles(env, elements);
    offsets, binary := StartOffsets(data.capacity);
    var offset: UInt32 := 0;
    for i := 0 to |elements|
      invariant offsets.Valid() && offsets.capacity == data.capacity && binary.Valid() && binary.hasData
      invariant offset == Wrapped(|binary.bytes|) && |offsets.bytes| == 4 * (i + 1)
      invariant HoldsPieces(offsets.bytes, binary.bytes, printed[..i])
    {
      assert printed[..i + 1] == printed[..i] + [printed[i]];
      offsets, binary, offset := AppendDoubleToBinary(env, offsets, binary, AsBits(elements[i]), offset, printed[..i]);
    }
    assert printed[..|elements|] == printed;
  }

  /** Fresh buffers for a string column, holding the leading zero offset. */
  method StartOffsets(capacity: nat) returns (offsets: Buffer, binary: Buffer)
    requires capacity >= 4
    ensures offsets.Valid() && offsets.capacity == capacity
    ensures binary.Valid() && binary.hasData
    ensures HoldsPieces(offsets.bytes, binary.bytes, [])
  {
    Widths();
    AppendElement(4, [], 0);
    offsets := EMPTY.Reserve(capacity).AppendUnsafe(LE(4, 0));
    binary := EMPTY.Reserve(capacity);
    assert offsets.bytes == [] + LE(4, 0);
  }

  // What an upcast makes of the values seen so far, placeholders of nulls included.

  lemma {:induction false} IntsBecomeDoubles(env: Env, data: seq<byte>, doubles: seq<byte>, vs: seq<Value>)
    requires HoldsInts(data, vs) && SpecType(vs) == INT64 && NoBlob(vs) && |doubles| == |data|
    requires Elements(8, doubles) == Doubled(env, Elements(8, data))
    ensures HoldsDoubles(env, doubles, vs)
  {
    forall k | 0 <= k < |vs| && Numeric(vs[k])
      ensures Elements(8, doubles)[k] == StoredDouble(env, vs, k)
    {
      assert !vs[k].Float?;
      assert Doubled(env, Elements(8, data))[k] == env.toDouble(AsInt64(Elements(8, data)[k]));
      if vs[k].Integer? { SignedUnsigned(TWO_64, vs[k].i); } else { NoFloatBefore(vs, k); }
    }
  }

  lemma NoFloatBefore(vs: seq<Value>, k: nat)
    requires k <= |vs| && !HasFloat(vs)
    ensures !HasFloat(vs[..k])
  {
  }

  lemma {:induction false} IntsArePrinted(data: seq<byte>, vs: seq<Value>)
    requires HoldsInts(data, vs) && SpecType(vs) == INT64 && NoBlob(vs)
    ensures forall k | 0 <= k < |vs| ::
              && (vs[k].Null? || vs[k].Integer?)
              && PrintedInts(Elements(8, data))[k] == Decimal(if vs[k].Null? then 0 else vs[k].i)
  {
    forall k | 0 <= k < |vs|
      ensures vs[k].Null? || vs[k].Integer?
      ensures PrintedInts(Elements(8, data))[k] == Decimal(if vs[k].Null? then 0 else vs[k].i)
    {
      assert !vs[k].Float? && !vs[k].Text? && !vs[k].Blob?;
      if vs[k].Integer? { SignedUnsigned(TWO_64, vs[k].i); }
    }
  }

  lemma {:induction false} DoublesArePrinted(env: Env, data: seq<byte>, vs: seq<Value>)
    requires HoldsDoubles(env, data, vs) && SpecType(vs) == DOUBLE && NoBlob(vs)
    ensures forall k | 0 <= k < |vs| ::
              && Numeric(vs[k])
              && PrintedDoubles(env, Elements(8, data))[k] == env.formatE(StoredDouble(env, vs, k))
  {
    forall k | 0 <= k < |vs|
      ensures Numeric(vs[k])
      ensures PrintedDoubles(env, Elements(8, data))[k] == env.formatE(StoredDouble(env, vs, k))
    {
      assert !vs[k].Text? && !vs[k].Blob?;
      assert AsBits(Elements(8, data)[k]) == StoredDouble(env, vs, k);
    }
  }

  class ColumnBuilder {
    const env: Env
    const inferRows: nat
    var validity: seq<bool>
    const validityBits: nat       // capacity of the bitmap, in bits
    var data: Buffer
    var binary: Buffer
    var currentType: ColumnType
    ghost var seen: seq<Value>    // the values appended so far
    ghost var pieces: seq<seq<byte>>

    /** Buffers are sound and laid out for `currentType`. */
    ghost predicate Consistent() reads this {
      && |seen| <= inferRows <= validityBits
      && ValidityMatches(validity, seen)
      && data.Valid() && data.capacity >= 8 * inferRows
      && binary.Valid()
      && Layout(env, currentType, data, binary, pieces, seen)
    }

    /** The builder's layout is the one the whole-column specification asks for. */
    ghost predicate Valid() reads this {
      Consistent() && currentType == SpecType(seen)
    }

    /** A string column about to receive v as the piece p. */
    ghost predicate StringReady(v: Value, p: seq<byte>) reads this {
      && |seen| < inferRows <= validityBits && !v.Blob?
      && ValidityMatches(validity, seen)
      && data.Valid() && data.capacity >= 8 * inferRows
      && binary.Valid() && binary.hasData
      && currentType == STRING == SpecType(seen + [v])
      && HoldsPieces(data.bytes, binary.bytes, pieces)
      && |pieces| == |seen|
      && PiecesMatch(env, pieces + [p], seen + [v])
    }

    /** StatementReaderInitializeInfer for one column. */
    constructor (env: Env, inferRows: nat)
      ensures Valid() && seen == [] && this.env == env && this.inferRows == inferRows
    {
      this.env := env;
      this.inferRows := inferRows;
      this.validity := [];
      this.validityBits := 8 * ((inferRows + 7) / 8);
      this.data := EMPTY.Reserve(8 * inferRows);
      this.binary := EMPTY;
      this.currentType := INT64;
      this.seen := [];
      this.pieces := [];
    }

    /** Append one value to the column.  A BLOB is refused before anything changes;
        any other value is appended and the layout stays the specified one. */
    method InferOneValue(v: Value) returns (status: Status)
      requires Valid() && |seen| < inferRows
      modifies this
      ensures Valid()
      ensures status == if v.Blob? then IO else OK
      ensures seen == if v.Blob? then old(seen) else old(seen) + [v]
    {
      FirstTextAppend(seen, v);
      HasFloatAppend(seen, v);
      status := OK;
      match v
      case Null => InferNull();
      case Integer(i) => InferInteger(i);
      case Float(d) => InferFloat(d);
      case Text(t) => InferText(t);
      case Blob(_) => status := IO;
    }

    /** Eight bytes, unchecked, on a column that is numeric afterwards too.  The bitmap
        was reserved for inferRows bits and the data for 8 * inferRows bytes. */
    method AppendNumber(isValid: bool, bits: UInt64, ghost v: Value)
      requires Consistent() && |seen| < inferRows && currentType == SpecType(seen + [v]) && currentType != STRING
      requires isValid == !v.Null? && NumberBits(env, currentType, v, bits)
      requires v.Null? && currentType == DOUBLE ==> HasFloat(seen)
      modifies this
      ensures Valid() && seen == old(seen) + [v]
    {
      ValidityAppended(validity, seen, v);
      NumberAppended(env, currentType, data, binary, pieces, seen, v, bits);
      assert |validity| < validityBits;
      validity := validity + [isValid];
      data := data.AppendUnsafe(LE(8, bits));
      seen := seen + [v];
    }

    /** The piece is in the buffers; set the validity bit and record it. */
    method FinishString(isValid: bool, data': Buffer, binary': Buffer, ghost v: Value, ghost p: seq<byte>)
      requires StringReady(v, p) && isValid == !v.Null?
      requires data'.Valid() && data'.capacity >= data.capacity && binary'.Valid() && binary'.hasData
      requires HoldsPieces(data'.bytes, binary'.bytes, pieces + [p])
      modifies this
      ensures Valid() && seen == old(seen) + [v]
    {
      ValidityAppended(validity, seen, v);
      assert |validity| < validityBits;
      validity := validity + [isValid];
      data, binary := data', binary';
      pieces, seen := pieces + [p], seen + [v];
    }

    /** The int32 at the end of the offsets buffer. */
    method LastOffset() returns (offset: UInt32)
      requires HoldsPieces(data.bytes, binary.bytes, pieces)
      ensures offset == Wrapped(|binary.bytes|)
    {
      PieceHeld(data.bytes, binary.bytes, pieces, []);
      offset := Elements(4, data.bytes)[|data.bytes| / 4 - 1];
    }

    method InferNull()
      requires Valid() && |seen| < inferRows && SpecType(seen + [Null]) == SpecType(seen)
      modifies this
      ensures Valid() && seen == old(seen) + [Null]
    {
      match currentType
      case INT64 => AppendNumber(false, Unsigned(TWO_64, 0), Null);
      case DOUBLE => AppendNumber(false, 0, Null);
      case STRING =>
        MatchAppended(env, pieces, seen, Null, []);
        PieceHeld(data.bytes, binary.bytes, pieces, []);
        assert binary.bytes + [] == binary.bytes;
        var offset := LastOffset();
        FinishString(false, data.Append(LE(4, offset)), binary, Null, []);
    }

    method InferInteger(i: Int64)
      requires Valid() && |seen| < inferRows && SpecType(seen + [Integer(i)]) == SpecType(seen)
      modifies this
      ensures Valid() && seen == old(seen) + [Integer(i)]
    {
      ghost var v := Integer(i);
      match currentType
      case INT64 => AppendNumber(true, Unsigned(TWO_64, i), v);
      case DOUBLE => AppendNumber(true, env.toDouble(i), v);
      case STRING =>
        MatchAppended(env, pieces, seen, v, Decimal(i));
        var offset := LastOffset();
        var data', binary', _ := AppendInt64ToBinary(data, binary, i, offset, pieces);
        FinishString(true, data', binary', v, Decimal(i));
    }

    method InferFloat(d: Double)
      requires Valid() && |seen| < inferRows
      requires SpecType(seen + [Float(d)]) == if SpecType(seen) == STRING then STRING else DOUBLE
      modifies this
      ensures Valid() && seen == old(seen) + [Float(d)]
    {
      ghost var v := Float(d);
      match currentType
      case INT64 =>
        var doubles := UpcastInt64ToDouble(env, data);
        IntsBecomeDoubles(env, data.bytes, doubles.bytes, seen);
        data, currentType := doubles, DOUBLE;
        AppendNumber(true, d, v);
      case DOUBLE => AppendNumber(true, d, v);
      case STRING =>
        MatchAppended(env, pieces, seen, v, env.formatE(d));
        var offset := LastOffset();
        var data', binary', _ := AppendDoubleToBinary(env, data, binary, d, offset, pieces);
        FinishString(true, data', binary', v, env.formatE(d));
    }

    method InferText(t: seq<byte>)
      requires Valid() && |seen| < inferRows
      modifies this
      ensures Valid() && seen == old(seen) + [Text(t)]
    {
      hide PiecesMatch, HoldsPieces, ValidityMatches, SpecType, LE;
      BecomeString(Text(t));
      PieceHeld(data.bytes, binary.bytes, pieces, t);
      var last := LastOffset();
      WrapAdd(|binary.bytes|, |t|);
      var offset := (last + |t|) % TWO_32;
      FinishString(true, data.Append(LE(4, offset)), binary.Append(t), Text(t), t);
    }

    /** Upcast whatever the column is so far to a string column. */
    method BecomeString(ghost v: Value)
      requires Valid() && |seen| < inferRows && v.Text?
      modifies this`data, this`binary, this`currentType, this`pieces
      ensures StringReady(v, v.t)
    {
      hide PiecesMatch, HoldsPieces, Decimal;
      match currentType
      case INT64 =>
        IntsArePrinted(data.bytes, seen);
        pieces := PrintedInts(Elements(8, data.bytes));
        MatchAtFirst(env, pieces, seen, v);
        data, binary := UpcastInt64ToBinary(data);
        currentType := STRING;
      case DOUBLE =>
        DoublesArePrinted(env, data.bytes, seen);
        pieces := PrintedDoubles(env, Elements(8, data.bytes));
        MatchAtFirst(env, pieces, seen, v);
        data, binary := UpcastDoubleToBinary(env, data);
        currentType := STRING;
      case STRING =>
        MatchAppended(env, pieces, seen, v, v.t);
    }

    /** StatementReaderInferFinalize for one column: the "no backing buffer" error is
        unreachable, the array is a well-formed Arrow array exactly when the texts of the
        values seen come to less than 2^31 bytes, and then it reads back as the specified
        column. */
    method Finalize() returns (status: Status, a: ArrowArray)
      requires Valid()
      ensures status == OK
      ensures a.columnType == SpecType(seen) && |a.validity| == |seen| && NoBlob(seen)
      ensures |a.binary| == if SpecType(seen) == STRING then TextSize(env, seen) else 0
      ensures WellFormed(a) <==> SpecType(seen) != STRING || TextSize(env, seen) < TWO_31
      ensures WellFormed(a) ==> ReadColumn(a) == SpecColumn(env, seen)
    {
      status := OK;
      if currentType == STRING && !binary.hasData {
        status := INTERNAL;
      }
      a := ArrowArray(currentType, validity, data.bytes, if currentType == STRING then binary.bytes else []);
      if currentType == STRING {
        assert pieces == StoredTexts(env, seen);
        ConcatSize(pieces);
        ProperExactly(a.data, a.binary, pieces);
        if WellFormed(a) { StringsReadBack(env, a, pieces, seen); }
      } else {
        NumbersReadBack(env, a, seen);
      }
    }
  }

  // ---------------------------------------------------------------------
  // Reading the finished array back
  // ---------------------------------------------------------------------

  lemma {:induction false} StringsReadBack(env: Env, a: ArrowArray, pieces: seq<seq<byte>>, vs: seq<Value>)
    requires a.columnType == STRING == SpecType(vs) && |a.validity| == |vs| && WellFormed(a)
    requires HoldsPieces(a.data, a.binary, pieces) && PiecesMatch(env, pieces, vs)
    requires forall k | 0 <= k < |vs| :: a.validity[k] == !vs[k].Null?
    ensures ReadColumn(a) == SpecColumn(env, vs)
  {
    ProperExactly(a.data, a.binary, pieces);
    forall k | 0 <= k < |vs| ensures ReadCell(a, k) == SpecCell(env, vs, k) {
      assert Slice(a.data, a.binary, |vs|, k) == pieces[k];
    }
  }

  lemma {:induction false} NumbersReadBack(env: Env, a: ArrowArray, vs: seq<Value>)
    requires a.columnType != STRING && a.columnType == SpecType(vs) && |a.validity| == |vs| && NoBlob(vs)
    requires if a.columnType == INT64 then HoldsInts(a.data, vs) else HoldsDoubles(env, a.data, vs)
    requires forall k | 0 <= k < |vs| :: a.validity[k] == !vs[k].Null?
    ensures WellFormed(a) && ReadColumn(a) == SpecColumn(env, vs)
  {
    forall k | 0 <= k < |vs| ensures ReadCell(a, k) == SpecCell(env, vs, k) {
      if vs[k].Integer? { SignedUnsigned(TWO_64, vs[k].i); }
    }
  }
}
