/** The PostgreSQL binary COPY format ("File Formats", "Binary Format" of the COPY page
    of the PostgreSQL 14 documentation) as the server writes it, and the driver's
    decoder as a function of the bytes it reads. */
module PgCopy {
  import opened Bytes
  import opened Bits
  import opened VarLength

  // ---------------------------------------------------------------------
  // What the server sends
  // ---------------------------------------------------------------------

  /** The Arrow types the schema inference produces. */
  datatype FieldType = BOOL | FLOAT8 | FLOAT4 | INT2 | INT4 | INT8 | BYTEA | TEXT

  /** A field value; floating-point values are their bit patterns. */
  datatype Field =
    | NullField
    | BoolField(b: bool)
    | Float8Field(d: UInt64)
    | Float4Field(f: UInt32)
    | Int2Field(i2: Int16)
    | Int4Field(i4: Int32)
    | Int8Field(i8: Int64)
    | BytesField(bytes: seq<byte>)

  type Tuple = seq<Field>

  predicate HasType(t: FieldType, v: Field) {
    || v.NullField?
    || (match t
        case BOOL => v.BoolField?
        case FLOAT8 => v.Float8Field?
        case FLOAT4 => v.Float4Field?
        case INT2 => v.Int2Field?
        case INT4 => v.Int4Field?
        case INT8 => v.Int8Field?
        case BYTEA => v.BytesField? && |v.bytes| < TWO_31
        case TEXT => v.BytesField? && |v.bytes| < TWO_31)
  }

  predicate IsTuple(types: seq<FieldType>, tuple: Tuple) {
    |tuple| == |types| && forall c | 0 <= c < |types| :: HasType(types[c], tuple[c])
  }

  function Payload(v: Field): seq<byte>
    requires !v.NullField?
  {
    match v
    case BoolField(b) => [if b then 1 else 0]
    case Float8Field(d) => BE(8, d)
    case Float4Field(f) => BE(4, f)
    case Int2Field(i) => BE(2, Unsigned(0x1_0000, i))
    case Int4Field(i) => BE(4, Unsigned(TWO_32, i))
    case Int8Field(i) => BE(8, Unsigned(TWO_64, i))
    case BytesField(b) => b
  }

  /** A length word, then that many bytes; a null is the length -1 and nothing else. */
  function EncodeField(v: Field): seq<byte> {
    if v.NullField? then BE(4, TWO_32 - 1) else BE(4, |Payload(v)| % TWO_32) + Payload(v)
  }

  function EncodeFields(tuple: Tuple): seq<byte> {
    if tuple == [] then [] else EncodeFields(tuple[..|tuple| - 1]) + EncodeField(tuple[|tuple| - 1])
  }

  /** A 16-bit field count, then the fields. */
  function EncodeTuple(tuple: Tuple): seq<byte> {
    BE(2, |tuple| % 0x1_0000) + EncodeFields(tuple)
  }

  const TRAILER: seq<byte> := [255, 255]

  /** "PGCOPY\n\377\r\n\0" */
  const SIGNATURE: seq<byte> := [80, 71, 67, 79, 80, 89, 10, 255, 13, 10, 0]

  /** Signature, flags, and a header extension of any length. */
  function EncodeHeader(extension: seq<byte>): seq<byte> {
    SIGNATURE + BE(4, 0) + BE(4, |extension| % TWO_32) + extension
  }

  // ---------------------------------------------------------------------
  // The driver's columns
  // ---------------------------------------------------------------------

  /** The buffers of one child array: validity, fixed-width data or offsets, and
      character data. */
  datatype Column = Column(validity: seq<bool>, data: seq<byte>, binary: seq<byte>)

  /** ArrowArrayStartAppending writes the leading zero offset. */
  function EmptyColumn(t: FieldType): Column {
    Column([], if t == BYTEA || t == TEXT then LE(4, 0) else [], [])
  }

  function Width(t: FieldType): nat {
    match t case FLOAT8 => 8 case FLOAT4 => 4 case INT2 => 2 case INT4 => 4 case INT8 => 8 case _ => 0
  }

  predicate Fixed(t: FieldType) { Width(t) > 0 }

  /** Buffer sizes of a column with `row` entries. */
  predicate Sized(t: FieldType, col: Column, row: nat) {
    && |col.validity| == row
    && |col.data| == (if t == BOOL then BytesForBits(row) else if Fixed(t) then Width(t) * row else 4 * (row + 1))
  }

  /** `Fault` is a read outside the message; `Invalid` the driver's EINVAL. */
  datatype FieldResult = Fault | Invalid | Done(next: int, column: Column)

  /** The width the cursor advances by, which for int2 is not the width read. */
  function Advance(t: FieldType): nat {
    match t case BOOL => 1 case FLOAT8 => 8 case FLOAT4 => 4 case INT2 => 4 case INT4 => 4 case INT8 => 8 case _ => 0
  }

  function FieldLength(buf: seq<byte>, p: nat): int
    requires p + 4 <= |buf|
  {
    Signed(TWO_32, FromBE(buf[p..p + 4]))
  }

  /** One iteration of AppendNext's loop over the columns, at cursor p. */
  function DecodeField(t: FieldType, buf: seq<byte>, p: int, row: nat, col: Column): (r: FieldResult)
    requires Sized(t, col, row)
    ensures r.Done? ==> Sized(t, r.column, row + 1)
  {
    if p < 0 || p + 4 > |buf| then Fault
    else
      var length := FieldLength(buf, p);
      var q := p + 4;
      var marked := col.(validity := col.validity + [length >= 0]);
      if t == BOOL then
        if q + 1 > |buf| then Fault
        else if buf[q] != 0 && buf[q] != 1 then Invalid
        else Done(q + 1, marked.(data := PutBit(col.data, row, buf[q] == 1)))
      else if t == INT8 && length < 0 then
        Done(q + 8, marked.(data := col.data + LE(8, 0)))
      else if Fixed(t) then
        if q + Width(t) > |buf| then Fault
        else Done(q + Advance(t), marked.(data := col.data + LE(Width(t), FromBE(buf[q..q + Width(t)]))))
      else
        var last := Elements(4, col.data)[row];
        if length > 0 && q + length > |buf| then Fault
        else Done(q + length,
                  marked.(data := col.data + LE(4, (last + length) % TWO_32),
                          binary := if length > 0 then col.binary + buf[q..q + length] else col.binary))
  }

  // ---------------------------------------------------------------------
  // What the columns say
  // ---------------------------------------------------------------------

  /** The bits a fixed-width column stores for a value. */
  function FixedBits(v: Field): nat
    requires !v.NullField? && !v.BoolField? && !v.BytesField?
  {
    match v
    case Float8Field(d) => d
    case Float4Field(f) => f
    case Int2Field(i) => Unsigned(0x1_0000, i)
    case Int4Field(i) => Unsigned(TWO_32, i)
    case Int8Field(i) => Unsigned(TWO_64, i)
  }

  function BytesOf(vs: seq<Field>): seq<seq<byte>> {
    seq(|vs|, k requires 0 <= k < |vs| => if vs[k].BytesField? then vs[k].bytes else [])
  }

  /** The column holds exactly these values. */
  ghost predicate Holds(t: FieldType, col: Column, vs: seq<Field>) {
    && Sized(t, col, |vs|)
    && (forall k | 0 <= k < |vs| :: HasType(t, vs[k]) && col.validity[k] == !vs[k].NullField?)
    && (t == BOOL ==> forall k | 0 <= k < |vs| && !vs[k].NullField? :: BitAt(col.data, k) == vs[k].b)
    && (Fixed(t) ==> forall k | 0 <= k < |vs| && !vs[k].NullField? ::
       Elements(Width(t), col.data)[k] == FixedBits(vs[k]))
    && (t == BYTEA || t == TEXT ==> HoldsPieces(col.data, col.binary, BytesOf(vs)))
  }

  /** A field after which the cursor is where the next field starts. */
  predicate InStep(t: FieldType, v: Field) { !v.NullField? && t != INT2 }

  /** A field that is decoded correctly but leaves the cursor elsewhere: harmless when
      nothing follows it in the tuple. */
  predicate GoodLast(t: FieldType, v: Field) {
    (t == INT2 && !v.NullField?) || (t == INT8 && v.NullField?)
  }

  // ---------------------------------------------------------------------
  // One field
  // ---------------------------------------------------------------------

  /** The server's encoding of v stands at cursor p. */
  ghost predicate FieldHere(buf: seq<byte>, p: nat, v: Field) {
    BytesHere(buf, p, EncodeField(v))
  }

  predicate BytesHere(buf: seq<byte>, p: nat, s: seq<byte>) {
    p + |s| <= |buf| && buf[p..p + |s|] == s
  }

  lemma SplitAt(buf: seq<byte>, p: nat, a: seq<byte>, b: seq<byte>)
    requires BytesHere(buf, p, a + b)
    ensures BytesHere(buf, p, a) && BytesHere(buf, p + |a|, b)
  {
    var s := buf[p..p + |a| + |b|];
    assert s[..|a|] == buf[p..p + |a|];
    assert s[|a|..] == buf[p + |a|..p + |a| + |b|];
    assert (a + b)[..|a|] == a && (a + b)[|a|..] == b;
  }

  lemma {:induction false} WordRead(buf: seq<byte>, p: nat, n: nat)
    requires n < TWO_32 && BytesHere(buf, p, BE(4, n))
    ensures FromBE(buf[p..p + 4]) == n
  {
    Widths();
    BERoundTrip(4, n);
  }

  /** What the decoder sees of v at cursor p: its length and the bytes after it. */
  ghost predicate Seen(buf: seq<byte>, p: nat, v: Field) {
    && p + 4 <= |buf|
    && FieldLength(buf, p) == (if v.NullField? then -1 else |Payload(v)|)
    && (!v.NullField? ==> BytesHere(buf, p + 4, Payload(v)))
  }

  lemma {:induction false} LengthRead(buf: seq<byte>, p: nat, v: Field)
    requires FieldHere(buf, p, v) && (!v.NullField? ==> |Payload(v)| < TWO_31)
    ensures Seen(buf, p, v)
  {
    if v.NullField? { WordRead(buf, p, TWO_32 - 1); } else { LengthAndPayload(buf, p, Payload(v)); }
  }

  lemma {:induction false} LengthAndPayload(buf: seq<byte>, p: nat, payload: seq<byte>)
    requires |payload| < TWO_31 && BytesHere(buf, p, BE(4, |payload| % TWO_32) + payload)
    ensures FromBE(buf[p..p + 4]) == |payload| && BytesHere(buf, p + 4, payload)
  {
    SplitAt(buf, p, BE(4, |payload|), payload);
    WordRead(buf, p, |payload|);
  }

  lemma {:induction false} FixedPayload(t: FieldType, v: Field)
    requires Fixed(t) && HasType(t, v) && !v.NullField?
    ensures |Payload(v)| == Width(t) && FromBE(Payload(v)) == FixedBits(v) < Pow256(Width(t))
  {
    Widths();
    BERoundTrip(Width(t), FixedBits(v));
  }

  /** The decoder ends a field at the server's field boundary exactly when the field is
      not null and not int2: a condition on the value, whatever surrounds it. */
  lemma {:induction false} InStepExactly(t: FieldType, buf: seq<byte>, p: nat, row: nat, col: Column, v: Field)
    requires HasType(t, v) && Sized(t, col, row)
    requires FieldHere(buf, p, v)
    ensures var r := DecodeField(t, buf, p, row, col);
            r.Done? && r.next == p + |EncodeField(v)| <==> InStep(t, v)
  {
    LengthRead(buf, p, v);
    if !v.NullField? {
      if Fixed(t) { FixedPayload(t, v); }
      if t == BOOL { assert buf[p + 4] == buf[p + 4..p + 5][0]; }
      assert |EncodeField(v)| == 4 + |Payload(v)|;
    }
  }

  /** A field that is in step, or that nothing follows, is stored faithfully. */
  lemma {:induction false} FieldStored(t: FieldType, buf: seq<byte>, p: nat, col: Column, vs: seq<Field>, v: Field)
    requires HasType(t, v) && Holds(t, col, vs) && (InStep(t, v) || GoodLast(t, v))
    requires FieldHere(buf, p, v)
    ensures var r := DecodeField(t, buf, p, |vs|, col); r.Done? && Holds(t, r.column, vs + [v])
  {
    LengthRead(buf, p, v);
    if t == BOOL { BoolStored(buf, p, col, vs, v); }
    else if Fixed(t) { FixedStored(t, buf, p, col, vs, v); }
    else { BytesStored(t, buf, p, col, vs, v); }
  }

  lemma {:induction false} BoolStored(buf: seq<byte>, p: nat, col: Column, vs: seq<Field>, v: Field)
    requires v.BoolField? && Holds(BOOL, col, vs) && Seen(buf, p, v)
    ensures var r := DecodeField(BOOL, buf, p, |vs|, col); r.Done? && Holds(BOOL, r.column, vs + [v])
  {
    assert buf[p + 4] == buf[p + 4..p + 5][0];
    var r := DecodeField(BOOL, buf, p, |vs|, col);
    var ws := vs + [v];
    forall k | 0 <= k < |ws| && !ws[k].NullField? ensures BitAt(r.column.data, k) == ws[k].b {
      PutBitReads(col.data, |vs|, v.b, k);
    }
  }

  lemma {:induction false} FixedStored(t: FieldType, buf: seq<byte>, p: nat, col: Column, vs: seq<Field>, v: Field)
    requires Fixed(t) && HasType(t, v) && Holds(t, col, vs) && (InStep(t, v) || GoodLast(t, v))
    requires Seen(buf, p, v)
    ensures var r := DecodeField(t, buf, p, |vs|, col); r.Done? && Holds(t, r.column, vs + [v])
  {
    Widths();
    if !v.NullField? { FixedPayload(t, v); }
    var bits := if v.NullField? then 0 else FixedBits(v);
    var r := DecodeField(t, buf, p, |vs|, col);
    assert r.column.data == col.data + LE(Width(t), bits);
    MultipleDivides(Width(t), |vs|);
    AppendElement(Width(t), col.data, bits);
  }

  lemma {:induction false} BytesStored(t: FieldType, buf: seq<byte>, p: nat, col: Column, vs: seq<Field>, v: Field)
    requires (t == BYTEA || t == TEXT) && HasType(t, v) && Holds(t, col, vs) && InStep(t, v)
    requires Seen(buf, p, v)
    ensures var r := DecodeField(t, buf, p, |vs|, col); r.Done? && Holds(t, r.column, vs + [v])
  {
    BytesDecoded(t, buf, p, |vs|, col, v.bytes);
    BytesRecorded(t, col, vs, v);
  }

  /** The column with s appended and the offset of its end recorded. */
  function Extended(col: Column, row: nat, s: seq<byte>): Column
    requires row < |col.data| / 4
  {
    Column(col.validity + [true], col.data + LE(4, (Elements(4, col.data)[row] + |s|) % TWO_32), col.binary + s)
  }

  lemma {:induction false} BytesDecoded(t: FieldType, buf: seq<byte>, p: nat, row: nat, col: Column, s: seq<byte>)
    requires (t == BYTEA || t == TEXT) && Sized(t, col, row)
    requires BytesHere(buf, p + 4, s) && FieldLength(buf, p) == |s|
    ensures DecodeField(t, buf, p, row, col) == Done(p + 4 + |s|, Extended(col, row, s))
  {
    if s == [] { assert col.binary + s == col.binary; }
  }

  lemma {:induction false} BytesRecorded(t: FieldType, col: Column, vs: seq<Field>, v: Field)
    requires (t == BYTEA || t == TEXT) && HasType(t, v) && Holds(t, col, vs) && InStep(t, v)
    ensures Holds(t, Extended(col, |vs|, v.bytes), vs + [v])
  {
    PieceHeld(col.data, col.binary, BytesOf(vs), v.bytes);
    WrapAdd(|col.binary|, |v.bytes|);
    assert BytesOf(vs + [v]) == BytesOf(vs) + [v.bytes];
  }

  /** A field at the very end of its message is stored faithfully, without a read outside
      the message, exactly when it is in step, or an int2 value, or an int8 null.  Any other
      null fails there: fixed-width and bool columns read past the message, and the
      variable-length columns take the length -1 for a step back.  For a bool that read can
      be harmless in memory, see LastFieldTerminated. */
  lemma {:induction false} LastFieldExactly(t: FieldType, buf: seq<byte>, p: nat, col: Column, vs: seq<Field>, v: Field)
    requires HasType(t, v) && Holds(t, col, vs)
    requires FieldHere(buf, p, v) && p + |EncodeField(v)| == |buf|
    ensures (var r := DecodeField(t, buf, p, |vs|, col); r.Done? && Holds(t, r.column, vs + [v]))
            <==> InStep(t, v) || GoodLast(t, v)
  {
    if InStep(t, v) || GoodLast(t, v) { FieldStored(t, buf, p, col, vs, v); }
    else {
      LengthRead(buf, p, v);
      if t == BYTEA || t == TEXT { StepBack(t, buf, p, col, vs); }
    }
  }

  predicate NullBool(t: FieldType, v: Field) { t == BOOL && v.NullField? }

  /** A null bool in front of a byte that passes for a bool is stored as a null; the cursor
      has then moved past that byte. */
  lemma {:induction false} NullBoolStored(buf: seq<byte>, p: nat, col: Column, vs: seq<Field>)
    requires Holds(BOOL, col, vs) && FieldHere(buf, p, NullField) && p + 5 <= |buf| && buf[p + 4] <= 1
    ensures var r := DecodeField(BOOL, buf, p, |vs|, col);
            r.Done? && r.next == p + 5 && Holds(BOOL, r.column, vs + [NullField])
  {
    LengthRead(buf, p, NullField);
    var r, ws := DecodeField(BOOL, buf, p, |vs|, col), vs + [NullField];
    forall k | 0 <= k < |ws| && !ws[k].NullField? ensures BitAt(r.column.data, k) == ws[k].b {
      PutBitReads(col.data, |vs|, buf[p + 4] == 1, k);
    }
  }

  /** libpq ends every message with a zero byte that its size does not count. */
  predicate EndsTerminated(buf: seq<byte>, end: nat) { |buf| == end + 1 && buf[end] == 0 }

  /** With the terminator in reach, a null bool is stored faithfully at the end too. */
  lemma {:induction false} LastFieldTerminated(
      t: FieldType, buf: seq<byte>, p: nat, col: Column, vs: seq<Field>, v: Field)
    requires HasType(t, v) && Holds(t, col, vs)
    requires FieldHere(buf, p, v) && EndsTerminated(buf, p + |EncodeField(v)|)
    ensures (var r := DecodeField(t, buf, p, |vs|, col); r.Done? && Holds(t, r.column, vs + [v]))
            <==> InStep(t, v) || GoodLast(t, v) || NullBool(t, v)
  {
    if InStep(t, v) || GoodLast(t, v) { FieldStored(t, buf, p, col, vs, v); }
    else if NullBool(t, v) { NullBoolStored(buf, p, col, vs); }
    else {
      LengthRead(buf, p, v);
      if t == BYTEA || t == TEXT { StepBack(t, buf, p, col, vs); }
    }
  }

  lemma {:induction false} StepBack(t: FieldType, buf: seq<byte>, p: nat, col: Column, vs: seq<Field>)
    requires (t == BYTEA || t == TEXT) && Holds(t, col, vs) && Seen(buf, p, NullField)
    ensures var r := DecodeField(t, buf, p, |vs|, col); r.Done? && !Holds(t, r.column, vs + [NullField])
  {
    hide LE, FieldLength;
    var n, pieces := |vs|, BytesOf(vs);
    var end := (Elements(4, col.data)[n] - 1) % TWO_32;
    var r := DecodeField(t, buf, p, n, col);
    assert r.column.data == col.data + LE(4, end);
    Widths();
    AppendElement(4, col.data, end);
    PieceAppended(pieces, []);
    assert BytesOf(vs + [NullField]) == pieces + [[]];
    assert Elements(4, r.column.data)[n + 1] == end != Offsets(pieces + [[]])[n + 1];
  }

  // ---------------------------------------------------------------------
  // What a faithfully stored field says about the cursor
  // ---------------------------------------------------------------------

  /** The decoded column holds one value more.  Nothing is known of the cursor: the bytes
      there need not be the server's encoding of v. */
  ghost predicate Stores(t: FieldType, buf: seq<byte>, q: int, col: Column, vs: seq<Field>, v: Field) {
    && Sized(t, col, |vs|)
    && var r := DecodeField(t, buf, q, |vs|, col); r.Done? && Holds(t, r.column, vs + [v])
  }

  /** Two offsets a step apart in arithmetic modulo 2^32. */
  lemma StepLength(last: nat, length: int, size: nat)
    requires last < TWO_32 && -TWO_31 <= length < TWO_31 && size < TWO_31
    requires (last + length) % TWO_32 == (last + size) % TWO_32
    ensures length == size
  {
  }

  lemma {:induction false} LengthInRange(buf: seq<byte>, q: nat)
    requires q + 4 <= |buf|
    ensures -TWO_31 <= FieldLength(buf, q) < TWO_31
  {
    Widths();
    assert FromBE(buf[q..q + 4]) < Pow256(|buf[q..q + 4]|);
  }

  lemma {:induction false} PiecesOf(vs: seq<Field>, v: Field)
    ensures BytesOf(vs + [v]) == BytesOf(vs) + [if v.BytesField? then v.bytes else []]
  {
  }

  /** A column that holds the values before v held them already before v was decoded. */
  lemma {:induction false} HeldBefore(t: FieldType, buf: seq<byte>, q: int, col: Column, vs: seq<Field>, v: Field)
    requires Stores(t, buf, q, col, vs, v)
    ensures Holds(t, col, vs)
    ensures t == BYTEA || t == TEXT ==> v.BytesField? && FieldLength(buf, q) == |v.bytes|
  {
    var col', ws := DecodeField(t, buf, q, |vs|, col).column, vs + [v];
    assert forall k | 0 <= k < |vs| :: ws[k] == vs[k] && col'.validity[k] == col.validity[k];
    if t == BOOL { BoolsHeldBefore(buf, q, col, vs, v); }
    else if Fixed(t) { FixedHeldBefore(t, buf, q, col, vs, v); }
    else { BytesHeldBefore(t, buf, q, col, vs, v); }
  }

  lemma {:induction false} BoolsHeldBefore(buf: seq<byte>, q: int, col: Column, vs: seq<Field>, v: Field)
    requires Stores(BOOL, buf, q, col, vs, v)
    ensures forall k | 0 <= k < |vs| && !vs[k].NullField? :: vs[k].BoolField? && BitAt(col.data, k) == vs[k].b
  {
    var ws := vs + [v];
    forall k | 0 <= k < |vs| && !vs[k].NullField? ensures vs[k].BoolField? && BitAt(col.data, k) == vs[k].b {
      assert ws[k] == vs[k] && HasType(BOOL, ws[k]);
      PutBitReads(col.data, |vs|, buf[q + 4] == 1, k);
    }
  }

  lemma {:induction false} FixedHeldBefore(t: FieldType, buf: seq<byte>, q: int, col: Column, vs: seq<Field>, v: Field)
    requires Fixed(t) && Stores(t, buf, q, col, vs, v)
    ensures |Elements(Width(t), col.data)| == |vs|
    ensures forall k | 0 <= k < |vs| && !vs[k].NullField? ::
              HasType(t, vs[k]) && Elements(Width(t), col.data)[k] == FixedBits(vs[k])
  {
    var w, data, ws := Width(t), DecodeField(t, buf, q, |vs|, col).column.data, vs + [v];
    MultipleDivides(w, |vs|);
    MultipleDivides(w, |ws|);
    var tail := data[|col.data|..];
    assert data == col.data + tail;
    forall k | 0 <= k < |vs| && !vs[k].NullField?
      ensures HasType(t, vs[k]) && Elements(w, col.data)[k] == FixedBits(vs[k])
    {
      assert ws[k] == vs[k] && HasType(t, ws[k]);
      ElementKept(w, col.data, tail, k);
    }
  }

  lemma {:induction false} BytesHeldBefore(t: FieldType, buf: seq<byte>, q: int, col: Column, vs: seq<Field>, v: Field)
    requires (t == BYTEA || t == TEXT) && Stores(t, buf, q, col, vs, v)
    ensures HoldsPieces(col.data, col.binary, BytesOf(vs))
    ensures v.BytesField? && FieldLength(buf, q) == |v.bytes|
  {
    hide Elements, LE, FieldLength, Offsets, Concat, BytesOf;
    var n, pieces, piece := |vs|, BytesOf(vs), if v.BytesField? then v.bytes else [];
    var col', length := DecodeField(t, buf, q, n, col).column, FieldLength(buf, q);
    assert col'.validity[n] == (length >= 0) && (vs + [v])[n] == v && HasType(t, v);
    PiecesOf(vs, v);
    LengthInRange(buf, q);
    OffsetsBefore(col.data, (Elements(4, col.data)[n] + length) % TWO_32, pieces, piece);
    StepLength(Elements(4, col.data)[n], length, |piece|);
    PieceAppended(pieces, piece);
    BinaryBefore(col.binary, col'.binary, Concat(pieces), piece);
  }

  lemma {:induction false} OffsetsBefore(data: seq<byte>, end: nat, pieces: seq<seq<byte>>, piece: seq<byte>)
    requires |data| == 4 * (|pieces| + 1) && end < TWO_32
    requires Elements(4, data + LE(4, end)) == Offsets(pieces + [piece])
    ensures Elements(4, data) == Offsets(pieces)
    ensures Elements(4, data)[|pieces|] < TWO_32 && end == (Elements(4, data)[|pieces|] + |piece|) % TWO_32
  {
    hide LE, Elements, Offsets, Concat, Pow256;
    Widths();
    AppendElement(4, data, end);
    PieceAppended(pieces, piece);
    var a, b := Elements(4, data), Offsets(pieces);
    assert (a + [end])[..|a|] == a && (b + [Wrapped(|Concat(pieces)| + |piece|)])[..|b|] == b;
    assert (a + [end])[|a|] == end && (b + [Wrapped(|Concat(pieces)| + |piece|)])[|b|] == end;
    WrapAdd(|Concat(pieces)|, |piece|);
  }

  lemma BinaryBefore(binary: seq<byte>, binary': seq<byte>, whole: seq<byte>, piece: seq<byte>)
    requires binary <= binary' && |binary'| == |binary| + |piece| && binary' == whole + piece
    ensures binary == whole
  {
    assert binary == binary'[..|binary|] && whole == binary'[..|whole|];
  }

  /** Wherever the cursor was: a field stored faithfully fits the message, and leaves the
      cursor where the server's encoding would end if it is in step, and behind that
      otherwise: by one byte after a null bool, by two or more after any other. */
  lemma {:induction false} StoredAdvances(t: FieldType, buf: seq<byte>, q: int, col: Column, vs: seq<Field>, v: Field)
    requires Stores(t, buf, q, col, vs, v)
    ensures var next := DecodeField(t, buf, q, |vs|, col).next;
            && 0 <= q && q + |EncodeField(v)| <= |buf|
            && next >= q + |EncodeField(v)|
            && (next == q + |EncodeField(v)| <==> InStep(t, v))
            && (InStep(t, v) || NullBool(t, v) || next >= q + |EncodeField(v)| + 2)
  {
    hide BE, LE, FromBE, Elements, HoldsPieces;
    HeldBefore(t, buf, q, col, vs, v);
    assert (vs + [v])[|vs|] == v && HasType(t, v);
    EncodedSize(t, v);
  }

  lemma {:induction false} EncodedSize(t: FieldType, v: Field)
    requires HasType(t, v)
    ensures |EncodeField(v)| == if v.NullField? then 4 else if v.BytesField? then 4 + |v.bytes|
                                else if t == BOOL then 5 else 4 + Width(t)
    ensures v.BytesField? ==> t == BYTEA || t == TEXT
  {
  }

  // ---------------------------------------------------------------------
  // What the decoder makes of the bytes at any cursor
  // ---------------------------------------------------------------------

  /** The bytes at the cursor pass for the value, whatever they were meant to be. */
  predicate Sees(t: FieldType, buf: seq<byte>, q: nat, v: Field)
    requires HasType(t, v)
  {
    && q + 4 <= |buf| && (FieldLength(buf, q) >= 0 <==> !v.NullField?)
    && if t == BOOL then q + 5 <= |buf| && buf[q + 4] <= 1 && (!v.NullField? ==> v.b == (buf[q + 4] == 1))
       else if t == INT8 && v.NullField? then true
       else if Fixed(t) then
         && q + 4 + Width(t) <= |buf|
         && (!v.NullField? ==> FromBE(buf[q + 4..q + 4 + Width(t)]) == FixedBits(v))
       else v.BytesField? && FieldLength(buf, q) == |v.bytes| && BytesHere(buf, q + 4, v.bytes)
  }

  /** How far the decoder moves over a value it stores. */
  function Stride(t: FieldType, v: Field): nat { 4 + Advance(t) + if v.BytesField? then |v.bytes| else 0 }

  /** A value is stored faithfully exactly when the bytes at the cursor pass for it, and the
      cursor then moves by the value's stride. */
  lemma {:induction false} StoresExactly(t: FieldType, buf: seq<byte>, q: nat, col: Column, vs: seq<Field>, v: Field)
    requires HasType(t, v) && Holds(t, col, vs)
    ensures Stores(t, buf, q, col, vs, v) <==> Sees(t, buf, q, v)
    ensures Stores(t, buf, q, col, vs, v) ==> DecodeField(t, buf, q, |vs|, col).next == q + Stride(t, v)
  {
    if Stores(t, buf, q, col, vs, v) { StoredIsSeen(t, buf, q, col, vs, v); }
    if Sees(t, buf, q, v) { SeenIsStored(t, buf, q, col, vs, v); }
  }

  lemma {:induction false} StoredIsSeen(t: FieldType, buf: seq<byte>, q: nat, col: Column, vs: seq<Field>, v: Field)
    requires HasType(t, v) && Holds(t, col, vs) && Stores(t, buf, q, col, vs, v)
    ensures Sees(t, buf, q, v) && DecodeField(t, buf, q, |vs|, col).next == q + Stride(t, v)
  {
    var r, n, ws := DecodeField(t, buf, q, |vs|, col), |vs|, vs + [v];
    assert ws[n] == v && r.column.validity[n] == (FieldLength(buf, q) >= 0);
    if t == BOOL {
      if !v.NullField? { PutBitReads(col.data, n, buf[q + 4] == 1, n); }
    } else if Fixed(t) {
      if !v.NullField? { FixedSeen(t, buf, q, col, vs, v); }
    } else {
      HeldBefore(t, buf, q, col, vs, v);
      BytesSeen(t, buf, q, col, vs, v);
    }
  }

  lemma {:induction false} FixedSeen(t: FieldType, buf: seq<byte>, q: nat, col: Column, vs: seq<Field>, v: Field)
    requires Fixed(t) && HasType(t, v) && !v.NullField? && Stores(t, buf, q, col, vs, v) && FieldLength(buf, q) >= 0
    ensures q + 4 + Width(t) <= |buf| && FromBE(buf[q + 4..q + 4 + Width(t)]) == FixedBits(v)
  {
    hide FieldLength;
    var w, n := Width(t), |vs|;
    var bits := FromBE(buf[q + 4..q + 4 + w]);
    Widths();
    MultipleDivides(w, n);
    AppendElement(w, col.data, bits);
    assert Elements(w, col.data + LE(w, bits))[n] == bits;
    assert (vs + [v])[n] == v;
  }

  lemma {:induction false} BytesSeen(t: FieldType, buf: seq<byte>, q: nat, col: Column, vs: seq<Field>, v: Field)
    requires (t == BYTEA || t == TEXT) && Holds(t, col, vs) && Stores(t, buf, q, col, vs, v)
    requires v.BytesField? && FieldLength(buf, q) == |v.bytes|
    ensures BytesHere(buf, q + 4, v.bytes)
  {
    hide FieldLength, Elements, LE, Offsets;
    PiecesOf(vs, v);
    PieceAppended(BytesOf(vs), v.bytes);
    var whole := DecodeField(t, buf, q, |vs|, col).column.binary;
    assert whole == col.binary + v.bytes;
    if v.bytes != [] {
      assert whole == col.binary + buf[q + 4..q + 4 + |v.bytes|];
      assert whole[|col.binary|..] == v.bytes == buf[q + 4..q + 4 + |v.bytes|];
    }
  }

  lemma {:induction false} SeenIsStored(t: FieldType, buf: seq<byte>, q: nat, col: Column, vs: seq<Field>, v: Field)
    requires HasType(t, v) && Holds(t, col, vs) && Sees(t, buf, q, v)
    ensures Stores(t, buf, q, col, vs, v)
  {
    if t == BOOL { BoolSeenIsStored(buf, q, col, vs, v); }
    else if Fixed(t) { FixedSeenIsStored(t, buf, q, col, vs, v); }
    else {
      BytesDecoded(t, buf, q, |vs|, col, v.bytes);
      BytesRecorded(t, col, vs, v);
    }
  }

  lemma {:induction false} BoolSeenIsStored(buf: seq<byte>, q: nat, col: Column, vs: seq<Field>, v: Field)
    requires HasType(BOOL, v) && Holds(BOOL, col, vs) && Sees(BOOL, buf, q, v)
    ensures Stores(BOOL, buf, q, col, vs, v)
  {
    var r, ws := DecodeField(BOOL, buf, q, |vs|, col), vs + [v];
    forall k | 0 <= k < |ws| && !ws[k].NullField? ensures BitAt(r.column.data, k) == ws[k].b {
      PutBitReads(col.data, |vs|, buf[q + 4] == 1, k);
    }
  }

  lemma {:induction false} FixedSeenIsStored(
      t: FieldType, buf: seq<byte>, q: nat, col: Column, vs: seq<Field>, v: Field)
    requires Fixed(t) && HasType(t, v) && Holds(t, col, vs) && Sees(t, buf, q, v)
    ensures Stores(t, buf, q, col, vs, v)
  {
    hide FieldLength, FromBE, Pow256;
    var w := Width(t);
    var bits := if t == INT8 && v.NullField? then 0 else FromBE(buf[q + 4..q + 4 + w]);
    var r := DecodeField(t, buf, q, |vs|, col);
    assert r.column.data == col.data + LE(w, bits);
    Widths();
    MultipleDivides(w, |vs|);
    AppendElement(w, col.data, bits);
  }

  // ---------------------------------------------------------------------
  // Reading a column
  // ---------------------------------------------------------------------

  predicate Readable(t: FieldType, col: Column, n: nat) {
    Sized(t, col, n) && (t == BYTEA || t == TEXT ==> ProperOffsets(col.data, col.binary, n))
  }

  /** What an Arrow consumer sees in row k. */
  function ReadField(t: FieldType, col: Column, n: nat, k: nat): Field
    requires Readable(t, col, n) && k < n
  {
    if !col.validity[k] then NullField
    else if t == BOOL then BoolField(BitAt(col.data, k))
    else if Fixed(t) then
      MultipleDivides(Width(t), n);
      FixedField(t, Elements(Width(t), col.data)[k])
    else BytesField(Slice(col.data, col.binary, n, k))
  }

  function FixedField(t: FieldType, bits: nat): Field
    requires Fixed(t)
  {
    var (narrow, wide) := (bits % TWO_32, bits % TWO_64);
    match t
    case FLOAT8 => Float8Field(wide)
    case FLOAT4 => Float4Field(narrow)
    case INT2 => Int2Field(Signed(0x1_0000, bits % 0x1_0000))
    case INT4 => Int4Field(Signed(TWO_32, narrow))
    case INT8 => Int8Field(Signed(TWO_64, wide))
  }

  lemma {:induction false} FixedReadsBack(t: FieldType, v: Field)
    requires Fixed(t) && HasType(t, v) && !v.NullField?
    ensures FixedField(t, FixedBits(v)) == v
  {
    if t == INT2 { SignedUnsigned(0x1_0000, v.i2); }
    if t == INT4 { SignedUnsigned(TWO_32, v.i4); }
    if t == INT8 { SignedUnsigned(TWO_64, v.i8); }
  }

  /** The values' own bytes, as far as they have any. */
  function ByteCount(vs: seq<Field>): nat { TotalSize(BytesOf(vs)) }

  /** A column that holds values is readable exactly when their bytes come to less than
      2^31, and reading it gives the values. */
  lemma {:induction false} ColumnReadsBack(t: FieldType, col: Column, vs: seq<Field>)
    requires Holds(t, col, vs)
    ensures Readable(t, col, |vs|) <==> (t == BYTEA || t == TEXT ==> ByteCount(vs) < TWO_31)
    ensures Readable(t, col, |vs|) ==> forall k | 0 <= k < |vs| :: ReadField(t, col, |vs|, k) == vs[k]
  {
    if t == BYTEA || t == TEXT { ProperExactly(col.data, col.binary, BytesOf(vs)); }
    else if Fixed(t) {
      forall k | 0 <= k < |vs| && !vs[k].NullField? ensures FixedField(t, FixedBits(vs[k])) == vs[k] {
        FixedReadsBack(t, vs[k]);
      }
    }
  }
}
