/** The SQLite driver's type-inferring column builder.

    Every column starts as INT64 and is upcast in place (int64 <: double <: string)
    when a wider value arrives.  The specification below looks at the whole column
    at once; the builder sees one value at a time and rewrites its buffers. */
module SqliteInfer {
  import opened Bytes
  import opened VarLength

  /** A double is its bit pattern; nothing below computes with doubles. */
  type Double = UInt64

  /** What "%e" prints fits the 64 bytes the driver reserves for it. */
  type ShortText = s: seq<byte> | |s| < 64 witness []

  /** The two conversions the driver leaves to the platform. */
  datatype Env = Env(toDouble: Int64 -> Double, formatE: Double -> ShortText)

  /** A SQLite value with its storage class. */
  datatype Value = Null | Integer(i: Int64) | Float(d: Double) | Text(t: seq<byte>) | Blob(b: seq<byte>)

  datatype ColumnType = INT64 | DOUBLE | STRING

  /** A cell of a finished Arrow column. */
  datatype Cell = NullCell | IntCell(i: Int64) | DoubleCell(d: Double) | TextCell(t: seq<byte>)

  datatype Status = OK | IO | INTERNAL

  // ---------------------------------------------------------------------
  // Decimal printing
  // ---------------------------------------------------------------------

  function Digits(n: nat): (s: seq<byte>) {
    if n < 10 then [48 + n] else Digits(n / 10) + [48 + n % 10]
  }

  /** What snprintf prints for PRId64. */
  function Decimal(v: int): seq<byte> {
    if v < 0 then [45] + Digits(-v) else Digits(v)
  }

  function Pow10(k: nat): nat {
    if k == 0 then 1 else 10 * Pow10(k - 1)
  }

  lemma {:induction false} DigitsBound(n: nat, k: nat)
    requires k > 0 && n < Pow10(k)
    ensures |Digits(n)| <= k
  {
    if n >= 10 { DigitsBound(n / 10, k - 1); }
  }

  /** Nineteen digits and a sign: the 21-byte buffer is never too small. */
  lemma {:induction false} DecimalFits(v: Int64)
    ensures |Decimal(v)| <= 20
  {
    assert Pow10(5) == 100000 by { assert Pow10(3) == 1000; }
    assert Pow10(9) == 1000000000 by { assert Pow10(7) == 10000000; }
    assert Pow10(13) == 10000000000000 by { assert Pow10(11) == 100000000000; }
    assert Pow10(17) == 100000000000000000 by { assert Pow10(15) == 1000000000000000; }
    assert Pow10(19) == 10000000000000000000 by { assert Pow10(18) == 10 * Pow10(17); }
    var n: int := v;
    DigitsBound(if n < 0 then -n else n, 19);
  }

  /** The number a run of digits denotes. */
  function DigitsValue(s: seq<byte>): int {
    if s == [] then 0 else 10 * DigitsValue(s[..|s| - 1]) + s[|s| - 1] - 48
  }

  predicate AllDigits(s: seq<byte>) { forall k | 0 <= k < |s| :: 48 <= s[k] <= 57 }

  /** Printing is exact: digits only, none of them a leading zero, and they denote n. */
  lemma {:induction false} DigitsExact(n: nat)
    ensures Digits(n) != [] && AllDigits(Digits(n)) && DigitsValue(Digits(n)) == n
    ensures n > 0 ==> Digits(n)[0] != 48
  {
    var s := Digits(n);
    if n < 10 { assert s[..0] == []; } else {
      DigitsExact(n / 10);
      assert s[..|s| - 1] == Digits(n / 10);
    }
  }

  /** A sign exactly for negative numbers, then the digits of the magnitude. */
  lemma {:induction false} DecimalExact(v: int)
    ensures var s := Decimal(v);
            && s != [] && (s[0] == 45 <==> v < 0)
            && AllDigits(if v < 0 then s[1..] else s)
            && (if v < 0 then -DigitsValue(s[1..]) else DigitsValue(s)) == v
  {
    DigitsExact(if v < 0 then -v else v);
    if v < 0 { assert Decimal(v)[1..] == Digits(-v); }
  }

  // ---------------------------------------------------------------------
  // The two-pass specification
  // ---------------------------------------------------------------------

  /** The index of the first TEXT value, or the length. */
  function FirstText(vs: seq<Value>): (t: nat)
    ensures t <= |vs|
    ensures forall k | 0 <= k < t :: !vs[k].Text?
    ensures t < |vs| ==> vs[t].Text?
  {
    if vs == [] then 0
    else
      var n := |vs| - 1;
      var f := FirstText(vs[..n]);
      if f < n then f else if vs[n].Text? then n else |vs|
  }

  predicate HasFloat(vs: seq<Value>) {
    exists k | 0 <= k < |vs| :: vs[k].Float?
  }

  predicate NoBlob(vs: seq<Value>) {
    forall k | 0 <= k < |vs| :: !vs[k].Blob?
  }

  /** The join of the storage classes seen. */
  function SpecType(vs: seq<Value>): ColumnType {
    if FirstText(vs) < |vs| then STRING else if HasFloat(vs) then DOUBLE else INT64
  }

  /** What a numeric column can hold. */
  predicate Numeric(v: Value) { v.Null? || v.Integer? || v.Float? }

  function AsDouble(env: Env, v: Value): Double
    requires v.Integer? || v.Float?
  {
    if v.Integer? then env.toDouble(v.i) else v.d
  }

  function OwnText(env: Env, v: Value): seq<byte>
    requires v.Integer? || v.Float? || v.Text?
  {
    match v
    case Integer(i) => Decimal(i)
    case Float(d) => env.formatE(d)
    case Text(t) => t
  }

  /** The text of entry k of a string column: before the first TEXT value the entry
      goes through the joined type of that prefix, from there on it is printed from
      its own storage class. */
  function SpecText(env: Env, vs: seq<Value>, k: nat): seq<byte>
    requires k < |vs| && !vs[k].Null? && !vs[k].Blob?
  {
    var t := FirstText(vs);
    if k < t && HasFloat(vs[..t]) then env.formatE(AsDouble(env, vs[k])) else OwnText(env, vs[k])
  }

  function SpecCell(env: Env, vs: seq<Value>, k: nat): Cell
    requires k < |vs| && !vs[k].Blob?
  {
    if vs[k].Null? then NullCell
    else match SpecType(vs)
      case INT64 => IntCell(vs[k].i)
      case DOUBLE => DoubleCell(AsDouble(env, vs[k]))
      case STRING => TextCell(SpecText(env, vs, k))
  }

  function SpecColumn(env: Env, vs: seq<Value>): (cells: seq<Cell>)
    requires NoBlob(vs)
    ensures |cells| == |vs|
  {
    seq(|vs|, k requires 0 <= k < |vs| => SpecCell(env, vs, k))
  }

  predicate AnyText(vs: seq<Value>) { exists k | 0 <= k < |vs| :: vs[k].Text? }

  /** No TEXT value up to and including k. */
  predicate BeforeText(vs: seq<Value>, k: nat)
    requires k < |vs|
  {
    forall j | 0 <= j <= k :: !vs[j].Text?
  }

  /** A FLOAT value stands before every TEXT value. */
  predicate FloatBeforeText(vs: seq<Value>) { exists j | 0 <= j < |vs| :: vs[j].Float? && BeforeText(vs, j) }

  /** The column in terms of its values alone.  The type is the least that holds all of them;
      nulls are null; a number in a numeric column is that number, converted if it stands
      among FLOAT values; a text is itself, and a number in a text column is printed, through
      the type the column had when its first text came. */
  lemma {:induction false} ColumnMeans(env: Env, vs: seq<Value>, k: nat)
    requires NoBlob(vs) && k < |vs|
    ensures SpecType(vs) == if AnyText(vs) then STRING else if HasFloat(vs) then DOUBLE else INT64
    ensures SpecColumn(env, vs)[k] ==
            match vs[k]
            case Null => NullCell
            case Text(t) => TextCell(t)
            case Integer(i) =>
              if AnyText(vs) then
                TextCell(if FloatBeforeText(vs) && BeforeText(vs, k) then env.formatE(env.toDouble(i)) else Decimal(i))
              else if HasFloat(vs) then DoubleCell(env.toDouble(i))
              else IntCell(i)
            case Float(d) => if AnyText(vs) then TextCell(env.formatE(d)) else DoubleCell(d)
            case Blob(_) => NullCell
  {
    var t := FirstText(vs);
    assert !vs[k].Blob?;
    assert AnyText(vs) <==> t < |vs|;
    assert BeforeText(vs, k) <==> k < t by { if t <= k { assert vs[t].Text?; } }
    assert HasFloat(vs[..t]) <==> FloatBeforeText(vs) by { FloatBeforeFirst(vs); }
    if vs[k].Float? { assert HasFloat(vs); }
  }

  lemma {:induction false} FloatBeforeFirst(vs: seq<Value>)
    ensures HasFloat(vs[..FirstText(vs)]) <==> FloatBeforeText(vs)
  {
    var t := FirstText(vs);
    if HasFloat(vs[..t]) {
      var j :| 0 <= j < t && vs[..t][j].Float?;
      assert vs[j].Float? && BeforeText(vs, j);
    }
    if FloatBeforeText(vs) {
      var j :| 0 <= j < |vs| && vs[j].Float? && BeforeText(vs, j);
      assert j < t;
      assert vs[..t][j].Float?;
    }
  }

  /** What stands at a null entry of a double column: the converted placeholder of the
      int64 column if no FLOAT had been seen before it, 0.0 otherwise. */
  function StoredDouble(env: Env, vs: seq<Value>, k: nat): Double
    requires k < |vs| && Numeric(vs[k])
  {
    if !vs[k].Null? then AsDouble(env, vs[k]) else if HasFloat(vs[..k]) then 0 else env.toDouble(0)
  }

  /** The bytes a string column stores for entry k.  A null from before the first TEXT value
      leaves its printed placeholder behind, a later one nothing. */
  function StoredText(env: Env, vs: seq<Value>, k: nat): seq<byte>
    requires k < |vs| && !vs[k].Blob?
  {
    var t := FirstText(vs);
    if !vs[k].Null? then SpecText(env, vs, k)
    else if k >= t then []
    else if HasFloat(vs[..t]) then env.formatE(StoredDouble(env, vs, k))
    else Decimal(0)
  }

  function StoredTexts(env: Env, vs: seq<Value>): (texts: seq<seq<byte>>)
    requires NoBlob(vs)
    ensures |texts| == |vs|
  {
    seq(|vs|, k requires 0 <= k < |vs| => StoredText(env, vs, k))
  }

  /** The character data of the column, in bytes. */
  function TextSize(env: Env, vs: seq<Value>): nat
    requires NoBlob(vs)
  {
    TotalSize(StoredTexts(env, vs))
  }

  lemma {:induction false} FirstTextAppend(vs: seq<Value>, v: Value)
    ensures FirstText(vs + [v]) ==
            if FirstText(vs) < |vs| then FirstText(vs) else if v.Text? then |vs| else |vs| + 1
  {
    assert (vs + [v])[..|vs|] == vs;
  }

  lemma {:induction false} HasFloatAppend(vs: seq<Value>, v: Value)
    ensures HasFloat(vs + [v]) == (HasFloat(vs) || v.Float?)
  {
    var w := vs + [v];
    if k :| 0 <= k < |vs| && vs[k].Float? { assert w[k].Float?; }
    if v.Float? { assert w[|vs|].Float?; }
  }

  lemma {:induction false} StoredDoubleAppend(env: Env, vs: seq<Value>, v: Value, k: nat)
    requires k < |vs| && Numeric(vs[k])
    ensures StoredDouble(env, vs + [v], k) == StoredDouble(env, vs, k)
  {
    assert (vs + [v])[..k] == vs[..k];
  }

  /** Appending to a column that already is a string column rewrites nothing. */
  lemma {:induction false} StoredTextAppend(env: Env, vs: seq<Value>, v: Value, k: nat)
    requires k < |vs| && !vs[k].Blob? && SpecType(vs) == STRING
    ensures StoredText(env, vs + [v], k) == StoredText(env, vs, k)
  {
    FirstTextAppend(vs, v);
    assert (vs + [v])[..FirstText(vs)] == vs[..FirstText(vs)];
    if vs[k].Null? { StoredDoubleAppend(env, vs, v, k); }
  }

  /** The first TEXT value fixes how everything before it is printed, placeholders of nulls
      included. */
  lemma {:induction false} StoredTextAtFirst(env: Env, vs: seq<Value>, v: Value, k: nat)
    requires k < |vs| && !vs[k].Blob? && SpecType(vs) != STRING && v.Text?
    ensures StoredText(env, vs + [v], k)
            == if SpecType(vs) == DOUBLE then env.formatE(StoredDouble(env, vs, k))
               else Decimal(if vs[k].Null? then 0 else vs[k].i)
  {
    FirstTextAppend(vs, v);
    assert (vs + [v])[..|vs|] == vs;
    StoredDoubleAppend(env, vs, v, k);
  }

  // ---------------------------------------------------------------------
  // Buffers
  // ---------------------------------------------------------------------

  /** nanoarrow's growable buffer; `hasData` is data != NULL. */
  datatype Buffer = Buffer(bytes: seq<byte>, capacity: nat, hasData: bool) {
    predicate Valid() { |bytes| <= capacity && (capacity > 0 ==> hasData) }

    /** Room for `additional` more bytes, doubling the capacity when that is more. */
    function Reserve(additional: nat): (b: Buffer)
      requires Valid()
      ensures b.Valid() && b.bytes == bytes && b.capacity >= capacity && |bytes| + additional <= b.capacity
    {
      var min := |bytes| + additional;
      if min <= capacity then this
      else Buffer(bytes, if 2 * capacity > min then 2 * capacity else min, true)
    }

    /** No check: the caller must have reserved the room. */
    function AppendUnsafe(s: seq<byte>): (b: Buffer)
      requires Valid() && |bytes| + |s| <= capacity
      ensures b.Valid()
    {
      Buffer(bytes + s, capacity, hasData)
    }

    function Append(s: seq<byte>): (b: Buffer)
      requires Valid()
      ensures b.Valid() && b.bytes == bytes + s && b.capacity >= capacity
    {
      Reserve(|s|).AppendUnsafe(s)
    }
  }

  const EMPTY := Buffer([], 0, false)

  // ---------------------------------------------------------------------
  // The finished Arrow array
  // ---------------------------------------------------------------------

  datatype ArrowArray = ArrowArray(columnType: ColumnType, validity: seq<bool>, data: seq<byte>, binary: seq<byte>)

  /** The layout Arrow demands: one validity bit per entry, eight bytes per number,
      proper offsets for strings. */
  predicate WellFormed(a: ArrowArray) {
    var n := |a.validity|;
    if a.columnType == STRING then ProperOffsets(a.data, a.binary, n) else |a.data| == 8 * n
  }

  /** What an Arrow consumer reads at entry k. */
  function ReadCell(a: ArrowArray, k: nat): Cell
    requires WellFormed(a) && k < |a.validity|
  {
    if !a.validity[k] then NullCell
    else match a.columnType
      case INT64 => Widths(); IntCell(AsInt64(Elements(8, a.data)[k]))
      case DOUBLE => Widths(); DoubleCell(AsBits(Elements(8, a.data)[k]))
      case STRING => TextCell(Slice(a.data, a.binary, |a.validity|, k))
  }

  function AsInt64(u: nat): Int64 {
    if u < TWO_64 then Signed(TWO_64, u) else 0
  }

  function AsBits(u: nat): Double {
    if u < TWO_64 then u else 0
  }

  function ReadColumn(a: ArrowArray): seq<Cell>
    requires WellFormed(a)
  {
    seq(|a.validity|, k requires 0 <= k < |a.validity| => ReadCell(a, k))
  }
}
