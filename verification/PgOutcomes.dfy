/** What the COPY reader reports when a message is not what it expects. */
module PgOutcomes {
  import opened Bytes
  import opened PgCopy
  import opened PgTuple

  /** The unsigned 16-bit word in front of a tuple. */
  function CountWord(buf: seq<byte>, p: nat): nat
    requires p + 2 <= |buf|
  {
    var high: int, low: int := buf[p], buf[p + 1];
    256 * high + low
  }

  /** The message announces a tuple of this many fields. */
  predicate Announces(types: seq<FieldType>, buf: seq<byte>, p: nat) {
    p + 2 <= |buf| && CountWord(buf, p) == |types| && |types| < 0x8000
  }

  /** The fields before c decode, and c is a bool whose byte is neither 0 nor 1. */
  predicate BadBool(types: seq<FieldType>, buf: seq<byte>, p: int, row: nat, columns: seq<Column>, c: nat)
    requires c < |types| && AllSized(types, columns, row)
  {
    && types[c] == BOOL && DecodeFields(types, buf, p, row, columns, c).FieldsDone?
    && var q := DecodeFields(types, buf, p, row, columns, c).next;
       0 <= q && q + 5 <= |buf| && buf[q + 4] > 1
  }

  lemma {:induction false} InvalidField(t: FieldType, buf: seq<byte>, q: int, row: nat, col: Column)
    requires Sized(t, col, row)
    ensures DecodeField(t, buf, q, row, col).Invalid? <==> t == BOOL && 0 <= q && q + 5 <= |buf| && buf[q + 4] > 1
  {
  }

  lemma {:induction false} InvalidExactly(
      types: seq<FieldType>, buf: seq<byte>, p: int, row: nat, columns: seq<Column>, k: nat)
    requires k <= |types| && AllSized(types, columns, row)
    ensures DecodeFields(types, buf, p, row, columns, k).FieldsInvalid? <==>
            exists c | 0 <= c < k :: BadBool(types, buf, p, row, columns, c)
  {
    hide Sized, DecodeField;
    if k > 0 {
      InvalidExactly(types, buf, p, row, columns, k - 1);
      var before := DecodeFields(types, buf, p, row, columns, k - 1);
      if before.FieldsDone? {
        InvalidField(types[k - 1], buf, before.next, row, before.columns[k - 1]);
        assert DecodeFields(types, buf, p, row, columns, k).FieldsInvalid? <==>
               BadBool(types, buf, p, row, columns, k - 1);
      }
    }
  }

  lemma {:induction false} CountRead(buf: seq<byte>, p: nat)
    requires p + 2 <= |buf|
    ensures FromBE(buf[p..p + 2]) == CountWord(buf, p)
  {
    var s := buf[p..p + 2];
    assert s[..1] == [buf[p]] && [buf[p]][..0] == [];
    assert FromBE([buf[p]]) == buf[p];
  }

  /** EIO is exactly an announced count of fields that is neither the schema's nor the trailer's
      -1, EINVAL exactly a byte that is no bool, and a failure adds nothing. */
  lemma {:induction false} AppendFails(types: seq<FieldType>, buf: seq<byte>, p: nat, row: nat, columns: seq<Column>)
    requires AllSized(types, columns, row)
    ensures var (r, start) := (AppendSpec(types, buf, p, row, columns), p + 2);
            && (r.code == EIO <==>
                  p + 2 <= |buf| && CountWord(buf, p) != 0xFFFF && !Announces(types, buf, p))
            && (r.code == EINVAL <==>
                  Announces(types, buf, p) && exists c | 0 <= c < |types| ::
                      BadBool(types, buf, start, row, columns, c))
            && (r.code == SUCCESS ==> r.count == if Announces(types, buf, p) then row + 1 else row)
            && r.code != UNFINISHED
            && (r.code != SUCCESS ==> r.count == row && r.columns == columns)
  {
    hide DecodeFields, AllSized, BadBool;
    if p + 2 <= |buf| {
      CountRead(buf, p);
      InvalidExactly(types, buf, p + 2, row, columns, |types|);
    }
  }

  /** A header is accepted exactly when it is one: the signature, no flags, and an extension of
      the announced length, behind which the first tuple is looked for. */
  lemma {:induction false} HeaderExactly(buf: seq<byte>, pos: nat)
    requires pos <= |buf|
    ensures ParseHeader(buf) == TupleAt(pos) <==>
            19 <= pos && pos - 19 < TWO_32 && buf[..pos] == EncodeHeader(buf[19..pos])
  {
    if 19 <= pos && pos - 19 < TWO_32 && buf[..pos] == EncodeHeader(buf[19..pos]) {
      HeaderParsed(buf[19..pos], buf[pos..]);
      assert buf == buf[..pos] + buf[pos..];
    }
    if ParseHeader(buf) == TupleAt(pos) {
      Widths();
      BEInverse(buf[11..15]);
      BEInverse(buf[15..19]);
      assert buf[..pos] == buf[..11] + buf[11..15] + buf[15..19] + buf[19..pos];
    }
  }

  /** A server that sends another number of columns than the schema has is refused with EIO at
      its first tuple. */
  lemma {:induction false} WrongColumnCount(
    types: seq<FieldType>, extension: seq<byte>, tuples: seq<Tuple>, finishOk: bool, commandOk: bool)
    requires |extension| < TWO_32 && tuples != [] && |tuples[0]| < 0x8000
    requires |tuples[0]| != |types|
    ensures var r := GetNextSpec(types, Frame(extension, tuples), finishOk, commandOk);
            r.count == 0 && r.code == if commandOk && !finishOk then UNFINISHED else EIO
  {
    hide AllSized, EncodeHeader, ParseHeader, EncodeFields, DecodeFields;
    var header, item := EncodeHeader(extension), Items(tuples)[0];
    var buf, p, n := header + item, |header|, |tuples[0]|;
    HeaderParsed(extension, item);
    assert buf[p..p + 2] == BE(2, n);
    Widths();
    BERoundTrip(2, n);
    CountRead(buf, p);
    AppendFails(types, buf, p, 0, EmptyColumns(types));
  }
}
