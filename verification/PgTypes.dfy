/** The driver's table of server types. */
module PgTypes {
  import opened Bytes
  import opened Wrappers

  datatype PgType =
    | Bit | Bool | Date | Float4 | Float8 | Int2 | Int4 | Int8
    | Text | Time | Timestamp | TimestampTz | TimeTz | VarBinary | VarChar

  /** A row of pg_catalog.pg_type. */
  datatype TypeRow = TypeRow(oid: UInt32, typname: string, typreceive: string)

  function FromPgTypreceive(typreceive: string): Option<PgType> {
    if typreceive == "bitrecv" then Some(Bit)
    else if typreceive == "bytearecv" then Some(VarBinary)
    else if typreceive == "boolrecv" then Some(Bool)
    else if typreceive == "bpcharrecv" then Some(VarChar)
    else if typreceive == "date_recv" then Some(Date)
    else if typreceive == "float4recv" then Some(Float4)
    else if typreceive == "float8recv" then Some(Float8)
    else if typreceive == "int2recv" then Some(Int2)
    else if typreceive == "int4recv" then Some(Int4)
    else if typreceive == "int8recv" then Some(Int8)
    else if typreceive == "textrecv" then Some(Text)
    else if typreceive == "time_recv" then Some(Time)
    else if typreceive == "timestamp_recv" then Some(Timestamp)
    else if typreceive == "timestamptz_recv" then Some(TimestampTz)
    else if typreceive == "timetz_recv" then Some(TimeTz)
    else if typreceive == "varcharrecv" then Some(VarChar)
    else None
  }

  /** The receive functions of a type, the other way round. */
  predicate ReceivedBy(t: PgType, name: string) {
    match t
    case Bit => name == "bitrecv"
    case Bool => name == "boolrecv"
    case Date => name == "date_recv"
    case Float4 => name == "float4recv"
    case Float8 => name == "float8recv"
    case Int2 => name == "int2recv"
    case Int4 => name == "int4recv"
    case Int8 => name == "int8recv"
    case Text => name == "textrecv"
    case Time => name == "time_recv"
    case Timestamp => name == "timestamp_recv"
    case TimestampTz => name == "timestamptz_recv"
    case TimeTz => name == "timetz_recv"
    case VarBinary => name == "bytearecv"
    case VarChar => name == "varcharrecv" || name == "bpcharrecv"
  }

  /** A receive function belongs to at most one type, the one it resolves to. */
  lemma ReceiversExact(typreceive: string, t: PgType)
    ensures FromPgTypreceive(typreceive) == Some(t) <==> ReceivedBy(t, typreceive)
  {
  }

  class TypeMapping {
    var types: map<UInt32, PgType>
    var canonical: map<PgType, UInt32>

    /** Only two types ever get a canonical OID. */
    predicate Valid()
      reads this
    {
      canonical.Keys <= {Int8, Text}
    }

    constructor ()
      ensures Valid() && types == map[] && canonical == map[]
    {
      types, canonical := map[], map[];
    }

    method Insert(row: TypeRow)
      requires Valid()
      modifies this
      ensures Valid()
      ensures types == match FromPgTypreceive(row.typreceive)
                       case Some(t) => old(types)[row.oid := t]
                       case None => old(types)
      ensures canonical == if row.typname == "int8" then old(canonical)[Int8 := row.oid]
                           else if row.typname == "text" then old(canonical)[Text := row.oid]
                           else old(canonical)
    {
      var resolved := FromPgTypreceive(row.typreceive);
      if resolved.Some? { types := types[row.oid := resolved.value]; }
      if row.typname == "int8" {
        canonical := canonical[Int8 := row.oid];
      } else if row.typname == "text" {
        canonical := canonical[Text := row.oid];
      }
    }

    /** 0 when there is none. */
    function GetOid(t: PgType): UInt32
      reads this
    {
      if t in canonical then canonical[t] else 0
    }
  }

  /** The OID of the last type with this name, 0 when there is none. */
  function OidOf(rows: seq<TypeRow>, name: string): UInt32 {
    if rows == [] then 0
    else var last := rows[|rows| - 1]; if last.typname == name then last.oid else OidOf(rows[..|rows| - 1], name)
  }

  /** The type the last usable row gives an OID. */
  function TypeOf(rows: seq<TypeRow>, oid: UInt32): Option<PgType> {
    if rows == [] then None
    else
      var last := rows[|rows| - 1];
      var resolved := FromPgTypreceive(last.typreceive);
      if last.oid == oid && resolved.Some? then resolved else TypeOf(rows[..|rows| - 1], oid)
  }

  /** The table built from pg_type resolves every OID by its last usable row, and knows
      canonical OIDs for int8 and text only. */
  method LoadTypes(rows: seq<TypeRow>) returns (mapping: TypeMapping)
    ensures fresh(mapping) && mapping.Valid()
    ensures forall oid :: TypeOf(rows, oid) == if oid in mapping.types then Some(mapping.types[oid]) else None
    ensures forall t ::
              mapping.GetOid(t) == if t == Int8 then OidOf(rows, "int8")
                  else if t == Text then OidOf(rows, "text") else 0
  {
    hide FromPgTypreceive;
    mapping := new TypeMapping();
    for i := 0 to |rows|
      invariant fresh(mapping) && mapping.Valid()
      invariant forall oid :: TypeOf(rows[..i], oid) == if oid in mapping.types then Some(mapping.types[oid]) else None
      invariant mapping.GetOid(Int8) == OidOf(rows[..i], "int8") && mapping.GetOid(Text) == OidOf(rows[..i], "text")
    {
      mapping.Insert(rows[i]);
      assert rows[..i + 1][..i] == rows[..i];
    }
    assert rows[..|rows|] == rows;
  }
}
