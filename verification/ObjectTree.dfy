/** Database metadata as a tree, the server's flat listings, and the tree as their
    nested-loop join. */
module ObjectTree {
  import opened LikePattern
  import opened Wrappers

  datatype Depth = ALL | CATALOGS | SCHEMAS | TABLES

  // ---------------------------------------------------------------------
  // What the server lists
  // ---------------------------------------------------------------------

  datatype SchemaRow = SchemaRow(catalog: Option<string>, schema: string)

  /** The table's own schema is a list of column names; it may fail to decode. */
  datatype TableRow =
    TableRow(catalog: Option<string>, schema: Option<string>, name: string, tableType: string,
        columns: Option<seq<string>>)

  datatype TableInfo = TableInfo(name: string, tableType: string, columns: seq<string>)

  /** A table's own schema is wanted only at full depth. */
  predicate Decodes(depth: Depth, row: TableRow) { depth == ALL ==> row.columns.Some? }

  predicate AllDecode(depth: Depth, rows: seq<TableRow>) { forall i | 0 <= i < |rows| :: Decodes(depth, rows[i]) }

  /** A missing catalog or schema goes by the empty name. */
  function NameOf(name: Option<string>): string {
    match name case None => "" case Some(s) => s
  }

  // ---------------------------------------------------------------------
  // The result; a list below the requested depth is absent
  // ---------------------------------------------------------------------

  datatype Column = Column(name: string, ordinal: int)
  datatype Table = Table(name: string, tableType: string, columns: Option<seq<Column>>,
      constraints: Option<seq<string>>)
  datatype Schema = Schema(name: string, tables: Option<seq<Table>>)
  datatype Catalog = Catalog(name: string, schemas: Option<seq<Schema>>)

  // ---------------------------------------------------------------------
  // The join
  // ---------------------------------------------------------------------

  /** A name passes if it matches the pattern; in a name with a newline, wildcards stop at
      the newline. */
  predicate Kept(pattern: Option<string>, name: string) {
    pattern.Some? ==> if NewlineFree(name) then Like(pattern.value, name) else LikeOnLine(pattern.value, name)
  }

  /** Columns n.. of a table, with their positions counted over all its columns. */
  function ColumnsFrom(columns: seq<string>, n: nat, pattern: Option<string>): seq<Column>
    requires n <= |columns|
    decreases |columns| - n
  {
    if n == |columns| then []
    else (if Kept(pattern, columns[n]) then [Column(columns[n], n + 1)] else []) + ColumnsFrom(columns, n + 1, pattern)
  }

  function TableOf(depth: Depth, info: TableInfo, columnPattern: Option<string>): Table {
    if depth == TABLES then Table(info.name, info.tableType, None, None)
    else Table(info.name, info.tableType, Some(ColumnsFrom(info.columns, 0, columnPattern)), Some([]))
  }

  function InfoOf(depth: Depth, row: TableRow): TableInfo {
    TableInfo(row.name, row.tableType, if depth == ALL && row.columns.Some? then row.columns.value else [])
  }

  /** The tables of one catalog and schema, in the server's order. */
  function TablesOf(depth: Depth, rows: seq<TableRow>, catalog: string, schema: string): seq<TableInfo> {
    if rows == [] then []
    else
      var (init, last) := (rows[..|rows| - 1], rows[|rows| - 1]);
      TablesOf(depth, init, catalog, schema) +
      if NameOf(last.catalog) == catalog && NameOf(last.schema) == schema then [InfoOf(depth, last)] else []
  }

  /** The schemas of one catalog, in the server's order. */
  function SchemasOf(rows: seq<SchemaRow>, catalog: string): seq<string> {
    if rows == [] then []
    else
      var (init, last) := (rows[..|rows| - 1], rows[|rows| - 1]);
      SchemasOf(init, catalog) + if NameOf(last.catalog) == catalog then [last.schema] else []
  }

  datatype Request = Request(depth: Depth, catalogPattern: Option<string>, columnPattern: Option<string>)

  datatype Listing = Listing(catalogs: seq<string>, schemas: seq<SchemaRow>, tables: seq<TableRow>)

  function JoinTables(q: Request, infos: seq<TableInfo>): seq<Table> {
    seq(|infos|, i requires 0 <= i < |infos| => TableOf(q.depth, infos[i], q.columnPattern))
  }

  function JoinSchema(q: Request, l: Listing, catalog: string, schema: string): Schema {
    Schema(schema,
           if q.depth == SCHEMAS then None
           else Some(JoinTables(q, TablesOf(q.depth, l.tables, catalog, schema))))
  }

  function JoinSchemas(q: Request, l: Listing, catalog: string, names: seq<string>): seq<Schema> {
    seq(|names|, i requires 0 <= i < |names| => JoinSchema(q, l, catalog, names[i]))
  }

  function JoinCatalog(q: Request, l: Listing, catalog: string): Catalog {
    Catalog(catalog,
            if q.depth == CATALOGS then None
            else Some(JoinSchemas(q, l, catalog, SchemasOf(l.schemas, catalog))))
  }

  function JoinCatalogs(q: Request, l: Listing, names: seq<string>): seq<Catalog> {
    seq(|names|, i requires 0 <= i < |names| => JoinCatalog(q, l, names[i]))
  }

  /** Servers without catalogs still have schemas: they are shown under the empty name. */
  function ListedCatalogs(q: Request, l: Listing): seq<string> {
    if l.catalogs == [] && q.depth != CATALOGS then [""] else l.catalogs
  }

  function KeptNames(pattern: Option<string>, names: seq<string>): seq<string> {
    if names == [] then []
    else
      var (init, last) := (names[..|names| - 1], names[|names| - 1]);
      KeptNames(pattern, init) + if Kept(pattern, last) then [last] else []
  }

  function Join(q: Request, l: Listing): seq<Catalog> {
    JoinCatalogs(q, l, KeptNames(q.catalogPattern, ListedCatalogs(q, l)))
  }

  // ---------------------------------------------------------------------
  // A shallower depth truncates the full tree
  // ---------------------------------------------------------------------

  function TruncateTable(depth: Depth, t: Table): Table {
    if depth == TABLES then t.(columns := None, constraints := None) else t
  }

  function TruncateSchema(depth: Depth, s: Schema): Schema {
    if depth == SCHEMAS || s.tables.None? then s.(tables := None)
    else
      var ts := s.tables.value;
      s.(tables := Some(seq(|ts|, i requires 0 <= i < |ts| => TruncateTable(depth, ts[i]))))
  }

  function TruncateCatalog(depth: Depth, c: Catalog): Catalog {
    if depth == CATALOGS || c.schemas.None? then c.(schemas := None)
    else
      var ss := c.schemas.value;
      c.(schemas := Some(seq(|ss|, i requires 0 <= i < |ss| => TruncateSchema(depth, ss[i]))))
  }

  function Truncate(depth: Depth, tree: seq<Catalog>): seq<Catalog> {
    seq(|tree|, i requires 0 <= i < |tree| => TruncateCatalog(depth, tree[i]))
  }

  lemma {:induction false} SameTables(depth: Depth, rows: seq<TableRow>, catalog: string, schema: string)
    ensures var (some, all) := (TablesOf(depth, rows, catalog, schema), TablesOf(ALL, rows, catalog, schema));
            |some| == |all| && forall i | 0 <= i < |all| ::
                some[i].name == all[i].name && some[i].tableType == all[i].tableType
  {
    if rows != [] { SameTables(depth, rows[..|rows| - 1], catalog, schema); }
  }

  lemma {:induction false} SchemaTruncates(q: Request, l: Listing, catalog: string, schema: string)
    requires q.depth != CATALOGS
    ensures JoinSchema(q, l, catalog, schema)
              == TruncateSchema(q.depth, JoinSchema(q.(depth := ALL), l, catalog, schema))
  {
    SameTables(q.depth, l.tables, catalog, schema);
    if q.depth != SCHEMAS {
      assert JoinSchema(q, l, catalog, schema).tables.value
          == TruncateSchema(q.depth, JoinSchema(q.(depth := ALL), l, catalog, schema)).tables.value;
    }
  }

  lemma {:induction false} CatalogTruncates(q: Request, l: Listing, catalog: string)
    ensures JoinCatalog(q, l, catalog) == TruncateCatalog(q.depth, JoinCatalog(q.(depth := ALL), l, catalog))
  {
    if q.depth != CATALOGS {
      var names := SchemasOf(l.schemas, catalog);
      forall i | 0 <= i < |names|
        ensures JoinSchema(q, l, catalog, names[i])
                  == TruncateSchema(q.depth, JoinSchema(q.(depth := ALL), l, catalog, names[i]))
      {
        SchemaTruncates(q, l, catalog, names[i]);
      }
      assert JoinCatalog(q, l, catalog).schemas.value
          == TruncateCatalog(q.depth, JoinCatalog(q.(depth := ALL), l, catalog)).schemas.value;
    }
  }

  /** A shallower result is the full result with the deeper lists replaced by null,
      except where only the full result stands in for missing catalogs. */
  lemma {:induction false} DepthTruncates(q: Request, l: Listing)
    ensures Join(q, l) == Truncate(q.depth, Join(q.(depth := ALL), l))
            <==> !(q.depth == CATALOGS && l.catalogs == [] && Kept(q.catalogPattern, ""))
  {
    hide JoinCatalog, TruncateCatalog, Kept;
    var full := q.(depth := ALL);
    var names, allNames := KeptNames(q.catalogPattern, ListedCatalogs(q, l)),
        KeptNames(q.catalogPattern, ListedCatalogs(full, l));
    if q.depth == CATALOGS && l.catalogs == [] {
      assert [""][..0] == [] && names == [];
      assert |allNames| == if Kept(q.catalogPattern, "") then 1 else 0;
    } else {
      forall i | 0 <= i < |names|
        ensures JoinCatalog(q, l, names[i]) == TruncateCatalog(q.depth, JoinCatalog(full, l, names[i]))
      {
        CatalogTruncates(q, l, names[i]);
      }
    }
  }
}
