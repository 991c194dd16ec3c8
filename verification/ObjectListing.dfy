/** What a tree of database objects must show of the server's listings, row by row, and that
    the join is the one tree that does. */
module ObjectListing {
  import opened ObjectTree
  import opened Wrappers

  // ---------------------------------------------------------------------
  // Choosing rows
  // ---------------------------------------------------------------------

  /** The positions of the flags that are set, in order. */
  predicate Enumerates(at: seq<nat>, flags: seq<bool>) {
    && (forall i, j | 0 <= i < j < |at| :: at[i] < at[j])
    && (forall i | 0 <= i < |at| :: at[i] < |flags|)
    && (forall k | 0 <= k < |flags| :: k in at <==> flags[k])
  }

  function Where(flags: seq<bool>): seq<nat> {
    if flags == [] then [] else Where(flags[..|flags| - 1]) + if flags[|flags| - 1] then [|flags| - 1] else []
  }

  lemma {:induction false} WhereEnumerates(flags: seq<bool>)
    ensures Enumerates(Where(flags), flags)
  {
    if flags != [] {
      var n := |flags| - 1;
      WhereEnumerates(flags[..n]);
      var init := Where(flags[..n]);
      forall k | 0 <= k < |flags| ensures k in Where(flags) <==> flags[k] {
        if k < n { assert flags[..n][k] == flags[k]; }
      }
    }
  }

  /** The last flag decides about the last position. */
  lemma {:induction false} EnumeratesLast(at: seq<nat>, flags: seq<bool>)
    requires flags != [] && Enumerates(at, flags) && flags[|flags| - 1]
    ensures at != [] && at[|at| - 1] == |flags| - 1 && Enumerates(at[..|at| - 1], flags[..|flags| - 1])
  {
    var n, m := |flags| - 1, |at| - 1;
    assert n in at;
    var i :| 0 <= i < |at| && at[i] == n;
    assert at[m] <= n && i == m;
    forall k | 0 <= k < n ensures k in at[..m] <==> flags[..n][k] {
      assert k in at <==> flags[k];
      if k in at {
        var x :| 0 <= x < |at| && at[x] == k;
        assert x < m && at[..m][x] == k;
      }
    }
  }

  lemma {:induction false} EnumeratesRest(at: seq<nat>, flags: seq<bool>)
    requires flags != [] && Enumerates(at, flags) && !flags[|flags| - 1]
    ensures Enumerates(at, flags[..|flags| - 1])
  {
    var n := |flags| - 1;
    assert n !in at;
    forall i | 0 <= i < |at| ensures at[i] < n { assert at[i] in at; }
    forall k | 0 <= k < n ensures k in at <==> flags[..n][k] { assert k in at <==> flags[k]; }
  }

  /** There is only one such enumeration. */
  lemma {:induction false} OnlyWhere(at: seq<nat>, flags: seq<bool>)
    requires Enumerates(at, flags)
    ensures at == Where(flags)
    decreases |flags|
  {
    if flags == [] {
      assert at == [];
    } else if flags[|flags| - 1] {
      EnumeratesLast(at, flags);
      OnlyWhere(at[..|at| - 1], flags[..|flags| - 1]);
    } else {
      EnumeratesRest(at, flags);
      OnlyWhere(at, flags[..|flags| - 1]);
    }
  }

  // ---------------------------------------------------------------------
  // What is shown where
  // ---------------------------------------------------------------------

  /** A name stands under itself, a missing one under the empty name. */
  predicate StandsUnder(name: Option<string>, shown: string) {
    name == Some(shown) || (name == None && shown == "")
  }

  function KeptFlags(pattern: Option<string>, names: seq<string>): seq<bool> {
    seq(|names|, k requires 0 <= k < |names| => Kept(pattern, names[k]))
  }

  function SchemaFlags(rows: seq<SchemaRow>, catalog: string): seq<bool> {
    seq(|rows|, k requires 0 <= k < |rows| => StandsUnder(rows[k].catalog, catalog))
  }

  function TableFlags(rows: seq<TableRow>, catalog: string, schema: string): seq<bool> {
    seq(|rows|, k requires 0 <= k < |rows| =>
        StandsUnder(rows[k].catalog, catalog) && StandsUnder(rows[k].schema, schema))
  }

  /** The columns the pattern keeps, each with its position in the table, counted from one. */
  predicate ColumnsAt(pattern: Option<string>, names: seq<string>, columns: seq<Column>, at: seq<nat>) {
    && Enumerates(at, KeptFlags(pattern, names)) && |at| == |columns|
    && forall i | 0 <= i < |at| :: columns[i].name == names[at[i]] && columns[i].ordinal == at[i] + 1
  }

  ghost predicate ShowsColumns(pattern: Option<string>, names: seq<string>, columns: seq<Column>) {
    exists at: seq<nat> :: ColumnsAt(pattern, names, columns, at)
  }

  /** A row's own name and type, and at full depth its columns and no constraint. */
  ghost predicate ShowsTable(q: Request, row: TableRow, t: Table) {
    && t.name == row.name && t.tableType == row.tableType
    && (q.depth == TABLES ==> t.columns == None && t.constraints == None)
    && (q.depth == ALL ==>
          && t.columns.Some? && t.constraints == Some([])
          && row.columns.Some? && ShowsColumns(q.columnPattern, row.columns.value, t.columns.value))
  }

  /** The rows of this catalog and schema, in the server's order. */
  ghost predicate TablesAt(
      q: Request, rows: seq<TableRow>, catalog: string, schema: string, tables: seq<Table>, at: seq<nat>)
  {
    && Enumerates(at, TableFlags(rows, catalog, schema)) && |at| == |tables|
    && forall i | 0 <= i < |at| :: ShowsTable(q, rows[at[i]], tables[i])
  }

  ghost predicate ShowsTables(q: Request, rows: seq<TableRow>, catalog: string, schema: string, tables: seq<Table>) {
    exists at: seq<nat> :: TablesAt(q, rows, catalog, schema, tables, at)
  }

  ghost predicate ShowsSchema(q: Request, l: Listing, catalog: string, row: SchemaRow, s: Schema) {
    && s.name == row.schema
    && (q.depth == SCHEMAS ==> s.tables == None)
    && (q.depth != SCHEMAS ==> s.tables.Some? && ShowsTables(q, l.tables, catalog, row.schema, s.tables.value))
  }

  ghost predicate SchemasAt(q: Request, l: Listing, catalog: string, schemas: seq<Schema>, at: seq<nat>) {
    && Enumerates(at, SchemaFlags(l.schemas, catalog)) && |at| == |schemas|
    && forall i | 0 <= i < |at| :: ShowsSchema(q, l, catalog, l.schemas[at[i]], schemas[i])
  }

  ghost predicate ShowsSchemas(q: Request, l: Listing, catalog: string, schemas: seq<Schema>) {
    exists at: seq<nat> :: SchemasAt(q, l, catalog, schemas, at)
  }

  ghost predicate ShowsCatalog(q: Request, l: Listing, name: string, c: Catalog) {
    && c.name == name
    && (q.depth == CATALOGS ==> c.schemas == None)
    && (q.depth != CATALOGS ==> c.schemas.Some? && ShowsSchemas(q, l, name, c.schemas.value))
  }

  ghost predicate CatalogsAt(q: Request, l: Listing, names: seq<string>, tree: seq<Catalog>, at: seq<nat>) {
    && Enumerates(at, KeptFlags(q.catalogPattern, names)) && |at| == |tree|
    && forall i | 0 <= i < |at| :: ShowsCatalog(q, l, names[at[i]], tree[i])
  }

  /** The catalogs the pattern keeps; a request that goes deeper shows one nameless catalog for
      a server that lists none. */
  ghost predicate Shows(q: Request, l: Listing, tree: seq<Catalog>) {
    var names := if q.depth != CATALOGS && |l.catalogs| == 0 then [""] else l.catalogs;
    exists at: seq<nat> :: CatalogsAt(q, l, names, tree, at)
  }

  // ---------------------------------------------------------------------
  // The join shows the listings
  // ---------------------------------------------------------------------

  predicate Inside(at: seq<nat>, n: nat) { forall i | 0 <= i < |at| :: at[i] < n }

  function ColumnsOf(names: seq<string>, at: seq<nat>): seq<Column>
    requires Inside(at, |names|)
  {
    seq(|at|, i requires 0 <= i < |at| => Column(names[at[i]], at[i] + 1))
  }

  /** The columns before n are those the flags before n choose. */
  lemma {:induction false} ColumnsChosen(names: seq<string>, n: nat, pattern: Option<string>)
    requires n <= |names|
    ensures var at := Where(KeptFlags(pattern, names)[..n]);
            && Inside(at, n) && Inside(at, |names|)
            && ColumnsFrom(names, 0, pattern) == ColumnsOf(names, at) + ColumnsFrom(names, n, pattern)
  {
    hide Kept;
    var flags := KeptFlags(pattern, names);
    if n == 0 {
      assert flags[..0] == [];
    } else {
      ColumnsChosen(names, n - 1, pattern);
      assert flags[..n][..n - 1] == flags[..n - 1];
      var at := Where(flags[..n - 1]);
      if Kept(pattern, names[n - 1]) {
        assert ColumnsOf(names, at + [n - 1]) == ColumnsOf(names, at) + [Column(names[n - 1], n)];
      }
    }
  }

  lemma {:induction false} ColumnsShown(pattern: Option<string>, names: seq<string>)
    ensures ShowsColumns(pattern, names, ColumnsFrom(names, 0, pattern))
  {
    hide Kept, Where;
    var flags := KeptFlags(pattern, names);
    ColumnsChosen(names, |names|, pattern);
    WhereEnumerates(flags);
    assert flags[..|names|] == flags;
    assert ColumnsAt(pattern, names, ColumnsFrom(names, 0, pattern), Where(flags));
  }

  lemma {:induction false} TablesChosen(depth: Depth, rows: seq<TableRow>, catalog: string, schema: string)
    ensures var (infos, at) := (TablesOf(depth, rows, catalog, schema), Where(TableFlags(rows, catalog, schema)));
            && |infos| == |at|
            && forall i | 0 <= i < |at| :: at[i] < |rows| && infos[i] == InfoOf(depth, rows[at[i]])
  {
    hide InfoOf;
    if rows != [] {
      var n := |rows| - 1;
      TablesChosen(depth, rows[..n], catalog, schema);
      assert TableFlags(rows, catalog, schema)[..n] == TableFlags(rows[..n], catalog, schema);
    }
  }

  lemma {:induction false} TablesShown(q: Request, rows: seq<TableRow>, catalog: string, schema: string)
    requires (q.depth == TABLES || q.depth == ALL) && AllDecode(q.depth, rows)
    ensures ShowsTables(q, rows, catalog, schema, JoinTables(q, TablesOf(q.depth, rows, catalog, schema)))
  {
    hide TablesOf, Where, ShowsColumns, TableFlags, Enumerates;
    var infos, at := TablesOf(q.depth, rows, catalog, schema), Where(TableFlags(rows, catalog, schema));
    TablesChosen(q.depth, rows, catalog, schema);
    WhereEnumerates(TableFlags(rows, catalog, schema));
    var tables := JoinTables(q, infos);
    forall i | 0 <= i < |at| ensures at[i] < |rows| && ShowsTable(q, rows[at[i]], tables[i]) {
      var row := rows[at[i]];
      assert Decodes(q.depth, row);
      if q.depth == ALL { ColumnsShown(q.columnPattern, row.columns.value); }
    }
    Sizes(rows, catalog, schema);
    assert TablesAt(q, rows, catalog, schema, tables, at);
  }

  lemma Sizes(rows: seq<TableRow>, catalog: string, schema: string)
    ensures |TableFlags(rows, catalog, schema)| == |rows|
  {
  }

  lemma {:induction false} SchemasChosen(rows: seq<SchemaRow>, catalog: string)
    ensures var (names, at) := (SchemasOf(rows, catalog), Where(SchemaFlags(rows, catalog)));
            && |names| == |at|
            && forall i | 0 <= i < |at| :: at[i] < |rows| && names[i] == rows[at[i]].schema
  {
    if rows != [] {
      var n := |rows| - 1;
      SchemasChosen(rows[..n], catalog);
      assert SchemaFlags(rows, catalog)[..n] == SchemaFlags(rows[..n], catalog);
    }
  }

  lemma {:induction false} SchemasShown(q: Request, l: Listing, catalog: string)
    requires q.depth != CATALOGS && AllDecode(q.depth, l.tables)
    ensures ShowsSchemas(q, l, catalog, JoinSchemas(q, l, catalog, SchemasOf(l.schemas, catalog)))
  {
    hide SchemasOf, Where, ShowsTables, JoinTables, TablesOf, Enumerates;
    var names, at := SchemasOf(l.schemas, catalog), Where(SchemaFlags(l.schemas, catalog));
    SchemasChosen(l.schemas, catalog);
    WhereEnumerates(SchemaFlags(l.schemas, catalog));
    var schemas := JoinSchemas(q, l, catalog, names);
    forall i | 0 <= i < |at| ensures at[i] < |l.schemas| && ShowsSchema(q, l, catalog, l.schemas[at[i]], schemas[i]) {
      if q.depth != SCHEMAS { TablesShown(q, l.tables, catalog, names[i]); }
    }
    assert SchemasAt(q, l, catalog, schemas, at);
  }

  lemma {:induction false} NamesChosen(pattern: Option<string>, names: seq<string>)
    ensures var (kept, at) := (KeptNames(pattern, names), Where(KeptFlags(pattern, names)));
            && |kept| == |at|
            && forall i | 0 <= i < |at| :: at[i] < |names| && kept[i] == names[at[i]]
  {
    hide Kept;
    if names != [] {
      var n := |names| - 1;
      NamesChosen(pattern, names[..n]);
      assert KeptFlags(pattern, names)[..n] == KeptFlags(pattern, names[..n]);
    }
  }

  /** The join shows every row of the listings in its place, and nothing else. */
  lemma {:induction false} JoinShows(q: Request, l: Listing)
    requires q.depth == TABLES || q.depth == ALL ==> AllDecode(q.depth, l.tables)
    ensures Shows(q, l, Join(q, l))
  {
    hide KeptNames, Where, ShowsSchemas, JoinSchemas, SchemasOf, Enumerates, Kept;
    var names := ListedCatalogs(q, l);
    var at, tree := Where(KeptFlags(q.catalogPattern, names)), Join(q, l);
    NamesChosen(q.catalogPattern, names);
    WhereEnumerates(KeptFlags(q.catalogPattern, names));
    forall i | 0 <= i < |at| ensures at[i] < |names| && ShowsCatalog(q, l, names[at[i]], tree[i]) {
      if q.depth != CATALOGS { SchemasShown(q, l, names[at[i]]); }
    }
    assert CatalogsAt(q, l, names, tree, at);
  }

  // ---------------------------------------------------------------------
  // No other tree does
  // ---------------------------------------------------------------------

  lemma {:induction false} SameColumns(pattern: Option<string>, names: seq<string>, a: seq<Column>, b: seq<Column>)
    requires ShowsColumns(pattern, names, a) && ShowsColumns(pattern, names, b)
    ensures a == b
  {
    hide Kept;
    var i :| ColumnsAt(pattern, names, a, i);
    var j :| ColumnsAt(pattern, names, b, j);
    OnlyWhere(i, KeptFlags(pattern, names));
    OnlyWhere(j, KeptFlags(pattern, names));
  }

  lemma {:induction false} SameTable(q: Request, row: TableRow, a: Table, b: Table)
    requires (q.depth == TABLES || q.depth == ALL) && ShowsTable(q, row, a) && ShowsTable(q, row, b)
    ensures a == b
  {
    hide ShowsColumns;
    if q.depth == ALL { SameColumns(q.columnPattern, row.columns.value, a.columns.value, b.columns.value); }
  }

  lemma {:induction false} SameTables(
    q: Request, rows: seq<TableRow>, catalog: string, schema: string, a: seq<Table>, b: seq<Table>)
    requires q.depth == TABLES || q.depth == ALL
    requires ShowsTables(q, rows, catalog, schema, a) && ShowsTables(q, rows, catalog, schema, b)
    ensures a == b
  {
    hide ShowsTable;
    var i :| TablesAt(q, rows, catalog, schema, a, i);
    var j :| TablesAt(q, rows, catalog, schema, b, j);
    OnlyWhere(i, TableFlags(rows, catalog, schema));
    OnlyWhere(j, TableFlags(rows, catalog, schema));
    forall k | 0 <= k < |i| ensures a[k] == b[k] { SameTable(q, rows[i[k]], a[k], b[k]); }
  }

  lemma {:induction false} SameSchema(q: Request, l: Listing, catalog: string, row: SchemaRow, a: Schema, b: Schema)
    requires q.depth != CATALOGS && ShowsSchema(q, l, catalog, row, a) && ShowsSchema(q, l, catalog, row, b)
    ensures a == b
  {
    hide ShowsTables;
    if q.depth != SCHEMAS { SameTables(q, l.tables, catalog, row.schema, a.tables.value, b.tables.value); }
  }

  lemma {:induction false} SameSchemas(q: Request, l: Listing, catalog: string, a: seq<Schema>, b: seq<Schema>)
    requires q.depth != CATALOGS && ShowsSchemas(q, l, catalog, a) && ShowsSchemas(q, l, catalog, b)
    ensures a == b
  {
    hide ShowsSchema;
    var i :| SchemasAt(q, l, catalog, a, i);
    var j :| SchemasAt(q, l, catalog, b, j);
    OnlyWhere(i, SchemaFlags(l.schemas, catalog));
    OnlyWhere(j, SchemaFlags(l.schemas, catalog));
    forall k | 0 <= k < |i| ensures a[k] == b[k] { SameSchema(q, l, catalog, l.schemas[i[k]], a[k], b[k]); }
  }

  lemma {:induction false} SameCatalog(q: Request, l: Listing, name: string, a: Catalog, b: Catalog)
    requires ShowsCatalog(q, l, name, a) && ShowsCatalog(q, l, name, b)
    ensures a == b
  {
    hide ShowsSchemas;
    if q.depth != CATALOGS { SameSchemas(q, l, name, a.schemas.value, b.schemas.value); }
  }

  /** A tree shows the listings exactly when it is their join. */
  lemma {:induction false} ShowsExactly(q: Request, l: Listing, tree: seq<Catalog>)
    requires q.depth == TABLES || q.depth == ALL ==> AllDecode(q.depth, l.tables)
    ensures Shows(q, l, tree) <==> tree == Join(q, l)
  {
    hide ShowsCatalog, Join, Kept;
    JoinShows(q, l);
    if Shows(q, l, tree) {
      var names := if q.depth != CATALOGS && |l.catalogs| == 0 then [""] else l.catalogs;
      var join := Join(q, l);
      var i :| CatalogsAt(q, l, names, tree, i);
      var j :| CatalogsAt(q, l, names, join, j);
      OnlyWhere(i, KeptFlags(q.catalogPattern, names));
      OnlyWhere(j, KeptFlags(q.catalogPattern, names));
      forall k | 0 <= k < |i| ensures tree[k] == join[k] { SameCatalog(q, l, names[i[k]], tree[k], join[k]); }
    }
  }
}
