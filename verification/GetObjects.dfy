/** The Flight SQL driver's GetObjects: listings are indexed by map, and the result is
    built as nested Arrow lists, one flat run of items per level with the offsets at
    which each parent's list starts. */
module GetObjects {
  import opened LikePattern
  import opened ObjectListing
  import opened ObjectTree
  import opened Wrappers

  // ---------------------------------------------------------------------
  // Arrow list builders
  // ---------------------------------------------------------------------

  /** Validity and start offset of every list so far; a list ends where the next one
      starts, the last one with the last item. */
  datatype ListBuilder = ListBuilder(valid: seq<bool>, starts: seq<nat>) {
    predicate Fits(items: nat) {
      && |valid| == |starts|
      && (forall i | 0 <= i < |starts| :: starts[i] <= End(items, i) <= items)
    }

    function End(items: nat, i: nat): nat
      requires i < |starts|
    {
      if i + 1 < |starts| then starts[i + 1] else items
    }

    /** Append or AppendNull: the new list starts at the current number of items. */
    function Append(v: bool, items: nat): ListBuilder {
      ListBuilder(valid + [v], starts + [items])
    }
  }

  /** The list of parent i, as an Arrow consumer reads it. */
  function ListAt<T>(b: ListBuilder, items: seq<T>, i: nat): Option<seq<T>>
    requires b.Fits(|items|) && i < |b.starts|
  {
    if b.valid[i] then Some(items[b.starts[i]..b.End(|items|, i)]) else None
  }

  /** A new list is empty, or null, and leaves the others alone. */
  lemma {:induction false} NewList<T>(b: ListBuilder, items: seq<T>, v: bool)
    requires b.Fits(|items|)
    ensures var b' := b.Append(v, |items|);
            && b'.Fits(|items|)
            && ListAt(b', items, |b.starts|) == (if v then Some([]) else None)
            && forall i | 0 <= i < |b.starts| :: ListAt(b', items, i) == ListAt(b, items, i)
  {
    var b' := b.Append(v, |items|);
    forall i | 0 <= i < |b.starts| ensures b'.starts[i] <= b'.End(|items|, i) == b.End(|items|, i) <= |items| {}
    assert items[|items|..|items|] == [];
  }

  /** New items go to the last list. */
  lemma {:induction false} NewItems<T>(b: ListBuilder, items: seq<T>, more: seq<T>)
    requires b.Fits(|items|)
    ensures b.Fits(|items + more|)
    ensures forall i | 0 <= i < |b.starts| - 1 :: ListAt(b, items + more, i) == ListAt(b, items, i)
    ensures |b.starts| > 0 && b.valid[|b.starts| - 1] ==>
              ListAt(b, items + more, |b.starts| - 1) == Some(ListAt(b, items, |b.starts| - 1).value + more)
  {
    var n := |b.starts|;
    forall i | 0 <= i < n ensures b.starts[i] <= b.End(|items + more|, i) <= |items + more| {
      assert b.starts[i] <= b.End(|items|, i) <= |items|;
    }
    forall i | 0 <= i < n - 1 ensures ListAt(b, items + more, i) == ListAt(b, items, i) {
      var from, to := b.starts[i], b.starts[i + 1];
      assert from <= b.End(|items|, i) == to <= |items|;
      assert (items + more)[from..to] == items[from..to];
    }
    if n > 0 {
      var from := b.starts[n - 1];
      assert (items + more)[from..|items + more|] == items[from..|items|] + more;
    }
  }

  // ---------------------------------------------------------------------
  // Indexing the listings
  // ---------------------------------------------------------------------

  /** A missing key reads as the empty list. */
  function Lookup<K, V>(m: map<K, seq<V>>, k: K): seq<V> { if k in m then m[k] else [] }

  type SchemaIndex = map<string, seq<string>>
  type TableIndex = map<(string, string), seq<TableInfo>>

  /** Looking a catalog up gives its schemas, in the server's order. */
  ghost predicate IndexesSchemas(index: SchemaIndex, rows: seq<SchemaRow>) {
    forall c :: Lookup(index, c) == SchemasOf(rows, c)
  }

  lemma {:induction false} SchemaIndexed(index: SchemaIndex, rows: seq<SchemaRow>, i: nat)
    requires i < |rows| && IndexesSchemas(index, rows[..i])
    ensures var catalog := NameOf(rows[i].catalog);
            IndexesSchemas(index[catalog := Lookup(index, catalog) + [rows[i].schema]], rows[..i + 1])
  {
    var catalog := NameOf(rows[i].catalog);
    var index' := index[catalog := Lookup(index, catalog) + [rows[i].schema]];
    assert rows[..i + 1][..i] == rows[..i];
    forall c ensures Lookup(index', c) == SchemasOf(rows[..i + 1], c) {
      assert Lookup(index, c) == SchemasOf(rows[..i], c);
    }
  }

  method IndexSchemas(rows: seq<SchemaRow>) returns (index: SchemaIndex)
    ensures IndexesSchemas(index, rows)
  {
    index := map[];
    for i := 0 to |rows|
      invariant IndexesSchemas(index, rows[..i])
    {
      SchemaIndexed(index, rows, i);
      var catalog := NameOf(rows[i].catalog);
      index := index[catalog := Lookup(index, catalog) + [rows[i].schema]];
    }
    assert rows[..|rows|] == rows;
  }

  /** Looking a catalog and schema up gives their tables, in the server's order. */
  ghost predicate IndexesTables(index: TableIndex, depth: Depth, rows: seq<TableRow>) {
    forall c, s :: Lookup(index, (c, s)) == TablesOf(depth, rows, c, s)
  }

  lemma {:induction false} TableIndexed(index: TableIndex, depth: Depth, rows: seq<TableRow>, i: nat)
    requires i < |rows| && IndexesTables(index, depth, rows[..i])
    ensures var key := (NameOf(rows[i].catalog), NameOf(rows[i].schema));
            IndexesTables(index[key := Lookup(index, key) + [InfoOf(depth, rows[i])]], depth, rows[..i + 1])
  {
    hide InfoOf;
    var key := (NameOf(rows[i].catalog), NameOf(rows[i].schema));
    var index' := index[key := Lookup(index, key) + [InfoOf(depth, rows[i])]];
    assert rows[..i + 1][..i] == rows[..i];
    forall c, s ensures Lookup(index', (c, s)) == TablesOf(depth, rows[..i + 1], c, s) {
      assert Lookup(index, (c, s)) == TablesOf(depth, rows[..i], c, s);
    }
  }

  /** Fails exactly when a table's own schema is asked for and does not decode. */
  method IndexTables(depth: Depth, rows: seq<TableRow>) returns (ok: bool, index: TableIndex)
    ensures ok <==> AllDecode(depth, rows)
    ensures ok ==> IndexesTables(index, depth, rows)
  {
    ok, index := true, map[];
    for i := 0 to |rows|
      invariant ok && forall k | 0 <= k < i :: Decodes(depth, rows[k])
      invariant IndexesTables(index, depth, rows[..i])
    {
      if !Decodes(depth, rows[i]) { return false, index; }
      var key := (NameOf(rows[i].catalog), NameOf(rows[i].schema));
      TableIndexed(index, depth, rows, i);
      index := index[key := Lookup(index, key) + [InfoOf(depth, rows[i])]];
    }
    assert rows[..|rows|] == rows;
  }

  // ---------------------------------------------------------------------
  // The builder
  // ---------------------------------------------------------------------

  class Builder {
    const request: Request
    const schemaLookup: SchemaIndex
    const tableLookup: TableIndex
    const catalogFilter: Option<Regexp>
    const columnFilter: Option<Regexp>

    var catalogNames: seq<string>
    var catalogSchemas: ListBuilder
    var schemaNames: seq<string>
    var schemaItems: nat
    var schemaTables: ListBuilder
    var tableNames: seq<string>
    var tableTypes: seq<string>
    var tableItems: nat
    var tableColumns: ListBuilder
    var tableConstraints: ListBuilder
    var columnNames: seq<string>
    var ordinals: seq<int>
    /** Length of remarks and of every xdbc field, all of them null throughout. */
    var columnNulls: nat
    var columnItems: nat

    constructor (request: Request, schemaLookup: SchemaIndex, tableLookup: TableIndex,
                 catalogFilter: Option<Regexp>, columnFilter: Option<Regexp>)
      requires FilterOf(request.catalogPattern, catalogFilter) && FilterOf(request.columnPattern, columnFilter)
      ensures Valid() && Catalogs() == []
      ensures this.request == request && this.schemaLookup == schemaLookup && this.tableLookup == tableLookup
    {
      this.request, this.schemaLookup, this.tableLookup := request, schemaLookup, tableLookup;
      this.catalogFilter, this.columnFilter := catalogFilter, columnFilter;
      var none := ListBuilder([], []);
      catalogNames, schemaNames, tableNames, tableTypes, columnNames, ordinals := [], [], [], [], [], [];
      catalogSchemas, schemaTables, tableColumns, tableConstraints := none, none, none, none;
      schemaItems, tableItems, columnItems, columnNulls := 0, 0, 0, 0;
    }

    ghost predicate Valid()
      reads this
    {
      FiltersValid() && ColumnsValid() && TablesValid() && SchemasValid() && CatalogsValid()
    }

    ghost predicate FiltersValid() {
      FilterOf(request.catalogPattern, catalogFilter) && FilterOf(request.columnPattern, columnFilter)
    }

    predicate ColumnsValid()
      reads this
    {
      columnItems == columnNulls == |columnNames| == |ordinals|
    }

    predicate TablesValid()
      reads this
    {
      && tableItems == |tableNames| == |tableTypes| == |tableColumns.starts| == |tableConstraints.starts|
      && tableColumns.Fits(columnItems) && tableConstraints.Fits(0)
    }

    predicate SchemasValid()
      reads this
    {
      schemaItems == |schemaNames| == |schemaTables.starts| && schemaTables.Fits(tableItems)
    }

    predicate CatalogsValid()
      reads this
    {
      |catalogNames| == |catalogSchemas.starts| && catalogSchemas.Fits(schemaItems)
    }

    // What the finished record reads as, level by level.

    function Columns(): (cs: seq<Column>)
      requires ColumnsValid()
      reads this
      ensures |cs| == columnItems
    {
      ReadColumns(columnNames, ordinals)
    }

    function Tables(): (ts: seq<Table>)
      requires ColumnsValid() && TablesValid()
      reads this
      ensures |ts| == tableItems
    {
      ReadTables(tableNames, tableTypes, tableColumns, tableConstraints, Columns())
    }

    function Schemas(): (ss: seq<Schema>)
      requires ColumnsValid() && TablesValid() && SchemasValid()
      reads this
      ensures |ss| == schemaItems
    {
      ReadSchemas(schemaNames, schemaTables, Tables())
    }

    function Catalogs(): (cs: seq<Catalog>)
      requires ColumnsValid() && TablesValid() && SchemasValid() && CatalogsValid()
      reads this
      ensures |cs| == |catalogNames|
    {
      ReadCatalogs(catalogNames, catalogSchemas, Schemas())
    }

    method AppendColumn(name: string, ordinal: int)
      requires ColumnsValid()
      modifies this`columnNames, this`ordinals, this`columnNulls, this`columnItems
      ensures ColumnsValid() && Columns() == old(Columns()) + [Column(name, ordinal)]
    {
      columnNames := columnNames + [name];
      ordinals := ordinals + [ordinal];
      columnNulls := columnNulls + 1;
      columnItems := columnItems + 1;
    }

    /** Appends the table with its columns, those the filter lets through, each at its
        position among all of them. */
    method AppendTableInfo(info: TableInfo)
      requires FiltersValid() && ColumnsValid() && TablesValid()
      modifies this`tableNames, this`tableTypes, this`tableItems, this`tableColumns, this`tableConstraints
      modifies this`columnNames, this`ordinals, this`columnNulls, this`columnItems
      ensures ColumnsValid() && TablesValid()
      ensures Tables() == old(Tables()) + [TableOf(request.depth, info, request.columnPattern)]
    {
      hide ColumnsFrom, ListAt, MatchString, Kept;
      ghost var before := Tables();
      ghost var deep := request.depth != TABLES;
      NewTable(tableNames, tableTypes, tableColumns, tableConstraints, Columns(), info.name, info.tableType, deep);
      tableNames := tableNames + [info.name];
      tableTypes := tableTypes + [info.tableType];
      tableItems := tableItems + 1;
      if request.depth == TABLES {
        tableColumns := tableColumns.Append(false, columnItems);
        tableConstraints := tableConstraints.Append(false, 0);
        return;
      }
      tableColumns := tableColumns.Append(true, columnItems);
      tableConstraints := tableConstraints.Append(true, 0);

      ghost var all, found := ColumnsFrom(info.columns, 0, request.columnPattern), [];
      for i := 0 to |info.columns|
        invariant ColumnsValid() && TablesValid()
        invariant all == found + ColumnsFrom(info.columns, i, request.columnPattern)
        invariant Tables() == before + [Table(info.name, info.tableType, Some(found), Some([]))]
      {
        NextColumn(info.columns, i, request.columnPattern, found);
        PassesExactly(request.columnPattern, columnFilter, info.columns[i]);
        if !Passes(columnFilter, info.columns[i]) { continue; }
        ghost var column := Column(info.columns[i], i + 1);
        MoreColumns(tableNames, tableTypes, tableColumns, tableConstraints, Columns(), [column]);
        AppendColumn(info.columns[i], i + 1);
        found := found + [column];
      }
      NoMoreColumns(info.columns, request.columnPattern, found);
    }

    /** Appends the schema with its tables. */
    method AppendDbSchema(catalogName: string, schemaName: string)
      requires FiltersValid() && ColumnsValid() && TablesValid() && SchemasValid()
      modifies this`schemaNames, this`schemaItems, this`schemaTables
      modifies this`tableNames, this`tableTypes, this`tableItems, this`tableColumns, this`tableConstraints
      modifies this`columnNames, this`ordinals, this`columnNulls, this`columnItems
      ensures ColumnsValid() && TablesValid() && SchemasValid()
      ensures Schemas() == old(Schemas()) + [LookedUpSchema(request, tableLookup, catalogName, schemaName)]
    {
      hide ReadTables, ReadSchemas, TableOf;
      ghost var before := Schemas();
      NewSchema(schemaNames, schemaTables, Tables(), schemaName, request.depth != SCHEMAS);
      schemaNames := schemaNames + [schemaName];
      schemaItems := schemaItems + 1;
      if request.depth == SCHEMAS {
        schemaTables := schemaTables.Append(false, tableItems);
        return;
      }
      schemaTables := schemaTables.Append(true, tableItems);

      var infos := Lookup(tableLookup, (catalogName, schemaName));
      assert JoinTables(request, infos[..0]) == [];
      for i := 0 to |infos|
        invariant ColumnsValid() && TablesValid() && SchemasValid()
        invariant schemaItems > 0
        invariant Schemas() == before + [Schema(schemaName, Some(JoinTables(request, infos[..i])))]
      {
        ghost var table := TableOf(request.depth, infos[i], request.columnPattern);
        MoreTables(schemaNames, schemaTables, Tables(), [table]);
        AppendTableInfo(infos[i]);
        assert JoinTables(request, infos[..i + 1]) == JoinTables(request, infos[..i]) + [table];
      }
      assert infos[..|infos|] == infos;
    }

    /** Appends the catalog with its schemas, if the filter lets it through. */
    method AppendCatalog(catalogName: string)
      requires Valid()
      modifies this
      ensures Valid()
      ensures Catalogs() == if Kept(request.catalogPattern, catalogName)
                            then old(Catalogs()) + [LookedUpCatalog(request, schemaLookup, tableLookup, catalogName)]
                            else old(Catalogs())
    {
      hide ReadTables, ReadSchemas, ReadCatalogs, MatchString, Kept, LookedUpSchema;
      PassesExactly(request.catalogPattern, catalogFilter, catalogName);
      if !Passes(catalogFilter, catalogName) { return; }
      ghost var before := Catalogs();
      NewCatalog(catalogNames, catalogSchemas, Schemas(), catalogName, request.depth != CATALOGS);
      catalogNames := catalogNames + [catalogName];
      if request.depth == CATALOGS {
        catalogSchemas := catalogSchemas.Append(false, schemaItems);
        return;
      }
      catalogSchemas := catalogSchemas.Append(true, schemaItems);

      var names := Lookup(schemaLookup, catalogName);
      assert LookedUpSchemas(request, tableLookup, catalogName, names[..0]) == [];
      for i := 0 to |names|
        invariant Valid() && |catalogNames| > 0
        invariant Catalogs()
                  == before
                      + [Catalog(catalogName, Some(LookedUpSchemas(request, tableLookup, catalogName, names[..i])))]
      {
        ghost var schema := LookedUpSchema(request, tableLookup, catalogName, names[i]);
        MoreSchemas(catalogNames, catalogSchemas, Schemas(), [schema]);
        AppendDbSchema(catalogName, names[i]);
        assert LookedUpSchemas(request, tableLookup, catalogName, names[..i + 1])
            == LookedUpSchemas(request, tableLookup, catalogName, names[..i]) + [schema];
      }
      assert names[..|names|] == names;
    }
  }

  // ---------------------------------------------------------------------
  // Reading a level, and what one append does to it
  // ---------------------------------------------------------------------

  function ReadColumns(names: seq<string>, ordinals: seq<int>): seq<Column>
    requires |names| == |ordinals|
  {
    seq(|names|, i requires 0 <= i < |names| => Column(names[i], ordinals[i]))
  }

  function ReadTables(
      names: seq<string>, types: seq<string>, columnLists: ListBuilder, constraints: ListBuilder,
          columns: seq<Column>): seq<Table>
    requires |names| == |types| == |columnLists.starts| == |constraints.starts|
    requires columnLists.Fits(|columns|) && constraints.Fits(0)
  {
    seq(|names|, i requires 0 <= i < |names| =>
        Table(names[i], types[i], ListAt(columnLists, columns, i), ListAt(constraints, [], i)))
  }

  function ReadSchemas(names: seq<string>, lists: ListBuilder, tables: seq<Table>): seq<Schema>
    requires |names| == |lists.starts| && lists.Fits(|tables|)
  {
    seq(|names|, i requires 0 <= i < |names| => Schema(names[i], ListAt(lists, tables, i)))
  }

  function ReadCatalogs(names: seq<string>, lists: ListBuilder, schemas: seq<Schema>): seq<Catalog>
    requires |names| == |lists.starts| && lists.Fits(|schemas|)
  {
    seq(|names|, i requires 0 <= i < |names| => Catalog(names[i], ListAt(lists, schemas, i)))
  }

  lemma {:induction false} NewTable(
    names: seq<string>, types: seq<string>, columnLists: ListBuilder, constraints: ListBuilder, columns: seq<Column>,
    name: string, tableType: string, v: bool)
    requires |names| == |types| == |columnLists.starts| == |constraints.starts|
    requires columnLists.Fits(|columns|) && constraints.Fits(0)
    ensures columnLists.Append(v, |columns|).Fits(|columns|) && constraints.Append(v, 0).Fits(0)
    ensures ReadTables(names + [name], types + [tableType],
                       columnLists.Append(v, |columns|), constraints.Append(v, 0), columns)
         == ReadTables(names, types, columnLists, constraints, columns)
            + [Table(name, tableType, if v then Some([]) else None, if v then Some([]) else None)]
  {
    hide ListAt;
    NewList(columnLists, columns, v);
    NewList<string>(constraints, [], v);
  }

  lemma {:induction false} MoreColumns(
    names: seq<string>, types: seq<string>, columnLists: ListBuilder, constraints: ListBuilder,
        columns: seq<Column>, more: seq<Column>)
    requires |names| == |types| == |columnLists.starts| == |constraints.starts| > 0
    requires columnLists.Fits(|columns|) && constraints.Fits(0)
    ensures columnLists.Fits(|columns + more|)
    ensures var (before, n) := (ReadTables(names, types, columnLists, constraints, columns), |names| - 1);
            before[n].columns.Some? ==>
              ReadTables(names, types, columnLists, constraints, columns + more)
              == before[..n] + [before[n].(columns := Some(before[n].columns.value + more))]
  {
    NewItems(columnLists, columns, more);
  }

  lemma {:induction false} NewSchema(names: seq<string>, lists: ListBuilder, tables: seq<Table>, name: string, v: bool)
    requires |names| == |lists.starts| && lists.Fits(|tables|)
    ensures lists.Append(v, |tables|).Fits(|tables|)
    ensures ReadSchemas(names + [name], lists.Append(v, |tables|), tables)
         == ReadSchemas(names, lists, tables) + [Schema(name, if v then Some([]) else None)]
  {
    hide ListAt;
    NewList(lists, tables, v);
  }

  lemma {:induction false} MoreTables(names: seq<string>, lists: ListBuilder, tables: seq<Table>, more: seq<Table>)
    requires |names| == |lists.starts| > 0 && lists.Fits(|tables|)
    ensures lists.Fits(|tables + more|)
    ensures var (before, n) := (ReadSchemas(names, lists, tables), |names| - 1);
            before[n].tables.Some? ==>
              ReadSchemas(names, lists, tables + more)
              == before[..n] + [before[n].(tables := Some(before[n].tables.value + more))]
  {
    NewItems(lists, tables, more);
  }

  lemma {:induction false} NewCatalog(
      names: seq<string>, lists: ListBuilder, schemas: seq<Schema>, name: string, v: bool)
    requires |names| == |lists.starts| && lists.Fits(|schemas|)
    ensures lists.Append(v, |schemas|).Fits(|schemas|)
    ensures ReadCatalogs(names + [name], lists.Append(v, |schemas|), schemas)
         == ReadCatalogs(names, lists, schemas) + [Catalog(name, if v then Some([]) else None)]
  {
    hide ListAt;
    NewList(lists, schemas, v);
  }

  lemma {:induction false} MoreSchemas(names: seq<string>, lists: ListBuilder, schemas: seq<Schema>, more: seq<Schema>)
    requires |names| == |lists.starts| > 0 && lists.Fits(|schemas|)
    ensures lists.Fits(|schemas + more|)
    ensures var (before, n) := (ReadCatalogs(names, lists, schemas), |names| - 1);
            before[n].schemas.Some? ==>
              ReadCatalogs(names, lists, schemas + more)
              == before[..n] + [before[n].(schemas := Some(before[n].schemas.value + more))]
  {
    NewItems(lists, schemas, more);
  }

  lemma NextColumn(columns: seq<string>, i: nat, pattern: Option<string>, found: seq<Column>)
    requires i < |columns|
    ensures found + ColumnsFrom(columns, i, pattern)
         == (if Kept(pattern, columns[i]) then found + [Column(columns[i], i + 1)] else found)
             + ColumnsFrom(columns, i + 1, pattern)
  {
    hide Kept;
  }

  lemma NoMoreColumns(columns: seq<string>, pattern: Option<string>, found: seq<Column>)
    ensures found + ColumnsFrom(columns, |columns|, pattern) == found
  {
  }

  // ---------------------------------------------------------------------
  // The join by lookup
  // ---------------------------------------------------------------------

  function LookedUpSchema(q: Request, tables: TableIndex, catalog: string, schema: string): Schema {
    Schema(schema, if q.depth == SCHEMAS then None else Some(JoinTables(q, Lookup(tables, (catalog, schema)))))
  }

  function LookedUpSchemas(q: Request, tables: TableIndex, catalog: string, names: seq<string>): seq<Schema> {
    seq(|names|, i requires 0 <= i < |names| => LookedUpSchema(q, tables, catalog, names[i]))
  }

  function LookedUpCatalog(q: Request, schemas: SchemaIndex, tables: TableIndex, catalog: string): Catalog {
    Catalog(catalog,
            if q.depth == CATALOGS then None else Some(LookedUpSchemas(q, tables, catalog, Lookup(schemas, catalog))))
  }

  /** The compiled form of a pattern. */
  ghost predicate FilterOf(pattern: Option<string>, filter: Option<Regexp>) {
    filter == match pattern case None => None case Some(p) => Some(Anchored(p))
  }

  predicate Passes(filter: Option<Regexp>, name: string) {
    filter.Some? ==> MatchString(filter.value, name)
  }

  /** The compiled filter lets exactly the wanted names pass. */
  lemma {:induction false} PassesExactly(pattern: Option<string>, filter: Option<Regexp>, name: string)
    requires FilterOf(pattern, filter)
    ensures Passes(filter, name) <==> Kept(pattern, name)
  {
    if pattern.Some? {
      AnchoredMeans(pattern.value, name);
      if NewlineFree(name) { SameOnLine(pattern.value, name); }
    }
  }

  /** Looking up is joining. */
  lemma {:induction false} LookupIsJoin(
      q: Request, l: Listing, schemas: SchemaIndex, tables: TableIndex, catalog: string)
    requires q.depth != CATALOGS ==> IndexesSchemas(schemas, l.schemas)
    requires q.depth == TABLES || q.depth == ALL ==> IndexesTables(tables, q.depth, l.tables)
    ensures LookedUpCatalog(q, schemas, tables, catalog) == JoinCatalog(q, l, catalog)
  {
    hide JoinTables, SchemasOf, TablesOf;
    if q.depth != CATALOGS {
      var names := SchemasOf(l.schemas, catalog);
      assert Lookup(schemas, catalog) == names;
      forall i | 0 <= i < |names|
        ensures LookedUpSchema(q, tables, catalog, names[i]) == JoinSchema(q, l, catalog, names[i])
      {
        if q.depth != SCHEMAS {
          assert Lookup(tables, (catalog, names[i])) == TablesOf(q.depth, l.tables, catalog, names[i]);
        }
      }
      assert LookedUpSchemas(q, tables, catalog, names) == JoinSchemas(q, l, catalog, names);
    }
  }

  // ---------------------------------------------------------------------
  // The whole call
  // ---------------------------------------------------------------------

  /** A listing, or a failure at any point of reading it. */
  datatype Reply<T> = Rows(rows: seq<T>) | Failed

  function RowsOf<T>(reply: Reply<T>): seq<T> {
    match reply case Rows(rows) => rows case Failed => []
  }

  predicate WantsTables(depth: Depth) { depth == TABLES || depth == ALL }

  method CompileFilter(pattern: Option<string>) returns (filter: Option<Regexp>)
    ensures FilterOf(pattern, filter)
  {
    filter := PatternToRegexp(pattern);
    if pattern.Some? { CompiledParses(pattern.value); }
  }

  /** GetObjects asks only for the listings its depth needs, fails exactly when one of
      them does, and otherwise returns their nested-loop join, which shows every row of the
      listings in its place. */
  method GetObjects(q: Request, catalogs: Reply<string>, schemas: Reply<SchemaRow>, tables: Reply<TableRow>)
    returns (result: Option<seq<Catalog>>)
    ensures result.None? <==>
              || catalogs.Failed?
              || (q.depth != CATALOGS && schemas.Failed?)
              || (WantsTables(q.depth) && (tables.Failed? || !AllDecode(q.depth, tables.rows)))
    ensures result.Some? ==> result.value == Join(q, Listing(RowsOf(catalogs), RowsOf(schemas), RowsOf(tables)))
    ensures result.Some? ==> Shows(q, Listing(RowsOf(catalogs), RowsOf(schemas), RowsOf(tables)), result.value)
  {
    hide LookedUpCatalog, JoinCatalog, MatchString, Kept, IndexesSchemas, IndexesTables, Shows;
    var schemaLookup: SchemaIndex := map[];
    if q.depth != CATALOGS {
      if schemas.Failed? { return None; }
      schemaLookup := IndexSchemas(schemas.rows);
    }
    var tableLookup: TableIndex := map[];
    if WantsTables(q.depth) {
      if tables.Failed? { return None; }
      var ok;
      ok, tableLookup := IndexTables(q.depth, tables.rows);
      if !ok { return None; }
    }
    var catalogFilter := CompileFilter(q.catalogPattern);
    var columnFilter := CompileFilter(q.columnPattern);
    if catalogs.Failed? { return None; }

    ghost var l := Listing(RowsOf(catalogs), RowsOf(schemas), RowsOf(tables));
    var g := new Builder(q, schemaLookup, tableLookup, catalogFilter, columnFilter);
    AppendCatalogs(g, l, catalogs.rows);
    if catalogs.rows == [] && q.depth != CATALOGS {
      AppendCatalogs(g, l, [""]);
    }
    JoinShows(q, l);
    return Some(g.Catalogs());
  }

  method AppendCatalogs(g: Builder, ghost l: Listing, names: seq<string>)
    requires g.Valid() && g.Catalogs() == []
    requires g.request.depth != CATALOGS ==> IndexesSchemas(g.schemaLookup, l.schemas)
    requires WantsTables(g.request.depth) ==> IndexesTables(g.tableLookup, g.request.depth, l.tables)
    modifies g
    ensures g.Valid() && g.Catalogs() == JoinCatalogs(g.request, l, KeptNames(g.request.catalogPattern, names))
  {
    hide LookedUpCatalog, JoinCatalog, MatchString, Kept, IndexesSchemas, IndexesTables;
    for i := 0 to |names|
      invariant g.Valid() && g.Catalogs() == JoinCatalogs(g.request, l, KeptNames(g.request.catalogPattern, names[..i]))
    {
      LookupIsJoin(g.request, l, g.schemaLookup, g.tableLookup, names[i]);
      assert names[..i + 1][..i] == names[..i];
      g.AppendCatalog(names[i]);
    }
    assert names[..|names|] == names;
  }
}
