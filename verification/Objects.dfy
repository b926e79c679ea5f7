/** GetObjects: the walk over Spark's catalog and the nested builders it fills. */
module Objects {
  import opened Wrappers
  import opened Folding
  import opened Pushdown
  import Quoting
  import opened Arrays
  import opened Replies

  // Depths as ADBC numbers them; any other number behaves like DEPTH_TABLES.
  const DEPTH_COLUMNS := 0
  const DEPTH_CATALOGS := 1
  const DEPTH_DB_SCHEMAS := 2
  const DEPTH_TABLES := 3

  datatype Query = Query(depth: int, catalog: Option<string>, dbSchema: Option<string>,
                         tableName: Option<string>, columnName: Option<string>, tableTypes: seq<string>)

  /** What the walk asks the world: Spark's answers to SHOW commands and to schema probes,
      and the lower case of a rune. */
  datatype Spark = Spark(show: string -> Result<Reply, string>, schemaOf: string -> Result<seq<string>, string>,
                         lower: char -> char)

  datatype TableEntry = TableEntry(name: string, tableType: string)

  // ---------------------------------------------------------------- listings

  function Names(rows: seq<Row>): seq<string> {
    if rows == [] then []
    else
      var last := rows[|rows| - 1];
      Names(rows[..|rows| - 1]) + (if last.name.Some? then [last.name.value] else [])
  }

  function TypeOf(row: Row): string {
    if row.temporary == Some(true) then "TEMPORARY" else "TABLE"
  }

  ghost function KeepEntries(next: char -> char, pattern: Option<string>, rows: seq<Row>): seq<TableEntry> {
    if rows == [] then []
    else
      var last := rows[|rows| - 1];
      KeepEntries(next, pattern, rows[..|rows| - 1])
      + (if last.name.Some? && MatchesPattern(next, pattern, last.name.value)
         then [TableEntry(last.name.value, TypeOf(last))] else [])
  }

  predicate IsPattern(s: string) {
    exists k :: 0 <= k < |s| && (s[k] == PERCENT || s[k] == UNDERSCORE)
  }

  const SHOW_CATALOGS := "SHOW CATALOGS"
  const SHOW_NAMESPACES := "SHOW NAMESPACES"

  function ShowNamespacesIn(catalog: string): string {
    "SHOW NAMESPACES IN " + Quoting.Quote(catalog)
  }

  function ShowTablesIn(catalog: string, dbSchema: string): string {
    "SHOW TABLES IN " + Quoting.Quote(catalog) + "." + Quoting.Quote(dbSchema)
  }

  ghost function NameListing(next: char -> char, spark: Spark, sql: string, column: string): Result<seq<Row>, string> {
    match spark.show(sql)
    case Ok(reply) => Ok(NamedRows(next, reply, column))
    case Err(e) => Err(e)
  }

  function TableListing(spark: Spark, sql: string): Result<seq<Row>, string> {
    match spark.show(sql)
    case Ok(reply) => Ok(TableRows(spark.lower, reply))
    case Err(e) => Err(e)
  }

  ghost function CatalogNames(next: char -> char, spark: Spark, pattern: Option<string>): seq<string> {
    if pattern.Some? && pattern.value != "" && !IsPattern(pattern.value) then [pattern.value]
    else
      match NameListing(next, spark, SHOW_CATALOGS, "catalog")
      case Err(_) => ["spark_catalog"]
      case Ok(rows) => Keep(next, pattern, Names(rows))
  }

  /** `clause` is the LIKE clause the listing is sent with. */
  ghost function SchemaNames(next: char -> char, spark: Spark, catalog: string, pattern: Option<string>,
                             clause: string): seq<string>
  {
    match NameListing(next, spark, ShowNamespacesIn(catalog) + clause, "namespace")
    case Ok(rows) => Keep(next, pattern, Names(rows))
    case Err(_) =>
      match NameListing(next, spark, SHOW_NAMESPACES + clause, "namespace")
      case Ok(rows) => Keep(next, pattern, Names(rows))
      case Err(_) => []
  }

  ghost function TableEntries(next: char -> char, spark: Spark, catalog: string, dbSchema: string,
                              pattern: Option<string>, clause: string): Result<seq<TableEntry>, string>
  {
    match TableListing(spark, ShowTablesIn(catalog, dbSchema) + clause)
    case Ok(rows) => Ok(KeepEntries(next, pattern, rows))
    case Err(e) => Err(e)
  }

  lemma {:induction false} NamesAppend(a: seq<Row>, b: seq<Row>)
    ensures Names(a + b) == Names(a) + Names(b)
  {
    if b == [] {
      assert a + b == a;
    } else {
      assert (a + b)[..|a + b| - 1] == a + b[..|b| - 1];
      NamesAppend(a, b[..|b| - 1]);
    }
  }

  /** The inner loop of QueryStrings. */
  method ReadNames(batch: Batch, name: nat) returns (out: seq<string>)
    requires name < |batch|
    ensures out == Names(BatchRows(batch, name, None))
  {
    out := [];
    if !batch[name].Strings? {
      return;
    }
    var values := batch[name].values;
    ghost var rows := BatchRows(batch, name, None);
    for r := 0 to |values|
      invariant out == Names(rows[..r])
    {
      assert rows[..r + 1][..r] == rows[..r];
      if values[r].Some? {
        out := out + [values[r].value];
      }
    }
    assert rows[..|values|] == rows;
  }

  method QueryStrings(next: char -> char, spark: Spark, sql: string, column: string)
    returns (r: Result<seq<string>, string>)
    requires IsFold(next)
    ensures r == match NameListing(next, spark, sql, column) case Ok(rows) => Ok(Names(rows)) case Err(e) => Err(e)
  {
    var reply := spark.show(sql);
    if reply.Err? {
      return Err(reply.error);
    }
    var found := FindFirst(next, reply.value.fields, column);
    var idx := found.GetOr(0);
    var batches := reply.value.batches;
    var out := [];
    for b := 0 to |batches|
      invariant out == Names(RowsOf(batches[..b], idx, None))
    {
      assert batches[..b + 1][..b] == batches[..b];
      var more := ReadNames(batches[b], idx);
      NamesAppend(RowsOf(batches[..b], idx, None), BatchRows(batches[b], idx, None));
      out := out + more;
    }
    assert batches[..|batches|] == batches;
    return Ok(out);
  }

  method ListCatalogs(next: char -> char, spark: Spark, catalog: Option<string>) returns (names: seq<string>)
    requires IsFold(next)
    ensures names == CatalogNames(next, spark, catalog)
  {
    if catalog.Some? && catalog.value != "" && !IsPattern(catalog.value) {
      return [catalog.value];
    }
    var r := QueryStrings(next, spark, SHOW_CATALOGS, "catalog");
    if r.Err? {
      return ["spark_catalog"];
    }
    names := FilterByPattern(next, r.value, catalog);
  }

  method ListSchemas(next: char -> char, spark: Spark, catalog: string, dbSchema: Option<string>)
    returns (names: seq<string>)
    requires IsFold(next)
    ensures names == SchemaNames(next, spark, catalog, dbSchema, ClauseFor(dbSchema))
  {
    var like := LikeClause(dbSchema);
    var quoted := Quoting.QuoteIdent(catalog);
    var r := QueryStrings(next, spark, "SHOW NAMESPACES IN " + quoted + like, "namespace");
    if r.Err? {
      r := QueryStrings(next, spark, SHOW_NAMESPACES + like, "namespace");
    }
    if r.Err? {
      return [];
    }
    names := FilterByPattern(next, r.value, dbSchema);
  }

  lemma {:induction false} EntriesAppend(next: char -> char, pattern: Option<string>, a: seq<Row>, b: seq<Row>)
    ensures KeepEntries(next, pattern, a + b) == KeepEntries(next, pattern, a) + KeepEntries(next, pattern, b)
  {
    if b == [] {
      assert a + b == a;
    } else {
      assert (a + b)[..|a + b| - 1] == a + b[..|b| - 1];
      EntriesAppend(next, pattern, a, b[..|b| - 1]);
    }
  }

  /** The inner loop of ListTables. */
  method ReadEntries(next: char -> char, pattern: Option<string>, batch: Batch, name: nat, temp: Option<nat>)
    returns (out: seq<TableEntry>)
    requires IsFold(next) && name < |batch| && (temp.Some? ==> temp.value < |batch|)
    ensures out == KeepEntries(next, pattern, BatchRows(batch, name, temp))
  {
    out := [];
    if !batch[name].Strings? {
      return;
    }
    var values := batch[name].values;
    ghost var rows := BatchRows(batch, name, temp);
    for r := 0 to |values|
      invariant out == KeepEntries(next, pattern, rows[..r])
    {
      assert rows[..r + 1][..r] == rows[..r] && batch[name].Length() == |values|;
      if values[r].Some? {
        var m := Matches(next, pattern, values[r].value);
        if m {
          var tt := if FlagAt(batch, temp, r) == Some(true) then "TEMPORARY" else "TABLE";
          out := out + [TableEntry(values[r].value, tt)];
        }
      }
    }
    assert rows[..|values|] == rows;
  }

  method ListTables(next: char -> char, spark: Spark, catalog: string, dbSchema: string, tableName: Option<string>)
    returns (r: Result<seq<TableEntry>, string>)
    requires IsFold(next)
    ensures r == TableEntries(next, spark, catalog, dbSchema, tableName, ClauseFor(tableName))
  {
    var like := LikeClause(tableName);
    var qc := Quoting.QuoteIdent(catalog);
    var qs := Quoting.QuoteIdent(dbSchema);
    var reply := spark.show("SHOW TABLES IN " + qc + "." + qs + like);
    if reply.Err? {
      return Err(reply.error);
    }
    var name, temp := FindTableColumns(spark.lower, reply.value.fields);
    var out := ReadBatches(next, tableName, reply.value.batches, name.GetOr(0), temp);
    return Ok(out);
  }

  /** The outer loop of ListTables. */
  method ReadBatches(next: char -> char, pattern: Option<string>, batches: seq<Batch>, name: nat, temp: Option<nat>)
    returns (out: seq<TableEntry>)
    requires IsFold(next)
    requires forall k :: 0 <= k < |batches| ==> name < |batches[k]| && (temp.Some? ==> temp.value < |batches[k]|)
    ensures out == KeepEntries(next, pattern, RowsOf(batches, name, temp))
  {
    out := [];
    for b := 0 to |batches|
      invariant out == KeepEntries(next, pattern, RowsOf(batches[..b], name, temp))
    {
      assert batches[..b + 1][..b] == batches[..b];
      var more := ReadEntries(next, pattern, batches[b], name, temp);
      EntriesAppend(next, pattern, RowsOf(batches[..b], name, temp), BatchRows(batches[b], name, temp));
      out := out + more;
    }
    assert batches[..|batches|] == batches;
  }

  /** An empty filter allows every type; otherwise some entry is fold-equal to it. */
  ghost predicate TypeAllowed(next: char -> char, tableType: string, filter: seq<string>) {
    filter == [] || exists k :: 0 <= k < |filter| && FoldVariant(next, filter[k], tableType)
  }

  method TableTypeAllowed(next: char -> char, tableType: string, filter: seq<string>) returns (allowed: bool)
    requires IsFold(next)
    ensures allowed == TypeAllowed(next, tableType, filter)
  {
    if |filter| == 0 {
      return true;
    }
    for k := 0 to |filter|
      invariant forall i :: 0 <= i < k ==> !FoldVariant(next, filter[i], tableType)
    {
      var same := EqualFoldStrings(next, filter[k], tableType);
      if same {
        return true;
      }
    }
    return false;
  }

  // ---------------------------------------------------------------- the tree that is asked for

  /** The matching ones of the first `n` fields, each with its position in the table. */
  ghost function ColumnsFrom(next: char -> char, pattern: Option<string>, fields: seq<string>, n: nat): seq<Column>
    requires n <= |fields|
  {
    if n == 0 then []
    else ColumnsFrom(next, pattern, fields, n - 1)
         + (if MatchesPattern(next, pattern, fields[n - 1]) then [Column(fields[n - 1], n)] else [])
  }

  function Probe(catalog: string, dbSchema: string, table: string): string {
    "SELECT * FROM " + Quoting.Qualified(Quoting.Parts(Some(catalog), Some(dbSchema), table))
  }

  ghost function ColumnsOf(next: char -> char, spark: Spark, q: Query, catalog: string, dbSchema: string,
                           table: string): seq<Column>
  {
    match spark.schemaOf(Probe(catalog, dbSchema, table))
    case Ok(fields) => ColumnsFrom(next, q.columnName, fields, |fields|)
    case Err(_) => []
  }

  /** The node of one listed table: none if its type is filtered out. */
  ghost function TableNode(next: char -> char, spark: Spark, q: Query, catalog: string, dbSchema: string,
                           entry: TableEntry): seq<Table>
  {
    if !TypeAllowed(next, entry.tableType, q.tableTypes) then []
    else [Table(entry.name, entry.tableType,
                if q.depth != DEPTH_COLUMNS then None
                else Some(ColumnsOf(next, spark, q, catalog, dbSchema, entry.name)))]
  }

  ghost function TableNodes(next: char -> char, spark: Spark, q: Query, catalog: string, dbSchema: string,
                            entries: seq<TableEntry>): seq<seq<Table>>
  {
    seq(|entries|, k requires 0 <= k < |entries| => TableNode(next, spark, q, catalog, dbSchema, entries[k]))
  }

  /** The tables of a schema; `clause` as in `TableEntries`. */
  ghost function TablesOf(next: char -> char, spark: Spark, q: Query, catalog: string, dbSchema: string,
                          clause: string): Result<seq<Table>, string>
  {
    match TableEntries(next, spark, catalog, dbSchema, q.tableName, clause)
    case Ok(entries) => Ok(Flatten(TableNodes(next, spark, q, catalog, dbSchema, entries)))
    case Err(e) => Err(e)
  }

  ghost function SchemaNode(next: char -> char, spark: Spark, q: Query, catalog: string, name: string,
                            clause: string): Result<DbSchema, string>
  {
    if q.depth == DEPTH_DB_SCHEMAS then Ok(DbSchema(name, None))
    else
      match TablesOf(next, spark, q, catalog, name, clause)
      case Ok(tables) => Ok(DbSchema(name, Some(tables)))
      case Err(e) => Err(e)
  }

  ghost function SchemaNodes(next: char -> char, spark: Spark, q: Query, catalog: string, names: seq<string>,
                             clause: string): seq<Result<DbSchema, string>>
  {
    seq(|names|, k requires 0 <= k < |names| => SchemaNode(next, spark, q, catalog, names[k], clause))
  }

  /** The schemas of a catalog; `clause` as in `SchemaNames`. */
  ghost function SchemasOf(next: char -> char, spark: Spark, q: Query, catalog: string, cl: Clauses)
    : Result<seq<DbSchema>, string>
  {
    var names := SchemaNames(next, spark, catalog, q.dbSchema, cl.dbSchema);
    Collect(SchemaNodes(next, spark, q, catalog, names, cl.table))
  }

  /** The clauses a walk sends with its schema and table listings. */
  datatype Clauses = Clauses(dbSchema: string, table: string)

  ghost function ClausesFor(q: Query): Clauses {
    Clauses(ClauseFor(q.dbSchema), ClauseFor(q.tableName))
  }

  ghost function CatalogNode(next: char -> char, spark: Spark, q: Query, name: string, cl: Clauses)
    : Result<Catalog, string>
  {
    if q.depth == DEPTH_CATALOGS then Ok(Catalog(name, None))
    else
      match SchemasOf(next, spark, q, name, cl)
      case Ok(schemas) => Ok(Catalog(name, Some(schemas)))
      case Err(e) => Err(e)
  }

  ghost function CatalogNodes(next: char -> char, spark: Spark, q: Query, names: seq<string>, cl: Clauses)
    : seq<Result<Catalog, string>>
  {
    seq(|names|, k requires 0 <= k < |names| => CatalogNode(next, spark, q, names[k], cl))
  }

  /** What GetObjects has to return. */
  ghost function Tree(next: char -> char, spark: Spark, q: Query, cl: Clauses): Result<seq<Catalog>, string> {
    Collect(CatalogNodes(next, spark, q, CatalogNames(next, spark, q.catalog), cl))
  }

  // ---------------------------------------------------------------- the builders

  // Each struct builder knows, in `rows`, the rows that its buffers stand for.

  class ColumnBuilder {
    var valid: seq<bool>
    var names: seq<string>
    var ordinals: seq<int>
    var xdbc: seq<nat>  // the number of nulls in each of the optional fields
    ghost var rows: seq<Column>

    constructor ()
      ensures Valid() && rows == []
    {
      valid, names, ordinals, xdbc := [], [], [], seq(XDBC_FIELDS, _ => 0);
      rows := [];
    }

    ghost function Snapshot(): ColumnArray
      reads this
    {
      ColumnArray(valid, names, ordinals, xdbc)
    }

    ghost predicate Valid()
      reads this
    {
      Snapshot().Sound() && Snapshot().Decode() == rows
    }

    /** One column row; the optional fields are null. */
    method AppendRow(name: string, ordinal: int)
      requires Valid()
      modifies this
      ensures Valid() && rows == old(rows) + [Column(name, ordinal)]
    {
      valid := valid + [true];
      names := names + [name];
      ordinals := ordinals + [ordinal];
      ghost var n := |names|;
      for f := 0 to |xdbc|
        invariant |xdbc| == XDBC_FIELDS
        invariant forall g :: 0 <= g < |xdbc| ==> xdbc[g] == if g < f then n else n - 1
        invariant valid == old(valid) + [true] && names == old(names) + [name]
        invariant ordinals == old(ordinals) + [ordinal] && rows == old(rows)
      {
        xdbc := xdbc[f := xdbc[f] + 1];
      }
      rows := rows + [Column(name, ordinal)];
      assert Snapshot().Decode() == rows;
    }
  }

  class TableBuilder {
    var valid: seq<bool>
    var names: seq<string>
    var types: seq<string>
    var columns: ListBuilder
    const columnItems: ColumnBuilder
    var constraints: ListBuilder
    ghost var rows: seq<Table>

    constructor ()
      ensures fresh(columnItems) && Valid() && rows == []
    {
      valid, names, types := [], [], [];
      columns, constraints := EMPTY_LIST, EMPTY_LIST;
      columnItems := new ColumnBuilder();
      rows := [];
    }

    ghost function Buffers(items: nat): TableBuffers
      reads this
    {
      TableBuffers(valid, names, types, columns.Finish(items), constraints.Finish(0))
    }

    ghost predicate Valid()
      reads this, columnItems
    {
      && columnItems.Valid()
      && Buffers(|columnItems.rows|).Sound(|columnItems.rows|)
      && Buffers(|columnItems.rows|).Decode(columnItems.rows) == rows
    }

    /** One table row: the struct, its name, type and constraint list, and an open or
        null column list. */
    method AppendRow(name: string, tableType: string, listColumns: bool)
      requires Valid()
      modifies this
      ensures Valid() && rows == old(rows) + [Table(name, tableType, if listColumns then Some([]) else None)]
      ensures columns == old(columns).Append(listColumns, |columnItems.names|)
    {
      TableAdded(Buffers(|columnItems.rows|), columns, constraints, columnItems.rows, name, tableType, listColumns);
      valid := valid + [true];
      names := names + [name];
      types := types + [tableType];
      constraints := constraints.Append(true, 0);
      columns := columns.Append(listColumns, |columnItems.names|);
      rows := rows + [Table(name, tableType, if listColumns then Some([]) else None)];
    }

    /** The open list of the last row has taken the rows that the child gained. */
    ghost method Took(done: seq<Table>, row: Table, items: seq<Column>, more: seq<Column>)
      requires columnItems.Valid() && columnItems.rows == items + more
      requires Buffers(|items|).Sound(|items|) && Buffers(|items|).Decode(items) == rows
      requires rows == done + [row] && row.columns == Some([])
      requires columns.valid != [] && columns.valid[|columns.valid| - 1]
      modifies `rows
      ensures Valid() && rows == done + [row.(columns := Some(more))]
    {
      TableGrown(Buffers(|items|), columns, items, more);
      assert [] + more == more;
      rows := done + [row.(columns := Some(more))];
    }
  }

  class DbSchemaBuilder {
    var valid: seq<bool>
    var names: seq<string>
    var tables: ListBuilder
    const tableItems: TableBuilder
    ghost var rows: seq<DbSchema>

    constructor ()
      ensures fresh(tableItems) && fresh(tableItems.columnItems) && Valid() && rows == []
    {
      valid, names, tables := [], [], EMPTY_LIST;
      tableItems := new TableBuilder();
      rows := [];
    }

    ghost function Buffers(items: nat): DbSchemaBuffers
      reads this
    {
      DbSchemaBuffers(valid, names, tables.Finish(items))
    }

    ghost predicate Valid()
      reads this, tableItems, tableItems.columnItems
    {
      && tableItems.Valid()
      && Buffers(|tableItems.rows|).Sound(|tableItems.rows|)
      && Buffers(|tableItems.rows|).Decode(tableItems.rows) == rows
    }

    /** One schema row with an open or null table list. */
    method AppendRow(name: string, listTables: bool)
      requires Valid()
      modifies this
      ensures Valid() && rows == old(rows) + [DbSchema(name, if listTables then Some([]) else None)]
      ensures tables == old(tables).Append(listTables, |tableItems.names|)
    {
      DbSchemaAdded(Buffers(|tableItems.rows|), tables, tableItems.rows, name, listTables);
      valid := valid + [true];
      names := names + [name];
      tables := tables.Append(listTables, |tableItems.names|);
      rows := rows + [DbSchema(name, if listTables then Some([]) else None)];
    }

    /** The open list of the last row has taken the rows that the child gained. */
    ghost method Took(done: seq<DbSchema>, row: DbSchema, items: seq<Table>, more: seq<Table>)
      requires tableItems.Valid() && tableItems.rows == items + more
      requires Buffers(|items|).Sound(|items|) && Buffers(|items|).Decode(items) == rows
      requires rows == done + [row] && row.tables == Some([])
      requires tables.valid != [] && tables.valid[|tables.valid| - 1]
      modifies `rows
      ensures Valid() && rows == done + [row.(tables := Some(more))]
    {
      DbSchemaGrown(Buffers(|items|), tables, items, more);
      assert [] + more == more;
      rows := done + [row.(tables := Some(more))];
    }
  }

  /** Appends a row for every field that passes the filter; a failing probe appends none. */
  method AppendColumns(next: char -> char, spark: Spark, q: Query, sb: ColumnBuilder, catalog: string,
                       dbSchema: string, table: string)
    returns (ok: bool)
    requires IsFold(next) && sb.Valid()
    modifies sb
    ensures sb.Valid()
    ensures ok == spark.schemaOf(Probe(catalog, dbSchema, table)).Ok?
    ensures sb.rows == old(sb.rows) + ColumnsOf(next, spark, q, catalog, dbSchema, table)
  {
    var ref := Quoting.QuoteQualifiedName(Some(catalog), Some(dbSchema), table);
    var reply := spark.schemaOf("SELECT * FROM " + ref);
    if reply.Err? {
      return false;
    }
    var fields := reply.value;
    for i := 0 to |fields|
      invariant sb.Valid()
      invariant sb.rows == old(sb.rows) + ColumnsFrom(next, q.columnName, fields, i)
    {
      ghost var before := ColumnsFrom(next, q.columnName, fields, i);
      var m := Matches(next, q.columnName, fields[i]);
      if m {
        sb.AppendRow(fields[i], i + 1);
        Assoc(old(sb.rows), before, [Column(fields[i], i + 1)]);
      } else {
        assert before + [] == before;
      }
    }
    return true;
  }

  /** One pass of the loop of AppendTables. */
  method AppendTable(next: char -> char, spark: Spark, q: Query, sb: TableBuilder, catalog: string,
                     dbSchema: string, tbl: TableEntry)
    requires IsFold(next) && sb.Valid()
    modifies sb, sb.columnItems
    ensures sb.Valid() && sb.rows == old(sb.rows) + TableNode(next, spark, q, catalog, dbSchema, tbl)
  {
    var allowed := TableTypeAllowed(next, tbl.tableType, q.tableTypes);
    if !allowed {
      return;
    }
    sb.AppendRow(tbl.name, tbl.tableType, q.depth == DEPTH_COLUMNS);
    if q.depth == DEPTH_COLUMNS {
      ghost var items := sb.columnItems.rows;
      // A table that cannot be described keeps its empty column list.
      var described := AppendColumns(next, spark, q, sb.columnItems, catalog, dbSchema, tbl.name);
      sb.Took(old(sb.rows), Table(tbl.name, tbl.tableType, Some([])), items,
              ColumnsOf(next, spark, q, catalog, dbSchema, tbl.name));
    }
  }

  method AppendTables(next: char -> char, spark: Spark, q: Query, sb: TableBuilder, catalog: string, dbSchema: string)
    returns (r: Result<(), string>)
    requires IsFold(next) && sb.Valid()
    modifies sb, sb.columnItems
    ensures sb.Valid()
    ensures var tables := TablesOf(next, spark, q, catalog, dbSchema, ClauseFor(q.tableName));
            if tables.Err? then r == Err(tables.error)
            else r.Ok? && sb.rows == old(sb.rows) + tables.value
  {
    var listing := ListTables(next, spark, catalog, dbSchema, q.tableName);
    if listing.Err? {
      return Err(listing.error);
    }
    var tables := listing.value;
    ghost var nodes := TableNodes(next, spark, q, catalog, dbSchema, tables);
    for k := 0 to |tables|
      invariant sb.Valid()
      invariant sb.rows == old(sb.rows) + Flatten(nodes[..k])
    {
      AppendTable(next, spark, q, sb, catalog, dbSchema, tables[k]);
      FlattenNext(nodes, k);
      Assoc(old(sb.rows), Flatten(nodes[..k]), nodes[k]);
    }
    assert nodes[..|tables|] == nodes;
    return Ok(());
  }

  /** One pass of the loop of AppendDBSchemas. */
  method AppendDBSchema(next: char -> char, spark: Spark, q: Query, sb: DbSchemaBuilder, catalog: string, name: string)
    returns (r: Result<(), string>)
    requires IsFold(next) && sb.Valid()
    modifies sb, sb.tableItems, sb.tableItems.columnItems
    ensures var node := SchemaNode(next, spark, q, catalog, name, ClauseFor(q.tableName));
            if node.Err? then r == Err(node.error)
            else r.Ok? && sb.Valid() && sb.rows == old(sb.rows) + [node.value]
  {
    sb.AppendRow(name, q.depth != DEPTH_DB_SCHEMAS);
    if q.depth == DEPTH_DB_SCHEMAS {
      return Ok(());
    }
    ghost var items := sb.tableItems.rows;
    r := AppendTables(next, spark, q, sb.tableItems, catalog, name);
    if r.Ok? {
      sb.Took(old(sb.rows), DbSchema(name, Some([])), items,
              TablesOf(next, spark, q, catalog, name, ClauseFor(q.tableName)).value);
    }
  }

  /** On failure the builders are thrown away, whatever they hold. */
  method AppendDBSchemas(next: char -> char, spark: Spark, q: Query, sb: DbSchemaBuilder, catalog: string)
    returns (r: Result<(), string>)
    requires IsFold(next) && sb.Valid()
    modifies sb, sb.tableItems, sb.tableItems.columnItems
    ensures var schemas := SchemasOf(next, spark, q, catalog, ClausesFor(q));
            if schemas.Err? then r == Err(schemas.error)
            else r.Ok? && sb.Valid() && sb.rows == old(sb.rows) + schemas.value
  {
    var schemas := ListSchemas(next, spark, catalog, q.dbSchema);
    ghost var nodes := SchemaNodes(next, spark, q, catalog, schemas, ClauseFor(q.tableName));
    for k := 0 to |schemas|
      invariant sb.Valid()
      invariant Collect(nodes[..k]).Ok?
      invariant sb.rows == old(sb.rows) + Collect(nodes[..k]).value
    {
      r := AppendDBSchema(next, spark, q, sb, catalog, schemas[k]);
      if r.Err? {
        FirstError(nodes, k);
        return r;
      }
      CollectNext(nodes, k);
      Assoc(old(sb.rows), Collect(nodes[..k]).value, [nodes[k].value]);
    }
    assert nodes[..|schemas|] == nodes;
    return Ok(());
  }

  /** The record builder of GetObjects: catalog names and the list of their schemas. */
  class CatalogBuilder {
    var names: seq<string>
    var dbSchemas: ListBuilder
    const dbSchemaItems: DbSchemaBuilder
    ghost var rows: seq<Catalog>

    constructor ()
      ensures fresh(dbSchemaItems) && fresh(dbSchemaItems.tableItems) && fresh(dbSchemaItems.tableItems.columnItems)
      ensures Valid() && rows == []
    {
      names, dbSchemas := [], EMPTY_LIST;
      dbSchemaItems := new DbSchemaBuilder();
      rows := [];
    }

    ghost function Buffers(items: nat): CatalogBuffers
      reads this
    {
      CatalogBuffers(names, dbSchemas.Finish(items))
    }

    ghost predicate Valid()
      reads this, dbSchemaItems, dbSchemaItems.tableItems, dbSchemaItems.tableItems.columnItems
    {
      && dbSchemaItems.Valid()
      && Buffers(|dbSchemaItems.rows|).Sound(|dbSchemaItems.rows|)
      && Buffers(|dbSchemaItems.rows|).Decode(dbSchemaItems.rows) == rows
    }

    method AppendRow(name: string, listSchemas: bool)
      requires Valid()
      modifies this
      ensures Valid() && rows == old(rows) + [Catalog(name, if listSchemas then Some([]) else None)]
      ensures dbSchemas == old(dbSchemas).Append(listSchemas, |dbSchemaItems.names|)
    {
      CatalogAdded(Buffers(|dbSchemaItems.rows|), dbSchemas, dbSchemaItems.rows, name, listSchemas);
      names := names + [name];
      dbSchemas := dbSchemas.Append(listSchemas, |dbSchemaItems.names|);
      rows := rows + [Catalog(name, if listSchemas then Some([]) else None)];
    }

    /** The open list of the last row has taken the rows that the child gained. */
    ghost method Took(done: seq<Catalog>, row: Catalog, items: seq<DbSchema>, more: seq<DbSchema>)
      requires dbSchemaItems.Valid() && dbSchemaItems.rows == items + more
      requires Buffers(|items|).Sound(|items|) && Buffers(|items|).Decode(items) == rows
      requires rows == done + [row] && row.dbSchemas == Some([])
      requires dbSchemas.valid != [] && dbSchemas.valid[|dbSchemas.valid| - 1]
      modifies `rows
      ensures Valid() && rows == done + [row.(dbSchemas := Some(more))]
    {
      CatalogGrown(Buffers(|items|), dbSchemas, items, more);
      assert [] + more == more;
      rows := done + [row.(dbSchemas := Some(more))];
    }

    /** Closes every list with the length of its child. */
    method NewRecord() returns (record: CatalogRecord)
      requires Valid()
      ensures record.Sound() && record.Decode() == rows
    {
      var s := dbSchemaItems;
      var t := s.tableItems;
      var c := t.columnItems;
      record := CatalogRecord(CatalogBuffers(names, dbSchemas.Finish(|s.names|)),
                              DbSchemaBuffers(s.valid, s.names, s.tables.Finish(|t.names|)),
                              TableBuffers(t.valid, t.names, t.types, t.columns.Finish(|c.names|),
                                            t.constraints.Finish(0)),
                              ColumnArray(c.valid, c.names, c.ordinals, c.xdbc));
    }
  }

  /** One pass of the loop of BuildObjects. */
  method AppendCatalog(next: char -> char, spark: Spark, q: Query, rb: CatalogBuilder, name: string)
    returns (r: Result<(), string>)
    requires IsFold(next) && rb.Valid()
    modifies rb, rb.dbSchemaItems, rb.dbSchemaItems.tableItems, rb.dbSchemaItems.tableItems.columnItems
    ensures var node := CatalogNode(next, spark, q, name, ClausesFor(q));
            if node.Err? then r == Err(node.error)
            else r.Ok? && rb.Valid() && rb.rows == old(rb.rows) + [node.value]
  {
    rb.AppendRow(name, q.depth != DEPTH_CATALOGS);
    if q.depth == DEPTH_CATALOGS {
      return Ok(());
    }
    ghost var items := rb.dbSchemaItems.rows;
    r := AppendDBSchemas(next, spark, q, rb.dbSchemaItems, name);
    if r.Ok? {
      rb.Took(old(rb.rows), Catalog(name, Some([])), items,
              SchemasOf(next, spark, q, name, ClausesFor(q)).value);
    }
  }

  /** GetObjects. The arrays are well laid out and decode to exactly the requested tree;
      the call fails exactly when the tree does not exist, with the same error. */
  method BuildObjects(next: char -> char, spark: Spark, q: Query) returns (r: Result<CatalogRecord, string>)
    requires IsFold(next)
    ensures var tree := Tree(next, spark, q, ClausesFor(q));
            if tree.Err? then r == Err(tree.error)
            else r.Ok? && r.value.Sound() && r.value.Decode() == tree.value
  {
    var catalogs := ListCatalogs(next, spark, q.catalog);
    var rb := new CatalogBuilder();
    ghost var nodes := CatalogNodes(next, spark, q, catalogs, ClausesFor(q));
    for k := 0 to |catalogs|
      invariant fresh(rb) && fresh(rb.dbSchemaItems) && fresh(rb.dbSchemaItems.tableItems)
      invariant fresh(rb.dbSchemaItems.tableItems.columnItems)
      invariant rb.Valid() && Collect(nodes[..k]) == Ok(rb.rows)
    {
      var done := AppendCatalog(next, spark, q, rb, catalogs[k]);
      if done.Err? {
        FirstError(nodes, k);
        return Err(done.error);
      }
      CollectNext(nodes, k);
    }
    assert nodes[..|catalogs|] == nodes;
    var record := rb.NewRecord();
    return Ok(record);
  }
}
