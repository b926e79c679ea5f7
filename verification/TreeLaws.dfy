/** What is in the GetObjects tree, said of Spark's replies cell by cell: which catalogs,
    which schemas, which tables and columns, and when there is no tree. */
module TreeLaws {
  import opened Wrappers
  import opened Folding
  import opened LikePatterns
  import opened Arrays
  import opened Replies
  import opened Objects
  import Pushdown
  import Quoting
  import ObjectLaws

  /** The filter lets the name through: there is none, or an empty one, or it matches. */
  ghost predicate Passes(next: char -> char, pattern: Option<string>, name: string) {
    pattern == None || pattern == Some("") || LoopLike(next, pattern.value, name)
  }

  lemma PassesIsMatching(next: char -> char, pattern: Option<string>, name: string)
    ensures Passes(next, pattern, name) <==> Pushdown.MatchesPattern(next, pattern, name)
  {
  }

  /** Row r of batch b has the string `name` in column `col`. */
  ghost predicate CellIs(reply: Reply, col: nat, b: nat, r: nat, name: string) {
    && b < |reply.batches| && col < |reply.batches[b]| && reply.batches[b][col].Strings?
    && r < |reply.batches[b][col].values| && reply.batches[b][col].values[r] == Some(name)
  }

  ghost predicate Holds(reply: Reply, col: nat, name: string) {
    exists b, r :: CellIs(reply, col, b, r, name)
  }

  /** Row r of batch b is flagged in column `col`, if there is such a column. */
  ghost predicate FlagIs(reply: Reply, col: Option<nat>, b: nat, r: nat) {
    && col.Some? && b < |reply.batches| && col.value < |reply.batches[b]|
    && reply.batches[b][col.value].Booleans? && r < |reply.batches[b][col.value].flags|
    && reply.batches[b][col.value].flags[r] == Some(true)
  }

  // ---------------------------------------------------------------- rows and cells

  lemma {:induction false} RowComesFrom(batches: seq<Batch>, name: nat, temp: Option<nat>, k: nat)
    returns (b: nat, r: nat)
    requires forall i :: 0 <= i < |batches| ==> name < |batches[i]| && (temp.Some? ==> temp.value < |batches[i]|)
    requires k < |RowsOf(batches, name, temp)|
    ensures b < |batches| && r < |BatchRows(batches[b], name, temp)|
    ensures RowsOf(batches, name, temp)[k] == BatchRows(batches[b], name, temp)[r]
  {
    var last := |batches| - 1;
    var init := RowsOf(batches[..last], name, temp);
    if k < |init| {
      b, r := RowComesFrom(batches[..last], name, temp, k);
    } else {
      b, r := last, k - |init|;
    }
  }

  lemma {:induction false} RowGoesTo(batches: seq<Batch>, name: nat, temp: Option<nat>, b: nat, r: nat)
    returns (k: nat)
    requires forall i :: 0 <= i < |batches| ==> name < |batches[i]| && (temp.Some? ==> temp.value < |batches[i]|)
    requires b < |batches| && r < |BatchRows(batches[b], name, temp)|
    ensures k < |RowsOf(batches, name, temp)|
    ensures RowsOf(batches, name, temp)[k] == BatchRows(batches[b], name, temp)[r]
  {
    var last := |batches| - 1;
    if b < last {
      k := RowGoesTo(batches[..last], name, temp, b, r);
    } else {
      k := |RowsOf(batches[..last], name, temp)| + r;
    }
  }

  lemma {:induction false} NameIsRow(rows: seq<Row>, n: string)
    ensures n in Names(rows) <==> exists k :: 0 <= k < |rows| && rows[k].name == Some(n)
  {
    if rows != [] {
      NameIsRow(rows[..|rows| - 1], n);
    }
  }

  /** The names read from a reply are the strings of its column. */
  lemma NameIsCell(next: char -> char, reply: Reply, column: string, n: string)
    ensures n in Names(NamedRows(next, reply, column))
            <==> Holds(reply, FirstNamed(next, reply.fields, column).GetOr(0), n)
  {
    var rows, col := NamedRows(next, reply, column), FirstNamed(next, reply.fields, column).GetOr(0);
    NameIsRow(rows, n);
    if k :| 0 <= k < |rows| && rows[k].name == Some(n) {
      var b, r := RowComesFrom(reply.batches, col, None, k);
      assert CellIs(reply, col, b, r, n);
    }
    if b, r :| CellIs(reply, col, b, r, n) {
      var k := RowGoesTo(reply.batches, col, None, b, r);
    }
  }

  // ---------------------------------------------------------------- catalogs

  lemma CatalogsInOrder(next: char -> char, spark: Spark, q: Query, names: seq<string>, cl: Clauses)
    requires Collect(CatalogNodes(next, spark, q, names, cl)).Ok?
    ensures var cs := Collect(CatalogNodes(next, spark, q, names, cl)).value;
            |cs| == |names|
            && forall k :: 0 <= k < |cs| ==>
                 cs[k].name == names[k] && CatalogNode(next, spark, q, names[k], cl) == Ok(cs[k])
  {
    var nodes := CatalogNodes(next, spark, q, names, cl);
    ObjectLaws.CollectedAt(nodes, 0);
    forall k | 0 <= k < |names|
      ensures Collect(nodes).value[k].name == names[k] && nodes[k] == Ok(Collect(nodes).value[k])
    {
      ObjectLaws.CollectedAt(nodes, k);
    }
  }

  function NamesOfCatalogs(cs: seq<Catalog>): seq<string> {
    seq(|cs|, k requires 0 <= k < |cs| => cs[k].name)
  }

  /** The names are exactly the cells of the column that pass the filter, and without a
      filter all of them in the order listed. */
  ghost predicate AreCells(next: char -> char, reply: Reply, column: string, pattern: Option<string>,
                           names: seq<string>)
  {
    && (forall n :: n in names <==>
          Holds(reply, FirstNamed(next, reply.fields, column).GetOr(0), n) && Passes(next, pattern, n))
    && (pattern == None ==> names == Names(NamedRows(next, reply, column)))
  }

  /** The exact name that was asked for; the default catalog if Spark cannot list catalogs;
      otherwise the listed names that pass the filter. */
  ghost predicate CatalogsAre(next: char -> char, spark: Spark, pattern: Option<string>, names: seq<string>) {
    if pattern.Some? && pattern.value != "" && '%' !in pattern.value && '_' !in pattern.value
    then names == [pattern.value]
    else match spark.show("SHOW CATALOGS")
         case Err(_) => names == ["spark_catalog"]
         case Ok(reply) => AreCells(next, reply, "catalog", pattern, names)
  }

  lemma CatalogNamesAre(next: char -> char, spark: Spark, pattern: Option<string>)
    ensures CatalogsAre(next, spark, pattern, CatalogNames(next, spark, pattern))
  {
    if spark.show("SHOW CATALOGS").Ok? {
      KeptCells(next, spark.show("SHOW CATALOGS").value, "catalog", pattern);
    }
  }

  /** Main result on catalogs: which there are; and their schema lists are null exactly if
      only catalogs were asked for. */
  lemma CatalogsListed(next: char -> char, spark: Spark, q: Query, cl: Clauses)
    requires Tree(next, spark, q, cl).Ok?
    ensures CatalogsAre(next, spark, q.catalog, NamesOfCatalogs(Tree(next, spark, q, cl).value))
    ensures forall c :: c in Tree(next, spark, q, cl).value ==> (c.dbSchemas == None <==> q.depth == 1)
  {
    CatalogsInOrder(next, spark, q, CatalogNames(next, spark, q.catalog), cl);
    CatalogNamesAre(next, spark, q.catalog);
    assert NamesOfCatalogs(Tree(next, spark, q, cl).value) == CatalogNames(next, spark, q.catalog);
  }

  lemma KeptCells(next: char -> char, reply: Reply, column: string, pattern: Option<string>)
    ensures AreCells(next, reply, column, pattern, Pushdown.Keep(next, pattern, Names(NamedRows(next, reply, column))))
  {
    var all := Names(NamedRows(next, reply, column));
    forall n ensures n in Pushdown.Keep(next, pattern, all) <==>
               Holds(reply, FirstNamed(next, reply.fields, column).GetOr(0), n) && Passes(next, pattern, n)
    {
      Pushdown.KeptMembers(next, pattern, all, n);
      NameIsCell(next, reply, column, n);
    }
    if pattern == None {
      Pushdown.KeepAll(next, pattern, all);
    }
  }

  // ---------------------------------------------------------------- schemas

  function NamesOfSchemas(ss: seq<DbSchema>): seq<string> {
    seq(|ss|, k requires 0 <= k < |ss| => ss[k].name)
  }

  lemma SchemasInOrder(next: char -> char, spark: Spark, q: Query, catalog: string, names: seq<string>, clause: string)
    requires Collect(SchemaNodes(next, spark, q, catalog, names, clause)).Ok?
    ensures var ss := Collect(SchemaNodes(next, spark, q, catalog, names, clause)).value;
            |ss| == |names|
            && forall k :: 0 <= k < |ss| ==>
                 ss[k].name == names[k] && SchemaNode(next, spark, q, catalog, names[k], clause) == Ok(ss[k])
  {
    var nodes := SchemaNodes(next, spark, q, catalog, names, clause);
    ObjectLaws.CollectedAt(nodes, 0);
    forall k | 0 <= k < |names|
      ensures Collect(nodes).value[k].name == names[k] && nodes[k] == Ok(Collect(nodes).value[k])
    {
      ObjectLaws.CollectedAt(nodes, k);
    }
  }

  /** The names listed for that catalog, or else, if Spark refuses that, listed at all, that
      pass the filter; none if it refuses both. */
  ghost predicate SchemasAre(next: char -> char, spark: Spark, catalog: string, pattern: Option<string>,
                             clause: string, names: seq<string>)
  {
    match spark.show("SHOW NAMESPACES IN " + Quoting.Quote(catalog) + clause)
    case Ok(reply) => AreCells(next, reply, "namespace", pattern, names)
    case Err(_) =>
      match spark.show("SHOW NAMESPACES" + clause)
      case Ok(reply) => AreCells(next, reply, "namespace", pattern, names)
      case Err(_) => names == []
  }

  lemma SchemaNamesAre(next: char -> char, spark: Spark, catalog: string, pattern: Option<string>, clause: string)
    ensures SchemasAre(next, spark, catalog, pattern, clause, SchemaNames(next, spark, catalog, pattern, clause))
  {
    var here := spark.show("SHOW NAMESPACES IN " + Quoting.Quote(catalog) + clause);
    var plain := spark.show("SHOW NAMESPACES" + clause);
    if here.Ok? {
      KeptCells(next, here.value, "namespace", pattern);
    } else if plain.Ok? {
      KeptCells(next, plain.value, "namespace", pattern);
    }
  }

  /** Main result on schemas: which there are in a catalog; and their table lists are null
      exactly if only schemas were asked for. */
  lemma SchemasListed(next: char -> char, spark: Spark, q: Query, cl: Clauses, c: Catalog)
    requires Tree(next, spark, q, cl).Ok? && c in Tree(next, spark, q, cl).value && c.dbSchemas.Some?
    ensures SchemasAre(next, spark, c.name, q.dbSchema, cl.dbSchema, NamesOfSchemas(c.dbSchemas.value))
    ensures forall s :: s in c.dbSchemas.value ==> (s.tables == None <==> q.depth == 2)
  {
    CatalogsInOrder(next, spark, q, CatalogNames(next, spark, q.catalog), cl);
    SchemasOfCatalog(next, spark, q, cl, c.name);
  }

  lemma SchemasOfCatalog(next: char -> char, spark: Spark, q: Query, cl: Clauses, catalog: string)
    requires SchemasOf(next, spark, q, catalog, cl).Ok?
    ensures var ss := SchemasOf(next, spark, q, catalog, cl).value;
            && SchemasAre(next, spark, catalog, q.dbSchema, cl.dbSchema, NamesOfSchemas(ss))
            && forall s :: s in ss ==> (s.tables == None <==> q.depth == 2)
  {
    var all := SchemaNames(next, spark, catalog, q.dbSchema, cl.dbSchema);
    SchemasInOrder(next, spark, q, catalog, all, cl.table);
    SchemaNamesAre(next, spark, catalog, q.dbSchema, cl.dbSchema);
    assert NamesOfSchemas(SchemasOf(next, spark, q, catalog, cl).value) == all;
  }

  // ---------------------------------------------------------------- tables and columns

  /** Some row of a SHOW TABLES reply lists the table with that type. */
  ghost predicate RowLists(spark: Spark, reply: Reply, name: string, tableType: string) {
    exists b, r :: CellIs(reply, LastNamed(spark.lower, reply.fields, "tablename").GetOr(0), b, r, name)
                   && tableType == if FlagIs(reply, LastNamed(spark.lower, reply.fields, "istemporary"), b, r)
                                   then "TEMPORARY" else "TABLE"
  }

  /** The filter has no entry, or one that is equal to the type under folding. */
  ghost predicate TypePasses(next: char -> char, filter: seq<string>, tableType: string) {
    |filter| == 0 || exists k :: 0 <= k < |filter| && |filter[k]| == |tableType|
                                 && forall i :: 0 <= i < |tableType| ==> SameOrbit(next, filter[k][i], tableType[i])
  }

  lemma TableRowIsCell(spark: Spark, reply: Reply, name: string, tableType: string)
    ensures RowLists(spark, reply, name, tableType)
            <==> exists k :: 0 <= k < |TableRows(spark.lower, reply)|
                             && TableRows(spark.lower, reply)[k].name == Some(name)
                             && TypeOf(TableRows(spark.lower, reply)[k]) == tableType
  {
    var rows := TableRows(spark.lower, reply);
    var col := LastNamed(spark.lower, reply.fields, "tablename").GetOr(0);
    var temp := LastNamed(spark.lower, reply.fields, "istemporary");
    if k :| 0 <= k < |rows| && rows[k].name == Some(name) && TypeOf(rows[k]) == tableType {
      var b, r := RowComesFrom(reply.batches, col, temp, k);
      CellsOfRow(reply, col, temp, b, r);
      assert CellIs(reply, col, b, r, name);
    }
    if b, r :| CellIs(reply, col, b, r, name)
               && tableType == if FlagIs(reply, temp, b, r) then "TEMPORARY" else "TABLE" {
      CellsOfRow(reply, col, temp, b, r);
      var k := RowGoesTo(reply.batches, col, temp, b, r);
    }
  }

  lemma CellsOfRow(reply: Reply, col: nat, temp: Option<nat>, b: nat, r: nat)
    requires b < |reply.batches| && col < |reply.batches[b]| && (temp.Some? ==> temp.value < |reply.batches[b]|)
    requires reply.batches[b][col].Strings? && r < |reply.batches[b][col].values|
    ensures r < |BatchRows(reply.batches[b], col, temp)|
    ensures var row := BatchRows(reply.batches[b], col, temp)[r];
            && row.name == reply.batches[b][col].values[r]
            && (FlagIs(reply, temp, b, r) <==> row.temporary == Some(true))
  {
    assert reply.batches[b][col].Length() == |reply.batches[b][col].values|;
  }

  /** The text of the listing, as Spark gets it. */
  function ShowTables(catalog: string, dbSchema: string, clause: string): string {
    "SHOW TABLES IN " + Quoting.Quote(catalog) + "." + Quoting.Quote(dbSchema) + clause
  }

  /** Spark's answer lists exactly such tables, and the filters let exactly these through. */
  ghost predicate TableIsCell(next: char -> char, spark: Spark, q: Query, catalog: string, dbSchema: string,
                              reply: Reply, t: Table)
  {
    && RowLists(spark, reply, t.name, t.tableType)
    && Passes(next, q.tableName, t.name) && TypePasses(next, q.tableTypes, t.tableType)
    && (q.depth == 0 ==> t.columns == Some(ColumnsOf(next, spark, q, catalog, dbSchema, t.name)))
    && (q.depth != 0 ==> t.columns == None)
  }

  /** Main result on tables: those of a schema are exactly the cells listed for that catalog
      and that schema that pass the name and type filters, each with its columns. */
  lemma TablesListed(next: char -> char, spark: Spark, q: Query, cl: Clauses, c: Catalog, s: DbSchema, t: Table)
    requires Tree(next, spark, q, cl).Ok? && c in Tree(next, spark, q, cl).value
    requires c.dbSchemas.Some? && s in c.dbSchemas.value && s.tables.Some?
    ensures var reply := spark.show(ShowTables(c.name, s.name, cl.table));
            reply.Ok? && (t in s.tables.value <==> TableIsCell(next, spark, q, c.name, s.name, reply.value, t))
  {
    CatalogsInOrder(next, spark, q, CatalogNames(next, spark, q.catalog), cl);
    SchemasInOrder(next, spark, q, c.name, SchemaNames(next, spark, c.name, q.dbSchema, cl.dbSchema), cl.table);
    TablesOfSchema(next, spark, q, c.name, s.name, cl.table, t);
  }

  lemma TablesOfSchema(next: char -> char, spark: Spark, q: Query, catalog: string, dbSchema: string,
                       clause: string, t: Table)
    requires TablesOf(next, spark, q, catalog, dbSchema, clause).Ok?
    ensures var reply := spark.show(ShowTables(catalog, dbSchema, clause));
            reply.Ok? && (t in TablesOf(next, spark, q, catalog, dbSchema, clause).value
                          <==> TableIsCell(next, spark, q, catalog, dbSchema, reply.value, t))
  {
    var reply := spark.show(ShowTables(catalog, dbSchema, clause));
    ObjectLaws.TablesAreRows(next, spark, q, catalog, dbSchema, clause, t);
    TableRowIsCell(spark, reply.value, t.name, t.tableType);
    PassesIsMatching(next, q.tableName, t.name);
    var rows := TableRows(spark.lower, reply.value);
    assert forall k :: 0 <= k < |rows| ==>
             (ObjectLaws.Lists(next, q, rows[k], t.name, t.tableType)
              <==> rows[k].name == Some(t.name) && TypeOf(rows[k]) == t.tableType
                   && Passes(next, q.tableName, t.name) && TypePasses(next, q.tableTypes, t.tableType));
  }

  function NamesOfTables(ts: seq<Table>): seq<string> {
    seq(|ts|, k requires 0 <= k < |ts| => ts[k].name)
  }

  function NamesOfEntries(es: seq<TableEntry>): seq<string> {
    seq(|es|, k requires 0 <= k < |es| => es[k].name)
  }

  lemma {:induction false} EntriesInOrder(next: char -> char, rows: seq<Row>)
    ensures NamesOfEntries(KeepEntries(next, None, rows)) == Names(rows)
  {
    if rows != [] {
      EntriesInOrder(next, rows[..|rows| - 1]);
    }
  }

  lemma {:induction false} NodesInOrder(next: char -> char, spark: Spark, q: Query, catalog: string, dbSchema: string,
                                        es: seq<TableEntry>)
    requires q.tableTypes == []
    ensures NamesOfTables(Flatten(TableNodes(next, spark, q, catalog, dbSchema, es))) == NamesOfEntries(es)
  {
    if es != [] {
      var nodes := TableNodes(next, spark, q, catalog, dbSchema, es);
      NodesInOrder(next, spark, q, catalog, dbSchema, es[..|es| - 1]);
      assert nodes[..|es| - 1] == TableNodes(next, spark, q, catalog, dbSchema, es[..|es| - 1]);
      var last := nodes[|es| - 1];
      assert |last| == 1 && last[0].name == es[|es| - 1].name;
      assert NamesOfTables(Flatten(nodes)) == NamesOfTables(Flatten(nodes[..|es| - 1])) + [last[0].name];
    }
  }

  /** Without filters the tables are all that are listed, in the order listed. */
  lemma TablesInOrder(next: char -> char, spark: Spark, q: Query, catalog: string, dbSchema: string, clause: string)
    requires q.tableName == None && q.tableTypes == []
    requires TablesOf(next, spark, q, catalog, dbSchema, clause).Ok?
    ensures var reply := spark.show(ShowTables(catalog, dbSchema, clause));
            reply.Ok? && NamesOfTables(TablesOf(next, spark, q, catalog, dbSchema, clause).value)
                         == Names(TableRows(spark.lower, reply.value))
  {
    var rows := TableRows(spark.lower, spark.show(ShowTables(catalog, dbSchema, clause)).value);
    EntriesInOrder(next, rows);
    NodesInOrder(next, spark, q, catalog, dbSchema, KeepEntries(next, None, rows));
  }

  /** Main result on columns: those of a table are exactly the fields, with their places, of
      its own probe that pass the filter; none if the probe fails. */
  lemma ColumnsListed(next: char -> char, spark: Spark, q: Query, catalog: string, dbSchema: string, table: string,
                      col: Column)
    ensures match spark.schemaOf("SELECT * FROM " + Quoting.Reference(Some(catalog), Some(dbSchema), table))
            case Err(_) => ColumnsOf(next, spark, q, catalog, dbSchema, table) == []
            case Ok(fields) =>
              col in ColumnsOf(next, spark, q, catalog, dbSchema, table)
              <==> && 1 <= col.ordinal <= |fields| && col.name == fields[col.ordinal - 1]
                   && Passes(next, q.columnName, col.name)
  {
    Quoting.ReferenceIsQualified(Some(catalog), Some(dbSchema), table);
    var reply := spark.schemaOf("SELECT * FROM " + Quoting.Reference(Some(catalog), Some(dbSchema), table));
    if reply.Ok? {
      ObjectLaws.OrdinalsArePositions(next, q.columnName, reply.value, |reply.value|, col);
      PassesIsMatching(next, q.columnName, col.name);
    }
  }

  // ---------------------------------------------------------------- failure

  /** The error of a Collect is that of its first failing entry. */
  lemma {:induction false} FirstFailing<T>(results: seq<Result<T, string>>) returns (k: nat)
    requires Collect(results).Err?
    ensures k < |results| && results[k] == Err(Collect(results).error)
    ensures forall i :: 0 <= i < k ==> results[i].Ok?
  {
    var last := |results| - 1;
    if Collect(results[..last]).Err? {
      k := FirstFailing(results[..last]);
    } else {
      k := last;
      forall i | 0 <= i < last ensures results[i].Ok? {
        ObjectLaws.CollectedAt(results[..last], i);
      }
    }
  }

  lemma {:induction false} AllOk<T>(results: seq<Result<T, string>>)
    requires forall k :: 0 <= k < |results| ==> results[k].Ok?
    ensures Collect(results).Ok?
  {
    if results != [] {
      AllOk(results[..|results| - 1]);
    }
  }

  /** The error of listing the tables of a schema, if Spark refuses that. */
  ghost function TableError(spark: Spark, cl: Clauses, catalog: string, dbSchema: string): Option<string> {
    match spark.show(ShowTables(catalog, dbSchema, cl.table))
    case Ok(_) => None
    case Err(e) => Some(e)
  }

  ghost predicate SchemaListed(next: char -> char, spark: Spark, q: Query, cl: Clauses, catalog: string, name: string) {
    name in SchemaNames(next, spark, catalog, q.dbSchema, cl.dbSchema)
  }

  /** Spark refuses to list the tables of some schema of the catalog. */
  ghost predicate Refuses(next: char -> char, spark: Spark, q: Query, cl: Clauses, catalog: string) {
    exists s :: SchemaListed(next, spark, q, cl, catalog, s) && TableError(spark, cl, catalog, s).Some?
  }

  /** Schema j of the catalog is the first whose tables Spark refuses to list, with `e`. */
  ghost predicate RefusedAt(next: char -> char, spark: Spark, q: Query, cl: Clauses, catalog: string, j: nat,
                            e: string)
  {
    var names := SchemaNames(next, spark, catalog, q.dbSchema, cl.dbSchema);
    && j < |names| && TableError(spark, cl, catalog, names[j]) == Some(e)
    && forall i :: 0 <= i < j ==> TableError(spark, cl, catalog, names[i]) == None
  }

  lemma CatalogFails(next: char -> char, spark: Spark, q: Query, cl: Clauses, name: string)
    requires q.depth != 1 && q.depth != 2
    ensures CatalogNode(next, spark, q, name, cl).Err? <==> Refuses(next, spark, q, cl, name)
    ensures CatalogNode(next, spark, q, name, cl).Err? ==>
              exists j :: RefusedAt(next, spark, q, cl, name, j, CatalogNode(next, spark, q, name, cl).error)
  {
    var names := SchemaNames(next, spark, name, q.dbSchema, cl.dbSchema);
    var nodes := SchemaNodes(next, spark, q, name, names, cl.table);
    assert forall j :: 0 <= j < |names| ==>
             (nodes[j].Ok? <==> TableError(spark, cl, name, names[j]) == None)
             && (nodes[j].Err? ==> TableError(spark, cl, name, names[j]) == Some(nodes[j].error));
    if Collect(nodes).Err? {
      var j := FirstFailing(nodes);
      assert SchemaListed(next, spark, q, cl, name, names[j]);
      assert RefusedAt(next, spark, q, cl, name, j, Collect(nodes).error);
    } else if s :| SchemaListed(next, spark, q, cl, name, s) && TableError(spark, cl, name, s).Some? {
      var j :| 0 <= j < |names| && names[j] == s;
      ObjectLaws.CollectedAt(nodes, j);
    }
  }

  lemma ShallowSucceeds(next: char -> char, spark: Spark, q: Query, cl: Clauses)
    requires q.depth == 1 || q.depth == 2
    ensures Tree(next, spark, q, cl).Ok?
  {
    var cs := CatalogNames(next, spark, q.catalog);
    forall k | 0 <= k < |cs| ensures CatalogNode(next, spark, q, cs[k], cl).Ok? {
      if q.depth == 2 {
        AllOk(SchemaNodes(next, spark, q, cs[k], SchemaNames(next, spark, cs[k], q.dbSchema, cl.dbSchema), cl.table));
      }
    }
    AllOk(CatalogNodes(next, spark, q, cs, cl));
  }

  /** Main result on failure: there is a tree unless tables are asked for and Spark refuses
      to list those of some schema in it; and the error is that of the first such schema of
      the first such catalog. */
  lemma TreeFails(next: char -> char, spark: Spark, q: Query, cl: Clauses)
    ensures Tree(next, spark, q, cl).Err?
            <==> q.depth != 1 && q.depth != 2
                 && exists c :: c in CatalogNames(next, spark, q.catalog) && Refuses(next, spark, q, cl, c)
    ensures Tree(next, spark, q, cl).Err? ==>
              var cs := CatalogNames(next, spark, q.catalog);
              exists k, j :: 0 <= k < |cs| && RefusedAt(next, spark, q, cl, cs[k], j, Tree(next, spark, q, cl).error)
                             && forall i :: 0 <= i < k ==> !Refuses(next, spark, q, cl, cs[i])
  {
    var cs := CatalogNames(next, spark, q.catalog);
    var nodes := CatalogNodes(next, spark, q, cs, cl);
    if q.depth == 1 || q.depth == 2 {
      ShallowSucceeds(next, spark, q, cl);
    } else {
      forall k | 0 <= k < |cs| ensures nodes[k].Err? <==> Refuses(next, spark, q, cl, cs[k]) {
        CatalogFails(next, spark, q, cl, cs[k]);
      }
      if Collect(nodes).Err? {
        var k := FirstFailing(nodes);
        CatalogFails(next, spark, q, cl, cs[k]);
        var j :| RefusedAt(next, spark, q, cl, cs[k], j, nodes[k].error);
        assert forall i :: 0 <= i < k ==> nodes[i].Ok?;
      } else if c :| c in cs && Refuses(next, spark, q, cl, c) {
        var k :| 0 <= k < |cs| && cs[k] == c;
        ObjectLaws.CollectedAt(nodes, k);
      }
    }
  }
}
