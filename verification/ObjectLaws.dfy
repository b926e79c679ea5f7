/** Laws of the GetObjects tree: what a smaller depth cuts, which lists are null, which
    columns are listed, and that the LIKE clauses sent to Spark change nothing. */
module ObjectLaws {
  import opened Wrappers
  import opened Pushdown
  import opened Arrays
  import opened Replies
  import opened Objects

  // ---------------------------------------------------------------- depth

  /** How many levels a depth lists. */
  function Levels(depth: int): nat {
    if depth == DEPTH_CATALOGS then 1
    else if depth == DEPTH_DB_SCHEMAS then 2
    else if depth == DEPTH_COLUMNS then 4
    else 3
  }

  function CutTable(levels: nat, t: Table): Table {
    t.(columns := if levels <= 3 then None else t.columns)
  }

  function CutSchema(levels: nat, s: DbSchema): DbSchema {
    s.(tables := if levels <= 2 || s.tables == None then None
                 else Some(Map(t => CutTable(levels, t), s.tables.value)))
  }

  function CutCatalog(levels: nat, c: Catalog): Catalog {
    c.(dbSchemas := if levels <= 1 || c.dbSchemas == None then None
                    else Some(Map(s => CutSchema(levels, s), c.dbSchemas.value)))
  }

  function Map<T, U>(f: T -> U, xs: seq<T>): seq<U> {
    seq(|xs|, k requires 0 <= k < |xs| => f(xs[k]))
  }

  lemma {:induction false} CollectMap<T, U>(f: T -> U, a: seq<Result<T, string>>, b: seq<Result<U, string>>)
    requires |a| == |b| && Collect(a).Ok?
    requires forall k :: 0 <= k < |a| && a[k].Ok? ==> b[k] == Ok(f(a[k].value))
    ensures Collect(b) == Ok(Map(f, Collect(a).value))
  {
    if a != [] {
      var last := |a| - 1;
      CollectMap(f, a[..last], b[..last]);
      MapAppend(f, Collect(a[..last]).value, a[last].value);
    }
  }

  lemma MapAppend<T, U>(f: T -> U, xs: seq<T>, x: T)
    ensures Map(f, xs + [x]) == Map(f, xs) + [f(x)]
  {
  }

  lemma {:induction false} FlattenMap<T, U>(f: T -> U, a: seq<seq<T>>, b: seq<seq<U>>)
    requires |a| == |b| && forall k :: 0 <= k < |a| ==> b[k] == Map(f, a[k])
    ensures Flatten(b) == Map(f, Flatten(a))
  {
    if a != [] {
      var last := |a| - 1;
      FlattenMap(f, a[..last], b[..last]);
    }
  }

  lemma TablesCut(next: char -> char, spark: Spark, q: Query, depth: int, catalog: string, dbSchema: string,
                  clause: string)
    requires Levels(q.depth) >= Levels(depth) >= 3 && TablesOf(next, spark, q, catalog, dbSchema, clause).Ok?
    ensures TablesOf(next, spark, q.(depth := depth), catalog, dbSchema, clause)
            == Ok(Map(t => CutTable(Levels(depth), t), TablesOf(next, spark, q, catalog, dbSchema, clause).value))
  {
    var q', f := q.(depth := depth), (t: Table) => CutTable(Levels(depth), t);
    var entries := TableEntries(next, spark, catalog, dbSchema, q.tableName, clause).value;
    var a := TableNodes(next, spark, q, catalog, dbSchema, entries);
    var b := TableNodes(next, spark, q', catalog, dbSchema, entries);
    forall k | 0 <= k < |a| ensures b[k] == Map(f, a[k]) {}
    FlattenMap(f, a, b);
  }

  lemma SchemaCut(next: char -> char, spark: Spark, q: Query, depth: int, catalog: string, name: string,
                  clause: string)
    requires Levels(q.depth) >= Levels(depth) >= 2 && SchemaNode(next, spark, q, catalog, name, clause).Ok?
    ensures SchemaNode(next, spark, q.(depth := depth), catalog, name, clause)
            == Ok(CutSchema(Levels(depth), SchemaNode(next, spark, q, catalog, name, clause).value))
  {
    if Levels(depth) >= 3 {
      TablesCut(next, spark, q, depth, catalog, name, clause);
    }
  }

  lemma CatalogCut(next: char -> char, spark: Spark, q: Query, depth: int, name: string, cl: Clauses)
    requires Levels(q.depth) >= Levels(depth) && CatalogNode(next, spark, q, name, cl).Ok?
    ensures CatalogNode(next, spark, q.(depth := depth), name, cl)
            == Ok(CutCatalog(Levels(depth), CatalogNode(next, spark, q, name, cl).value))
  {
    if Levels(depth) >= 2 {
      var q', f := q.(depth := depth), (s: DbSchema) => CutSchema(Levels(depth), s);
      var names := SchemaNames(next, spark, name, q.dbSchema, cl.dbSchema);
      var a := SchemaNodes(next, spark, q, name, names, cl.table);
      var b := SchemaNodes(next, spark, q', name, names, cl.table);
      forall k | 0 <= k < |a| && a[k].Ok? ensures b[k] == Ok(f(a[k].value)) {
        SchemaCut(next, spark, q, depth, name, names[k], cl.table);
      }
      CollectMap(f, a, b);
    }
  }

  /** Main result: a call that succeeds also succeeds at every smaller depth, and returns
      the same tree cut at that level. */
  lemma DepthIsTruncation(next: char -> char, spark: Spark, q: Query, depth: int, cl: Clauses)
    requires Levels(q.depth) >= Levels(depth) && Tree(next, spark, q, cl).Ok?
    ensures Tree(next, spark, q.(depth := depth), cl)
            == Ok(Map(c => CutCatalog(Levels(depth), c), Tree(next, spark, q, cl).value))
  {
    var q', f := q.(depth := depth), (c: Catalog) => CutCatalog(Levels(depth), c);
    var names := CatalogNames(next, spark, q.catalog);
    var a := CatalogNodes(next, spark, q, names, cl);
    var b := CatalogNodes(next, spark, q', names, cl);
    forall k | 0 <= k < |a| && a[k].Ok? ensures b[k] == Ok(f(a[k].value)) {
      CatalogCut(next, spark, q, depth, names[k], cl);
    }
    CollectMap(f, a, b);
  }

  // ---------------------------------------------------------------- null lists

  lemma {:induction false} CollectedAt<T>(results: seq<Result<T, string>>, k: nat)
    requires Collect(results).Ok?
    ensures |Collect(results).value| == |results|
    ensures k < |results| ==> results[k] == Ok(Collect(results).value[k])
  {
    if results != [] {
      CollectedAt(results[..|results| - 1], if k < |results| - 1 then k else 0);
    }
  }

  lemma {:induction false} FlattenedFrom<T>(parts: seq<seq<T>>, x: T) returns (k: nat)
    requires x in Flatten(parts)
    ensures k < |parts| && x in parts[k]
  {
    var last := |parts| - 1;
    if x in parts[last] {
      k := last;
    } else {
      k := FlattenedFrom(parts[..last], x);
    }
  }

  /** A list is null exactly where the depth stops. */
  ghost predicate NullsAtCut(levels: nat, c: Catalog) {
    && (c.dbSchemas == None <==> levels <= 1)
    && (c.dbSchemas.Some? ==> forall s :: s in c.dbSchemas.value ==>
          && (s.tables == None <==> levels <= 2)
          && (s.tables.Some? ==> forall t :: t in s.tables.value ==> (t.columns == None <==> levels <= 3)))
  }

  lemma NullsExactlyAtCut(next: char -> char, spark: Spark, q: Query, cl: Clauses)
    requires Tree(next, spark, q, cl).Ok?
    ensures forall c :: c in Tree(next, spark, q, cl).value ==> NullsAtCut(Levels(q.depth), c)
  {
    var names := CatalogNames(next, spark, q.catalog);
    var nodes := CatalogNodes(next, spark, q, names, cl);
    forall c | c in Collect(nodes).value ensures NullsAtCut(Levels(q.depth), c) {
      var k :| 0 <= k < |Collect(nodes).value| && Collect(nodes).value[k] == c;
      CollectedAt(nodes, k);
      if c.dbSchemas.Some? {
        var all := SchemaNames(next, spark, c.name, q.dbSchema, cl.dbSchema);
        var schemas := SchemaNodes(next, spark, q, c.name, all, cl.table);
        forall s | s in c.dbSchemas.value
          ensures s.tables == None <==> Levels(q.depth) <= 2
          ensures s.tables.Some? ==> forall t :: t in s.tables.value ==> (t.columns == None <==> Levels(q.depth) <= 3)
        {
          var i :| 0 <= i < |c.dbSchemas.value| && c.dbSchemas.value[i] == s;
          CollectedAt(schemas, i);
          SchemaNulls(next, spark, q, c.name, all[i], cl.table);
        }
      }
    }
  }

  lemma SchemaNulls(next: char -> char, spark: Spark, q: Query, catalog: string, name: string, clause: string)
    requires SchemaNode(next, spark, q, catalog, name, clause).Ok?
    ensures var s := SchemaNode(next, spark, q, catalog, name, clause).value;
            && (s.tables == None <==> q.depth == DEPTH_DB_SCHEMAS)
            && (s.tables.Some? ==>
                  forall t :: t in s.tables.value ==> (t.columns == None <==> q.depth != DEPTH_COLUMNS))
  {
    var s := SchemaNode(next, spark, q, catalog, name, clause).value;
    if s.tables.Some? {
      var entries := TableEntries(next, spark, catalog, name, q.tableName, clause).value;
      forall t | t in s.tables.value ensures t.columns == None <==> q.depth != DEPTH_COLUMNS {
        var k := FlattenedFrom(TableNodes(next, spark, q, catalog, name, entries), t);
      }
    }
  }

  // ---------------------------------------------------------------- tables

  /** The row lists the table, and the filters of the query let it through. */
  ghost predicate Lists(next: char -> char, q: Query, row: Row, name: string, tableType: string) {
    && row.name == Some(name) && MatchesPattern(next, q.tableName, name)
    && tableType == (if row.temporary == Some(true) then "TEMPORARY" else "TABLE")
    && TypeAllowed(next, tableType, q.tableTypes)
  }

  lemma {:induction false} EntriesOf(next: char -> char, pattern: Option<string>, rows: seq<Row>, e: TableEntry)
    ensures e in KeepEntries(next, pattern, rows)
            <==> exists k :: 0 <= k < |rows| && rows[k].name == Some(e.name) && MatchesPattern(next, pattern, e.name)
                             && TypeOf(rows[k]) == e.tableType
  {
    if rows != [] {
      EntriesOf(next, pattern, rows[..|rows| - 1], e);
    }
  }

  lemma {:induction false} InFlattened<T>(parts: seq<seq<T>>, k: nat, x: T)
    requires k < |parts| && x in parts[k]
    ensures x in Flatten(parts)
  {
    var last := |parts| - 1;
    if k < last {
      InFlattened(parts[..last], k, x);
    }
  }

  /** The tables of a schema are exactly the non-null rows of the listing that pass the
      name and type filters, each with the columns of its own probe. */
  lemma TablesAreRows(next: char -> char, spark: Spark, q: Query, catalog: string, dbSchema: string,
                      clause: string, t: Table)
    requires TableListing(spark, ShowTablesIn(catalog, dbSchema) + clause).Ok?
    ensures var rows := TableListing(spark, ShowTablesIn(catalog, dbSchema) + clause).value;
            t in TablesOf(next, spark, q, catalog, dbSchema, clause).value
            <==> && (exists k :: 0 <= k < |rows| && Lists(next, q, rows[k], t.name, t.tableType))
                 && t.columns == if q.depth == DEPTH_COLUMNS
                                 then Some(ColumnsOf(next, spark, q, catalog, dbSchema, t.name)) else None
  {
    var rows := TableListing(spark, ShowTablesIn(catalog, dbSchema) + clause).value;
    var entries := KeepEntries(next, q.tableName, rows);
    var nodes := TableNodes(next, spark, q, catalog, dbSchema, entries);
    var e := TableEntry(t.name, t.tableType);
    EntriesOf(next, q.tableName, rows, e);
    if t in Flatten(nodes) {
      var k := FlattenedFrom(nodes, t);
      assert entries[k] == e;
      var i :| 0 <= i < |rows| && rows[i].name == Some(e.name) && TypeOf(rows[i]) == e.tableType;
      assert Lists(next, q, rows[i], t.name, t.tableType);
    }
    if e in entries && TypeAllowed(next, t.tableType, q.tableTypes) {
      var k :| 0 <= k < |entries| && entries[k] == e;
      var node := nodes[k];
      assert |node| == 1 && node[0] in node;
      InFlattened(nodes, k, node[0]);
    }
  }

  // ---------------------------------------------------------------- columns

  /** The listed columns are exactly the matching fields, each with its 1-based position
      in the unfiltered schema. */
  lemma {:induction false} OrdinalsArePositions(next: char -> char, pattern: Option<string>, fields: seq<string>,
                                                n: nat, c: Column)
    requires n <= |fields|
    ensures c in ColumnsFrom(next, pattern, fields, n)
            <==> 1 <= c.ordinal <= n && c.name == fields[c.ordinal - 1] && MatchesPattern(next, pattern, c.name)
  {
    if n > 0 {
      OrdinalsArePositions(next, pattern, fields, n - 1, c);
    }
  }

  ghost predicate Increasing(cols: seq<Column>, last: nat) {
    && (forall i :: 0 <= i < |cols| ==> cols[i].ordinal <= last)
    && (forall i, j :: 0 <= i < j < |cols| ==> cols[i].ordinal < cols[j].ordinal)
  }

  /** They are listed in schema order, none twice. */
  lemma {:induction false} OrdinalsIncrease(next: char -> char, pattern: Option<string>, fields: seq<string>, n: nat)
    requires n <= |fields|
    ensures Increasing(ColumnsFrom(next, pattern, fields, n), n)
  {
    if n > 0 {
      OrdinalsIncrease(next, pattern, fields, n - 1);
      var init := ColumnsFrom(next, pattern, fields, n - 1);
      assert Increasing(init + [Column(fields[n - 1], n)], n);
      assert init + [] == init;
    }
  }

  // ---------------------------------------------------------------- pushdown

  /** The rows Spark returns under a clause. */
  ghost function NarrowRows(clause: string, rows: seq<Row>): seq<Row> {
    if rows == [] then []
    else
      var last := rows[|rows| - 1];
      NarrowRows(clause, rows[..|rows| - 1])
      + (if last.name == None || SparkAccepts(clause, last.name.value) then [last] else [])
  }

  ghost predicate Narrowed(clause: string, full: Result<seq<Row>, string>, got: Result<seq<Row>, string>) {
    match full
    case Ok(rows) => got == Ok(NarrowRows(clause, rows))
    case Err(_) => got == full
  }

  ghost predicate SafeRows(next: char -> char, rows: seq<Row>) {
    forall k :: 0 <= k < |rows| && rows[k].name.Some? ==> AsciiFolded(next, rows[k].name.value)
  }

  /** Spark answers a listing with a clause by what the clause accepts of the listing
      without it, and lists names on which Unicode and ASCII folding agree. */
  ghost predicate Honours(next: char -> char, pattern: Option<string>, full: Result<seq<Row>, string>,
                          got: Result<seq<Row>, string>)
  {
    Narrowed(ClauseFor(pattern), full, got) && (full.Ok? ==> SafeRows(next, full.value))
  }

  ghost predicate NamespacesHonoured(next: char -> char, spark: Spark, sql: string, pattern: Option<string>) {
    Honours(next, pattern, NameListing(next, spark, sql, "namespace"),
            NameListing(next, spark, sql + ClauseFor(pattern), "namespace"))
  }

  ghost predicate TablesHonoured(next: char -> char, spark: Spark, sql: string, pattern: Option<string>) {
    Honours(next, pattern, TableListing(spark, sql), TableListing(spark, sql + ClauseFor(pattern)))
  }

  ghost predicate HonoursClauses(next: char -> char, spark: Spark) {
    && (forall pattern :: NamespacesHonoured(next, spark, SHOW_NAMESPACES, pattern))
    && (forall c, pattern :: NamespacesHonoured(next, spark, ShowNamespacesIn(c), pattern))
    && (forall c, s, pattern :: TablesHonoured(next, spark, ShowTablesIn(c, s), pattern))
  }

  lemma {:induction false} NarrowedNames(next: char -> char, pattern: Option<string>, rows: seq<Row>)
    requires SafeRows(next, rows)
    ensures Keep(next, pattern, Names(NarrowRows(ClauseFor(pattern), rows))) == Keep(next, pattern, Names(rows))
  {
    if rows != [] {
      var init, last, clause := rows[..|rows| - 1], rows[|rows| - 1], ClauseFor(pattern);
      NarrowedNames(next, pattern, init);
      var narrow := NarrowRows(clause, init);
      assert (narrow + [last])[..|narrow|] == narrow;
      assert narrow + [] == narrow;
      if last.name == None {
        assert Names(rows) == Names(init) && Names(narrow + [last]) == Names(narrow);
      } else {
        var name := last.name.value;
        KeepAppend(next, pattern, Names(init), [name]);
        KeepAppend(next, pattern, Names(narrow), [name]);
        if MatchesPattern(next, pattern, name) {
          ClauseOnlyNarrows(next, pattern, clause, name);
        }
        assert Keep(next, pattern, [name]) == if MatchesPattern(next, pattern, name) then [name] else [];
      }
    }
  }

  lemma {:induction false} NarrowedEntries(next: char -> char, pattern: Option<string>, rows: seq<Row>)
    requires SafeRows(next, rows)
    ensures KeepEntries(next, pattern, NarrowRows(ClauseFor(pattern), rows)) == KeepEntries(next, pattern, rows)
  {
    if rows != [] {
      var init, last, clause := rows[..|rows| - 1], rows[|rows| - 1], ClauseFor(pattern);
      NarrowedEntries(next, pattern, init);
      var narrow := NarrowRows(clause, init);
      assert (narrow + [last])[..|narrow|] == narrow;
      assert narrow + [] == narrow;
      if last.name.Some? && MatchesPattern(next, pattern, last.name.value) {
        ClauseOnlyNarrows(next, pattern, clause, last.name.value);
      }
    }
  }

  lemma SchemasUnchanged(next: char -> char, spark: Spark, catalog: string, pattern: Option<string>)
    requires HonoursClauses(next, spark)
    ensures SchemaNames(next, spark, catalog, pattern, ClauseFor(pattern))
            == SchemaNames(next, spark, catalog, pattern, "")
  {
    var here, anywhere := ShowNamespacesIn(catalog), SHOW_NAMESPACES;
    assert NamespacesHonoured(next, spark, here, pattern) && NamespacesHonoured(next, spark, anywhere, pattern);
    assert here + "" == here && anywhere + "" == anywhere;
    var full, full' := NameListing(next, spark, here, "namespace"), NameListing(next, spark, anywhere, "namespace");
    if full.Ok? {
      NarrowedNames(next, pattern, full.value);
    }
    if full'.Ok? {
      NarrowedNames(next, pattern, full'.value);
    }
  }

  lemma TablesUnchanged(next: char -> char, spark: Spark, catalog: string, dbSchema: string, pattern: Option<string>)
    requires HonoursClauses(next, spark)
    ensures TableEntries(next, spark, catalog, dbSchema, pattern, ClauseFor(pattern))
            == TableEntries(next, spark, catalog, dbSchema, pattern, "")
  {
    var sql := ShowTablesIn(catalog, dbSchema);
    assert TablesHonoured(next, spark, sql, pattern);
    assert sql + "" == sql;
    if TableListing(spark, sql).Ok? {
      NarrowedEntries(next, pattern, TableListing(spark, sql).value);
    }
  }

  /** Main result: GetObjects returns what it would return had it sent no clause at all. */
  lemma ClausesChangeNothing(next: char -> char, spark: Spark, q: Query)
    requires HonoursClauses(next, spark)
    ensures Tree(next, spark, q, ClausesFor(q)) == Tree(next, spark, q, Clauses("", ""))
  {
    var cl, none := ClausesFor(q), Clauses("", "");
    forall name ensures CatalogNode(next, spark, q, name, cl) == CatalogNode(next, spark, q, name, none) {
      SchemasUnchanged(next, spark, name, q.dbSchema);
      forall s
        ensures SchemaNode(next, spark, q, name, s, cl.table) == SchemaNode(next, spark, q, name, s, none.table)
      {
        TablesUnchanged(next, spark, name, s, q.tableName);
      }
      var names := SchemaNames(next, spark, name, q.dbSchema, none.dbSchema);
      assert SchemaNodes(next, spark, q, name, names, cl.table) == SchemaNodes(next, spark, q, name, names, none.table);
    }
    var names := CatalogNames(next, spark, q.catalog);
    assert CatalogNodes(next, spark, q, names, cl) == CatalogNodes(next, spark, q, names, none);
  }
}
