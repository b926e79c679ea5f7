/** Arrow's nested list and struct arrays for GetObjects, and the tree they stand for. */
module Arrays {
  import opened Wrappers

  // ---------------------------------------------------------------- the tree

  datatype Column = Column(name: string, ordinal: int)
  datatype Table = Table(name: string, tableType: string, columns: Option<seq<Column>>)
  datatype DbSchema = DbSchema(name: string, tables: Option<seq<Table>>)
  datatype Catalog = Catalog(name: string, dbSchemas: Option<seq<DbSchema>>)

  // ---------------------------------------------------------------- the arrays

  /** Variable-size list layout: entry `i` covers items `offsets[i]..offsets[i + 1]`. */
  datatype ListArray = ListArray(offsets: seq<nat>, valid: seq<bool>) {
    /** Covers `items` items without gap or overlap; null entries are empty. */
    ghost predicate Covers(items: nat) {
      && |offsets| == |valid| + 1
      && (forall i :: 0 <= i < |offsets| ==> offsets[i] <= items)
      && (forall i, j :: 0 <= i <= j < |offsets| ==> offsets[i] <= offsets[j])
      && (forall i {:trigger valid[i]} :: 0 <= i < |valid| && !valid[i] ==> offsets[i] == offsets[i + 1])
      && offsets[0] == 0 && offsets[|valid|] == items
    }
  }

  ghost function Entries<T>(l: ListArray, items: seq<T>): (entries: seq<Option<seq<T>>>)
    requires l.Covers(|items|)
    ensures |entries| == |l.valid|
  {
    seq(|l.valid|, i requires 0 <= i < |l.valid| =>
      if l.valid[i] then Some(items[l.offsets[i]..l.offsets[i + 1]]) else None)
  }

  const XDBC_FIELDS: nat := 17

  datatype ColumnArray = ColumnArray(valid: seq<bool>, names: seq<string>, ordinals: seq<int>, xdbc: seq<nat>) {
    /** Struct layout: all children have the length of the struct; no row is null. */
    ghost predicate Sound() {
      && |valid| == |names| == |ordinals| && |xdbc| == XDBC_FIELDS
      && (forall f :: 0 <= f < |xdbc| ==> xdbc[f] == |names|)
      && (forall i :: 0 <= i < |valid| ==> valid[i])
    }

    ghost function Decode(): seq<Column>
      requires Sound()
    {
      seq(|names|, i requires 0 <= i < |names| => Column(names[i], ordinals[i]))
    }
  }

  /** The buffers of the table struct itself; the column rows are its list items. */
  datatype TableBuffers = TableBuffers(valid: seq<bool>, names: seq<string>, types: seq<string>,
                                       columns: ListArray, constraints: ListArray) {
    ghost predicate Sound(items: nat) {
      && |valid| == |names| == |types| == |columns.valid| == |constraints.valid|
      && (forall i :: 0 <= i < |valid| ==> valid[i])
      && columns.Covers(items)
      && constraints.Covers(0) && (forall i :: 0 <= i < |constraints.valid| ==> constraints.valid[i])
    }

    ghost function Decode(items: seq<Column>): seq<Table>
      requires Sound(|items|)
    {
      seq(|names|, i requires 0 <= i < |names| => Table(names[i], types[i], Entries(columns, items)[i]))
    }
  }

  datatype DbSchemaBuffers = DbSchemaBuffers(valid: seq<bool>, names: seq<string>, tables: ListArray) {
    ghost predicate Sound(items: nat) {
      && |valid| == |names| == |tables.valid|
      && (forall i :: 0 <= i < |valid| ==> valid[i])
      && tables.Covers(items)
    }

    ghost function Decode(items: seq<Table>): seq<DbSchema>
      requires Sound(|items|)
    {
      seq(|names|, i requires 0 <= i < |names| => DbSchema(names[i], Entries(tables, items)[i]))
    }
  }

  datatype CatalogBuffers = CatalogBuffers(names: seq<string>, dbSchemas: ListArray) {
    ghost predicate Sound(items: nat) {
      |names| == |dbSchemas.valid| && dbSchemas.Covers(items)
    }

    ghost function Decode(items: seq<DbSchema>): seq<Catalog>
      requires Sound(|items|)
    {
      seq(|names|, i requires 0 <= i < |names| => Catalog(names[i], Entries(dbSchemas, items)[i]))
    }
  }

  /** The record of a GetObjects result, all four levels. */
  datatype CatalogRecord = CatalogRecord(catalogs: CatalogBuffers, dbSchemas: DbSchemaBuffers,
                                         tables: TableBuffers, columns: ColumnArray) {
    ghost predicate Sound() {
      && columns.Sound()
      && tables.Sound(|columns.names|)
      && dbSchemas.Sound(|tables.names|)
      && catalogs.Sound(|dbSchemas.names|)
    }

    ghost function Decode(): seq<Catalog>
      requires Sound()
    {
      catalogs.Decode(dbSchemas.Decode(tables.Decode(columns.Decode())))
    }
  }

  // ---------------------------------------------------------------- lists under construction

  /** A list builder: one start offset an entry; the last entry is still open. */
  datatype ListBuilder = ListBuilder(starts: seq<nat>, valid: seq<bool>) {
    /** The array if building stopped now, with `items` items in the child. */
    function Finish(items: nat): ListArray {
      ListArray(starts + [items], valid)
    }

    /** Opens an entry, null or not, where the child now ends. */
    function Append(isValid: bool, items: nat): ListBuilder {
      ListBuilder(starts + [items], valid + [isValid])
    }
  }

  const EMPTY_LIST := ListBuilder([], [])

  lemma GrowCovers(l: ListBuilder, len: nat, more: nat)
    requires l.Finish(len).Covers(len) && l.valid != [] && l.valid[|l.valid| - 1]
    ensures l.Finish(len + more).Covers(len + more)
    ensures |l.starts| == |l.valid| && l.starts[|l.valid| - 1] <= len
  {
    var a, b := l.Finish(len), l.Finish(len + more);
    assert |a.offsets| == |l.starts| + 1;
    forall i | 0 <= i < |l.valid| ensures a.offsets[i] == l.starts[i] && b.offsets[i] == l.starts[i] {}
    forall i | 0 <= i < |l.valid| && !l.valid[i] ensures b.offsets[i] == b.offsets[i + 1] {
      assert a.offsets[i + 1] == b.offsets[i + 1];
    }
  }

  lemma OpenEntry<T>(l: ListBuilder, isValid: bool, items: seq<T>)
    requires l.Finish(|items|).Covers(|items|)
    ensures l.Append(isValid, |items|).Finish(|items|).Covers(|items|)
    ensures Entries(l.Append(isValid, |items|).Finish(|items|), items)
            == Entries(l.Finish(|items|), items) + [if isValid then Some([]) else None]
  {
    var a, b := l.Finish(|items|), l.Append(isValid, |items|).Finish(|items|);
    assert b.offsets == a.offsets + [|items|];
    assert items[|items|..|items|] == [];
    var x, y := Entries(a, items), Entries(b, items);
    forall i | 0 <= i < |y| ensures y[i] == (x + [if isValid then Some([]) else None])[i] {}
  }

  /** New child items go to the open entry. */
  lemma GrowEntry<T>(l: ListBuilder, items: seq<T>, more: seq<T>)
    requires l.Finish(|items|).Covers(|items|) && l.valid != [] && l.valid[|l.valid| - 1]
    ensures l.Finish(|items| + |more|).Covers(|items| + |more|)
    ensures Entries(l.Finish(|items|), items)[|l.valid| - 1].Some?
    ensures Entries(l.Finish(|items| + |more|), items + more)
            == Entries(l.Finish(|items|), items)
               [|l.valid| - 1 := Some(Entries(l.Finish(|items|), items)[|l.valid| - 1].value + more)]
  {
    var n, len := |l.valid| - 1, |items|;
    var a, b := l.Finish(len), l.Finish(len + |more|);
    GrowCovers(l, len, |more|);
    var x, y := Entries(a, items), Entries(b, items + more);
    forall i | 0 <= i < n ensures y[i] == x[i] {
      var lo, hi := a.offsets[i], a.offsets[i + 1];
      assert lo <= hi <= len && lo == b.offsets[i] && hi == b.offsets[i + 1];
      assert (items + more)[lo..hi] == items[lo..hi];
    }
    var last := a.offsets[n];
    assert last == b.offsets[n] && a.offsets[n + 1] == len && b.offsets[n + 1] == len + |more|;
    assert (items + more)[last..len + |more|] == items[last..len] + more;
  }

  // ---------------------------------------------------------------- struct builders

  lemma TableAdded(t: TableBuffers, columns: ListBuilder, constraints: ListBuilder, items: seq<Column>,
                   name: string, tableType: string, isValid: bool)
    requires t.Sound(|items|) && t.columns == columns.Finish(|items|) && t.constraints == constraints.Finish(0)
    ensures var t' := TableBuffers(t.valid + [true], t.names + [name], t.types + [tableType],
                                   columns.Append(isValid, |items|).Finish(|items|),
                                   constraints.Append(true, 0).Finish(0));
            && t'.Sound(|items|)
            && t'.Decode(items) == t.Decode(items) + [Table(name, tableType, if isValid then Some([]) else None)]
  {
    OpenEntry(columns, isValid, items);
    OpenEntry<int>(constraints, true, []);
  }

  lemma TableGrown(t: TableBuffers, columns: ListBuilder, items: seq<Column>, more: seq<Column>)
    requires t.Sound(|items|) && t.columns == columns.Finish(|items|)
    requires columns.valid != [] && columns.valid[|columns.valid| - 1]
    ensures var t' := t.(columns := columns.Finish(|items + more|));
            var n := |t.names| - 1;
            && t'.Sound(|items + more|) && t.Decode(items)[n].columns.Some?
            && t'.Decode(items + more)
               == t.Decode(items)[n := t.Decode(items)[n].(columns := Some(t.Decode(items)[n].columns.value + more))]
  {
    GrowEntry(columns, items, more);
  }

  lemma DbSchemaAdded(s: DbSchemaBuffers, tables: ListBuilder, items: seq<Table>, name: string, isValid: bool)
    requires s.Sound(|items|) && s.tables == tables.Finish(|items|)
    ensures var list := tables.Append(isValid, |items|).Finish(|items|);
            var s' := DbSchemaBuffers(s.valid + [true], s.names + [name], list);
            && s'.Sound(|items|)
            && s'.Decode(items) == s.Decode(items) + [DbSchema(name, if isValid then Some([]) else None)]
  {
    OpenEntry(tables, isValid, items);
  }

  lemma DbSchemaGrown(s: DbSchemaBuffers, tables: ListBuilder, items: seq<Table>, more: seq<Table>)
    requires s.Sound(|items|) && s.tables == tables.Finish(|items|)
    requires tables.valid != [] && tables.valid[|tables.valid| - 1]
    ensures var s' := s.(tables := tables.Finish(|items + more|));
            var n := |s.names| - 1;
            && s'.Sound(|items + more|) && s.Decode(items)[n].tables.Some?
            && s'.Decode(items + more)
               == s.Decode(items)[n := s.Decode(items)[n].(tables := Some(s.Decode(items)[n].tables.value + more))]
  {
    GrowEntry(tables, items, more);
  }

  lemma CatalogAdded(c: CatalogBuffers, schemas: ListBuilder, items: seq<DbSchema>, name: string, isValid: bool)
    requires c.Sound(|items|) && c.dbSchemas == schemas.Finish(|items|)
    ensures var c' := CatalogBuffers(c.names + [name], schemas.Append(isValid, |items|).Finish(|items|));
            && c'.Sound(|items|)
            && c'.Decode(items) == c.Decode(items) + [Catalog(name, if isValid then Some([]) else None)]
  {
    OpenEntry(schemas, isValid, items);
  }

  lemma CatalogGrown(c: CatalogBuffers, schemas: ListBuilder, items: seq<DbSchema>, more: seq<DbSchema>)
    requires c.Sound(|items|) && c.dbSchemas == schemas.Finish(|items|)
    requires schemas.valid != [] && schemas.valid[|schemas.valid| - 1]
    ensures var c' := c.(dbSchemas := schemas.Finish(|items + more|));
            var n := |c.names| - 1;
            && c'.Sound(|items + more|) && c.Decode(items)[n].dbSchemas.Some?
            && c'.Decode(items + more)
               == c.Decode(items)[n := c.Decode(items)[n].(dbSchemas :=
                                     Some(c.Decode(items)[n].dbSchemas.value + more))]
  {
    GrowEntry(schemas, items, more);
  }
}
