/** Spark's replies to SHOW commands: record batches, and the rows the driver reads there. */
module Replies {
  import opened Wrappers
  import opened Folding

  /** A column of a batch; the driver reads strings and booleans only. */
  datatype Cells = Strings(values: seq<Option<string>>) | Booleans(flags: seq<Option<bool>>) | Others(length: nat) {
    function Length(): nat {
      match this
      case Strings(values) => |values|
      case Booleans(flags) => |flags|
      case Others(length) => length
    }
  }

  /** The columns of a batch are equally long. */
  type Batch = b: seq<Cells> | forall i, j :: 0 <= i < |b| && 0 <= j < |b| ==> b[i].Length() == b[j].Length()
    witness []

  datatype Grid = Grid(fields: seq<string>, batches: seq<Batch>)

  /** Each batch has the columns of the schema, and at least one. */
  type Reply = t: Grid | forall k :: 0 <= k < |t.batches| ==> 0 < |t.fields| == |t.batches[k]|
    witness Grid([], [])

  /** One row of a SHOW command: a name, and for SHOW TABLES the isTemporary flag. */
  datatype Row = Row(name: Option<string>, temporary: Option<bool>)

  // ---------------------------------------------------------------- finding a column

  /** The first field with a fold-equal name. */
  ghost function FirstNamed(next: char -> char, fields: seq<string>, name: string): (idx: Option<nat>)
    ensures idx == None ==> forall i :: 0 <= i < |fields| ==> !FoldVariant(next, fields[i], name)
    ensures idx.Some? ==> idx.value < |fields| && FoldVariant(next, fields[idx.value], name)
                          && forall i :: 0 <= i < idx.value ==> !FoldVariant(next, fields[i], name)
  {
    if fields == [] then None
    else
      var last := |fields| - 1;
      match FirstNamed(next, fields[..last], name)
      case Some(i) => Some(i)
      case None => if FoldVariant(next, fields[last], name) then Some(last) else None
  }

  method FindFirst(next: char -> char, fields: seq<string>, name: string) returns (idx: Option<nat>)
    requires IsFold(next)
    ensures idx == FirstNamed(next, fields, name)
  {
    for i := 0 to |fields|
      invariant forall k :: 0 <= k < i ==> !FoldVariant(next, fields[k], name)
    {
      var same := EqualFoldStrings(next, fields[i], name);
      if same {
        return Some(i);
      }
    }
    return None;
  }

  function Lowered(lower: char -> char, s: string): string {
    seq(|s|, k requires 0 <= k < |s| => lower(s[k]))
  }

  /** The last field with that name in lower case. */
  function LastNamed(lower: char -> char, fields: seq<string>, name: string): (idx: Option<nat>)
    ensures idx == None ==> forall i :: 0 <= i < |fields| ==> Lowered(lower, fields[i]) != name
    ensures idx.Some? ==> idx.value < |fields| && Lowered(lower, fields[idx.value]) == name
                          && forall i :: idx.value < i < |fields| ==> Lowered(lower, fields[i]) != name
  {
    if fields == [] then None
    else
      var last := |fields| - 1;
      if Lowered(lower, fields[last]) == name then Some(last) else LastNamed(lower, fields[..last], name)
  }

  const TABLE_NAME := "tablename"
  const IS_TEMPORARY := "istemporary"

  method FindTableColumns(lower: char -> char, fields: seq<string>) returns (name: Option<nat>, temp: Option<nat>)
    ensures name == LastNamed(lower, fields, TABLE_NAME) && temp == LastNamed(lower, fields, IS_TEMPORARY)
  {
    name, temp := None, None;
    for i := 0 to |fields|
      invariant name == LastNamed(lower, fields[..i], TABLE_NAME)
      invariant temp == LastNamed(lower, fields[..i], IS_TEMPORARY)
    {
      assert fields[..i + 1][..i] == fields[..i];
      if Lowered(lower, fields[i]) == TABLE_NAME {
        name := Some(i);
      } else if Lowered(lower, fields[i]) == IS_TEMPORARY {
        temp := Some(i);
      }
    }
    assert fields[..|fields|] == fields;
  }

  // ---------------------------------------------------------------- reading rows

  function FlagAt(batch: Batch, temp: Option<nat>, k: nat): Option<bool>
    requires temp.Some? ==> temp.value < |batch| && k < batch[temp.value].Length()
  {
    if temp.Some? && batch[temp.value].Booleans? then batch[temp.value].flags[k] else None
  }

  /** The rows of one batch; a name column of another type has none. */
  function BatchRows(batch: Batch, name: nat, temp: Option<nat>): seq<Row>
    requires name < |batch| && (temp.Some? ==> temp.value < |batch|)
  {
    match batch[name]
    case Strings(values) =>
      seq(|values|, k requires 0 <= k < |values| =>
        assert batch[name].Length() == |values|;
        Row(values[k], FlagAt(batch, temp, k)))
    case _ => []
  }

  function RowsOf(batches: seq<Batch>, name: nat, temp: Option<nat>): seq<Row>
    requires forall k :: 0 <= k < |batches| ==> name < |batches[k]| && (temp.Some? ==> temp.value < |batches[k]|)
  {
    if batches == [] then []
    else
      var last := |batches| - 1;
      RowsOf(batches[..last], name, temp) + BatchRows(batches[last], name, temp)
  }

  /** The rows of a reply whose names stand in `column`, or in the first column. */
  ghost function NamedRows(next: char -> char, reply: Reply, column: string): seq<Row> {
    RowsOf(reply.batches, FirstNamed(next, reply.fields, column).GetOr(0), None)
  }

  /** The rows of a reply to SHOW TABLES. */
  function TableRows(lower: char -> char, reply: Reply): seq<Row> {
    RowsOf(reply.batches, LastNamed(lower, reply.fields, TABLE_NAME).GetOr(0),
           LastNamed(lower, reply.fields, IS_TEMPORARY))
  }
}
