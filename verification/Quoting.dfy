/** Backtick quoting of Spark SQL identifiers, and how Spark's lexer reads it back. */
module Quoting {
  import opened Wrappers

  const TICK := '`'

  function EscapeRune(c: char): string {
    if c == TICK then [TICK, TICK] else [c]
  }

  function Escape(ident: string): string {
    if ident == "" then ""
    else EscapeRune(ident[0]) + Escape(ident[1..])
  }

  function Quote(ident: string): string {
    [TICK] + Escape(ident) + [TICK]
  }

  /** Quoted parts joined by dots. */
  function Qualified(parts: seq<string>): string
    requires parts != []
  {
    if |parts| == 1 then Quote(parts[0]) else Quote(parts[0]) + "." + Qualified(parts[1..])
  }

  /** Missing and empty catalog and schema are dropped; the table always stays. */
  function Parts(catalog: Option<string>, dbSchema: Option<string>, table: string): seq<string> {
    (if catalog.Some? && catalog.value != "" then [catalog.value] else [])
    + (if dbSchema.Some? && dbSchema.value != "" then [dbSchema.value] else [])
    + [table]
  }

  lemma {:induction false} EscapeAppend(a: string, c: char)
    ensures Escape(a + [c]) == Escape(a) + EscapeRune(c)
  {
    if a == "" {
      assert a + [c] == [c] && [c][1..] == "";
    } else {
      EscapeAppend(a[1..], c);
      assert (a + [c])[1..] == a[1..] + [c];
    }
  }

  method QuoteIdent(ident: string) returns (quoted: string)
    ensures quoted == Quote(ident)
  {
    var escaped := "";
    for k := 0 to |ident|
      invariant escaped == Escape(ident[..k])
    {
      assert ident[..k + 1] == ident[..k] + [ident[k]];
      EscapeAppend(ident[..k], ident[k]);
      if ident[k] == TICK {
        escaped := escaped + [TICK, TICK];
      } else {
        escaped := escaped + [ident[k]];
      }
    }
    assert ident[..|ident|] == ident;
    quoted := [TICK] + escaped + [TICK];
  }

  lemma {:induction false} QualifiedAppend(parts: seq<string>, last: string)
    requires parts != []
    ensures Qualified(parts + [last]) == Qualified(parts) + "." + Quote(last)
  {
    assert (parts + [last])[1..] == parts[1..] + [last];
    if |parts| > 1 {
      QualifiedAppend(parts[1..], last);
    }
  }

  method QuoteQualifiedName(catalog: Option<string>, dbSchema: Option<string>, table: string)
    returns (out: string)
    ensures out == Qualified(Parts(catalog, dbSchema, table))
  {
    var parts: seq<string> := [];
    var q;
    if catalog.Some? && catalog.value != "" {
      q := QuoteIdent(catalog.value);
      parts := parts + [q];
    }
    if dbSchema.Some? && dbSchema.value != "" {
      q := QuoteIdent(dbSchema.value);
      parts := parts + [q];
    }
    q := QuoteIdent(table);
    parts := parts + [q];
    out := JoinDots(parts, Parts(catalog, dbSchema, table));
  }

  /** The joining loop of quoteQualifiedName. */
  method JoinDots(parts: seq<string>, ghost idents: seq<string>) returns (out: string)
    requires |parts| == |idents| > 0 && forall k :: 0 <= k < |parts| ==> parts[k] == Quote(idents[k])
    ensures out == Qualified(idents)
  {
    out := parts[0];
    for k := 1 to |parts|
      invariant out == Qualified(idents[..k])
    {
      assert idents[..k + 1] == idents[..k] + [idents[k]];
      QualifiedAppend(idents[..k], idents[k]);
      out := out + "." + parts[k];
    }
    assert idents[..|idents|] == idents;
  }

  function Prefix(part: Option<string>): string {
    if part == None || part == Some("") then "" else Quote(part.value) + "."
  }

  /** Catalog, schema and table in this order; a missing or empty prefix is left out. */
  function Reference(catalog: Option<string>, dbSchema: Option<string>, table: string): string {
    Prefix(catalog) + (Prefix(dbSchema) + Quote(table))
  }

  /** An optional part in front of some more. */
  function Front(part: Option<string>): seq<string> {
    if part == None || part == Some("") then [] else [part.value]
  }

  lemma FrontIsPrefix(part: Option<string>, ids: seq<string>)
    requires ids != []
    ensures Front(part) + ids != [] && Qualified(Front(part) + ids) == Prefix(part) + Qualified(ids)
  {
    if Front(part) == [] {
      assert [] + ids == ids;
    } else {
      QualifiedPrefix(part.value, ids);
    }
  }

  lemma PartsAreFronts(catalog: Option<string>, dbSchema: Option<string>, table: string)
    ensures Parts(catalog, dbSchema, table) == Front(catalog) + (Front(dbSchema) + [table])
  {
  }

  lemma ReferenceIsQualified(catalog: Option<string>, dbSchema: Option<string>, table: string)
    ensures Qualified(Parts(catalog, dbSchema, table)) == Reference(catalog, dbSchema, table)
  {
    PartsAreFronts(catalog, dbSchema, table);
    FrontIsPrefix(dbSchema, [table]);
    FrontIsPrefix(catalog, Front(dbSchema) + [table]);
  }

  // ---------------------------------------------------------------- reading it back

  /** Reads after an opening backtick: the identifier, and the text after its closing one. */
  function ReadQuoted(s: string): Option<(string, string)> {
    if s == "" then None
    else if s[0] != TICK then
      match ReadQuoted(s[1..])
      case None => None
      case Some((id, rest)) => Some(([s[0]] + id, rest))
    else if |s| > 1 && s[1] == TICK then
      match ReadQuoted(s[2..])
      case None => None
      case Some((id, rest)) => Some(([TICK] + id, rest))
    else Some(("", s[1..]))
  }

  lemma {:induction false} ReadShrinks(s: string)
    ensures ReadQuoted(s).Some? ==> |ReadQuoted(s).value.1| < |s|
  {
    if s != "" {
      if s[0] != TICK {
        ReadShrinks(s[1..]);
      } else if |s| > 1 && s[1] == TICK {
        ReadShrinks(s[2..]);
      }
    }
  }

  /** Reads a dot-separated list of backquoted identifiers. */
  function ParseQualified(s: string): Option<seq<string>>
    decreases |s|
  {
    if s == "" || s[0] != TICK then None
    else
      match ReadQuoted(s[1..])
      case None => None
      case Some((id, rest)) =>
        ReadShrinks(s[1..]);
        if rest == "" then Some([id])
        else if rest[0] != '.' then None
        else
          match ParseQualified(rest[1..])
          case None => None
          case Some(ids) => Some([id] + ids)
  }

  lemma {:induction false} ReadEscaped(id: string, rest: string)
    requires rest == "" || rest[0] != TICK
    ensures ReadQuoted(Escape(id) + [TICK] + rest) == Some((id, rest))
  {
    var s := Escape(id) + [TICK] + rest;
    if id == "" {
      assert s[1..] == rest;
    } else {
      ReadEscaped(id[1..], rest);
      var head := EscapeRune(id[0]);
      assert s[|head|..] == Escape(id[1..]) + [TICK] + rest;
      assert [id[0]] + id[1..] == id;
    }
  }

  /** Main result: quoting then reading gives back exactly the parts. */
  lemma {:induction false} QualifiedReadsBack(parts: seq<string>)
    requires parts != []
    ensures ParseQualified(Qualified(parts)) == Some(parts)
    decreases |parts|
  {
    var s := Qualified(parts);
    var rest := if |parts| == 1 then "" else "." + Qualified(parts[1..]);
    assert s[1..] == Escape(parts[0]) + [TICK] + rest;
    ReadEscaped(parts[0], rest);
    if |parts| == 1 {
      assert parts == [parts[0]];
    } else {
      QualifiedReadsBack(parts[1..]);
      assert rest[1..] == Qualified(parts[1..]);
      assert [parts[0]] + parts[1..] == parts;
    }
  }

  lemma EscapeCons(c: char, id: string)
    ensures Escape([c] + id) == EscapeRune(c) + Escape(id)
  {
  }

  lemma {:induction false} EscapeRead(s: string, id: string, rest: string)
    requires ReadQuoted(s) == Some((id, rest))
    ensures s == Escape(id) + ([TICK] + rest)
  {
    if s[0] != TICK {
      EscapeRead(s[1..], id[1..], rest);
      EscapeCons(s[0], id[1..]);
      assert s == [s[0]] + s[1..] && id == [s[0]] + id[1..];
    } else if |s| > 1 && s[1] == TICK {
      EscapeRead(s[2..], id[1..], rest);
      EscapeCons(TICK, id[1..]);
      assert s == [TICK, TICK] + s[2..] && id == [TICK] + id[1..];
    }
  }

  /** Every text the reader accepts is the quoting of what it reads. */
  lemma {:induction false} ReadIsQuoted(s: string)
    requires ParseQualified(s).Some?
    ensures ParseQualified(s).value != [] && Qualified(ParseQualified(s).value) == s
    decreases |s|
  {
    var (id, rest) := ReadQuoted(s[1..]).value;
    QuotedPrefix(s, id, rest);
    ReadShrinks(s[1..]);
    if rest != "" {
      ReadIsQuoted(rest[1..]);
      QualifiedPrefix(id, ParseQualified(rest[1..]).value);
      assert rest == "." + rest[1..];
    }
  }

  lemma QuotedPrefix(s: string, id: string, rest: string)
    requires s != "" && s[0] == TICK && ReadQuoted(s[1..]) == Some((id, rest))
    ensures s == Quote(id) + rest
  {
    EscapeRead(s[1..], id, rest);
    assert s == [TICK] + s[1..];
  }

  lemma QualifiedPrefix(id: string, ids: seq<string>)
    requires ids != []
    ensures Qualified([id] + ids) == Quote(id) + ("." + Qualified(ids))
  {
  }

  /** Two references are spelled alike exactly when their parts are the same. */
  lemma QuotingIsInjective(a: seq<string>, b: seq<string>)
    requires a != [] && b != []
    ensures Qualified(a) == Qualified(b) <==> a == b
  {
    QualifiedReadsBack(a);
    QualifiedReadsBack(b);
  }
}
