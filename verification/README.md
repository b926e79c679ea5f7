# A verified model of the ADBC Spark Connect driver

This project models the parts of the driver that decide what a caller sees and when
memory is given back, and proves what they promise.

- **Names and patterns** (`Folding.dfy`, `Like.dfy`, `Pushdown.dfy`). The case-folding
  walk, the backtracking LIKE matcher, and the LIKE clause that is sent to Spark. The
  matcher's loop is characterised on every input: it decides LIKE, except that a `%` of
  the pattern that meets a `%` of the name stands for that one rune. Hence it is right
  about a name for all patterns exactly when the name has no `%`, and right about all
  names exactly when the pattern has none. Sending the clause changes no answer, for all
  patterns, exactly when Unicode and ASCII folding agree on the listed names.
- **GetObjects** (`Replies.dfy`, `Arrays.dfy`, `Objects.dfy`, `ObjectLaws.dfy`,
  `TreeLaws.dfy`, `Quoting.dfy`). The walk over catalogs, schemas, tables and columns reads
  names out of record batches by column name and fills four levels of nested Arrow
  builders. The finished arrays decode, by the variable-size list and struct layouts of the
  Arrow Columnar Format, to exactly the requested tree. Which catalogs, schemas, tables and
  columns are in it, and when there is none, is said of Spark's replies cell by cell. A
  smaller depth is the deeper tree cut; the clauses sent to Spark make no difference.
- **Result streaming** (`Reader.dfy`, `CStream.dfy`). The reader delivers exactly the
  records before the first failure of the response stream, then that failure; it gives
  back every record reference once and in order; the exported C stream inherits this and
  owns exactly one reader reference.
- **The C handle layer** (`Handles.dfy`, `CApi.dfy`). Structs, heap cells, cgo handles and
  contexts over arbitrary runs of entry points, with every driver call free to succeed,
  fail or panic.
- **Configuration** (`Text.dfy`, `Settings.dfy`, `Config.dfy`, `Spellings.dfy`,
  `Options.dfy`). Connection strings round-trip in every spelling; which hosts can be
  dialed; when TLS is on. Laying an unordered option map over a configuration depends on
  the order exactly when two options disagree about a field, and a failing call exactly when
  some good option would change a setting.
- **Statements** (`Statement.dfy`). Parameter records and the closed-connection rule over
  every interleaving of statements, a caller's references and the close: a model of
  sessions, and real objects that follow it.

## How to read it

A loop or an operation that changes state is a `method` or a `class` whose contract ties
it to a specification function; the lemmas about that function are the results. Runes are
Dafny `char`s and names are strings of runes; in `Text.dfy` and the configuration modules a
`char` stands for one byte of a Go string. Unicode's simple folding is a parameter `next`,
assumed (`Folding.IsFold`) to permute the runes in finite cycles and to leave `%` alone.
Spark is a pair of functions, from SQL text to a reply or an error and from SQL text to a
schema or an error; a reply is a schema and record batches, each with the columns of the
schema. The texts the driver builds, quoting included, are part of the model. How Spark
reads a clause (trimmed, split at `|`, `*` any run, `.` any one rune, the case of ASCII
letters ignored) is `Pushdown.SparkAccepts`. Lower-casing and trimming by Unicode's tables
are parameters. So is the C allocator: it returns any address that is not a live cell.
Answers of the code behind the C layer are parameters too.

## Where the code and its promises differ

- `likeMatch` (driver/spark/objects.go:376) tries the literal branch before the `%` branch:
  `LikePatterns.ExactForName` and `LikePatterns.ExactForPattern` say exactly when that
  matters, `LikePatterns.LoopIsSound` that it never accepts too much.
- The LIKE clause folds ASCII only: a name with U+212A is kept by the client and withheld
  by Spark (`Pushdown.KelvinSignIsLost`); `Pushdown.PushdownExact` is the exact condition.
- `Endpoint` does not restore the brackets of an IPv6 host, which the parser drops: a
  printed host is spelled in the endpoint as it was printed exactly when it had no brackets,
  and the endpoint is dialed as that host exactly when the host has no colon and no bracket
  (`ConnectionStrings.BracketsAreLost`, `ConnectionStrings.EndpointDials`). `[::1]` parses
  and cannot be dialed (`ConnectionStrings.LoopbackIsNotDialed`).
- A bare `;` before the parameters is tolerated, but a parameter other than the last that ends
  in a slash is then mistaken for the host (`Spellings.TailIsCut` is the exact condition,
  `Spellings.BareSemicolonIsMistaken` a string).
- `SetOptions` without a URI writes in place even when it fails. What a failing call leaves
  is the same for all orders of Go's map exactly when no good option would change a setting,
  and then it leaves everything as it was (`DatabaseOptions.FailureIsOrderFree`; an example
  is `DatabaseOptions.FailureLeavesTraces`). Which error it reports is the same for all
  orders exactly when no unknown option meets a bad boolean
  (`DatabaseOptions.ErrorIsOrderFree`).
- `ConnectionInit` with options set before it reports NOT_IMPLEMENTED and yet opens the
  connection (`CApi.Driver.ConnectionInit`).
- Exporting into a stream struct that still holds a stream loses the old cell and the old
  reader's reference. The handle invariants count such cells as leaked (`CApi.Driver.Query`,
  `Handles.OneToOne`); the old reader is never torn down (`CStreams.ExportTwice`).
- docs/configuration.md:22 says that TLS is inferred when a token is set. The code does
  not do that: a connection string with a token alone leaves TLS off
  (`ConnectionStrings.TokenAlone`), and TLS is on exactly when it is asked for, by the last
  text given for it or the scheme (`ConnectionStrings.TLSIsAskedFor`) or by the option
  (`DatabaseOptions.TLSIsNeverInferred`).
- `Bind` releases the old record before it retains the new one, so binding the same record
  again frees it if the statement held the last reference. Binding is safe exactly when it
  is refused or this is not the case and the record is alive (`Statements.BindExactly`); the
  C layer keeps a reference of its own around the call.

## Model

| member | source | states |
|---|---|---|
| Folding.EqualFold | driver/spark/objects.go:399-409 | for every fold with finite cycles the walk ends and answers whether the runes share an orbit |
| Folding.OrbitSymmetric | driver/spark/objects.go:397-409 | fold equality can be asked from either side |
| Folding.OrbitTransitive | driver/spark/objects.go:397-409 | fold equality is transitive |
| Folding.OrbitSwap | driver/spark/objects.go:397-409 | fold-equal runes are fold-equal to the same runes |
| Folding.StepIsEqual | driver/spark/objects.go:397-409 | a rune and its next fold are fold-equal |
| Folding.OrbitIsLeast | driver/spark/objects.go:397-409 | no runes are fold-equal but those that folding reaches |
| Folding.EqualFoldStrings | driver/spark/objects.go:256-258 | two strings are equal under folding if and only if they are rune by rune |
| LikePatterns.LikeMatch | driver/spark/objects.go:370-395 | the loop decides the loop meaning of LIKE on every pattern and name, in fewer than (pattern length + 1) * (name length + 1) iterations |
| LikePatterns.LikeMeans | driver/spark/objects.go:368-370 | the declared meaning: `_` any one rune, `%` anything, other runes themselves up to case, and patterns compose as the names they describe |
| LikePatterns.NeverBehind | driver/spark/objects.go:379-386 | why backtracking to the last percent sign is enough: no other match of the pattern so far ends earlier in the name |
| LikePatterns.LoopIsSound | driver/spark/objects.go:375-394 | whatever the loop accepts matches under the declared LIKE meaning, for all inputs |
| LikePatterns.LoopIsComplete | driver/spark/objects.go:370-395 | whatever matches is accepted, if pattern or name has no percent sign |
| LikePatterns.NameMisjudged | driver/spark/objects.go:376-379 | for every name with a percent sign, a pattern that describes it and is refused |
| LikePatterns.PatternMisjudges | driver/spark/objects.go:376-379 | for every pattern with a percent sign, a name that it describes and is refused |
| LikePatterns.ExactForName | driver/spark/objects.go:370-395 | the loop is right about a name for all patterns if and only if the name has no percent sign |
| LikePatterns.ExactForPattern | driver/spark/objects.go:370-395 | the loop is right about all names if and only if the pattern has no percent sign |
| LikePatterns.CaseIsIgnored | driver/spark/objects.go:368-409 | replacing pattern runes other than wildcards, and name runes, by fold-equal ones changes no answer |
| Pushdown.Matches | driver/spark/objects.go:350-352 | a missing or empty pattern matches every name, any other as the loop decides |
| Pushdown.FilterByPattern | driver/spark/objects.go:355-366 | keeps the matching names, in order; all of them without a pattern |
| Pushdown.KeptMembers | driver/spark/objects.go:354-366 | a name is kept if and only if it was listed and matches |
| Pushdown.LikeClause | driver/spark/objects.go:328-346 | the clause holds the translation of the whole pattern, or is empty when there is no pattern or a rune that Spark's syntax cannot express |
| Pushdown.ClauseIsSpelled | driver/spark/objects.go:328-346 | a clause is sent if and only if the pattern is of ASCII letters, digits and wildcards, and its text symbol by symbol |
| Pushdown.ClauseReadsBack | driver/spark/objects.go:317-327 | the clause text has no quote, and trimming and splitting it at bars leaves the one translated regex |
| Pushdown.ClauseOnlyNarrows | driver/spark/objects.go:317-327 | Spark lists every name under the clause that the client would keep, if Unicode and ASCII folding agree on the name |
| Pushdown.NameLost | driver/spark/objects.go:322-324 | for every other name, a pattern that the client accepts and whose clause makes Spark withhold the name |
| Pushdown.PushdownExact | driver/spark/objects.go:317-366 | filtering the narrowed listing equals filtering the full one, for all patterns, if and only if the two foldings agree on all listed names |
| Pushdown.SessionCatalogIsSafe | driver/spark/objects.go:325-327 | names of ASCII letters, digits and underscores are always safe |
| Pushdown.KelvinSignIsLost | driver/spark/objects.go:322-324 | a concrete name on which sending the clause changes the answer |
| Quoting.QuoteIdent | driver/spark/connection.go:153-163 | the identifier in backticks, with each embedded backtick doubled |
| Quoting.QuoteQualifiedName | driver/spark/connection.go:135-149 | the quoted non-empty catalog and schema and the table, joined by dots |
| Quoting.ReferenceIsQualified | driver/spark/connection.go:133-149 | catalog, schema and table stand in this order, each with its dot, and a missing or empty prefix is left out |
| Quoting.QualifiedReadsBack | driver/spark/connection.go:133-163 | reading a quoted reference gives exactly its parts, whatever backticks, dots or spaces they hold |
| Quoting.ReadIsQuoted | driver/spark/connection.go:151-163 | every text that can be read as a reference is the quoting of what it reads as |
| Quoting.QuotingIsInjective | driver/spark/connection.go:133-163 | two references are spelled alike if and only if their parts are the same |
| Arrays.OpenEntry | driver/spark/objects.go:48-60 | appending to a list builder adds one entry, null or empty, and leaves the others |
| Arrays.GrowEntry | driver/spark/objects.go:86-87 | items appended to the child of a list builder go to its last entry and to no other |
| Replies.FindFirst | driver/spark/objects.go:272-278 | the first field with a fold-equal name |
| Replies.LastNamed | driver/spark/objects.go:208-216 | the last field whose lower-cased name is the given one, if there is one |
| Replies.FindTableColumns | driver/spark/objects.go:208-216 | the name and the isTemporary column of SHOW TABLES, each the last of its name |
| Objects.QueryStrings | driver/spark/objects.go:265-310 | the non-null strings of the named column over all batches, in order, or the error; a column of another type has none |
| Objects.ListCatalogs | driver/spark/objects.go:162-172 | an exact name unasked, the default catalog when Spark cannot list, the matching names otherwise |
| Objects.ListSchemas | driver/spark/objects.go:174-189 | the matching names of the qualified listing, else of the plain one, else none; with the clause for the pattern |
| Objects.ListTables | driver/spark/objects.go:200-248 | the matching non-null rows of all batches with their types, read in the columns found by name, or the error; with the clause for the pattern |
| Objects.TableTypeAllowed | driver/spark/objects.go:251-261 | an empty filter allows every type, another one the types fold-equal to an entry |
| Objects.ColumnBuilder.AppendRow | driver/spark/objects.go:147-155 | one column row, with a null in each of the 17 optional fields, keeps all children equally long |
| Objects.AppendColumns | driver/spark/objects.go:132-157 | adds the matching columns of the probed schema; a failing probe adds none and is reported |
| Objects.AppendTables | driver/spark/objects.go:94-130 | adds the table nodes of the schema, or fails with the listing's error; a table whose probe fails keeps an empty column list |
| Objects.AppendDBSchemas | driver/spark/objects.go:68-92 | adds the schema nodes of the catalog, or fails with the first failing listing's error |
| Objects.CatalogBuilder.NewRecord | driver/spark/objects.go:62-65 | closing the builders gives well laid out arrays that decode to the rows appended |
| Objects.BuildObjects | driver/spark/objects.go:36-66 | the arrays decode to exactly the requested tree, and the call fails exactly when that tree does not exist, with its error |
| ObjectLaws.DepthIsTruncation | driver/spark/objects.go:48-128 | a call that succeeds at a depth succeeds at every smaller one and returns the same tree cut there |
| ObjectLaws.NullsExactlyAtCut | driver/spark/objects.go:51-118 | a schema, table or column list is null if and only if it is below the requested depth |
| ObjectLaws.TablesAreRows | driver/spark/objects.go:94-130 | a table is in the tree if and only if a row of the listing passes the name and type filters, and it carries its own probe's columns |
| TreeLaws.CatalogsListed | driver/spark/objects.go:162-172 | the catalogs of the tree are the exact name, or the default one when Spark cannot list, or exactly the cells of the listing that pass the filter; their schema lists are null exactly at depth 1 |
| TreeLaws.SchemasListed | driver/spark/objects.go:174-189 | the schemas of a catalog are exactly the cells that pass the filter, of the listing for that catalog, else of the plain one, else none; their table lists are null exactly at depth 2 |
| TreeLaws.TablesListed | driver/spark/objects.go:94-130 | the tables of a schema are exactly the cells listed for that catalog and schema that pass the name and type filters, temporary exactly when their own row is flagged |
| TreeLaws.TablesInOrder | driver/spark/objects.go:220-244 | without filters the tables are all that are listed, in the order listed |
| TreeLaws.ColumnsListed | driver/spark/objects.go:132-157 | the columns of a table are exactly the matching fields of the probe of that catalog, schema and table, with their places; none if the probe fails |
| TreeLaws.TreeFails | driver/spark/objects.go:68-113 | the call fails if and only if tables are asked for and Spark refuses to list those of some schema in the tree, and then with the error of the first one |
| ObjectLaws.OrdinalsArePositions | driver/spark/objects.go:142-150 | the columns listed are exactly the matching fields, each with its 1-based place in the unfiltered schema |
| ObjectLaws.OrdinalsIncrease | driver/spark/objects.go:142-150 | the columns are listed in schema order, none twice |
| ObjectLaws.NarrowedNames | driver/spark/objects.go:174-189 | filtering a listing that Spark narrowed gives what filtering the full listing gives |
| ObjectLaws.ClausesChangeNothing | driver/spark/objects.go:28-36 | for a Spark that answers a listing with a clause by what the clause accepts of the listing without it, GetObjects returns the same tree, or error, as if it had sent no clause |
| Readers.DeliveredAppend | internal/sparkconnect/result_reader.go:102-133 | a failing response contributes nothing and hides all that follows; otherwise deliveries are joined in order |
| Readers.WholeStream | internal/sparkconnect/result_reader.go:102-133 | if no response fails, every record of every response is delivered in order, and the outcome is how the stream itself ends |
| Readers.BrokenStream | internal/sparkconnect/result_reader.go:102-133 | otherwise what comes before the first failing response is delivered, and the outcome is the error of that response |
| Readers.SchemaComesFrom | internal/sparkconnect/result_reader.go:138-147 | the schema is that of the first payload, with records or not, unless a header before it cannot be read |
| Readers.ResultReader.DecodeIPC | internal/sparkconnect/result_reader.go:138-161 | takes one reference a record, gives all back when the payload breaks off, captures the first schema |
| Readers.ResultReader.Receive | internal/sparkconnect/result_reader.go:104-131 | one response is skipped, ends the stream, or yields records, and what the stream still delivers is accounted for |
| Readers.ResultReader.Fill | internal/sparkconnect/result_reader.go:102-133 | called only before the end; afterwards there are unread records or the stream is done, and yielded, unread and coming items still make up the stream |
| Readers.ResultReader.Next | internal/sparkconnect/result_reader.go:192-214 | yields the next item of the stream, and false exactly when all are yielded, with the stream's own error; receives nothing once done |
| Readers.ResultReader.Release | internal/sparkconnect/result_reader.go:168-184 | the last release has given back every reference taken, once each and in order, and cancels the stream; any other only counts |
| Readers.ResultReader.Retain | internal/sparkconnect/result_reader.go:163-164 | one more reference |
| Readers.NewResultReader | internal/sparkconnect/result_reader.go:74-97 | fails exactly when the stream fails before delivering anything, and then the reader made has given back every reference it took and cancelled the stream; otherwise the schema is the first readable one, or empty |
| Readers.Drain | driver/spark/statement.go:102-114 | reading to the end yields exactly what the stream delivers, returns its error and releases everything |
| Readers.Update | driver/spark/statement.go:102-114 | an update on a response stream reports the failure of a failing stream or of the first failing response, and none if there is none; the stream is cancelled |
| CStreams.ArrayStream.MaybeError | c/driver.go:333-377 | no error gives 0; an error gives its errno and is shown in a cell that is allocated at most once |
| CStreams.ArrowArrayStream.ExportRecordReader | c/driver.go:451-460 | the stream takes one reference of its own; a stream that the struct still held, and its reader, stay as they were |
| CStreams.ArrowArrayStream.ExportResult | c/driver.go:1563-1573 | after ExecuteQuery the stream owns the only reference |
| CStreams.ArrowArrayStream.GetNext | c/driver.go:391-404 | the reader's records in order, then end or the errno of the stream's failure; EINVAL once released |
| CStreams.ArrowArrayStream.Release | c/driver.go:420-437 | the first release drops the reference and frees the error cell, tearing the reader down with its last reference; a later one does nothing |
| CStreams.Consume | c/driver.go:391-437 | an exported stream read to its end gives every item and then the failure, and leaves nothing held |
| CStreams.QueryAndRead | c/driver.go:391-437 | from the response stream to the C program: read to the end without an error if and only if no response fails and the stream ends well, and then every record is read; otherwise those before the first failing response |
| CStreams.ErrnoNumbers | c/driver.go:333-377 | which errors a C program can tell apart, by their numbers |
| CStreams.ExportTwice | c/driver.go:451-460 | after an export over a live stream and a release, the second reader is torn down and the first still has the lost reference |
| Handles.OneToOne | c/driver.go:239-250 | in every valid memory structs, cells and handles correspond one to one with objects of the right kind, but for the cells of overwritten streams |
| Handles.OneLiveContext | c/driver.go:276-293 | a handle has at most one live context and at most one uncancelled result stream |
| Handles.CreateKeeps | c/driver.go:239-245 | a new cell and handle keep the memory valid and change one struct |
| Handles.OverwriteKeeps | c/driver.go:451-460 | writing over a live stream struct keeps the memory valid and loses one cell |
| Handles.DeleteKeeps | c/driver.go:630-634 | freeing the cell of a struct and deleting its handle keeps the memory valid |
| Handles.CancelKeeps | c/driver.go:287-293 | cancelling leaves the handle without a context and touches no other |
| Handles.NewContextKeeps | c/driver.go:281-285 | a new context replaces the old one, which is cancelled |
| CApi.Driver.New | c/driver.go:592-610 | a database or connection handle is made for a free struct; a poisoned driver, a nil struct and an occupied one are refused |
| CApi.Driver.StatementNew | c/driver.go:1443-1471 | needs a free struct and an initialized connection; an error or panic of the driver makes no handle |
| CApi.Driver.DatabaseInit | c/driver.go:564-589 | opens an allocated database once |
| CApi.Driver.ConnectionSetOption | c/driver.go:889-916 | kept before Init, refused after it |
| CApi.Driver.ConnectionInit | c/driver.go:982-1025 | opens an allocated connection on an initialized database once, even where it reports NOT_IMPLEMENTED for kept options |
| CApi.Driver.DatabaseRelease | c/driver.go:613-643 | frees the handle; a panic while closing poisons and leaves it |
| CApi.Driver.Release | c/driver.go:1028-1058 | frees a connection or statement handle and cancels its context however closing comes out |
| CApi.Driver.Cancel | c/driver.go:1511-1524 | leaves an initialized handle without a live context, and initialized as before |
| CApi.Driver.Operate | c/driver.go:1636-1656 | what stops a call before its context (a missing interface, a failing import, a panic) leaves all contexts alone and is reported; otherwise the old context is cancelled and the handle has one never used before, with everything else as it was: still initialized, with the same options kept |
| CApi.Driver.Query | c/driver.go:1542-1576 | as Operate, and on success the stream struct holds a stream of the new context |
| CApi.Driver.StreamRelease | c/driver.go:421-437 | frees the stream's handle; harmless on a released stream |
| CApi.Driver.Step | c/driver.go:187-196 | on a poisoned driver no entry point but the stream release succeeds or changes anything |
| CApi.Driver.Run | c/driver.go:74-76 | after any run of calls the memory is valid, and after a panic no database, connection, statement or context ever changes |
| Text.UnescapeEncoded | internal/sparkconnect/config.go:125-130 | percent-decoding undoes any encoder that does not keep the percent sign, so `=` and `+` may stay as they are |
| Text.UnescapeFails | internal/sparkconnect/config.go:125-130 | decoding fails if and only if two hexadecimal digits do not follow some percent sign |
| Text.AtoiPrinted | internal/sparkconnect/config.go:105-111 | every 64-bit number reads back from its decimal text |
| Text.AtoiAccepts | internal/sparkconnect/config.go:105-111 | a port is a text of digits after at most one sign that stands for a 64-bit number |
| Text.SplitJoined | internal/sparkconnect/config.go:117 | splitting undoes joining for parts without the separator |
| ConfigSettings.SetIsExact | internal/sparkconnect/config.go:139-161 | setting a field is refused only for a text that is not a boolean, and changes that field alone |
| ConfigSettings.LastWins | internal/sparkconnect/config.go:117-134 | after a list of parameters each field holds the last value given for it, fields without one keep theirs, and the list fails exactly when some value is not allowed |
| ConnectionStrings.Config.ApplyParam | internal/sparkconnect/config.go:139-161 | sets the field that the key or its alias names, or a header for an unknown key |
| ConnectionStrings.ParseConnectionString | internal/sparkconnect/config.go:59-137 | returns a fresh configuration with the meaning of the string, or its error |
| ConnectionStrings.ParsePrinted | internal/sparkconnect/config.go:59-137 | a printed host, port and parameter list parse back to that host and port and the parameters assigned from left to right |
| Spellings.SpellingSays | internal/sparkconnect/config.go:59-137 | every spelling, with or without scheme, port, path and parameters, after `/;` or a bare `;`: the host, the port or 15002, TLS by the scheme, and the parameters on top; or the first error |
| Spellings.SchemesTaken | internal/sparkconnect/config.go:69-84 | five schemes in any case are taken, two of them with TLS, and any other is refused |
| Spellings.TailIsCut | internal/sparkconnect/config.go:86-99 | host part and parameters are cut where they were printed if and only if, after a bare `;`, no parameter before the last ends in a slash |
| Spellings.DoubledSlash | internal/sparkconnect/config.go:86-99 | one more slash before the parameters belongs to nothing |
| Spellings.BareSemicolonIsMistaken | internal/sparkconnect/config.go:90-96 | a concrete string whose first parameter becomes part of the host |
| Spellings.HostIsRead | internal/sparkconnect/config.go:103-115 | the host without its brackets; the port given, or the old one without a port or with an empty one |
| Spellings.OddBrackets | internal/sparkconnect/config.go:163-176 | an opening bracket that is not closed is part of the host, and what follows a closing one without a colon is not |
| Spellings.ParameterSets | internal/sparkconnect/config.go:139-161 | what each documented key and alias sets, field by field; any other key is a header; keys are trimmed and in lower case |
| Spellings.ValueIsKept | internal/sparkconnect/config.go:121-130 | a key ends at the first `=`, and a value that cannot be decoded is kept as it is |
| Spellings.ParamsTaken | internal/sparkconnect/config.go:117-134 | a parameter list is taken if and only if no member is refused, and the error is that of the first that is |
| ConnectionStrings.SplitPrintedHost | internal/sparkconnect/config.go:163-180 | a plain or bracketed host and a port are split apart again |
| ConnectionStrings.EndpointSplits | internal/sparkconnect/config.go:163-185 | split as a connection string is, an endpoint gives its host and port if and only if the host does not start with a bracket |
| ConnectionStrings.EndpointDials | internal/sparkconnect/config.go:182-185 | read as a dialer does, an endpoint gives its host and port if and only if the host has no colon and no bracket |
| ConnectionStrings.BracketsAreLost | internal/sparkconnect/config.go:163-185 | a printed host is spelled alike in the endpoint of what was parsed if and only if it had no brackets, and dialed as itself if and only if it has no colon and no bracket of its own |
| ConnectionStrings.LoopbackIsNotDialed | internal/sparkconnect/config.go:163-185 | a printed [::1] parses to a configuration that cannot be dialed |
| ConnectionStrings.ParamsAreAssignments | internal/sparkconnect/config.go:115-134 | a parameter list that parses is the assignments that its members read as, one after the other |
| ConnectionStrings.TLSIsAskedFor | internal/sparkconnect/config.go:81-161 | a parsed configuration uses TLS if and only if the last text given for it reads true, or there is none and the scheme asks for it |
| ConnectionStrings.TokenAlone | internal/sparkconnect/config.go:139-161 | a printed token parses back and leaves TLS off |
| DatabaseOptions.FirstNonEmpty | driver/spark/database.go:137-144 | the first non-empty value, or the empty text if there is none |
| DatabaseOptions.Database.SetOptions | driver/spark/database.go:44-111 | with a URI, a complete new configuration or the old one untouched; without one, the old one overlaid in place up to the failing option |
| DatabaseOptions.OverlayAssigns | driver/spark/database.go:65-107 | the loop fails exactly when some option is bad, and otherwise makes the assignments of its options one after the other |
| DatabaseOptions.OptionSets | driver/spark/database.go:65-107 | what each documented option sets, field by field; which keys are refused and which ignored |
| DatabaseOptions.UriIsChosen | driver/spark/database.go:48 | the URI option, or without it, or if it is empty, the driver's own |
| DatabaseOptions.OptionsOverride | driver/spark/database.go:65-107 | options override the connection string and touch nothing else |
| DatabaseOptions.TLSIsNeverInferred | driver/spark/database.go:44-111 | after a URI and options TLS is on if and only if the option reads true or, without it, the connection string asks for it |
| DatabaseOptions.OrderDoesNotMatter | driver/spark/database.go:65-107 | failure never depends on the map order, and without a bad option the result is order-free if and only if no two options give one field different values |
| DatabaseOptions.FailureIsOrderFree | driver/spark/database.go:56-107 | with a bad option, the settings a call leaves in place are order-free if and only if no good option would change the old ones, and then they are the old ones |
| DatabaseOptions.ErrorIsOrderFree | driver/spark/database.go:65-107 | the error of a call is order-free if and only if no unknown option meets a bad boolean |
| DatabaseOptions.FailureLeavesTraces | driver/spark/database.go:56-107 | a concrete failing call whose in-place changes depend on the order |
| Statements.LiteralsAre | driver/spark/statement.go:174-187 | one literal a column, in order, if every column converts; none otherwise |
| Statements.ArgumentsAre | driver/spark/statement.go:174-187 | no arguments without a bound row; a bound row is sent whole, entry k its column k, or cannot be converted |
| Statements.Statement.PositionalLiterals | driver/spark/statement.go:174-187 | no literals without a bound row, else those of its columns or the failure |
| Statements.Statement.ExecuteQuery | driver/spark/statement.go:79-97 | closed, missing query and bad parameter are reported before anything is sent; otherwise exactly one plan with the query and one literal a column of the bound row |
| Statements.Statement.Bind | driver/spark/statement.go:129-144 | refuses several rows unchanged; otherwise the statement owns one reference to the new record and none to the old; each count changes by exactly that, and the old record is freed exactly if this was its last reference |
| Statements.Statement.Close | driver/spark/statement.go:44-51 | leaves no reference and no connection, and frees the record exactly if this was its last reference |
| Statements.BindExactly | driver/spark/statement.go:129-144 | binding keeps counts and freed memory in step if and only if it is refused or the record is alive and not the last reference of this statement |
| Statements.FreedWhenUnheld | driver/spark/statement.go:44-144 | in a sound state a record is freed if and only if no caller and no statement holds it |
| Statements.NothingAfterClose | driver/spark/statement.go:79-82 | whatever runs before and after the close of a connection, the plans executed are those from before it |
| Statements.BoundRowIsSent | driver/spark/statement.go:79-144 | over any run that leaves the statement alone in between, executing after binding sends the literals of the bound row column by column, or nothing if one cannot be converted |
| Statements.NewStatementRuns | driver/spark/connection.go:46-51 | a new statement on an open connection runs the query it was given, without literals |
| Statements.ClosedStatementIsSilent | driver/spark/statement.go:44-51 | a closed statement holds nothing and never executes anything again, whatever happens |
| Statements.DropsAreCounted | driver/spark/statement.go:129-144 | a caller's references are used up by giving them back and by nothing else |
| Statements.Connection.NewStatement | driver/spark/connection.go:46-51 | refused once the connection is closed |
| Statements.Connection.Close | driver/spark/connection.go:54-64 | closes the client once and forgets it, and reports the failure of closing it |
| Statements.Perform | driver/spark/statement.go:32-144 | one operation of a caller does to the objects what the session model says and keeps the memory sound |
| Statements.Run | driver/spark/statement.go:32-144 | from any sound state, with statements already made, any run of operations ends as the session model says, with every reference counted; on a closed connection it executes nothing |

## Left out

- The guard against a batch with fewer columns than its schema (driver/spark/objects.go:287): the model's batches have the columns of their schema, as Arrow's readers promise.
- Objects.ColumnBuilder.AppendRow: the ordinal is a mathematical integer; the conversion to 32 bits matters only for tables with more than 2147483647 columns.
- Java's regex dot: it does not match line terminators, so a name with a line break could be withheld by Spark; the repository describes `*` as any characters, and the model follows that.
- Unicode's tables: lower-casing and trimming are arbitrary functions.
- Arrow IPC decoding, array memory and the records a C consumer imports: library code; a payload is its schema, its records and whether it breaks off.
- Readers.ResultReader.Next: required to be called with a reference held, as the reader's ownership contract says; use after the last release is not modelled.
- Statements.Perform: a caller binds and drops only records of which it holds a reference; `Statements.BindExactly` has no such condition.
- gRPC, TLS, sessions, timeouts and the texts of errors: network plumbing.
- Conversion of Arrow values to literals: one branch a type; here a column converts or does not.
- Option getters and setters of the C layer other than ConnectionSetOption, and error details: they change no handle and no context.
- The partitions that ExecutePartitions hands out: C memory that no handle knows; the call itself is one of `CApi.Driver.Operate`.
- GetInfo and GetTableTypes: constant data.
- Concurrent calls: ADBC objects are used serially.
