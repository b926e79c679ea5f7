/** Statements of a connection and the parameter records they hold. */
module Statements {
  import opened Wrappers

  type Literal = string

  datatype StatementError = Closed | NoQuery | NotImplemented | BadParameter | Server(message: string)

  /** A record with one literal a column for its first row, where it can be converted.
      `holders` are the statements that own one of its references, `external` counts the
      references of everyone else. The memory is freed when the last reference goes, and
      does not come back. */
  class RecordBatch {
    const rows: nat
    const columns: seq<Option<Literal>>
    var refs: int
    var freed: bool
    ghost var holders: set<Statement>
    ghost var external: nat

    constructor (rows: nat, columns: seq<Option<Literal>>)
      ensures this.rows == rows && this.columns == columns
      ensures refs == 1 && !freed && holders == {} && external == 1
    {
      this.rows, this.columns, refs, freed := rows, columns, 1, false;
      holders, external := {}, 1;
    }

    ghost predicate Counted()
      reads this
    {
      external >= 0 && refs == external + |holders|
    }

    method Retain(ghost holder: Statement)
      requires Counted() && holder !in holders
      modifies this`refs, this`holders
      ensures Counted() && refs == old(refs) + 1 && holders == old(holders) + {holder}
    {
      refs := refs + 1;
      holders := holders + {holder};
    }

    method Release(ghost holder: Statement)
      requires Counted() && holder in holders
      modifies this`refs, this`holders, this`freed
      ensures Counted() && refs == old(refs) - 1 && holders == old(holders) - {holder}
      ensures freed == (old(freed) || old(refs) == 1)
    {
      refs := refs - 1;
      holders := holders - {holder};
      if refs == 0 {
        freed := true;
      }
    }

    /** Someone who is not a statement gives up a reference. */
    method Drop()
      requires Counted() && external > 0
      modifies this`refs, this`external, this`freed
      ensures Counted() && refs == old(refs) - 1 && external == old(external) - 1
      ensures freed == (old(freed) || old(refs) == 1)
    {
      refs := refs - 1;
      external := external - 1;
      if refs == 0 {
        freed := true;
      }
    }
  }

  /** The Spark Connect client; `executed` logs the plans it was asked to execute. */
  class Client {
    var closed: bool
    ghost var executed: seq<(string, seq<Literal>)>

    constructor ()
      ensures !closed && executed == []
    {
      closed, executed := false, [];
    }

    method ExecuteSQL(query: string, args: seq<Literal>, answer: Result<(), string>) returns (r: Result<(), string>)
      modifies this`executed
      ensures r == answer && executed == old(executed) + [(query, args)]
    {
      executed := executed + [(query, args)];
      return answer;
    }

    /** Closing twice does nothing; `answer` is what closing the channel reports. */
    method Close(answer: Result<(), string>) returns (r: Result<(), string>)
      modifies this`closed
      ensures closed && r == if old(closed) then Ok(()) else answer
    {
      if closed {
        return Ok(());
      }
      closed := true;
      return answer;
    }
  }

  class Connection {
    var client: Client?

    constructor (client: Client)
      ensures this.client == client
    {
      this.client := client;
    }

    method NewStatement() returns (s: Statement?)
      ensures s == null <==> client == null
      ensures s != null ==> fresh(s) && s.cnxn == this && s.query == "" && s.params == null && !s.prepared
    {
      if client == null {
        return null;
      }
      s := new Statement(this);
    }

    /** The client is forgotten even if closing it fails; that failure is reported. */
    method Close(answer: Result<(), string>) returns (r: Result<(), StatementError>)
      modifies this, client
      ensures client == null
      ensures old(client) == null ==> r == Ok(())
      ensures old(client) != null ==>
                && old(client).closed && old(client).executed == old(client.executed)
                && r == if answer.Ok? || old(client.closed) then Ok(()) else Err(Server(answer.error))
    {
      if client == null {
        return Ok(());
      }
      var closed := client.Close(answer);
      client := null;
      return if closed.Err? then Err(Server(closed.error)) else Ok(());
    }
  }

  /** The literals of a bound row, in column order; fails at the first column that cannot
      be converted. */
  function LiteralsOf(columns: seq<Option<Literal>>): Option<seq<Literal>> {
    if columns == [] then Some([])
    else
      match LiteralsOf(columns[..|columns| - 1])
      case None => None
      case Some(init) =>
        match columns[|columns| - 1]
        case None => None
        case Some(last) => Some(init + [last])
  }

  /** All of them if each column converts, none otherwise. */
  lemma {:induction false} LiteralsAre(columns: seq<Option<Literal>>)
    ensures LiteralsOf(columns) == None <==> None in columns
    ensures LiteralsOf(columns).Some? ==>
              && |LiteralsOf(columns).value| == |columns|
              && forall k :: 0 <= k < |columns| ==> columns[k] == Some(LiteralsOf(columns).value[k])
  {
    if columns != [] {
      LiteralsAre(columns[..|columns| - 1]);
    }
  }

  /** What an execution with these parameters sends, if they can be converted. */
  function Arguments(params: RecordBatch?): Option<seq<Literal>> {
    if params == null || params.rows == 0 then Some([]) else LiteralsOf(params.columns)
  }

  /** Main result on parameters: nothing is sent along without a bound row; a bound row is
      sent whole, entry k its column k, or it cannot be converted. */
  lemma ArgumentsAre(params: RecordBatch?)
    ensures params == null || params.rows == 0 ==> Arguments(params) == Some([])
    ensures params != null && params.rows > 0 ==>
              match Arguments(params)
              case None => None in params.columns
              case Some(args) => |args| == |params.columns|
                                 && forall k :: 0 <= k < |args| ==> params.columns[k] == Some(args[k])
  {
    if params != null {
      LiteralsAre(params.columns);
    }
  }

  class Statement {
    var cnxn: Connection?
    var query: string
    var params: RecordBatch?
    var prepared: bool

    constructor (cnxn: Connection)
      ensures this.cnxn == cnxn && query == "" && params == null && !prepared
    {
      this.cnxn, query, params, prepared := cnxn, "", null, false;
    }

    ghost function View(): StatementState
      reads this
    {
      StatementState(cnxn != null, query, params, prepared)
    }

    method PositionalLiterals() returns (r: Option<seq<Literal>>)
      ensures r == Arguments(params)
    {
      if params == null || params.rows == 0 {
        return Some([]);
      }
      var columns := params.columns;
      var literals := [];
      for col := 0 to |columns|
        invariant LiteralsOf(columns[..col]) == Some(literals)
      {
        assert columns[..col + 1][..col] == columns[..col];
        if columns[col] == None {
          LiteralsAre(columns);
          return None;
        }
        literals := literals + [columns[col].value];
      }
      assert columns[..|columns|] == columns;
      return Some(literals);
    }

    method SetSqlQuery(q: string)
      modifies this`query
      ensures query == q
    {
      query := q;
    }

    method Prepare() returns (r: Result<(), StatementError>)
      modifies this`prepared
      ensures if query == "" then r == Err(NoQuery) && prepared == old(prepared) else r == Ok(()) && prepared
    {
      if query == "" {
        return Err(NoQuery);
      }
      prepared := true;
      return Ok(());
    }

    /** A closed statement or connection, a missing query and a bad parameter are reported
        before anything is sent. */
    method ExecuteQuery(answer: Result<(), string>) returns (r: Result<(), StatementError>)
      modifies if cnxn == null || cnxn.client == null then {} else {cnxn.client}
      ensures cnxn == null || cnxn.client == null ==> r == Err(Closed)
      ensures cnxn != null && cnxn.client != null ==>
                var log := cnxn.client.executed;
                && cnxn.client.closed == old(cnxn.client.closed)
                && if query == "" then r == Err(NoQuery) && log == old(cnxn.client.executed)
                   else if Arguments(params) == None then r == Err(BadParameter) && log == old(cnxn.client.executed)
                   else && log == old(cnxn.client.executed) + [(query, Arguments(params).value)]
                        && r == match answer case Ok(_) => Ok(()) case Err(e) => Err(Server(e))
      ensures cnxn != null && cnxn.client != null && query != "" ==>
                var log, was := cnxn.client.executed, old(cnxn.client.executed);
                if params == null || params.rows == 0 then log == was + [(query, [])]
                else if None in params.columns then r == Err(BadParameter) && log == was
                else && |log| == |was| + 1 && was <= log && log[|was|].0 == query
                     && |log[|was|].1| == |params.columns|
                     && forall k :: 0 <= k < |params.columns| ==> params.columns[k] == Some(log[|was|].1[k])
    {
      ArgumentsAre(params);
      if cnxn == null || cnxn.client == null {
        return Err(Closed);
      }
      if query == "" {
        return Err(NoQuery);
      }
      var args := PositionalLiterals();
      if args == None {
        return Err(BadParameter);
      }
      var out := cnxn.client.ExecuteSQL(query, args.value, answer);
      match out
      case Ok(_) => return Ok(());
      case Err(e) => return Err(Server(e));
    }

    /** `stmts` and `recs` are all statements and records there are. The old record is
        released before the new one is retained: a record that is bound again and has no
        other holder is freed in between. */
    method Bind(values: RecordBatch?, ghost stmts: set<Statement>, ghost recs: set<RecordBatch>)
      returns (r: Result<(), StatementError>)
      requires Linked(stmts, recs) && this in stmts && (values != null ==> values in recs)
      modifies this`params, recs
      ensures Linked(stmts, recs)
      ensures forall b :: b in recs ==> b.external == old(b.external)
      ensures if values != null && values.rows > 1 then r == Err(NotImplemented) && params == old(params)
              else r == Ok(()) && params == values
      ensures forall b :: b in recs ==>
                && b.refs == old(b.refs) - (if r.Ok? && b == old(params) then 1 else 0)
                                         + (if r.Ok? && b == values then 1 else 0)
                && (b.freed <==> old(b.freed) || (r.Ok? && b == old(params) && old(b.refs) == 1))
    {
      if values != null && values.rows > 1 {
        return Err(NotImplemented);
      }
      Detach(stmts, recs);
      if values != null {
        values.Retain(this);
      }
      params := values;
      return Ok(());
    }

    /** Gives back the record, as Bind and Close do first. */
    method Detach(ghost stmts: set<Statement>, ghost recs: set<RecordBatch>)
      requires Linked(stmts, recs) && this in stmts
      modifies this`params, recs
      ensures Linked(stmts, recs) && params == null
      ensures forall b :: b in recs ==> b.external == old(b.external)
      ensures forall b :: b in recs ==>
                && b.refs == old(b.refs) - (if b == old(params) then 1 else 0)
                && (b.freed <==> old(b.freed) || (b == old(params) && old(b.refs) == 1))
    {
      if params != null {
        params.Release(this);
        params := null;
      }
    }

    method Close(ghost stmts: set<Statement>, ghost recs: set<RecordBatch>)
      requires Linked(stmts, recs) && this in stmts
      modifies this`params, this`cnxn, recs
      ensures Linked(stmts, recs) && params == null && cnxn == null
      ensures forall b :: b in recs ==> b.external == old(b.external)
      ensures forall b :: b in recs ==>
                && b.refs == old(b.refs) - (if b == old(params) then 1 else 0)
                && (b.freed <==> old(b.freed) || (b == old(params) && old(b.refs) == 1))
    {
      Detach(stmts, recs);
      cnxn := null;
    }
  }

  /** Every statement owns exactly one reference to its current record and none to any
      other. */
  ghost predicate Linked(stmts: set<Statement>, recs: set<RecordBatch>)
    reads stmts, recs
  {
    && (forall s :: s in stmts && s.params != null ==> s.params in recs)
    && (forall b :: b in recs ==> b.Counted() && b.holders <= stmts)
    && (forall b, s :: b in recs && s in stmts ==> (s in b.holders <==> s.params == b))
  }

  // ---------------------------------------------------------------- sessions

  datatype StatementState = StatementState(attached: bool, query: string, params: RecordBatch?, prepared: bool)

  /** A connection with its statements, the references a caller holds to each record, and
      the plans executed so far. */
  datatype Session = Session(open: bool, stmts: seq<StatementState>, held: seq<nat>,
                             log: seq<(string, seq<Literal>)>)

  datatype Op =
    | New
    | SetQuery(stmt: nat, query: string)
    | PrepareStatement(stmt: nat)
    | BindParams(stmt: nat, rec: Option<nat>)
    | Execute(stmt: nat, answer: Result<(), string>)
    | CloseStatement(stmt: nat)
    | CloseConnection(answer: Result<(), string>)
    | DropRecord(dropped: nat)

  /** A caller binds and drops only records of which it holds a reference. */
  function AfterOp(s: Session, records: seq<RecordBatch>, op: Op): Session {
    match op
    case New =>
      if s.open then s.(stmts := s.stmts + [StatementState(true, "", null, false)]) else s
    case SetQuery(i, q) =>
      if i < |s.stmts| then s.(stmts := s.stmts[i := s.stmts[i].(query := q)]) else s
    case PrepareStatement(i) =>
      if i < |s.stmts| && s.stmts[i].query != "" then s.(stmts := s.stmts[i := s.stmts[i].(prepared := true)]) else s
    case BindParams(i, None) =>
      if i < |s.stmts| then s.(stmts := s.stmts[i := s.stmts[i].(params := null)]) else s
    case BindParams(i, Some(r)) =>
      if i < |s.stmts| && r < |records| && r < |s.held| && s.held[r] > 0 && records[r].rows <= 1
      then s.(stmts := s.stmts[i := s.stmts[i].(params := records[r])]) else s
    case Execute(i, _) =>
      if i < |s.stmts| && s.open && s.stmts[i].attached && s.stmts[i].query != "" && Arguments(s.stmts[i].params).Some?
      then s.(log := s.log + [(s.stmts[i].query, Arguments(s.stmts[i].params).value)]) else s
    case CloseStatement(i) =>
      if i < |s.stmts| then s.(stmts := s.stmts[i := s.stmts[i].(attached := false, params := null)]) else s
    case CloseConnection(_) =>
      s.(open := false)
    case DropRecord(r) =>
      if r < |s.held| && s.held[r] > 0 then s.(held := s.held[r := s.held[r] - 1]) else s
  }

  function After(s: Session, records: seq<RecordBatch>, ops: seq<Op>): Session {
    if ops == [] then s else AfterOp(After(s, records, ops[..|ops| - 1]), records, ops[|ops| - 1])
  }

  lemma {:induction false} AfterAppend(s: Session, records: seq<RecordBatch>, a: seq<Op>, b: seq<Op>)
    ensures After(s, records, a + b) == After(After(s, records, a), records, b)
  {
    if b == [] {
      assert a + b == a;
    } else {
      assert (a + b)[..|a + b| - 1] == a + b[..|b| - 1];
      AfterAppend(s, records, a, b[..|b| - 1]);
    }
  }

  lemma {:induction false} ClosedStaysSilent(s: Session, records: seq<RecordBatch>, ops: seq<Op>)
    requires !s.open
    ensures !After(s, records, ops).open && After(s, records, ops).log == s.log
  {
    if ops != [] {
      ClosedStaysSilent(s, records, ops[..|ops| - 1]);
    }
  }

  /** Main result: whatever statements were made and prepared before, what is executed
      after the connection is closed is nothing. */
  lemma NothingAfterClose(s: Session, records: seq<RecordBatch>, before: seq<Op>, answer: Result<(), string>,
                          after: seq<Op>)
    ensures After(s, records, before + [CloseConnection(answer)] + after).log == After(s, records, before).log
  {
    var atClose := before + [CloseConnection(answer)];
    assert atClose[..|before|] == before;
    AfterAppend(s, records, atClose, after);
    ClosedStaysSilent(After(s, records, atClose), records, after);
  }

  /** Operations that leave the query and the record of statement i, and the connection. */
  predicate Spares(op: Op, i: nat) {
    match op
    case SetQuery(j, _) => j != i
    case BindParams(j, _) => j != i
    case CloseStatement(j) => j != i
    case CloseConnection(_) => false
    case _ => true
  }

  lemma {:induction false} StaysBound(s: Session, records: seq<RecordBatch>, ops: seq<Op>, i: nat)
    requires s.open && i < |s.stmts| && forall k :: 0 <= k < |ops| ==> Spares(ops[k], i)
    ensures var t := After(s, records, ops);
            t.open && i < |t.stmts| && t.stmts[i] == s.stmts[i].(prepared := t.stmts[i].prepared)
  {
    if ops != [] {
      StaysBound(s, records, ops[..|ops| - 1], i);
    }
  }

  /** Main result on binding: what an open statement executes after it bound a record,
      whatever else went on in between, is its query with the literals of the bound row,
      column by column; a record that cannot be converted sends nothing, one without rows,
      or none, no literals. */
  lemma BoundRowIsSent(s: Session, records: seq<RecordBatch>, i: nat, rec: Option<nat>, between: seq<Op>,
                       answer: Result<(), string>)
    requires s.open && i < |s.stmts| && s.stmts[i].attached && s.stmts[i].query != ""
    requires rec.Some? ==> rec.value < |records| == |s.held| && s.held[rec.value] > 0 && records[rec.value].rows <= 1
    requires forall k :: 0 <= k < |between| ==> Spares(between[k], i)
    ensures var was := After(s, records, [BindParams(i, rec)] + between).log;
            var log := After(s, records, [BindParams(i, rec)] + between + [Execute(i, answer)]).log;
            if rec == None || records[rec.value].rows == 0 then log == was + [(s.stmts[i].query, [])]
            else if None in records[rec.value].columns then log == was
            else var columns := records[rec.value].columns;
                 && |log| == |was| + 1 && was <= log && log[|was|].0 == s.stmts[i].query
                 && |log[|was|].1| == |columns|
                 && forall k :: 0 <= k < |columns| ==> columns[k] == Some(log[|was|].1[k])
  {
    var bind, execute := BindParams(i, rec), Execute(i, answer);
    var t := AfterOp(s, records, bind);
    assert [bind][..0] == [];
    assert After(s, records, [bind]) == t;
    AfterAppend(s, records, [bind], between);
    StaysBound(t, records, between, i);
    assert ([bind] + between + [execute])[..|between| + 1] == [bind] + between;
    ArgumentsAre(if rec == None then null else records[rec.value]);
  }

  /** A new statement on an open connection runs the query it was given. */
  lemma NewStatementRuns(s: Session, records: seq<RecordBatch>, query: string, answer: Result<(), string>)
    requires s.open && query != ""
    ensures var i := |s.stmts|;
            After(s, records, [New, SetQuery(i, query), Execute(i, answer)]).log == s.log + [(query, [])]
  {
    var i := |s.stmts|;
    var ops := [New, SetQuery(i, query), Execute(i, answer)];
    assert ops[..2] == [New, SetQuery(i, query)] && ops[..2][..1] == [New] && [New][..0] == [];
    assert After(s, records, []) == s;
    assert After(s, records, [New]) == AfterOp(s, records, New);
    assert After(s, records, ops[..2]) == AfterOp(AfterOp(s, records, New), records, SetQuery(i, query));
  }

  lemma {:induction false} StaysDetached(s: Session, records: seq<RecordBatch>, ops: seq<Op>, i: nat)
    requires i < |s.stmts| && !s.stmts[i].attached
    ensures i < |After(s, records, ops).stmts| && !After(s, records, ops).stmts[i].attached
  {
    if ops != [] {
      StaysDetached(s, records, ops[..|ops| - 1], i);
    }
  }

  /** Whatever happens after a statement is closed, it holds no record at first and never
      executes anything again. */
  lemma ClosedStatementIsSilent(s: Session, records: seq<RecordBatch>, i: nat, between: seq<Op>,
                                answer: Result<(), string>)
    requires i < |s.stmts|
    ensures var closed := After(s, records, [CloseStatement(i)]).stmts;
            i < |closed| && closed[i].params == null
    ensures After(s, records, [CloseStatement(i)] + between + [Execute(i, answer)]).log
            == After(s, records, [CloseStatement(i)] + between).log
  {
    var close, execute := [CloseStatement(i)], Execute(i, answer);
    assert close[..0] == [];
    assert After(s, records, close) == AfterOp(s, records, CloseStatement(i));
    AfterAppend(s, records, close, between);
    StaysDetached(After(s, records, close), records, between, i);
    assert (close + between + [execute])[..|between| + 1] == close + between;
  }

  function Drops(ops: seq<Op>, k: nat): nat {
    if ops == [] then 0
    else Drops(ops[..|ops| - 1], k) + (if ops[|ops| - 1] == DropRecord(k) then 1 else 0)
  }

  /** A caller's references are used up by giving them back and by nothing else. */
  lemma {:induction false} DropsAreCounted(s: Session, records: seq<RecordBatch>, ops: seq<Op>, k: nat)
    requires k < |s.held|
    ensures var held := After(s, records, ops).held;
            |held| == |s.held| && held[k] == if Drops(ops, k) < s.held[k] then s.held[k] - Drops(ops, k) else 0
  {
    if ops != [] {
      DropsAreCounted(s, records, ops[..|ops| - 1], k);
      OneDrop(After(s, records, ops[..|ops| - 1]), records, ops[|ops| - 1], k);
    }
  }

  lemma OneDrop(s: Session, records: seq<RecordBatch>, op: Op, k: nat)
    requires k < |s.held|
    ensures var held := AfterOp(s, records, op).held;
            |held| == |s.held| && held[k] == if op == DropRecord(k) && s.held[k] > 0 then s.held[k] - 1 else s.held[k]
  {
  }

  ghost function AsSet<T>(xs: seq<T>): set<T> {
    set x | x in xs
  }

  ghost predicate AllDistinct<T>(xs: seq<T>) {
    forall i, j :: 0 <= i < j < |xs| ==> xs[i] != xs[j]
  }

  /** The objects are in the state that the session describes. */
  ghost predicate Shows(s: Session, conn: Connection, client: Client, stmts: seq<Statement>, records: seq<RecordBatch>)
    reads conn, client, stmts, records
  {
    && s.open == (conn.client != null) && (conn.client != null ==> conn.client == client)
    && s.log == client.executed
    && |s.stmts| == |stmts| && AllDistinct(stmts)
    && (forall i :: 0 <= i < |stmts| ==> s.stmts[i] == stmts[i].View())
    && (forall i :: 0 <= i < |stmts| ==> stmts[i].cnxn == null || stmts[i].cnxn == conn)
    && |s.held| == |records| && AllDistinct(records)
    && (forall i :: 0 <= i < |records| ==> s.held[i] == records[i].external)
  }

  /** Every reference is counted, and exactly the records without one are freed: see
      `FreedWhenUnheld`. */
  ghost predicate Sound(stmts: seq<Statement>, records: seq<RecordBatch>)
    reads stmts, records
  {
    && Linked(AsSet(stmts), AsSet(records))
    && forall b :: b in records ==> (b.freed <==> b.refs == 0)
  }

  /** Main result on memory: a record is freed exactly when no caller and no statement
      holds it. */
  lemma FreedWhenUnheld(stmts: seq<Statement>, records: seq<RecordBatch>, b: RecordBatch)
    requires Sound(stmts, records) && b in records
    ensures b.freed <==> b.external == 0 && forall s :: s in stmts ==> s.params != b
    ensures b.refs == b.external <==> forall s :: s in stmts ==> s.params != b
  {
    if s :| s in stmts && s.params == b {
      assert s in b.holders;
    } else {
      assert b.holders == {};
    }
  }

  /** Binding keeps the memory sound exactly when it is refused or its record is alive and
      is not the last reference of this very statement: then it is freed and kept. */
  method BindExactly(ghost stmts: seq<Statement>, ghost records: seq<RecordBatch>, s: Statement, values: RecordBatch?)
    requires Sound(stmts, records) && s in stmts && (values != null ==> values in records)
    modifies s`params, records
    ensures Linked(AsSet(stmts), AsSet(records)) && forall b :: b in records ==> b.external == old(b.external)
    ensures s.params == if values != null && values.rows > 1 then old(s.params) else values
    ensures Sound(stmts, records)
            <==> values == null || values.rows > 1
                 || (!old(values.freed) && !(values == old(s.params) && old(values.refs) == 1))
  {
    if s.params != null {
      FreedWhenUnheld(stmts, records, s.params);
    }
    var _ := s.Bind(values, AsSet(stmts), AsSet(records));
  }

  /** Statement i binds nothing or a record of which the caller holds a reference. */
  method BindAt(conn: Connection, client: Client, stmts: seq<Statement>, records: seq<RecordBatch>,
                i: nat, values: RecordBatch?, ghost st: Session)
    requires Shows(st, conn, client, stmts, records) && Sound(stmts, records) && i < |stmts|
    requires values != null ==> values in records && values.external > 0
    modifies stmts, records
    ensures var refused := values != null && values.rows > 1;
            var bound := st.stmts[i].(params := if refused then st.stmts[i].params else values);
            Shows(st.(stmts := st.stmts[i := bound]), conn, client, stmts, records)
    ensures Sound(stmts, records)
  {
    if values != null {
      FreedWhenUnheld(stmts, records, values);
    }
    BindExactly(stmts, records, stmts[i], values);
  }

  method CloseAt(conn: Connection, client: Client, stmts: seq<Statement>, records: seq<RecordBatch>,
                 i: nat, ghost st: Session)
    requires Shows(st, conn, client, stmts, records) && Sound(stmts, records) && i < |stmts|
    modifies stmts, records
    ensures Shows(AfterOp(st, records, CloseStatement(i)), conn, client, stmts, records) && Sound(stmts, records)
  {
    stmts[i].Close(AsSet(stmts), AsSet(records));
  }

  method DropAt(conn: Connection, client: Client, stmts: seq<Statement>, records: seq<RecordBatch>,
                k: nat, ghost st: Session)
    requires Shows(st, conn, client, stmts, records) && Sound(stmts, records)
    requires k < |records| && st.held[k] > 0
    modifies records
    ensures Shows(AfterOp(st, records, DropRecord(k)), conn, client, stmts, records) && Sound(stmts, records)
  {
    records[k].Drop();
  }

  method NewAt(conn: Connection, client: Client, stmts: seq<Statement>, records: seq<RecordBatch>, ghost st: Session)
    returns (all: seq<Statement>)
    requires Shows(st, conn, client, stmts, records) && Sound(stmts, records)
    ensures Shows(AfterOp(st, records, New), conn, client, all, records) && Sound(all, records)
    ensures stmts <= all && forall k :: |stmts| <= k < |all| ==> fresh(all[k])
  {
    all := stmts;
    var s := conn.NewStatement();
    if s != null {
      all := stmts + [s];
    }
  }

  method SetQueryAt(conn: Connection, client: Client, stmts: seq<Statement>, records: seq<RecordBatch>,
                    i: nat, query: string, ghost st: Session)
    requires Shows(st, conn, client, stmts, records) && Sound(stmts, records) && i < |stmts|
    modifies stmts
    ensures Shows(AfterOp(st, records, SetQuery(i, query)), conn, client, stmts, records) && Sound(stmts, records)
  {
    stmts[i].SetSqlQuery(query);
  }

  method PrepareAt(conn: Connection, client: Client, stmts: seq<Statement>, records: seq<RecordBatch>,
                   i: nat, ghost st: Session)
    requires Shows(st, conn, client, stmts, records) && Sound(stmts, records) && i < |stmts|
    modifies stmts
    ensures Shows(AfterOp(st, records, PrepareStatement(i)), conn, client, stmts, records) && Sound(stmts, records)
  {
    var _ := stmts[i].Prepare();
  }

  method ExecuteAt(conn: Connection, client: Client, stmts: seq<Statement>, records: seq<RecordBatch>,
                   i: nat, answer: Result<(), string>, ghost st: Session)
    requires Shows(st, conn, client, stmts, records) && Sound(stmts, records) && i < |stmts|
    modifies client
    ensures Shows(AfterOp(st, records, Execute(i, answer)), conn, client, stmts, records) && Sound(stmts, records)
  {
    var _ := stmts[i].ExecuteQuery(answer);
  }

  /** One operation of a caller that holds `mine[k]` references to record k. */
  method Perform(conn: Connection, client: Client, stmts: seq<Statement>, records: seq<RecordBatch>,
                 mine: seq<nat>, op: Op, ghost st: Session)
    returns (all: seq<Statement>, left: seq<nat>)
    requires Shows(st, conn, client, stmts, records) && Sound(stmts, records) && mine == st.held
    modifies conn, client, stmts, records
    ensures Shows(AfterOp(st, records, op), conn, client, all, records) && Sound(all, records)
    ensures left == AfterOp(st, records, op).held
    ensures stmts <= all && forall k :: |stmts| <= k < |all| ==> fresh(all[k])
  {
    all, left := stmts, mine;
    if op.New? {
      all := NewAt(conn, client, stmts, records, st);
    } else if op.CloseConnection? {
      var _ := conn.Close(op.answer);
    } else if op.DropRecord? {
      if op.dropped < |mine| && mine[op.dropped] > 0 {
        DropAt(conn, client, stmts, records, op.dropped, st);
        left := mine[op.dropped := mine[op.dropped] - 1];
      }
    } else if op.stmt < |stmts| {
      if op.SetQuery? {
        SetQueryAt(conn, client, stmts, records, op.stmt, op.query, st);
      } else if op.PrepareStatement? {
        PrepareAt(conn, client, stmts, records, op.stmt, st);
      } else if op.Execute? {
        ExecuteAt(conn, client, stmts, records, op.stmt, op.answer, st);
      } else if op.CloseStatement? {
        CloseAt(conn, client, stmts, records, op.stmt, st);
      } else if op.rec == None {
        BindAt(conn, client, stmts, records, op.stmt, null, st);
      } else if op.rec.value < |mine| && mine[op.rec.value] > 0 {
        BindAt(conn, client, stmts, records, op.stmt, records[op.rec.value], st);
      }
    }
  }

  /** Main result: any run, from any sound state, does what the session model says and
      keeps every reference counted. */
  method Run(conn: Connection, client: Client, before: seq<Statement>, records: seq<RecordBatch>,
             mine: seq<nat>, ops: seq<Op>, ghost st: Session)
    returns (stmts: seq<Statement>, left: seq<nat>)
    requires Shows(st, conn, client, before, records) && Sound(before, records) && mine == st.held
    modifies conn, client, before, records
    ensures Shows(After(st, records, ops), conn, client, stmts, records) && Sound(stmts, records)
    ensures left == After(st, records, ops).held
    ensures before <= stmts
    ensures old(conn.client) == null ==> client.executed == old(client.executed)
  {
    stmts, left := before, mine;
    for i := 0 to |ops|
      invariant before <= stmts && forall k :: |before| <= k < |stmts| ==> fresh(stmts[k])
      invariant Shows(After(st, records, ops[..i]), conn, client, stmts, records) && Sound(stmts, records)
      invariant left == After(st, records, ops[..i]).held
    {
      assert ops[..i + 1][..i] == ops[..i];
      stmts, left := Perform(conn, client, stmts, records, left, ops[i], After(st, records, ops[..i]));
    }
    assert ops[..|ops|] == ops;
    if !st.open {
      ClosedStaysSilent(st, records, ops);
    }
  }
}
