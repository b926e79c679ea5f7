/** The exported entry points that make, use and release handles. Each struct argument comes
    with whether it is not nil; what the driver behind the C layer answers is a parameter. */
module CApi {
  import opened Wrappers
  import opened Handles

  datatype Code = OK | INVALID_STATE | NOT_IMPLEMENTED | INTERNAL | Other(status: nat)

  /** How a call into the driver behind the C layer comes out. */
  datatype Outcome = Done | Failed(status: nat) | Panics

  /** Whether a call gets as far as the driver: the interface it needs may be missing, its
      arguments may not import, or reading them may panic. */
  datatype Before = Ready | Unsupported | Rejected(status: nat) | Breaks {
    function Answer(): Code {
      match this
      case Ready => OK
      case Unsupported => NOT_IMPLEMENTED
      case Rejected(e) => Other(e)
      case Breaks => INTERNAL
    }
  }

  /** Exactly one struct has changed, to `now`; its old context is cancelled unless it
      still has it, and no other context is touched. */
  ghost predicate Becomes(m: ValidMemory, m': ValidMemory, slot: Slot, now: Option<Obj>) {
    && (forall s :: m'.At(s) == if s == slot then now else m.At(s))
    && m'.live == m.live - ContextsOf(m.At(slot)) + ContextsOf(now)
    && m'.leaked == m.leaked
  }

  /** The parts of `Becomes` put together. */
  lemma Becoming(m: ValidMemory, m': ValidMemory, slot: Slot, now: Option<Obj>)
    requires m'.At(slot) == now && forall s :: s != slot ==> m'.At(s) == m.At(s)
    requires m'.live == m.live - ContextsOf(m.At(slot)) + ContextsOf(now) && m'.leaked == m.leaked
    ensures Becomes(m, m', slot, now)
  {
  }

  lemma CreateBecomes(m: ValidMemory, slot: Slot, o: Obj, addr: Addr)
    requires addr !in m.cells && slot !in m.slots && Fits(slot, o) && !slot.Stream? && o.Context() == None
    ensures m.Create(slot, o, addr).Valid() && Becomes(m, m.Create(slot, o, addr), slot, Some(o))
  {
    CreateKeeps(m, slot, o, addr);
    assert m.live - {} + {} == m.live;
    Becoming(m, m.Create(slot, o, addr), slot, Some(o));
  }

  lemma UpdateBecomes(m: ValidMemory, slot: Slot, o: Obj)
    requires slot in m.slots && Fits(slot, o) && !slot.Stream? && o.Context() == m.At(slot).value.Context()
    ensures m.Update(slot, o).Valid() && Becomes(m, m.Update(slot, o), slot, Some(o))
  {
    UpdateKeeps(m, slot, o);
    ContextIsLive(m, slot);
  }

  lemma ContextIsLive(m: ValidMemory, slot: Slot)
    requires slot in m.slots
    ensures ContextsOf(m.At(slot)) <= m.live
  {
  }

  lemma DeleteBecomes(m: ValidMemory, slot: Slot)
    requires slot in m.slots && m.At(slot).value.Context() == None
    ensures m.Delete(slot).Valid() && Becomes(m, m.Delete(slot), slot, None)
  {
    DeleteKeeps(m, slot);
  }

  lemma CancelBecomes(m: ValidMemory, slot: Slot)
    requires slot in m.slots
    ensures m.CancelContext(slot).Valid()
    ensures Becomes(m, m.CancelContext(slot), slot, Some(m.At(slot).value.WithContext(None)))
  {
    CancelKeeps(m, slot);
    CancelLives(m, slot);
    Becoming(m, m.CancelContext(slot), slot, Some(m.At(slot).value.WithContext(None)));
  }

  lemma NewContextBecomes(m: ValidMemory, slot: Slot)
    requires slot in m.slots && (slot.Conn? || slot.Stmt?)
    ensures m.NewContext(slot).Valid()
    ensures Becomes(m, m.NewContext(slot), slot, Some(m.At(slot).value.WithContext(Some(m.nextContext))))
    ensures m.nextContext !in m.live && m.nextContext !in m.maker && m.nextContext < m.NewContext(slot).nextContext
  {
    NewContextKeeps(m, slot);
    NewContextLives(m, slot);
    Becoming(m, m.NewContext(slot), slot, Some(m.At(slot).value.WithContext(Some(m.nextContext))));
  }

  /** `o'` is `o` with the context `c` and nothing else changed. */
  ghost predicate OnlyContext(o: Obj, o': Obj, c: Option<ContextId>) {
    match o
    case ConnObj(open, _, initArgs) => o'.ConnObj? && o'.open == open && o'.initArgs == initArgs && o'.ctx == c
    case StmtObj(open, _) => o'.StmtObj? && o'.open == open && o'.ctx == c
    case _ => false
  }

  lemma KeepsAllElse(m: ValidMemory, m': ValidMemory, slot: Slot, c: Option<ContextId>)
    requires slot in m.slots && (slot.Conn? || slot.Stmt?)
    requires m'.At(slot) == Some(m.At(slot).value.WithContext(c))
    ensures slot in m'.slots && OnlyContext(m.At(slot).value, m'.At(slot).value, c)
  {
    assert Fits(slot, m.At(slot).value);
  }

  class Driver {
    var poisoned: bool
    var mem: ValidMemory

    constructor ()
      ensures !poisoned && mem == EMPTY_MEMORY
    {
      poisoned, mem := false, EMPTY_MEMORY;
    }

    function Open(o: Obj): bool {
      !o.StreamObj? && o.open
    }

    /** checkDBAlloc, checkConnAlloc, checkStmtAlloc. */
    predicate Allocated(slot: Slot, nonNil: bool)
      reads this
    {
      !poisoned && nonNil && slot in mem.slots
    }

    /** checkDBInit, checkConnInit, checkStmtInit. */
    predicate Initialized(slot: Slot, nonNil: bool)
      reads this
    {
      Allocated(slot, nonNil) && Open(mem.At(slot).value)
    }

    method Poison() returns (code: Code)
      modifies this`poisoned
      ensures poisoned && code == INTERNAL
    {
      poisoned := true;
      return INTERNAL;
    }

    // -------------------------------------------------------------- primitives

    method Create(slot: Slot, o: Obj, addr: Addr)
      requires addr !in mem.cells && slot !in mem.slots && Fits(slot, o) && !slot.Stream? && o.Context() == None
      modifies this`mem
      ensures Becomes(old(mem), mem, slot, Some(o))
    {
      CreateBecomes(mem, slot, o, addr);
      mem := mem.Create(slot, o, addr);
    }

    method Update(slot: Slot, o: Obj)
      requires slot in mem.slots && Fits(slot, o) && !slot.Stream? && o.Context() == mem.At(slot).value.Context()
      modifies this`mem
      ensures Becomes(old(mem), mem, slot, Some(o))
    {
      UpdateBecomes(mem, slot, o);
      mem := mem.Update(slot, o);
    }

    method Delete(slot: Slot)
      requires slot in mem.slots && mem.At(slot).value.Context() == None
      modifies this`mem
      ensures Becomes(old(mem), mem, slot, None)
    {
      DeleteBecomes(mem, slot);
      mem := mem.Delete(slot);
    }

    method CancelContext(slot: Slot)
      requires slot in mem.slots
      modifies this`mem
      ensures Becomes(old(mem), mem, slot, Some(old(mem).At(slot).value.WithContext(None)))
    {
      CancelBecomes(mem, slot);
      mem := mem.CancelContext(slot);
    }

    /** newContext: the old context is cancelled, the new one was never used before. */
    method NewContext(slot: Slot) returns (c: ContextId)
      requires slot in mem.slots && (slot.Conn? || slot.Stmt?)
      modifies this`mem
      ensures Becomes(old(mem), mem, slot, Some(old(mem).At(slot).value.WithContext(Some(c))))
      ensures c !in old(mem).live && c !in old(mem).maker && c < mem.nextContext
      ensures mem.maker == old(mem).maker && mem.cells == old(mem).cells && mem.slots == old(mem).slots
    {
      c := mem.nextContext;
      NewContextBecomes(mem, slot);
      mem := mem.NewContext(slot);
    }

    /** exportRecordReader: a stream that the struct still held is lost. */
    method Export(slot: Slot, parent: ContextId, addr: Addr)
      requires addr !in mem.cells && slot.Stream? && parent < mem.nextContext && parent !in mem.maker
      modifies this`mem
      ensures forall s :: mem.At(s) == if s == slot then Some(StreamObj(parent)) else old(mem).At(s)
      ensures mem.live == old(mem).live
      ensures mem.leaked == old(mem).leaked + (if slot in old(mem).slots then {old(mem).slots[slot]} else {})
    {
      if slot in mem.slots {
        OverwriteKeeps(mem, slot);
        mem := mem.Overwrite(slot);
      }
      CreateKeeps(mem, slot, StreamObj(parent), addr);
      mem := mem.Create(slot, StreamObj(parent), addr);
    }

    // -------------------------------------------------------------- New

    /** DatabaseNew and ConnectionNew. A nil struct is a Go panic. */
    method New(slot: Slot, nonNil: bool, addr: Addr) returns (code: Code)
      requires (slot.Db? || slot.Conn?) && addr !in mem.cells
      modifies this
      ensures old(poisoned) ==> code == INTERNAL && unchanged(this)
      ensures !old(poisoned) && !nonNil ==> code == INTERNAL && poisoned && unchanged(`mem)
      ensures !old(poisoned) && nonNil && slot in old(mem).slots ==> code == INVALID_STATE && unchanged(this)
      ensures !old(poisoned) && nonNil && slot !in old(mem).slots ==>
                && code == OK && !poisoned
                && Becomes(old(mem), mem, slot, Some(if slot.Db? then DbObj(false) else ConnObj(false, None, false)))
                && Allocated(slot, nonNil) && !Initialized(slot, nonNil)
    {
      if poisoned {
        return INTERNAL;
      }
      if !nonNil {
        code := Poison();
        return;
      }
      if slot in mem.slots {
        return INVALID_STATE;
      }
      Create(slot, if slot.Db? then DbObj(false) else ConnObj(false, None, false), addr);
      return OK;
    }

    /** StatementNew: `conn` has to be an initialized connection. */
    method StatementNew(conn: Slot, connNonNil: bool, slot: Slot, nonNil: bool, out: Outcome, addr: Addr)
      returns (code: Code)
      requires conn.Conn? && slot.Stmt? && addr !in mem.cells
      modifies this
      ensures old(poisoned) ==> code == INTERNAL && unchanged(this)
      ensures !old(poisoned)
              && (!nonNil || (slot !in old(mem).slots && old(Initialized(conn, connNonNil)) && out.Panics?))
              ==> code == INTERNAL && poisoned && unchanged(`mem)
      ensures !old(poisoned) && nonNil && (slot in old(mem).slots || !old(Initialized(conn, connNonNil)))
              ==> code == INVALID_STATE && unchanged(this)
      ensures !old(poisoned) && nonNil && slot !in old(mem).slots && old(Initialized(conn, connNonNil)) && !out.Panics?
              ==> if out.Failed? then code == Other(out.status) && unchanged(this)
                  else && code == OK && !poisoned && Becomes(old(mem), mem, slot, Some(StmtObj(true, None)))
                       && Initialized(slot, nonNil)
    {
      if poisoned {
        return INTERNAL;
      }
      if !nonNil {
        code := Poison();
        return;
      }
      if slot in mem.slots || !Initialized(conn, connNonNil) {
        return INVALID_STATE;
      }
      if out.Panics? {
        code := Poison();
        return;
      }
      if out.Failed? {
        return Other(out.status);
      }
      Create(slot, StmtObj(true, None), addr);
      return OK;
    }

    // -------------------------------------------------------------- Init

    method DatabaseInit(slot: Slot, nonNil: bool, out: Outcome) returns (code: Code)
      requires slot.Db?
      modifies this
      ensures !old(Allocated(slot, nonNil)) || old(Initialized(slot, nonNil))
              ==> code == INVALID_STATE && unchanged(this)
      ensures old(Allocated(slot, nonNil)) && !old(Initialized(slot, nonNil)) ==>
                match out
                case Done => code == OK && !poisoned && Becomes(old(mem), mem, slot, Some(DbObj(true)))
                             && Initialized(slot, nonNil)
                case Failed(e) => code == Other(e) && unchanged(this)
                case Panics => code == INTERNAL && poisoned && unchanged(`mem)
    {
      if !Allocated(slot, nonNil) || Initialized(slot, nonNil) {
        return INVALID_STATE;
      }
      match out
      case Panics =>
        code := Poison();
      case Failed(e) =>
        code := Other(e);
      case Done =>
        Update(slot, DbObj(true));
        code := OK;
    }

    /** ConnectionSetOption: before Init the option is kept for later. */
    method ConnectionSetOption(slot: Slot, nonNil: bool) returns (code: Code)
      requires slot.Conn?
      modifies this
      ensures !old(Allocated(slot, nonNil)) ==> code == INVALID_STATE && unchanged(this)
      ensures old(Initialized(slot, nonNil)) ==> code == NOT_IMPLEMENTED && unchanged(this)
      ensures old(Allocated(slot, nonNil)) && !old(Initialized(slot, nonNil)) ==>
                code == OK && !poisoned
                && Becomes(old(mem), mem, slot, Some(old(mem).At(slot).value.(initArgs := true)))
    {
      if !Allocated(slot, nonNil) {
        return INVALID_STATE;
      }
      if Initialized(slot, nonNil) {
        return NOT_IMPLEMENTED;
      }
      Update(slot, mem.At(slot).value.(initArgs := true));
      return OK;
    }

    /** ConnectionInit. With options kept from before, the call reports NOT_IMPLEMENTED,
        since connections of this driver take none, and yet the connection is open. */
    method ConnectionInit(slot: Slot, nonNil: bool, db: Slot, dbNonNil: bool, out: Outcome) returns (code: Code)
      requires slot.Conn? && db.Db?
      modifies this
      ensures !old(Allocated(slot, nonNil)) || old(Initialized(slot, nonNil)) || !old(Initialized(db, dbNonNil))
              ==> code == INVALID_STATE && unchanged(this)
      ensures old(Allocated(slot, nonNil)) && !old(Initialized(slot, nonNil)) && old(Initialized(db, dbNonNil)) ==>
                var o := old(mem).At(slot).value;
                match out
                case Done => code == (if o.initArgs then NOT_IMPLEMENTED else OK) && !poisoned
                             && Becomes(old(mem), mem, slot, Some(ConnObj(true, o.ctx, o.initArgs)))
                             && Initialized(slot, nonNil)
                case Failed(e) => code == Other(e) && unchanged(this)
                case Panics => code == INTERNAL && poisoned && unchanged(`mem)
    {
      if !Allocated(slot, nonNil) || Initialized(slot, nonNil) || !Initialized(db, dbNonNil) {
        return INVALID_STATE;
      }
      match out
      case Panics =>
        code := Poison();
      case Failed(e) =>
        code := Other(e);
      case Done =>
        var o := mem.At(slot).value;
        Update(slot, ConnObj(true, o.ctx, o.initArgs));
        code := if o.initArgs then NOT_IMPLEMENTED else OK;
    }

    // -------------------------------------------------------------- Release

    /** DatabaseRelease: a panic while closing leaves everything in place. */
    method DatabaseRelease(slot: Slot, nonNil: bool, close: Outcome) returns (code: Code)
      requires slot.Db?
      modifies this
      ensures !old(Allocated(slot, nonNil)) ==> code == INVALID_STATE && unchanged(this)
      ensures old(Allocated(slot, nonNil)) ==>
                if old(Initialized(slot, nonNil)) && close.Panics? then code == INTERNAL && poisoned && unchanged(`mem)
                else code == OK && !poisoned && Becomes(old(mem), mem, slot, None) && slot !in mem.slots
    {
      if !Allocated(slot, nonNil) {
        return INVALID_STATE;
      }
      if Initialized(slot, nonNil) && close.Panics? {
        code := Poison();
        return;
      }
      Delete(slot);
      return OK;
    }

    /** ConnectionRelease and StatementRelease: the cell is freed, the handle deleted and
        the context cancelled however closing comes out. */
    method Release(slot: Slot, nonNil: bool, close: Outcome) returns (code: Code)
      requires slot.Conn? || slot.Stmt?
      modifies this
      ensures !old(Allocated(slot, nonNil))
              ==> code == (if slot.Stmt? && poisoned then INTERNAL else INVALID_STATE) && unchanged(this)
      ensures old(Allocated(slot, nonNil)) ==>
                && Becomes(old(mem), mem, slot, None) && slot !in mem.slots
                && var closes := old(Initialized(slot, nonNil));
                && poisoned == (closes && close.Panics?)
                && code == if !closes || close.Done? then OK
                           else if close.Failed? then Other(close.status) else INTERNAL
    {
      if !Allocated(slot, nonNil) {
        return if slot.Stmt? && poisoned then INTERNAL else INVALID_STATE;
      }
      var closes := Initialized(slot, nonNil);
      CancelContext(slot);
      Delete(slot);
      if !closes || close.Done? {
        return OK;
      }
      if close.Failed? {
        return Other(close.status);
      }
      code := Poison();
    }

    // -------------------------------------------------------------- contexts and streams

    /** ConnectionCancel and StatementCancel leave the handle without a live context. */
    method Cancel(slot: Slot, nonNil: bool) returns (code: Code)
      requires slot.Conn? || slot.Stmt?
      modifies this
      ensures !old(Initialized(slot, nonNil)) ==> code == INVALID_STATE && unchanged(this)
      ensures old(Initialized(slot, nonNil)) ==>
                code == OK && !poisoned
                && Becomes(old(mem), mem, slot, Some(old(mem).At(slot).value.WithContext(None)))
      ensures old(Initialized(slot, nonNil)) ==>
                Initialized(slot, nonNil) && OnlyContext(old(mem).At(slot).value, mem.At(slot).value, None)
    {
      if !Initialized(slot, nonNil) {
        return INVALID_STATE;
      }
      CancelContext(slot);
      KeepsAllElse(old(mem), mem, slot, None);
      return OK;
    }

    /** The operations that take a context and export no stream: Prepare, Bind, BindStream,
        ExecuteSchema, ExecutePartitions, GetTableSchema, Commit and Rollback. What stops one before it takes
        a context leaves the old context alive. */
    method Operate(slot: Slot, nonNil: bool, before: Before, out: Outcome) returns (code: Code, ghost c: ContextId)
      requires slot.Conn? || slot.Stmt?
      modifies this
      ensures !old(Initialized(slot, nonNil)) ==> code == INVALID_STATE && unchanged(this)
      ensures old(Initialized(slot, nonNil)) && !before.Ready? ==>
                code == before.Answer() && code != OK && unchanged(`mem) && poisoned == before.Breaks?
      ensures old(Initialized(slot, nonNil)) && before.Ready? ==>
                && c !in old(mem).live
                && Becomes(old(mem), mem, slot, Some(old(mem).At(slot).value.WithContext(Some(c))))
                && poisoned == out.Panics?
                && code == match out case Done => OK case Failed(e) => Other(e) case Panics => INTERNAL
      ensures old(Initialized(slot, nonNil)) && before.Ready? ==>
                && OnlyContext(old(mem).At(slot).value, mem.At(slot).value, Some(c))
                && Initialized(slot, nonNil) == !poisoned
    {
      c := 0;
      if !Initialized(slot, nonNil) {
        return INVALID_STATE, c;
      }
      if !before.Ready? {
        code := TurnAway(before);
        return;
      }
      c := NewContext(slot);
      KeepsAllElse(old(mem), mem, slot, Some(c));
      match out
      case Done => code := OK;
      case Failed(e) => code := Other(e);
      case Panics => code := Poison();
    }

    method TurnAway(before: Before) returns (code: Code)
      requires !before.Ready?
      modifies this`poisoned
      ensures code == before.Answer() && poisoned == (old(poisoned) || before.Breaks?)
    {
      if before.Breaks? {
        code := Poison();
        return;
      }
      return before.Answer();
    }

    /** The operations that return a stream: ExecuteQuery, GetObjects, GetInfo,
        GetStatistics and the like. Without a stream struct a statement is executed as an
        update, and a connection call is a Go panic. */
    method Query(slot: Slot, nonNil: bool, stream: Slot, streamNonNil: bool, before: Before, out: Outcome, addr: Addr)
      returns (code: Code, ghost c: ContextId)
      requires (slot.Conn? || slot.Stmt?) && stream.Stream? && addr !in mem.cells
      modifies this
      ensures !old(Initialized(slot, nonNil)) ==> code == INVALID_STATE && unchanged(this)
      ensures old(Initialized(slot, nonNil)) && !before.Ready? ==>
                code == before.Answer() && code != OK && unchanged(`mem) && poisoned == before.Breaks?
      ensures old(Initialized(slot, nonNil)) && before.Ready? ==>
                && c !in old(mem).live
                && mem.live == old(mem).live - ContextsOf(old(mem).At(slot)) + {c}
                && mem.At(slot) == Some(old(mem).At(slot).value.WithContext(Some(c)))
                && (forall s :: s != slot && s != stream ==> mem.At(s) == old(mem).At(s))
      ensures old(Initialized(slot, nonNil)) && before.Ready? ==>
                if out.Done? && streamNonNil then
                  && code == OK && !poisoned && mem.At(stream) == Some(StreamObj(c))
                  && mem.leaked == old(mem).leaked + (if stream in old(mem).slots then {old(mem).slots[stream]} else {})
                else
                  && mem.At(stream) == old(mem).At(stream) && mem.leaked == old(mem).leaked
                  && poisoned == (out.Panics? || (out.Done? && slot.Conn?))
                  && code == if out.Failed? then Other(out.status) else if poisoned then INTERNAL else OK
      ensures old(Initialized(slot, nonNil)) && before.Ready? ==>
                && OnlyContext(old(mem).At(slot).value, mem.At(slot).value, Some(c))
                && Initialized(slot, nonNil) == !poisoned
    {
      c := 0;
      if !Initialized(slot, nonNil) {
        return INVALID_STATE, c;
      }
      if !before.Ready? {
        code := TurnAway(before);
        return;
      }
      code, c := Ask(slot, stream, streamNonNil, out, addr);
      KeepsAllElse(old(mem), mem, slot, Some(c));
    }

    /** Query with everything in order: takes a context and asks the driver. */
    method Ask(slot: Slot, stream: Slot, streamNonNil: bool, out: Outcome, addr: Addr)
      returns (code: Code, ghost c: ContextId)
      requires Initialized(slot, true) && (slot.Conn? || slot.Stmt?) && stream.Stream? && addr !in mem.cells
      modifies this
      ensures && c !in old(mem).live
              && mem.live == old(mem).live - ContextsOf(old(mem).At(slot)) + {c}
              && mem.At(slot) == Some(old(mem).At(slot).value.WithContext(Some(c)))
              && (forall s :: s != slot && s != stream ==> mem.At(s) == old(mem).At(s))
      ensures if out.Done? && streamNonNil then
                && code == OK && !poisoned && mem.At(stream) == Some(StreamObj(c))
                && mem.leaked == old(mem).leaked + (if stream in old(mem).slots then {old(mem).slots[stream]} else {})
              else
                && mem.At(stream) == old(mem).At(stream) && mem.leaked == old(mem).leaked
                && poisoned == (out.Panics? || (out.Done? && slot.Conn?))
                && code == if out.Failed? then Other(out.status) else if poisoned then INTERNAL else OK
    {
      var ctx := NewContext(slot);
      c := ctx;
      assert mem.live == old(mem).live - ContextsOf(old(mem).At(slot)) + {ctx} && mem.leaked == old(mem).leaked;
      assert forall s :: s != slot ==> mem.At(s) == old(mem).At(s);
      code := HandOut(slot, stream, streamNonNil, ctx, out, addr);
    }

    /** The rest of Query, once its context is made. */
    method HandOut(slot: Slot, stream: Slot, streamNonNil: bool, ctx: ContextId, out: Outcome, addr: Addr)
      returns (code: Code)
      requires !poisoned && (slot.Conn? || slot.Stmt?) && stream.Stream? && addr !in mem.cells
      requires ctx < mem.nextContext && ctx !in mem.maker
      modifies this
      ensures mem.live == old(mem).live && forall s :: s != stream ==> mem.At(s) == old(mem).At(s)
      ensures if out.Done? && streamNonNil then
                && code == OK && !poisoned && mem.At(stream) == Some(StreamObj(ctx))
                && mem.leaked == old(mem).leaked + (if stream in old(mem).slots then {old(mem).slots[stream]} else {})
              else
                && unchanged(`mem) && poisoned == (out.Panics? || (out.Done? && slot.Conn?))
                && code == if out.Failed? then Other(out.status) else if poisoned then INTERNAL else OK
    {
      if out.Failed? {
        return Other(out.status);
      }
      if out.Panics? || (!streamNonNil && slot.Conn?) {
        code := Poison();
        return;
      }
      if !streamNonNil {
        return OK;
      }
      Export(stream, ctx, addr);
      return OK;
    }

    /** The release callback of a stream; it works on a poisoned driver too. */
    method StreamRelease(stream: Slot, nonNil: bool)
      requires stream.Stream?
      modifies this
      ensures poisoned == old(poisoned)
      ensures !nonNil || stream !in old(mem).slots ==> unchanged(this)
      ensures nonNil && stream in old(mem).slots ==> Becomes(old(mem), mem, stream, None)
    {
      if nonNil && stream in mem.slots {
        assert Fits(stream, mem.At(stream).value);
        Delete(stream);
      }
    }

    // -------------------------------------------------------------- runs

    /** Makes one call. Before it, calloc has never returned a live cell. */
    method Step(call: Call) returns (code: Code)
      requires call.Possible(mem)
      modifies this
      ensures old(poisoned) ==> poisoned && StreamsOnly(old(mem), mem)
      ensures old(poisoned) && !call.StreamReleased? ==> unchanged(this) && code != OK
    {
      code := OK;
      ghost var c;
      match call
      case Made(slot, nonNil, addr) =>
        code := New(slot, nonNil, addr);
      case StatementMade(conn, connNonNil, slot, nonNil, out, addr) =>
        code := StatementNew(conn, connNonNil, slot, nonNil, out, addr);
      case DatabaseInited(slot, nonNil, out) =>
        code := DatabaseInit(slot, nonNil, out);
      case OptionSet(slot, nonNil) =>
        code := ConnectionSetOption(slot, nonNil);
      case ConnectionInited(slot, nonNil, db, dbNonNil, out) =>
        code := ConnectionInit(slot, nonNil, db, dbNonNil, out);
      case Released(slot, nonNil, out) =>
        if slot.Db? {
          code := DatabaseRelease(slot, nonNil, out);
        } else {
          code := Release(slot, nonNil, out);
        }
      case CancelRequested(slot, nonNil) =>
        code := Cancel(slot, nonNil);
      case Operated(slot, nonNil, before, out) =>
        code, c := Operate(slot, nonNil, before, out);
      case Queried(slot, nonNil, stream, streamNonNil, before, out, addr) =>
        code, c := Query(slot, nonNil, stream, streamNonNil, before, out, addr);
      case StreamReleased(stream, nonNil) =>
        StreamRelease(stream, nonNil);
    }

    /** Any sequence of calls keeps the memory valid, by its type; and after a panic no
        call touches a database, a connection, a statement or a context again. */
    method Run(calls: seq<Call>)
      modifies this
      ensures old(poisoned) ==> poisoned && StreamsOnly(old(mem), mem)
    {
      for k := 0 to |calls|
        invariant old(poisoned) ==> poisoned && StreamsOnly(old(mem), mem)
      {
        if calls[k].Possible(mem) {
          var code := Step(calls[k]);
        }
      }
    }
  }

  /** Nothing but streams has changed, and they have only gone. */
  ghost predicate StreamsOnly(m: ValidMemory, m': ValidMemory) {
    && m'.live == m.live && m'.leaked == m.leaked
    && forall s :: m'.At(s) == m.At(s) || (s.Stream? && m'.At(s) == None)
  }

  datatype Call =
    | Made(slot: Slot, nonNil: bool, addr: Addr)
    | StatementMade(conn: Slot, connNonNil: bool, slot: Slot, nonNil: bool, out: Outcome, addr: Addr)
    | DatabaseInited(slot: Slot, nonNil: bool, out: Outcome)
    | OptionSet(slot: Slot, nonNil: bool)
    | ConnectionInited(slot: Slot, nonNil: bool, db: Slot, dbNonNil: bool, out: Outcome)
    | Released(slot: Slot, nonNil: bool, out: Outcome)
    | CancelRequested(slot: Slot, nonNil: bool)
    | Operated(slot: Slot, nonNil: bool, before: Before, out: Outcome)
    | Queried(slot: Slot, nonNil: bool, stream: Slot, streamNonNil: bool, before: Before, out: Outcome, addr: Addr)
    | StreamReleased(stream: Slot, nonNil: bool)
  {
    /** The structs are of the kinds the entry point takes, and a new cell is not live. */
    predicate Possible(m: Memory) {
      match this
      case Made(slot, _, addr) => (slot.Db? || slot.Conn?) && addr !in m.cells
      case StatementMade(conn, _, slot, _, _, addr) => conn.Conn? && slot.Stmt? && addr !in m.cells
      case DatabaseInited(slot, _, _) => slot.Db?
      case OptionSet(slot, _) => slot.Conn?
      case ConnectionInited(slot, _, db, _, _) => slot.Conn? && db.Db?
      case Released(slot, _, _) => !slot.Stream?
      case CancelRequested(slot, _) => slot.Conn? || slot.Stmt?
      case Operated(slot, _, _, _) => slot.Conn? || slot.Stmt?
      case Queried(slot, _, stream, _, _, _, addr) => (slot.Conn? || slot.Stmt?) && stream.Stream? && addr !in m.cells
      case StreamReleased(stream, _) => stream.Stream?
    }
  }
}
