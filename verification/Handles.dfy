/** The C layer's memory: the structs that C programs hold, the heap cells and cgo handles
    behind them, and the cancellable contexts of connections and statements. */
module Handles {
  import opened Wrappers

  type Addr = nat
  type HandleId = nat
  type ContextId = nat

  /** A caller's C struct. */
  datatype Slot = Db(id: nat) | Conn(id: nat) | Stmt(id: nat) | Stream(id: nat)

  /** The Go object behind a handle. `open` says that it has been initialized; a stream
      keeps the context its reader was made under. */
  datatype Obj =
    | DbObj(open: bool)
    | ConnObj(open: bool, ctx: Option<ContextId>, initArgs: bool)
    | StmtObj(open: bool, ctx: Option<ContextId>)
    | StreamObj(parent: ContextId)
  {
    function Context(): Option<ContextId> {
      if ConnObj? || StmtObj? then ctx else None
    }

    function WithContext(c: Option<ContextId>): Obj {
      match this
      case ConnObj(open, _, args) => ConnObj(open, c, args)
      case StmtObj(open, _) => StmtObj(open, c)
      case _ => this
    }
  }

  ghost function ContextsOf(o: Option<Obj>): set<ContextId> {
    if o.Some? && o.value.Context().Some? then {o.value.Context().value} else {}
  }

  predicate Fits(slot: Slot, o: Obj) {
    match slot
    case Db(_) => o.DbObj?
    case Conn(_) => o.ConnObj?
    case Stmt(_) => o.StmtObj?
    case Stream(_) => o.StreamObj?
  }

  /** Two maps that are each other's inverse. */
  ghost predicate Paired<K(!new), V(!new)>(f: map<K, V>, g: map<V, K>) {
    && (forall k :: k in f ==> f[k] in g && g[f[k]] == k)
    && (forall v :: v in g ==> g[v] in f && f[g[v]] == v)
  }

  datatype Memory = Memory(
    slots: map<Slot, Addr>,        // the non-null private_data pointers
    cells: map<Addr, HandleId>,    // the live cells made by createHandle
    handles: map<HandleId, Obj>,   // the cgo handle table
    nextHandle: HandleId,
    live: set<ContextId>,          // the contexts not yet cancelled
    nextContext: ContextId,
    leaked: set<Addr>,             // cells whose stream struct was overwritten
    // The same relations, read backwards.
    slotAt: map<Addr, Slot>,
    cellOf: map<HandleId, Addr>,
    owner: map<ContextId, HandleId>,
    maker: map<ContextId, HandleId>)
  {
    /** Pointers, cells and handles correspond one to one; only cells of overwritten
        streams have no pointer. */
    ghost predicate Wired() {
      && Paired(slots, slotAt) && Paired(cells, cellOf)
      && cells.Keys == slotAt.Keys + leaked && slotAt.Keys !! leaked
      && handles.Keys == cellOf.Keys
      && (forall h :: h in handles ==> h < nextHandle)
    }

    function HandleAt(slot: Slot): HandleId
      requires Wired() && slot in slots
    {
      assert slots[slot] in cells.Keys;
      cells[slots[slot]]
    }

    /** The object behind a struct, if its private_data is not null. */
    function At(slot: Slot): Option<Obj>
      requires Wired()
    {
      if slot in slots then Some(handles[HandleAt(slot)]) else None
    }

    /** Behind every struct is an object of its kind. */
    ghost predicate Typed()
      requires Wired()
    {
      && (forall s :: s in slots ==> Fits(s, handles[HandleAt(s)]))
      && (forall a :: a in leaked ==> handles[cells[a]].StreamObj?)
    }

    /** A live context is the current one of exactly one handle, and a context has made
        at most one stream. */
    ghost predicate Owned() {
      && owner.Keys == live
      && (forall c :: c in owner ==> c < nextContext && owner[c] in handles && handles[owner[c]].Context() == Some(c))
      && (forall h :: h in handles ==> Owns(h, handles[h]))
      && (forall c :: c in maker ==> c < nextContext)
    }

    ghost predicate Owns(h: HandleId, o: Obj) {
      && (o.Context().Some? ==> o.Context().value in owner && owner[o.Context().value] == h)
      && (o.StreamObj? ==> o.parent < nextContext && o.parent in maker && maker[o.parent] == h)
    }

    ghost predicate Valid() {
      Wired() && Typed() && Owned()
    }

    /** createHandle and the store into private_data. */
    function Create(slot: Slot, o: Obj, addr: Addr): Memory {
      this.(slots := slots[slot := addr], slotAt := slotAt[addr := slot],
            cells := cells[addr := nextHandle], cellOf := cellOf[nextHandle := addr],
            handles := handles[nextHandle := o], nextHandle := nextHandle + 1,
            maker := if o.StreamObj? then maker[o.parent := nextHandle] else maker)
    }

    /** A stream struct is written over: its cell is lost. */
    function Overwrite(slot: Slot): Memory
      requires slot in slots
    {
      this.(slots := slots - {slot}, slotAt := slotAt - {slots[slot]}, leaked := leaked + {slots[slot]})
    }

    /** Frees the cell, nulls private_data and deletes the handle. */
    function Delete(slot: Slot): Memory
      requires Wired() && slot in slots
    {
      var h := HandleAt(slot);
      this.(slots := slots - {slot}, slotAt := slotAt - {slots[slot]},
            cells := cells - {slots[slot]}, cellOf := cellOf - {h}, handles := handles - {h})
    }

    /** The object behind a struct changes in place; its context stays. */
    function Update(slot: Slot, o: Obj): Memory
      requires Wired() && slot in slots
    {
      this.(handles := handles[HandleAt(slot) := o])
    }

    function CancelContext(slot: Slot): (m: Memory)
      requires Wired() && slot in slots
      ensures m.Wired() && m.slots == slots && m.cells == cells
    {
      var h := HandleAt(slot);
      var o := handles[h];
      if o.Context() == None then this
      else this.(live := live - {o.Context().value}, owner := owner - {o.Context().value},
                 handles := handles[h := o.WithContext(None)])
    }

    /** A new context for the object behind a struct. */
    function AddContext(slot: Slot): Memory
      requires Wired() && slot in slots
    {
      var h := HandleAt(slot);
      this.(live := live + {nextContext}, owner := owner[nextContext := h], nextContext := nextContext + 1,
            handles := handles[h := handles[h].WithContext(Some(nextContext))])
    }

    /** Cancels the current context and makes a new one. */
    function NewContext(slot: Slot): Memory
      requires Wired() && slot in slots
    {
      CancelContext(slot).AddContext(slot)
    }
  }

  /** The memory between two calls. */
  type ValidMemory = m: Memory | m.Valid() witness EMPTY_MEMORY

  const EMPTY_MEMORY := Memory(map[], map[], map[], 0, {}, 0, {}, map[], map[], map[], map[])

  lemma PairAdded<K(!new), V(!new)>(f: map<K, V>, g: map<V, K>, k: K, v: V)
    requires Paired(f, g) && k !in f && v !in g
    ensures Paired(f[k := v], g[v := k])
  {
  }

  lemma PairRemoved<K(!new), V(!new)>(f: map<K, V>, g: map<V, K>, k: K)
    requires Paired(f, g) && k in f
    ensures Paired(f - {k}, g - {f[k]})
  {
  }

  lemma CreateWires(m: Memory, slot: Slot, o: Obj, addr: Addr)
    requires m.Wired() && addr !in m.cells && slot !in m.slots
    ensures m.Create(slot, o, addr).Wired()
  {
    assert m.nextHandle !in m.handles;
    PairAdded(m.slots, m.slotAt, slot, addr);
    PairAdded(m.cells, m.cellOf, addr, m.nextHandle);
  }

  lemma CreateFinds(m: Memory, slot: Slot, o: Obj, addr: Addr, s: Slot)
    requires m.Wired() && addr !in m.cells && slot !in m.slots && m.Create(slot, o, addr).Wired()
    ensures m.Create(slot, o, addr).At(s) == if s == slot then Some(o) else m.At(s)
  {
  }

  lemma CreateKeeps(m: Memory, slot: Slot, o: Obj, addr: Addr)
    requires m.Valid() && addr !in m.cells && slot !in m.slots && Fits(slot, o) && o.Context() == None
    requires o.StreamObj? ==> o.parent < m.nextContext && o.parent !in m.maker
    ensures m.Create(slot, o, addr).Valid()
    ensures forall s :: m.Create(slot, o, addr).At(s) == if s == slot then Some(o) else m.At(s)
  {
    var m' := m.Create(slot, o, addr);
    CreateWires(m, slot, o, addr);
    CreateOwns(m, slot, o, addr);
    forall s ensures m'.At(s) == if s == slot then Some(o) else m.At(s) {
      CreateFinds(m, slot, o, addr, s);
    }
    CreateTypes(m, slot, o, addr);
  }

  lemma CreateTypes(m: Memory, slot: Slot, o: Obj, addr: Addr)
    requires m.Wired() && m.Typed() && addr !in m.cells && slot !in m.slots && Fits(slot, o)
    requires m.Create(slot, o, addr).Wired()
    ensures m.Create(slot, o, addr).Typed()
  {
    var m' := m.Create(slot, o, addr);
    forall s | s in m'.slots ensures Fits(s, m'.handles[m'.HandleAt(s)]) {
      CreateFinds(m, slot, o, addr, s);
      assert m'.At(s) == Some(m'.handles[m'.HandleAt(s)]);
    }
    forall a | a in m'.leaked ensures m'.handles[m'.cells[a]].StreamObj? {
      assert m.cells[a] in m.handles;
    }
  }

  lemma CreateOwns(m: Memory, slot: Slot, o: Obj, addr: Addr)
    requires m.Wired() && m.Owned() && o.Context() == None
    requires o.StreamObj? ==> o.parent < m.nextContext && o.parent !in m.maker
    ensures m.Create(slot, o, addr).Owned()
  {
    var m' := m.Create(slot, o, addr);
    forall h | h in m'.handles ensures m'.Owns(h, m'.handles[h]) {
      if h != m.nextHandle { assert m.Owns(h, m.handles[h]); }
    }
  }

  lemma OverwriteKeeps(m: Memory, slot: Slot)
    requires m.Valid() && slot in m.slots && slot.Stream?
    ensures var m' := m.Overwrite(slot);
            m'.Valid() && forall s :: m'.At(s) == if s == slot then None else m.At(s)
  {
    PairRemoved(m.slots, m.slotAt, slot);
  }

  lemma DeleteKeeps(m: Memory, slot: Slot)
    requires m.Valid() && slot in m.slots && m.At(slot).value.Context() == None
    ensures var m' := m.Delete(slot);
            m'.Valid() && forall s :: m'.At(s) == if s == slot then None else m.At(s)
  {
    PairRemoved(m.slots, m.slotAt, slot);
    PairRemoved(m.cells, m.cellOf, m.slots[slot]);
  }

  lemma UpdateKeeps(m: Memory, slot: Slot, o: Obj)
    requires m.Valid() && slot in m.slots && Fits(slot, o) && !slot.Stream? && o.Context() == m.At(slot).value.Context()
    ensures m.Update(slot, o).Valid()
    ensures forall s :: m.Update(slot, o).At(s) == if s == slot then Some(o) else m.At(s)
  {
    var m' := m.Update(slot, o);
    OneHandleChanged(m, m', slot);
    forall h | h in m'.handles ensures m'.Owns(h, m'.handles[h]) {
      assert m.Owns(h, m.handles[h]);
    }
  }

  lemma CancelKeeps(m: Memory, slot: Slot)
    requires m.Valid() && slot in m.slots
    ensures m.CancelContext(slot).Valid()
    ensures m.CancelContext(slot).At(slot) == Some(m.At(slot).value.WithContext(None))
    ensures forall s :: s != slot ==> m.CancelContext(slot).At(s) == m.At(s)
  {
    CancelOwns(m, slot);
    OneHandleChanged(m, m.CancelContext(slot), slot);
  }

  lemma CancelOwns(m: Memory, slot: Slot)
    requires m.Wired() && m.Owned() && slot in m.slots
    ensures m.CancelContext(slot).Owned()
  {
  }

  /** Only the object behind `slot` has changed, and not its kind. */
  lemma OneHandleChanged(m: Memory, m': Memory, slot: Slot)
    requires m.Wired() && m.Typed() && slot in m.slots && m'.Wired()
    requires m'.slots == m.slots && m'.cells == m.cells && m'.leaked == m.leaked
    requires m'.handles == m.handles[m.HandleAt(slot) := m'.handles[m.HandleAt(slot)]]
    requires Fits(slot, m'.handles[m.HandleAt(slot)])
    requires m.handles[m.HandleAt(slot)].StreamObj? <==> m'.handles[m.HandleAt(slot)].StreamObj?
    ensures m'.Typed()
    ensures forall s :: s != slot ==> m'.At(s) == m.At(s)
  {
  }

  lemma AddKeeps(m: Memory, slot: Slot)
    requires m.Valid() && slot in m.slots && (slot.Conn? || slot.Stmt?) && m.At(slot).value.Context() == None
    ensures m.AddContext(slot).Valid()
    ensures m.AddContext(slot).At(slot) == Some(m.At(slot).value.WithContext(Some(m.nextContext)))
    ensures forall s :: s != slot ==> m.AddContext(slot).At(s) == m.At(s)
  {
    AddOwns(m, slot);
    OneHandleChanged(m, m.AddContext(slot), slot);
  }

  lemma AddOwns(m: Memory, slot: Slot)
    requires m.Valid() && slot in m.slots && (slot.Conn? || slot.Stmt?) && m.At(slot).value.Context() == None
    ensures m.AddContext(slot).Owned()
  {
  }

  lemma NewContextKeeps(m: Memory, slot: Slot)
    requires m.Valid() && slot in m.slots && (slot.Conn? || slot.Stmt?)
    ensures var m' := m.NewContext(slot);
            && m'.Valid() && m'.At(slot) == Some(m.At(slot).value.WithContext(Some(m.nextContext)))
            && forall s :: s != slot ==> m'.At(s) == m.At(s)
  {
    CancelKeeps(m, slot);
    AddKeeps(m.CancelContext(slot), slot);
  }

  lemma CancelLives(m: Memory, slot: Slot)
    requires m.Valid() && slot in m.slots
    ensures m.CancelContext(slot).live == m.live - ContextsOf(m.At(slot))
    ensures m.CancelContext(slot).leaked == m.leaked
  {
  }

  lemma NewContextLives(m: Memory, slot: Slot)
    requires m.Valid() && slot in m.slots
    ensures m.NewContext(slot).leaked == m.leaked
    ensures m.NewContext(slot).live == m.live - ContextsOf(m.At(slot)) + {m.nextContext}
    ensures m.nextContext !in m.live && m.nextContext !in m.maker && m.NewContext(slot).nextContext == m.nextContext + 1
  {
  }

  // ---------------------------------------------------------------- what a valid memory means

  lemma {:induction false} PairedSize<K(!new), V(!new)>(f: map<K, V>, g: map<V, K>)
    requires Paired(f, g)
    ensures |f| == |g|
    decreases |f|
  {
    if f == map[] {
      assert g == map[] by {
        if v :| v in g { assert g[v] in f; }
      }
    } else {
      var k :| k in f;
      PairRemoved(f, g, k);
      var f', g' := f - {k}, g - {f[k]};
      assert f'.Keys == f.Keys - {k} && g'.Keys == g.Keys - {f[k]};
      assert |f'| == |f'.Keys| && |g'| == |g'.Keys| && |f| == |f.Keys| && |g| == |g.Keys|;
      PairedSize(f', g');
    }
  }

  /** Main result on handles: no two structs share a cell, no two cells a handle, every
      cell of a struct is live and holds a live handle to an object of the struct's kind;
      and apart from overwritten streams there are no other cells and no other handles. */
  lemma OneToOne(m: Memory)
    requires m.Valid()
    ensures forall s, t :: s in m.slots && t in m.slots && m.slots[s] == m.slots[t] ==> s == t
    ensures forall a, b :: a in m.cells && b in m.cells && m.cells[a] == m.cells[b] ==> a == b
    ensures forall s :: s in m.slots ==> m.slots[s] in m.cells && m.cells[m.slots[s]] in m.handles
                                         && Fits(s, m.handles[m.cells[m.slots[s]]])
    ensures forall a :: a in m.cells && a !in m.leaked ==> exists s :: s in m.slots && m.slots[s] == a
    ensures |m.cells| == |m.handles| == |m.slots| + |m.leaked|
  {
    forall s | s in m.slots
      ensures m.slots[s] in m.cells && Fits(s, m.handles[m.cells[m.slots[s]]])
    {
      assert m.HandleAt(s) == m.cells[m.slots[s]];
    }
    PairedSize(m.slots, m.slotAt);
    PairedSize(m.cells, m.cellOf);
    assert |m.slotAt.Keys + m.leaked| == |m.slotAt.Keys| + |m.leaked|;
    assert |m.cells| == |m.cells.Keys| && |m.slotAt| == |m.slotAt.Keys|;
    assert |m.handles| == |m.handles.Keys| == |m.cellOf.Keys| == |m.cellOf|;
  }

  /** A result stream that can still be read. */
  ghost predicate Uncancelled(m: Memory, h: HandleId) {
    h in m.handles && m.handles[h].StreamObj? && m.handles[h].parent in m.live
  }

  /** Main result on contexts: a struct has at most one live context, its current one, and
      at most one stream made under its contexts is uncancelled. */
  lemma OneLiveContext(m: Memory)
    requires m.Valid()
    ensures forall c, d :: c in m.live && d in m.live && m.owner[c] == m.owner[d] ==> c == d
    ensures forall h, k ::
              (Uncancelled(m, h) && Uncancelled(m, k) && m.owner[m.handles[h].parent] == m.owner[m.handles[k].parent])
              ==> h == k
    ensures forall s :: s in m.slots && m.At(s).value.Context() == None
                        ==> forall c :: c in m.live ==> m.owner[c] != m.HandleAt(s)
  {
  }
}
