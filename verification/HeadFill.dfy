/** Filling the slots of one structure of the head: what the unify instructions do to the
    equations, in read mode and in write mode. */
module HeadFill {
  import opened Wam
  import opened HeadMachine
  import opened HeadLogic

  /** In read mode the slots not visited yet are equations of their own. */
  ghost predicate FillsRead(l0: Logic, l: Logic, m: Head, p: Equation, k: nat, todo: seq<Equation>)
    requires k <= |Kids(p.1)|
  {
    && Mirrors(l, m) && m.mode.Read? && m.mode.slot >= k
    && m.mode.slot - k + |Kids(p.1)| <= |l.heap|
    && l.pend == l0.pend - multiset{p} + multiset(todo) + Ahead(Slots(l.heap, m.mode.slot - k, Kids(p.1)), k)
  }

  function Ahead(eqs: seq<Equation>, k: nat): multiset<Equation>
    requires k <= |eqs|
  {
    multiset(eqs[k..])
  }

  lemma AheadStep(eqs: seq<Equation>, k: nat)
    requires k < |eqs|
    ensures Ahead(eqs, k) == multiset{eqs[k]} + Ahead(eqs, k + 1)
  {
    assert eqs[k..] == [eqs[k]] + eqs[k + 1..];
  }

  lemma AheadEnds(eqs: seq<Equation>)
    ensures Ahead(eqs, 0) == multiset(eqs) && Ahead(eqs, |eqs|) == multiset{}
  {
    assert eqs[0..] == eqs;
  }

  lemma OneLess(rest: multiset<Equation>, ahead: multiset<Equation>, q: Equation)
    ensures rest + (multiset{q} + ahead) - multiset{q} == rest + ahead
  {
  }

  lemma TodoStep(todo: seq<Equation>, q: Equation)
    ensures multiset(todo + [q]) == multiset(todo) + multiset{q}
  {
  }

  /** One equation leaves those ahead and goes to those for later. */
  lemma Shift(solved: multiset<Equation>, later: multiset<Equation>, ahead: multiset<Equation>, q: Equation)
    ensures solved + later + (multiset{q} + ahead) == solved + (later + multiset{q}) + ahead
  {
  }

  function Pointer(t: Term, base: nat): Cell {
    if t.List? || base == 0 then CList(base) else CStr(base - 1)
  }

  /** In write mode the structure is not yet counted as part of the heap, and its equation
      stands as it was. */
  ghost predicate FillsWrite(l0: Logic, l: Logic, m: Head, p: Equation, k: nat, todo: seq<Equation>)
    requires k <= |Kids(p.1)|
  {
    var d := Deref(l.bind, p.0);
    var base := |m.w.heap| - k;
    && m.mode.Write? && d.CVar? && |l.heap| <= base && l.heap <= m.w.heap && p in l.pend
    && l.next == m.w.next && m.bind == l.bind[d.id := Pointer(p.1, base)]
    && l.pend == l0.pend + multiset(todo)
    && HeadMatches(m.w.heap, Pointer(p.1, base), p.1)
    && (forall i | |l.heap| <= i < base :: m.w.heap[i].CFun?)
    && (forall j: nat | j < k :: DoneAt(l, m, p, base, j))
  }

  /** After `k` slots; `todo` are the equations of the subterms left for later. */
  ghost predicate Fills(nm: Names, l0: Logic, l: Logic, m: Head, p: Equation, k: nat, todo: seq<Equation>) {
    && Compound(p.1) && k <= |Kids(p.1)| && Same(nm, l0, l) && l.failed == m.failed
    && (!m.failed ==> p in l0.pend && (FillsRead(l0, l, m, p, k, todo) || FillsWrite(l0, l, m, p, k, todo)))
  }

  /** The instruction that a structure begins with. */
  function GetCompound(m: Head, c: Cell, t: Term): Head {
    match t
    case Struct(f, args) => GetStructure(m, c, f, |args|)
    case _ => GetList(m, c)
  }

  lemma StartWrite(l: Logic, m: Head, p: Equation)
    requires Mirrors(l, m) && p in l.pend && Compound(p.1) && Deref(l.bind, p.0).CVar? && !m.failed
    ensures var m' := GetCompound(m, p.0, p.1); !m'.failed && FillsWrite(l, l, m', p, 0, [])
  {
  }

  lemma StartRead(l: Logic, m: Head, p: Equation, d: Cell)
    requires Mirrors(l, m) && !m.failed && Compound(p.1) && d == Deref(l.bind, p.0) && !d.CVar?
    requires HeadMatches(l.heap, d, p.1) && ArgBase(d) + |Kids(p.1)| <= |l.heap|
    ensures var m' := GetCompound(m, p.0, p.1); !m'.failed && FillsRead(l, Opened(l, p, ArgBase(d)), m', p, 0, [])
  {
    var eqs := Slots(l.heap, ArgBase(d), Kids(p.1));
    assert eqs[0..] == eqs;
    assert l.pend - multiset{p} + multiset([]) + multiset(eqs) == l.pend - multiset{p} + multiset(eqs);
  }

  lemma StartFilling(nm: Names, l0: Logic, m: Head, p: Equation) returns (l: Logic)
    requires Compound(p.1) && l0.failed == m.failed && (!m.failed ==> Ok(l0) && Mirrors(l0, m) && p in l0.pend)
    ensures Fills(nm, l0, l, if m.failed then m else GetCompound(m, p.0, p.1), p, 0, []) && l.env == l0.env
  {
    hide FillsRead, FillsWrite, Same;
    if m.failed {
      SameRefl(nm, l0);
      return l0;
    }
    var m' := GetCompound(m, p.0, p.1);
    var d := Deref(l0.bind, p.0);
    DerefOk(l0.heap, l0.next, l0.bind, p.0);
    if d.CVar? {
      l := l0;
      SameRefl(nm, l0);
      StartWrite(l0, m, p);
    } else if HeadMatches(l0.heap, d, p.1) {
      l := Opened(l0, p, ArgBase(d));
      OpenedSame(nm, l0, p, d);
      StartRead(l0, m, p, d);
    } else {
      l := Solved(l0, m', p);
      NoMatch(nm, l0, m, p, d, m');
    }
  }

  lemma WriteCloses(l0: Logic, l: Logic, m: Head, p: Equation, todo: seq<Equation>, id: nat, ptr: Cell)
    requires Compound(p.1) && Ok(l) && !l.failed && FillsWrite(l0, l, m, p, |Kids(p.1)|, todo)
    requires CVar(id) == Deref(l.bind, p.0) && ptr == Pointer(p.1, |m.w.heap| - |Kids(p.1)|)
    ensures Closes(l, p, m.w.heap, id, ptr) && Closed(l, p, m.w.heap, id, ptr).bind == m.bind
  {
    hide Ok, SlotDone;
    var base := |m.w.heap| - |Kids(p.1)|;
    forall k | 0 <= k < |Kids(p.1)|
      ensures SlotDone(Drop(l, p), l.bind[id := ptr], m.w.heap[ArgBase(ptr) + k], Kids(p.1)[k])
    {
      assert DoneAt(l, m, p, base, k);
    }
  }

  lemma FinishWriting(nm: Names, l0: Logic, l: Logic, m: Head, p: Equation, todo: seq<Equation>) returns (l': Logic)
    requires Compound(p.1) && p in l0.pend && Ok(l) && !l.failed && !m.failed
    requires FillsWrite(l0, l, m, p, |Kids(p.1)|, todo)
    ensures Same(nm, l, l') && l'.env == l.env
    ensures Mirrors(l', m) && l'.pend == l0.pend - multiset{p} + multiset(todo)
  {
    WriteModeOf(l0, l, m, p, |Kids(p.1)|, todo);
    hide Same, Ok, FillsWrite, Closes;
    var ptr := Pointer(p.1, |m.w.heap| - |Kids(p.1)|);
    var id := Deref(l.bind, p.0).id;
    WriteCloses(l0, l, m, p, todo, id, ptr);
    l' := Closed(l, p, m.w.heap, id, ptr);
    ClosedSame(nm, l, p, m.w.heap, id, ptr);
  }

  /** When all slots are filled, the structure is solved up to the subterms left. */
  lemma FinishFilling(nm: Names, l0: Logic, l: Logic, m: Head, p: Equation, todo: seq<Equation>) returns (l': Logic)
    requires Fills(nm, l0, l, m, p, |Kids(p.1)|, todo)
    ensures Same(nm, l0, l') && l'.env == l.env && l'.failed == m.failed
    ensures !m.failed ==> Mirrors(l', m) && l'.pend == l0.pend - multiset{p} + multiset(todo)
  {
    if m.failed || FillsRead(l0, l, m, p, |Kids(p.1)|, todo) {
      l' := l;
    } else {
      hide FillsWrite, FillsRead;
      l' := FinishWriting(nm, l0, l, m, p, todo);
      SameTrans(nm, l0, l, l');
    }
  }

  /** Nothing on the heap refers to a variable that lives on the stack only. */
  ghost predicate Global(m: Head) {
    (forall i | 0 <= i < |m.w.heap| :: !IsLocal(m.w, m.w.heap[i])) && NoStackRefs(m.w.locals, m.bind)
  }

  /** What every instruction for a slot leaves alone. */
  ghost predicate Keeps(m: Head, m': Head) {
    && m'.w.e == m.w.e && m'.w.sp == m.w.sp && m.w.next <= m'.w.next && m'.w.locals <= m.w.locals
    && (m'.w.open ==> m.w.open) && m'.w.spilled == m.w.spilled && m'.w.spb == m.w.spb
    && (m.failed ==> m'.failed) && (Global(m) && FreshIds(m.w) && !m'.failed ==> Global(m'))
  }

  // ---- one slot ----

  /** The equation of the slot that comes next in read mode. */
  function NextSlot(m: Head, p: Equation, k: nat): Equation
    requires k < |Kids(p.1)|
  {
    (SlotCell(m), Kids(p.1)[k])
  }

  lemma Solving(pend: multiset<Equation>, pend': multiset<Equation>, solved: multiset<Equation>, later: multiset<Equation>,
                ahead: multiset<Equation>, q: Equation)
    requires pend == solved + later + (multiset{q} + ahead) && pend' == pend - multiset{q}
    ensures pend' == solved + later + ahead
  {
  }

  /** In read mode the slot's equation is solved. */
  lemma ReadSolved(l0: Logic, l: Logic, m: Head, p: Equation, k: nat, todo: seq<Equation>, l': Logic, m': Head)
    requires k < |Kids(p.1)| && FillsRead(l0, l, m, p, k, todo)
    requires Mirrors(l', m') && l'.heap == l.heap && m'.mode == Read(m.mode.slot + 1)
    requires l'.pend == l.pend - multiset{NextSlot(m, p, k)}
    ensures FillsRead(l0, l', m', p, k + 1, todo)
  {
    hide Ahead, Slots;
    var q := NextSlot(m, p, k);
    var eqs := Slots(l.heap, m.mode.slot - k, Kids(p.1));
    assert eqs[k] == q by { SlotIs(l, m, p, k); }
    AheadStep(eqs, k);
    Solving(l.pend, l'.pend, l0.pend - multiset{p}, multiset(todo), Ahead(eqs, k + 1), q);
  }

  /** Or it is kept for later. */
  lemma ReadLater(l0: Logic, l: Logic, m: Head, p: Equation, k: nat, todo: seq<Equation>, m': Head)
    requires k < |Kids(p.1)| && FillsRead(l0, l, m, p, k, todo)
    requires Mirrors(l, m') && m'.mode == Read(m.mode.slot + 1)
    ensures FillsRead(l0, l, m', p, k + 1, todo + [NextSlot(m, p, k)])
  {
    hide Ahead, Slots;
    var q := NextSlot(m, p, k);
    var eqs := Slots(l.heap, m.mode.slot - k, Kids(p.1));
    assert eqs[k] == q by { SlotIs(l, m, p, k); }
    AheadStep(eqs, k);
    TodoStep(todo, q);
    Shift(l0.pend - multiset{p}, multiset(todo), Ahead(eqs, k + 1), q);
  }

  lemma SlotIs(l: Logic, m: Head, p: Equation, k: nat)
    requires k < |Kids(p.1)| && Mirrors(l, m) && m.mode.Read? && m.mode.slot >= k && m.mode.slot - k + |Kids(p.1)| <= |l.heap|
    ensures Slots(l.heap, m.mode.slot - k, Kids(p.1))[k] == NextSlot(m, p, k)
  {
  }

  lemma ReadSlot(l0: Logic, l: Logic, m: Head, p: Equation, k: nat, todo: seq<Equation>)
    requires k < |Kids(p.1)| && FillsRead(l0, l, m, p, k, todo)
    ensures NextSlot(m, p, k) in l.pend
  {
    hide Ahead;
    AheadStep(Slots(l.heap, m.mode.slot - k, Kids(p.1)), k);
  }

  lemma SlotStaysDone(l: Logic, l': Logic, p: Equation, bind: Bindings, c: Cell, kid: Term)
    requires SlotDone(Drop(l, p), bind, c, kid) && l.pend <= l'.pend && Extends(l.env, l'.env)
    ensures SlotDone(Drop(l', p), bind, c, kid)
  {
    assert (c, kid) in l.pend - multiset{p} ==> (c, kid) in l'.pend - multiset{p};
  }

  ghost predicate DoneAt(l: Logic, m: Head, p: Equation, base: int, j: nat)
    requires j < |Kids(p.1)| && 0 <= base && base + j < |m.w.heap|
  {
    SlotDone(Drop(l, p), m.bind, m.w.heap[base + j], Kids(p.1)[j])
  }

  /** In write mode a cell that is right for the slot is pushed. */
  lemma WriteNext(l0: Logic, l: Logic, m: Head, p: Equation, k: nat, todo: seq<Equation>, l': Logic, m': Head, todo': seq<Equation>, c: Cell)
    requires k < |Kids(p.1)| && FillsWrite(l0, l, m, p, k, todo)
    requires m'.w.heap == m.w.heap + [c] && m'.bind == m.bind && m'.mode == Write
    requires l'.heap == l.heap && l'.bind == l.bind && l'.next == m'.w.next && Extends(l.env, l'.env)
    requires l'.pend == l0.pend + multiset(todo') && l.pend <= l'.pend
    requires SlotDone(Drop(l', p), m.bind, c, Kids(p.1)[k])
    ensures FillsWrite(l0, l', m', p, k + 1, todo')
  {
    hide SlotDone, Drop;
    var base := |m.w.heap| - k;
    assert |m'.w.heap| - (k + 1) == base;
    forall j | 0 <= j < k + 1 ensures DoneAt(l', m', p, base, j) {
      if j < k {
        assert DoneAt(l, m, p, base, j);
        SlotStaysDone(l, l', p, m.bind, m.w.heap[base + j], Kids(p.1)[j]);
      }
    }
  }

  function ConstInstr(t: Term): Instr {
    match t
    case Sym(tok) => USym(tok)
    case Int(i) => UInt(i)
    case _ => UVoid
  }

  /** What the instruction for a constant does. */
  lemma ConstStep(nm: Names, unify: Unifier, m: Head, t: Term)
    requires !m.failed && (t.Int? || t.Sym?)
    ensures HeadStep(nm, unify, m, Body(ConstInstr(t))) ==
            if m.mode.Read? then Next(GetConst(nm, m, SlotCell(m), ConstCell(t))) else m.(w := Push(m.w, ConstCell(t)))
  {
  }

  lemma ConstKeeps(nm: Names, m: Head, c: Cell, k: Cell)
    requires !k.CVar?
    ensures GetConst(nm, m, c, k).w == m.w && GetConst(nm, m, c, k).mode == m.mode
    ensures Keeps(m, GetConst(nm, m, c, k)) && Keeps(m, Next(GetConst(nm, m, c, k)))
  {
  }

  lemma PushKeeps(m: Head, c: Cell)
    requires !IsLocal(m.w, c)
    ensures Keeps(m, m.(w := Push(m.w, c)))
  {
  }

  /** A constant in a slot. */
  lemma FillConst(nm: Names, unify: Unifier, l0: Logic, l: Logic, m: Head, p: Equation, k: nat, todo: seq<Equation>, m': Head)
    returns (l': Logic)
    requires Fills(nm, l0, l, m, p, k, todo) && k < |Kids(p.1)| && Injective(nm)
    requires Kids(p.1)[k].Int? || Kids(p.1)[k].Sym?
    requires m' == HeadStep(nm, unify, m, Body(ConstInstr(Kids(p.1)[k])))
    ensures Fills(nm, l0, l', m', p, k + 1, todo) && l'.env == l.env
    ensures m'.w.mem == m.w.mem && Keeps(m, m')
  {
    hide Same, FillsRead, FillsWrite, HeadStep, GetConst;
    var q := NextSlot(m, p, k);
    l' := l;
    if m.failed {
      FailedStays(nm, unify, m, Body(ConstInstr(q.1)));
    } else {
      ConstStep(nm, unify, m, q.1);
      ConstKeeps(nm, m, SlotCell(m), ConstCell(q.1));
      PushKeeps(m, ConstCell(q.1));
    }
    if !m.failed && FillsRead(l0, l, m, p, k, todo) {
      ReadSlot(l0, l, m, p, k, todo);
      ReadModeOf(l0, l, m, p, k, todo);
      l' := Solved(l, m', q);
      SameOk(nm, l0, l);
      ConstSolved(nm, l, m, q);
      SameTrans(nm, l0, l, l');
      if !m'.failed { ReadSolved(l0, l, m, p, k, todo, l', m'); }
    } else if !m.failed {
      WriteModeOf(l0, l, m, p, k, todo);
      WriteNext(l0, l, m, p, k, todo, l', m', todo, ConstCell(q.1));
    }
  }

  lemma FailedStays(nm: Names, unify: Unifier, m: Head, i: HeadInstr)
    requires m.failed
    ensures HeadStep(nm, unify, m, i) == m
  {
  }

  lemma ReadModeOf(l0: Logic, l: Logic, m: Head, p: Equation, k: nat, todo: seq<Equation>)
    requires k <= |Kids(p.1)| && FillsRead(l0, l, m, p, k, todo)
    ensures m.mode.Read? && Mirrors(l, m)
  {
  }

  lemma WriteModeOf(l0: Logic, l: Logic, m: Head, p: Equation, k: nat, todo: seq<Equation>)
    requires k <= |Kids(p.1)| && FillsWrite(l0, l, m, p, k, todo)
    ensures m.mode.Write? && l.next == m.w.next && p in l.pend && Deref(l.bind, p.0).CVar? && k <= |m.w.heap|
    ensures l.pend == l0.pend + multiset(todo)
  {
  }

  lemma SameOk(nm: Names, l: Logic, l': Logic)
    requires Same(nm, l, l') && !l'.failed
    ensures Ok(l')
  {
  }

  /** What the instruction for a slot that gets a name does. */
  lemma NameStep(nm: Names, unify: Unifier, m: Head, u: Instr)
    requires !m.failed && (u.UVoid? || u.UVar?)
    ensures var m' := HeadStep(nm, unify, m, Body(u));
            !m'.failed && m'.bind == m.bind && Keeps(m, m')
            && m'.w.mem == (if u.UVar? then m.w.mem[Addr(m.w, u.dst) := NameCell(m)] else m.w.mem)
            && if m.mode.Read? then m'.mode == Read(m.mode.slot + 1) && m'.w.heap == m.w.heap && m'.w.next == m.w.next
               else m'.mode == Write && m'.w.heap == m.w.heap + [NameCell(m)] && m'.w.next == m.w.next + 1
  {
  }

  /** The slot's cell in read mode, a new variable in write mode. */
  function NameCell(m: Head): Cell {
    if m.mode.Read? then SlotCell(m) else CVar(m.w.next)
  }

  /** A subterm that is matched later: its slot goes to a temporary cell. */
  lemma FillKid(nm: Names, unify: Unifier, l0: Logic, l: Logic, m: Head, p: Equation, k: nat, todo: seq<Equation>, dst: Loc, m': Head)
    returns (l': Logic)
    requires Fills(nm, l0, l, m, p, k, todo) && k < |Kids(p.1)| && Built(Kids(p.1)[k])
    requires m' == HeadStep(nm, unify, m, Body(UVar(dst)))
    ensures Fills(nm, l0, l', m', p, k + 1, todo + [(NameCell(m), Kids(p.1)[k])]) && l'.env == l.env
    ensures Keeps(m, m') && (!m'.failed ==> m'.w.mem == m.w.mem[Addr(m.w, dst) := NameCell(m)])
  {
    hide Same, FillsRead, FillsWrite, HeadStep, Keeps;
    var q := (NameCell(m), Kids(p.1)[k]);
    l' := l;
    if m.failed {
      FailedStays(nm, unify, m, Body(UVar(dst)));
      KeepsRefl(m);
    } else {
      NameStep(nm, unify, m, UVar(dst));
      if FillsRead(l0, l, m, p, k, todo) {
        ReadModeOf(l0, l, m, p, k, todo);
        ReadLater(l0, l, m, p, k, todo, m');
      } else {
        WriteModeOf(l0, l, m, p, k, todo);
        SameOk(nm, l0, l);
        l' := NewKid(l, q.1);
        NewKidSame(nm, l, q.1, p);
        SameTrans(nm, l0, l, l');
        TodoStep(todo, q);
        WriteLater(l0.pend, multiset(todo), q, p, l.pend);
        WriteNext(l0, l, m, p, k, todo, l', m', todo + [q], q.0);
      }
    }
  }

  lemma KeepsRefl(m: Head)
    ensures Keeps(m, m)
  {
  }

  lemma WriteLater(before: multiset<Equation>, later: multiset<Equation>, q: Equation, p: Equation, pend: multiset<Equation>)
    requires pend == before + later && p in pend
    ensures pend + multiset{q} == before + (later + multiset{q}) && pend <= pend + multiset{q}
    ensures q in pend + multiset{q} - multiset{p}
  {
  }

  /** The first occurrence of a variable: its slot is what it stands for. */
  lemma FillFirst(nm: Names, unify: Unifier, l0: Logic, l: Logic, m: Head, p: Equation, k: nat, todo: seq<Equation>, u: Instr, m': Head)
    returns (l': Logic)
    requires Fills(nm, l0, l, m, p, k, todo) && k < |Kids(p.1)| && Kids(p.1)[k].Var? && (u.UVoid? || u.UVar?)
    requires !m.failed ==> Kids(p.1)[k].v !in l.env
    requires m' == HeadStep(nm, unify, m, Body(u))
    ensures Fills(nm, l0, l', m', p, k + 1, todo) && (!m'.failed ==> l'.env == l.env[Kids(p.1)[k].v := NameCell(m)])
    ensures Keeps(m, m')
    ensures !m'.failed ==> m'.w.mem == if u.UVar? then m.w.mem[Addr(m.w, u.dst) := NameCell(m)] else m.w.mem
  {
    hide Same, FillsRead, FillsWrite, HeadStep, Keeps, Ok, PendHolds, VarsHold, Load, Addr, Store;
    var v := Kids(p.1)[k].v;
    l' := l;
    if m.failed {
      FailedStays(nm, unify, m, Body(u));
      KeepsRefl(m);
    } else {
      NameStep(nm, unify, m, u);
      SameOk(nm, l0, l);
      if FillsRead(l0, l, m, p, k, todo) {
        ReadModeOf(l0, l, m, p, k, todo);
        ReadSlot(l0, l, m, p, k, todo);
        var q := NextSlot(m, p, k);
        l' := Named(l, v, q);
        FirstSeen(nm, l, q);
        ReadSolved(l0, l, m, p, k, todo, l', m');
      } else {
        WriteModeOf(l0, l, m, p, k, todo);
        l' := NewVar(l, v);
        NewVarSame(nm, l, v, p);
        WriteNext(l0, l, m, p, k, todo, l', m', todo, NameCell(m));
      }
      SameTrans(nm, l0, l, l');
    }
  }

  predicate LaterInstr(u: Instr) {
    u.UVal? || u.ULval?
  }

  /** What the instruction for a later occurrence does in write mode: a variable that lives on
      the stack only must be pushed by the instruction that moves it to the heap. */
  lemma PushVarStep(nm: Names, unify: Unifier, m: Head, u: Instr)
    requires !m.failed && m.mode.Write? && LaterInstr(u) && Settled(m.bind)
    requires u.UVal? ==> !IsLocal(m.w, Load(m.w, u.src))
    ensures var m' := HeadStep(nm, unify, m, Body(u)); var c := Load(m.w, u.src); var d := if u.UVal? then c else Deref(m.bind, c);
            !m'.failed && m'.bind == m.bind && m'.mode == Write && m'.w.mem == m.w.mem && Keeps(m, m')
            && m'.w.heap == m.w.heap + [d] && m'.w.next == m.w.next
  {
    if u.ULval? {
      var c := Load(m.w, u.src);
      assert Ends(m.bind, c);
    }
  }

  lemma UnifyVarStep(nm: Names, unify: Unifier, m: Head, u: Instr)
    requires !m.failed && m.mode.Read? && LaterInstr(u) && IsUnifier(nm, unify)
    requires OkState(m) && Settled(m.bind) && OkCell(m.w.heap, m.w.next, SlotCell(m)) && OkCell(m.w.heap, m.w.next, Load(m.w, u.src))
    ensures var m1 := unify(m, Load(m.w, u.src), SlotCell(m));
            Unified(nm, m, Load(m.w, u.src), SlotCell(m), m1) && HeadStep(nm, unify, m, Body(u)) == Next(m1)
            && m1.w == m.w && m1.mode == m.mode && Keeps(m, Next(m1))
  {
    var m1 := unify(m, Load(m.w, u.src), SlotCell(m));
    assert Unified(nm, m, Load(m.w, u.src), SlotCell(m), m1);
  }

  /** The bindings of the machine do not run in circles while a structure is built. */
  lemma WriteSettled(l0: Logic, l: Logic, m: Head, p: Equation, k: nat, todo: seq<Equation>)
    requires k <= |Kids(p.1)| && FillsWrite(l0, l, m, p, k, todo) && Ok(l)
    ensures Settled(m.bind)
  {
    var d := Deref(l.bind, p.0);
    assert Ends(l.bind, p.0);
    BoundSettled(l.bind, d.id, Pointer(p.1, |m.w.heap| - k));
  }

  lemma EnvOk(l: Logic, m: Head, v: nat, q: Equation)
    requires Ok(l) && Mirrors(l, m) && v in l.env && q in l.pend
    ensures OkState(m) && Settled(m.bind) && OkCell(m.w.heap, m.w.next, l.env[v]) && OkCell(m.w.heap, m.w.next, q.0)
  {
  }

  /** A later occurrence of a variable: its value is unified with the slot, or pushed. */
  lemma FillLater(nm: Names, unify: Unifier, l0: Logic, l: Logic, m: Head, p: Equation, k: nat, todo: seq<Equation>, u: Instr, m': Head)
    returns (l': Logic)
    requires Fills(nm, l0, l, m, p, k, todo) && k < |Kids(p.1)| && Kids(p.1)[k].Var? && LaterInstr(u) && IsUnifier(nm, unify)
    requires !m.failed ==> Kids(p.1)[k].v in l.env && Load(m.w, u.src) == l.env[Kids(p.1)[k].v]
    requires !m.failed && u.UVal? ==> !IsLocal(m.w, Load(m.w, u.src))
    requires m' == HeadStep(nm, unify, m, Body(u))
    ensures Fills(nm, l0, l', m', p, k + 1, todo) && l'.env == l.env
    ensures Keeps(m, m') && m'.w.mem == m.w.mem
  {
    hide Same, Ok, FillsRead, FillsWrite, HeadStep, Keeps, Unified, IsUnifier;
    l' := l;
    if m.failed {
      FailedStays(nm, unify, m, Body(u));
      KeepsRefl(m);
    } else {
      SameOk(nm, l0, l);
      if FillsRead(l0, l, m, p, k, todo) {
        var q := NextSlot(m, p, k);
        ReadModeOf(l0, l, m, p, k, todo);
        ReadSlot(l0, l, m, p, k, todo);
        EnvOk(l, m, q.1.v, q);
        UnifyVarStep(nm, unify, m, u);
        l' := Solved(l, m', q);
        UnifySolved(nm, l, m, q, Load(m.w, u.src), SlotCell(m), unify(m, Load(m.w, u.src), SlotCell(m)));
        SameTrans(nm, l0, l, l');
        if !m'.failed { ReadSolved(l0, l, m, p, k, todo, l', m'); }
      } else {
        WriteModeOf(l0, l, m, p, k, todo);
        WriteSettled(l0, l, m, p, k, todo);
        PushVarStep(nm, unify, m, u);
        WriteNext(l0, l, m, p, k, todo, l', m', todo, m'.w.heap[|m.w.heap|]);
      }
    }
  }

  lemma WriteMoved(l0: Logic, l: Logic, m: Head, p: Equation, k: nat, todo: seq<Equation>, m': Head)
    requires k <= |Kids(p.1)| && FillsWrite(l0, l, m, p, k, todo)
    requires m' == m.(w := m'.w) && m'.w == m.w.(sp := m'.w.sp)
    ensures FillsWrite(l0, l, m', p, k, todo)
  {
    hide SlotDone;
    var base := |m.w.heap| - k;
    forall j: nat | j < k ensures DoneAt(l, m', p, base, j) { assert DoneAt(l, m, p, base, j); }
  }

  /** Moving the stack pointer leaves the structure as it is. */
  lemma FillsMoved(nm: Names, l0: Logic, l: Logic, m: Head, p: Equation, k: nat, todo: seq<Equation>, m': Head)
    requires Fills(nm, l0, l, m, p, k, todo)
    requires m' == m.(w := m'.w) && m'.w == m.w.(sp := m'.w.sp)
    ensures Fills(nm, l0, l, m', p, k, todo)
  {
    hide Same, FillsWrite;
    if !m.failed && FillsWrite(l0, l, m, p, k, todo) {
      WriteMoved(l0, l, m, p, k, todo, m');
    }
  }

  /** What a first occurrence stands for may be referred to from the heap. */
  lemma NameGlobal(nm: Names, l0: Logic, l: Logic, m: Head, p: Equation, k: nat, todo: seq<Equation>, m': Head)
    requires Fills(nm, l0, l, m, p, k, todo) && k < |Kids(p.1)| && !m.failed && Global(m) && FreshIds(m.w) && Keeps(m, m')
    ensures !IsLocal(m'.w, NameCell(m)) && FreshIds(m'.w)
  {
    if FillsRead(l0, l, m, p, k, todo) {
      ReadModeOf(l0, l, m, p, k, todo);
    } else {
      WriteModeOf(l0, l, m, p, k, todo);
    }
  }

  /** The first instruction of a structure writes nothing to the stack. */
  lemma GetKeeps(m: Head, c: Cell, t: Term)
    requires Settled(m.bind)
    ensures Keeps(m, GetCompound(m, c, t)) && GetCompound(m, c, t).w.mem == m.w.mem
  {
    assert Ends(m.bind, c);
  }

  // ---- the subterms left ----

  /** What the equations count together: occurrences of `w`, or nodes when it is -1. */
  function SumTally(w: int, todo: seq<Equation>): nat {
    if todo == [] then 0 else SumTally(w, todo[..|todo| - 1]) + Tally(w, todo[|todo| - 1].1)
  }

  lemma SumSnoc(w: int, todo: seq<Equation>, q: Equation)
    ensures SumTally(w, todo + [q]) == SumTally(w, todo) + Tally(w, q.1)
  {
    assert (todo + [q])[..|todo|] == todo;
  }

  lemma SumNext(w: int, todo: seq<Equation>, i: nat)
    requires i < |todo|
    ensures SumTally(w, todo[..i + 1]) == SumTally(w, todo[..i]) + Tally(w, todo[i].1)
  {
    assert todo[..i + 1] == todo[..i] + [todo[i]];
    SumSnoc(w, todo[..i], todo[i]);
  }

  /** The subterms from `i` on have at least as many nodes as there are. */
  lemma {:induction false} SumRest(w: int, todo: seq<Equation>, i: nat, n: nat)
    requires i < n <= |todo|
    ensures SumTally(w, todo[..n]) >= SumTally(w, todo[..i]) + Tally(w, todo[i].1)
    ensures w < 0 ==> SumTally(w, todo[..n]) >= SumTally(w, todo[..i]) + Tally(w, todo[i].1) + (n - i - 1)
    decreases n
  {
    SumNext(w, todo, n - 1);
    if i < n - 1 { SumRest(w, todo, i, n - 1); }
  }
}
