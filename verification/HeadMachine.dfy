/** Head unification on the abstract machine.  Arguments are arbitrary terms: a variable
    may be bound, and then refers to another cell.  Get instructions either match an
    existing structure (read mode) or build one for an unbound variable (write mode). */
module HeadMachine {
  import opened Wam

  /** A ground term.  Atoms are names: a symbol and a string with the same text are one atom. */
  datatype Value =
    | VInt(i: int)
    | VAtom(name: string)
    | VList(car: Value, cdr: Value)
    | VStruct(functor: int, args: seq<Value>)

  type Names = int -> string
  type Solution = map<nat, Value>

  function Parts(x: Value): (parts: seq<Value>)
    ensures forall k | 0 <= k < |parts| :: parts[k] < x
  {
    match x
    case VList(car, cdr) => [car, cdr]
    case VStruct(_, args) => args
    case _ => []
  }

  /** The instance of a head term when its variables stand for the values `sigma`. */
  function Inst(nm: Names, sigma: seq<Value>, t: Term): Value
    decreases t
  {
    match t
    case Int(i) => VInt(i)
    case Sym(tok) => VAtom(nm(tok))
    case Uia(name) => VAtom(name)
    case Var(v) => if v < |sigma| then sigma[v] else VInt(0)
    case List(car, cdr) => VList(Inst(nm, sigma, car), Inst(nm, sigma, cdr))
    case Struct(f, args) =>
      VStruct(f, seq(|args|, k requires 0 <= k < |args| => Inst(nm, sigma, args[k])))
  }

  lemma PartsOfInst(nm: Names, sigma: seq<Value>, t: Term)
    requires Compound(t)
    ensures |Parts(Inst(nm, sigma, t))| == |Kids(t)|
    ensures forall k | 0 <= k < |Kids(t)| :: Parts(Inst(nm, sigma, t))[k] == Inst(nm, sigma, Kids(t)[k])
  {
  }

  // ---- what a cell stands for ----

  predicate Fits(h: seq<Cell>, c: Cell, x: Value) {
    match x
    case VList(_, _) => c.CList?
    case VStruct(f, args) => c.CStr? && c.a < |h| && h[c.a] == CFun(f, |args|)
    case _ => false
  }

  function PartCell(h: seq<Cell>, c: Cell, k: nat): Cell
    requires ArgBase(c) + k < |h|
  {
    h[ArgBase(c) + k]
  }

  /** The value of `c` when each variable has the value `rho` gives it. */
  ghost predicate Stands(nm: Names, h: seq<Cell>, rho: Solution, c: Cell, x: Value)
    decreases x
  {
    match c
    case CVar(id) => id in rho && rho[id] == x
    case CInt(i) => x == VInt(i)
    case CSym(tok) => x == VAtom(nm(tok))
    case CUia(name) => x == VAtom(name)
    case Junk => false
    case CFun(_, _) => false
    case _ =>
      && Fits(h, c, x) && ArgBase(c) + |Parts(x)| <= |h|
      && forall k: nat | k < |Parts(x)| :: Stands(nm, h, rho, PartCell(h, c, k), Parts(x)[k])
  }

  /** `c` points at a finished structure and mentions only variables handed out so far. */
  predicate OkCell(h: seq<Cell>, n: nat, c: Cell) {
    match c
    case CVar(id) => id < n
    case CStr(a) => a < |h| && h[a].CFun? && a + 1 + h[a].arity <= |h|
    case CList(a) => a + 2 <= |h|
    case _ => true
  }

  predicate OkHeap(h: seq<Cell>, n: nat) {
    forall i | 0 <= i < |h| :: OkCell(h, n, h[i])
  }

  predicate Agree(rho: Solution, rho': Solution, n: nat) {
    forall id: nat | id < n :: id in rho && id in rho' && rho[id] == rho'[id]
  }

  /** The parts of a compound cell in order are cells in order, and the same in a longer heap. */
  lemma PartsSame(h: seq<Cell>, h': seq<Cell>, n: nat, c: Cell, x: Value)
    requires OkHeap(h, n) && OkCell(h, n, c) && h <= h' && (c.CStr? || c.CList?)
    ensures Fits(h, c, x) <==> Fits(h', c, x)
    ensures Fits(h, c, x) ==> ArgBase(c) + |Parts(x)| <= |h| <= |h'|
    ensures Fits(h, c, x) ==> forall k: nat | k < |Parts(x)| :: PartSame(h, h', n, c, k)
  {
  }

  predicate PartSame(h: seq<Cell>, h': seq<Cell>, n: nat, c: Cell, k: nat) {
    && ArgBase(c) + k < |h| && ArgBase(c) + k < |h'|
    && PartCell(h, c, k) == PartCell(h', c, k) && OkCell(h, n, PartCell(h, c, k))
  }

  lemma {:induction false} StandsLater(nm: Names, h: seq<Cell>, h': seq<Cell>, rho: Solution, rho': Solution, n: nat, c: Cell, x: Value)
    requires OkHeap(h, n) && OkCell(h, n, c) && h <= h' && Agree(rho, rho', n)
    requires Stands(nm, h, rho, c, x)
    ensures Stands(nm, h', rho', c, x)
    decreases x
  {
    hide OkHeap, Fits;
    if c.CStr? || c.CList? {
      PartsSame(h, h', n, c, x);
      forall k: nat | k < |Parts(x)| ensures Stands(nm, h', rho', PartCell(h', c, k), Parts(x)[k]) {
        assert PartSame(h, h', n, c, k);
        StandsLater(nm, h, h', rho, rho', n, PartCell(h, c, k), Parts(x)[k]);
      }
    }
  }

  lemma {:induction false} StandsBefore(nm: Names, h: seq<Cell>, h': seq<Cell>, rho: Solution, rho': Solution, n: nat, c: Cell, x: Value)
    requires OkHeap(h, n) && OkCell(h, n, c) && h <= h' && Agree(rho, rho', n)
    requires Stands(nm, h', rho', c, x)
    ensures Stands(nm, h, rho, c, x)
    decreases x
  {
    hide OkHeap, Fits;
    if c.CStr? || c.CList? {
      PartsSame(h, h', n, c, x);
      forall k: nat | k < |Parts(x)| ensures Stands(nm, h, rho, PartCell(h, c, k), Parts(x)[k]) {
        assert PartSame(h, h', n, c, k);
        StandsBefore(nm, h, h', rho, rho', n, PartCell(h, c, k), Parts(x)[k]);
      }
    }
  }

  /** What a cell stands for depends neither on heap cells added later nor on later variables. */
  lemma StandsSame(nm: Names, h: seq<Cell>, h': seq<Cell>, rho: Solution, rho': Solution, n: nat, c: Cell, x: Value)
    requires OkHeap(h, n) && OkCell(h, n, c) && h <= h' && Agree(rho, rho', n)
    ensures Stands(nm, h, rho, c, x) <==> Stands(nm, h', rho', c, x)
  {
    hide OkHeap, OkCell, Stands, Agree;
    if Stands(nm, h, rho, c, x) { StandsLater(nm, h, h', rho, rho', n, c, x); }
    if Stands(nm, h', rho', c, x) { StandsBefore(nm, h, h', rho, rho', n, c, x); }
  }

  lemma {:induction false} StandsUnique(nm: Names, h: seq<Cell>, rho: Solution, c: Cell, x: Value, y: Value)
    requires Stands(nm, h, rho, c, x) && Stands(nm, h, rho, c, y)
    ensures x == y
    decreases x
  {
    if c.CStr? || c.CList? {
      forall k: nat | k < |Parts(x)| ensures Parts(x)[k] == Parts(y)[k] {
        StandsUnique(nm, h, rho, PartCell(h, c, k), Parts(x)[k], Parts(y)[k]);
      }
      if c.CStr? { assert x.args == y.args; } else { assert x.car == Parts(x)[0] && x.cdr == Parts(x)[1] && y.car == Parts(y)[0] && y.cdr == Parts(y)[1]; }
    }
  }

  /** A list cell stands for the values of the cell its address names and of the next one. */
  lemma StandsList(nm: Names, h: seq<Cell>, rho: Solution, a: nat, x: Value)
    ensures Stands(nm, h, rho, CList(a), x) <==>
            && x.VList? && a + 2 <= |h|
            && Stands(nm, h, rho, h[a], x.car) && Stands(nm, h, rho, h[a + 1], x.cdr)
  {
    var c := CList(a);
    if x.VList? {
      assert Parts(x)[0] == x.car && Parts(x)[1] == x.cdr;
      if Stands(nm, h, rho, c, x) {
        assert Stands(nm, h, rho, PartCell(h, c, 0), Parts(x)[0]);
        assert Stands(nm, h, rho, PartCell(h, c, 1), Parts(x)[1]);
      }
    }
  }

  /** The arguments of a structure are the values of the cells behind the functor. */
  lemma StandsStruct(nm: Names, h: seq<Cell>, rho: Solution, a: nat, x: Value)
    ensures Stands(nm, h, rho, CStr(a), x) <==>
            && x.VStruct? && a + 1 + |x.args| <= |h| && h[a] == CFun(x.functor, |x.args|)
            && forall k | 0 <= k < |x.args| :: Stands(nm, h, rho, h[a + 1 + k], x.args[k])
  {
    var c := CStr(a);
    if x.VStruct? && Stands(nm, h, rho, c, x) {
      forall k | 0 <= k < |x.args| ensures Stands(nm, h, rho, h[a + 1 + k], x.args[k]) {
        assert Stands(nm, h, rho, PartCell(h, c, k), Parts(x)[k]);
      }
    }
  }

  // ---- bindings ----

  type Bindings = map<nat, Cell>

  /** Follows references from a bound variable to what it is bound to. */
  function Deref(bind: Bindings, c: Cell): Cell
    decreases bind.Keys
  {
    if c.CVar? && c.id in bind then Deref(bind - {c.id}, bind[c.id]) else c
  }

  predicate Unbound(bind: Bindings, c: Cell) {
    c.CVar? ==> c.id !in bind
  }

  /** References do not run in circles. */
  ghost predicate Settled(bind: Bindings) {
    forall c :: Ends(bind, c)
  }

  predicate Ends(bind: Bindings, c: Cell) {
    Unbound(bind, Deref(bind, c))
  }

  predicate OkBind(h: seq<Cell>, n: nat, bind: Bindings) {
    forall id | id in bind :: id < n && OkCell(h, n, bind[id])
  }

  ghost predicate Satisfies(nm: Names, h: seq<Cell>, n: nat, bind: Bindings, rho: Solution) {
    && (forall id: nat | id < n :: id in rho)
    && (forall id | id in bind :: id in rho && Stands(nm, h, rho, bind[id], rho[id]))
  }

  lemma {:induction false} DerefSame(nm: Names, h: seq<Cell>, n: nat, bind: Bindings, rho: Solution, c: Cell, x: Value)
    requires Satisfies(nm, h, n, bind, rho)
    ensures Stands(nm, h, rho, c, x) <==> Stands(nm, h, rho, Deref(bind, c), x)
    decreases bind.Keys
  {
    if c.CVar? && c.id in bind {
      var y := rho[c.id];
      assert Stands(nm, h, rho, bind[c.id], y);
      if Stands(nm, h, rho, bind[c.id], x) { StandsUnique(nm, h, rho, bind[c.id], x, y); }
      DerefSame(nm, h, n, bind - {c.id}, rho, bind[c.id], x);
    }
  }

  lemma {:induction false} DerefOk(h: seq<Cell>, n: nat, bind: Bindings, c: Cell)
    requires OkBind(h, n, bind) && OkCell(h, n, c)
    ensures OkCell(h, n, Deref(bind, c))
    decreases bind.Keys
  {
    if c.CVar? && c.id in bind {
      DerefOk(h, n, bind - {c.id}, bind[c.id]);
    }
  }

  /** Binding an unbound variable to the end of another chain lengthens the chains that ended in it. */
  lemma {:induction false} DerefBound(bind: Bindings, id: nat, d: Cell, c: Cell)
    requires id !in bind && Unbound(bind, d) && d != CVar(id)
    ensures Deref(bind[id := d], c) == if Deref(bind, c) == CVar(id) then d else Deref(bind, c)
    decreases bind.Keys
  {
    if c == CVar(id) {
      assert bind[id := d] - {id} == bind;
    } else if c.CVar? && c.id in bind {
      assert bind[id := d] - {c.id} == (bind - {c.id})[id := d];
      DerefBound(bind - {c.id}, id, d, bind[c.id]);
    }
  }

  lemma BoundSettled(bind: Bindings, id: nat, d: Cell)
    requires Settled(bind) && id !in bind && Unbound(bind, d) && d != CVar(id)
    ensures Settled(bind[id := d])
  {
    var bind' := bind[id := d];
    forall c ensures Ends(bind', c) {
      DerefBound(bind, id, d, c);
      assert Ends(bind, c);
    }
  }

  lemma BoundSatisfies(nm: Names, h: seq<Cell>, n: nat, bind: Bindings, rho: Solution, id: nat, d: Cell)
    requires id !in bind && id < n
    ensures Satisfies(nm, h, n, bind[id := d], rho) <==>
            Satisfies(nm, h, n, bind, rho) && Stands(nm, h, rho, d, rho[id])
  {
    if Satisfies(nm, h, n, bind[id := d], rho) {
      assert bind[id := d][id] == d;
      forall j | j in bind ensures j in rho && Stands(nm, h, rho, bind[j], rho[j]) {
        assert bind[id := d][j] == bind[j];
      }
    }
  }

  // ---- the machine ----

  /** Read mode walks along the slots of an existing structure, write mode appends to the heap. */
  datatype Mode = Write | Read(slot: nat)

  datatype Head = Head(w: Machine, bind: Bindings, mode: Mode, failed: bool)

  datatype HeadInstr =
    | GInt(i: int, src: Loc)
    | GSym(tok: int, src: Loc)
    | GUia(name: string, src: Loc)
    | GValue(src: Loc, home: Loc)
    | GList(src: Loc)
    | GStructure(functor: int, arity: nat, src: Loc)
    | Body(instr: Instr)

  ghost predicate Solves(nm: Names, m: Head, rho: Solution) {
    !m.failed && Satisfies(nm, m.w.heap, m.w.next, m.bind, rho)
  }

  ghost predicate Meet(nm: Names, h: seq<Cell>, rho: Solution, a: Cell, b: Cell) {
    exists x :: Stands(nm, h, rho, a, x) && Stands(nm, h, rho, b, x)
  }

  /** `c` is free of unbound variables, and stands for `x`. */
  ghost predicate Ground(nm: Names, h: seq<Cell>, bind: Bindings, c: Cell, x: Value)
    decreases x
  {
    var d := Deref(bind, c);
    match d
    case CVar(_) => false
    case CInt(i) => x == VInt(i)
    case CSym(tok) => x == VAtom(nm(tok))
    case CUia(name) => x == VAtom(name)
    case Junk => false
    case CFun(_, _) => false
    case _ =>
      && Fits(h, d, x) && ArgBase(d) + |Parts(x)| <= |h|
      && forall k: nat | k < |Parts(x)| :: Ground(nm, h, bind, PartCell(h, d, k), Parts(x)[k])
  }

  ghost predicate IsGround(nm: Names, h: seq<Cell>, bind: Bindings, c: Cell) {
    exists x :: Ground(nm, h, bind, c, x)
  }

  lemma {:induction false} GroundStands(nm: Names, h: seq<Cell>, n: nat, bind: Bindings, rho: Solution, c: Cell, x: Value)
    requires Satisfies(nm, h, n, bind, rho) && Ground(nm, h, bind, c, x)
    ensures Stands(nm, h, rho, c, x)
    decreases x
  {
    var d := Deref(bind, c);
    DerefSame(nm, h, n, bind, rho, c, x);
    if d.CStr? || d.CList? {
      forall k: nat | k < |Parts(x)| ensures Stands(nm, h, rho, PartCell(h, d, k), Parts(x)[k]) {
        GroundStands(nm, h, n, bind, rho, PartCell(h, d, k), Parts(x)[k]);
      }
    }
  }

  /** A ground list is one of ground slots, wherever the references lead. */
  lemma GroundList(nm: Names, h: seq<Cell>, bind: Bindings, c: Cell, x: Value)
    requires Deref(bind, c).CList?
    ensures var a := Deref(bind, c).a;
            Ground(nm, h, bind, c, x) <==>
            && x.VList? && a + 2 <= |h|
            && Ground(nm, h, bind, h[a], x.car) && Ground(nm, h, bind, h[a + 1], x.cdr)
  {
    var d := Deref(bind, c);
    if x.VList? {
      assert Parts(x)[0] == x.car && Parts(x)[1] == x.cdr;
      if Ground(nm, h, bind, c, x) {
        assert Ground(nm, h, bind, PartCell(h, d, 0), Parts(x)[0]);
        assert Ground(nm, h, bind, PartCell(h, d, 1), Parts(x)[1]);
      }
    }
  }

  lemma GroundStruct(nm: Names, h: seq<Cell>, bind: Bindings, c: Cell, x: Value)
    requires Deref(bind, c).CStr?
    ensures var a := Deref(bind, c).a;
            Ground(nm, h, bind, c, x) <==>
            && x.VStruct? && a + 1 + |x.args| <= |h| && h[a] == CFun(x.functor, |x.args|)
            && forall k | 0 <= k < |x.args| :: Ground(nm, h, bind, h[a + 1 + k], x.args[k])
  {
    var d := Deref(bind, c);
    if x.VStruct? && Ground(nm, h, bind, c, x) {
      forall k | 0 <= k < |x.args| ensures Ground(nm, h, bind, h[d.a + 1 + k], x.args[k]) {
        assert Ground(nm, h, bind, PartCell(h, d, k), Parts(x)[k]);
      }
    }
  }

  predicate OkState(m: Head) {
    OkHeap(m.w.heap, m.w.next) && OkBind(m.w.heap, m.w.next, m.bind)
  }

  /** No variable of the heap refers to one that lives on the stack only. */
  predicate NoStackRefs(locals: set<nat>, bind: Bindings) {
    forall id | id in bind :: id in locals || !bind[id].CVar? || bind[id].id !in locals
  }

  /** What is asked of unification: it binds variables so that the solutions left are those
      in which both cells have one value, or fails when there are none. */
  ghost predicate Unified(nm: Names, m: Head, a: Cell, b: Cell, m': Head) {
    && (forall rho :: Solves(nm, m', rho) <==> Solves(nm, m, rho) && Meet(nm, m.w.heap, rho, a, b))
    && m' == m.(bind := m'.bind, failed := m'.failed)
    && (!m'.failed ==>
          && OkState(m') && Settled(m'.bind)
          && (IsGround(nm, m.w.heap, m.bind, a) && IsGround(nm, m.w.heap, m.bind, b) ==> m'.bind == m.bind)
          && (NoStackRefs(m.w.locals, m.bind) ==> NoStackRefs(m.w.locals, m'.bind)))
  }

  type Unifier = (Head, Cell, Cell) -> Head

  ghost predicate IsUnifier(nm: Names, unify: Unifier) {
    forall m: Head, a: Cell, b: Cell ::
      !m.failed && OkState(m) && Settled(m.bind) && OkCell(m.w.heap, m.w.next, a) && OkCell(m.w.heap, m.w.next, b)
      ==> Unified(nm, m, a, b, unify(m, a, b))
  }

  // ---- steps ----

  predicate SameConst(nm: Names, d: Cell, k: Cell) {
    || d == k
    || (d.CUia? && k.CSym? && d.name == nm(k.tok))
    || (d.CSym? && k.CUia? && nm(d.tok) == k.name)
  }

  function GetConst(nm: Names, m: Head, c: Cell, k: Cell): Head {
    var d := Deref(m.bind, c);
    if d.CVar? then m.(bind := m.bind[d.id := k])
    else if SameConst(nm, d, k) then m
    else m.(failed := true)
  }

  function GetList(m: Head, c: Cell): Head {
    match Deref(m.bind, c)
    case CVar(id) => m.(bind := m.bind[id := CList(|m.w.heap|)], mode := Write)
    case CList(a) => m.(mode := Read(a))
    case _ => m.(failed := true)
  }

  function GetStructure(m: Head, c: Cell, f: int, n: nat): Head {
    match Deref(m.bind, c)
    case CVar(id) => m.(w := Push(m.w, CFun(f, n)), bind := m.bind[id := CStr(|m.w.heap|)], mode := Write)
    case CStr(a) =>
      if a < |m.w.heap| && m.w.heap[a] == CFun(f, n) then m.(mode := Read(a + 1)) else m.(failed := true)
    case _ => m.(failed := true)
  }

  function SlotCell(m: Head): Cell {
    if m.mode.Read? && m.mode.slot < |m.w.heap| then m.w.heap[m.mode.slot] else Junk
  }

  function Next(m: Head): Head {
    if m.mode.Read? then m.(mode := Read(m.mode.slot + 1)) else m
  }

  function HeadStep(nm: Names, unify: Unifier, m: Head, i: HeadInstr): Head {
    if m.failed then m
    else
      match i
      case GInt(n, src) => GetConst(nm, m, Load(m.w, src), CInt(n))
      case GSym(tok, src) => GetConst(nm, m, Load(m.w, src), CSym(tok))
      case GUia(name, src) => GetConst(nm, m, Load(m.w, src), CUia(name))
      case GValue(src, home) => unify(m, Load(m.w, src), Load(m.w, home))
      case GList(src) => GetList(m, Load(m.w, src))
      case GStructure(f, n, src) => GetStructure(m, Load(m.w, src), f, n)
      case Body(u) => UnifyStep(nm, unify, m, u)
  }

  /** The instructions for slots depend on the mode; the others are as in a body. */
  function UnifyStep(nm: Names, unify: Unifier, m: Head, u: Instr): Head {
    match u
    case UInt(n) =>
      if m.mode.Read? then Next(GetConst(nm, m, SlotCell(m), CInt(n))) else m.(w := Push(m.w, CInt(n)))
    case USym(tok) =>
      if m.mode.Read? then Next(GetConst(nm, m, SlotCell(m), CSym(tok))) else m.(w := Push(m.w, CSym(tok)))
    case UVoid => if m.mode.Read? then Next(m) else m.(w := Step(m.w, u))
    case UVal(src) =>
      if m.mode.Read? then Next(unify(m, Load(m.w, src), SlotCell(m))) else m.(w := Push(m.w, Load(m.w, src)))
    case ULval(src) =>
      if m.mode.Read? then Next(unify(m, Load(m.w, src), SlotCell(m)))
      else
        var d := Deref(m.bind, Load(m.w, src));
        m.(w := Push(m.w, d).(locals := Globalized(m.w, d)))
    case UVar(dst) =>
      if m.mode.Read? then Next(m.(w := Store(m.w, dst, SlotCell(m)))) else m.(w := Step(m.w, u))
    case _ => m.(w := Step(m.w, u))
  }

  function HeadRun(nm: Names, unify: Unifier, m: Head, code: seq<HeadInstr>): Head
    decreases |code|
  {
    if code == [] then m
    else HeadStep(nm, unify, HeadRun(nm, unify, m, code[..|code| - 1]), code[|code| - 1])
  }

  lemma HeadRunSnoc(nm: Names, unify: Unifier, m: Head, code: seq<HeadInstr>, i: HeadInstr)
    ensures HeadRun(nm, unify, m, code + [i]) == HeadStep(nm, unify, HeadRun(nm, unify, m, code), i)
  {
    assert (code + [i])[..|code|] == code;
  }
}
