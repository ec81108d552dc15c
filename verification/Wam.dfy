/** The abstract machine that the clause compiler emits code for.

    Instructions are the Portable ones: `U_*` instructions append to the top of the
    heap, so a structure is the run of cells that follows its functor.  A variable is
    an identity rather than a self-reference.  `locals` holds the identities that still
    live only in an environment and have no heap cell, `guarded` those whose environment
    lies at or above `spb`, where a choice point protects it. */
module Wam {

  datatype Term =
    | Int(i: int)
    | Sym(tok: int)
    | Uia(name: string)
    | Var(v: nat)
    | List(car: Term, cdr: Term)
    | Struct(functor: int, args: seq<Term>)

  predicate Compound(t: Term) {
    t.List? || t.Struct?
  }

  /** Terms that are set up by a structure-building instruction of their own. */
  predicate Built(t: Term) {
    Compound(t) || t.Uia?
  }

  /** The subterms that one structure-building instruction sequence fills in. */
  function Kids(t: Term): (kids: seq<Term>)
    ensures forall k | 0 <= k < |kids| :: kids[k] < t
  {
    match t
    case List(car, cdr) => [car, cdr]
    case Struct(_, args) => args
    case _ => []
  }

  /** For a variable `w`, the number of its occurrences in `t`; for w == -1, the number of nodes. */
  function Tally(w: int, t: Term): nat
    decreases t, |Kids(t)| + 1
  {
    Unit(w, t) + BuiltTally(w, t, |Kids(t)|) + LeafTally(w, Kids(t), 0)
  }

  function Unit(w: int, t: Term): nat {
    if w < 0 || t == Var(w) then 1 else 0
  }

  /** The share of the first `i` subterms, counting only those built separately. */
  function BuiltTally(w: int, t: Term, i: nat): nat
    requires i <= |Kids(t)|
    decreases t, i
  {
    if i == 0 then 0
    else BuiltTally(w, t, i - 1) + if Built(Kids(t)[i - 1]) then Tally(w, Kids(t)[i - 1]) else 0
  }

  /** The share of the variables and constants from position `k` on. */
  function LeafTally(w: int, kids: seq<Term>, k: nat): nat
    requires k <= |kids|
    decreases |kids| - k
  {
    if k == |kids| then 0
    else (if Built(kids[k]) then 0 else Unit(w, kids[k])) + LeafTally(w, kids, k + 1)
  }

  function Size(t: Term): nat {
    Tally(-1, t)
  }

  lemma SimpleTally(t: Term)
    requires !Compound(t)
    ensures forall w :: Tally(w, t) == Unit(w, t)
  {
  }

  /** The nodes of one subterm and the slots of its siblings fit into the nodes of the whole. */
  lemma {:induction false} SizeOfKid(t: Term, k: nat)
    requires k < |Kids(t)| && Built(Kids(t)[k])
    ensures |Kids(t)| + Size(Kids(t)[k]) <= Size(t)
  {
    BuiltShare(t, |Kids(t)|, k);
    LeafShare(Kids(t), 0);
  }

  lemma SizeOfKids(t: Term)
    ensures |Kids(t)| < Size(t)
  {
    BuiltShare(t, |Kids(t)|, 0);
    LeafShare(Kids(t), 0);
  }

  /** Whatever occurs in a subterm occurs in the term. */
  lemma KidTally(v: nat, t: Term, k: nat)
    requires Compound(t) && k < |Kids(t)|
    ensures Tally(v, Kids(t)[k]) <= Tally(v, t)
  {
    if Built(Kids(t)[k]) { BuiltPart(v, t, |Kids(t)|, k); } else { LeafPart(v, Kids(t), 0, k); SimpleTally(Kids(t)[k]); }
  }

  lemma {:induction false} BuiltPart(v: nat, t: Term, i: nat, k: nat)
    requires k < i <= |Kids(t)| && Built(Kids(t)[k])
    ensures Tally(v, Kids(t)[k]) <= BuiltTally(v, t, i)
  {
    if k < i - 1 { BuiltPart(v, t, i - 1, k); }
  }

  lemma {:induction false} LeafPart(v: nat, kids: seq<Term>, i: nat, k: nat)
    requires i <= k < |kids| && !Built(kids[k])
    ensures Unit(v, kids[k]) <= LeafTally(v, kids, i)
    decreases k - i
  {
    if i < k { LeafPart(v, kids, i + 1, k); }
  }

  function BuiltBelow(kids: seq<Term>, i: nat): nat
    requires i <= |kids|
  {
    if i == 0 then 0 else BuiltBelow(kids, i - 1) + if Built(kids[i - 1]) then 1 else 0
  }

  lemma {:induction false} BuiltShare(t: Term, i: nat, k: nat)
    requires i <= |Kids(t)|
    ensures BuiltBelow(Kids(t), i) <= BuiltTally(-1, t, i)
    ensures k < i && Built(Kids(t)[k]) ==> BuiltTally(-1, t, i) >= BuiltBelow(Kids(t), i) - 1 + Size(Kids(t)[k])
  {
    if i > 0 { BuiltShare(t, i - 1, k); }
  }

  lemma {:induction false} LeafShare(kids: seq<Term>, k: nat)
    requires k <= |kids|
    ensures LeafTally(-1, kids, k) == |kids| - k - (BuiltBelow(kids, |kids|) - BuiltBelow(kids, k))
    decreases |kids| - k
  {
    if k < |kids| { LeafShare(kids, k + 1); }
  }

  // ---- cells, instructions and machine states ----

  datatype Cell =
    | Junk
    | CInt(i: int)
    | CSym(tok: int)
    | CUia(name: string)
    | CFun(functor: int, arity: nat)
    | CVar(id: nat)
    | CStr(a: nat)
    | CList(a: nat)

  datatype Base = REGS | SPREG | EREG

  datatype Loc = Loc(base: Base, disp: int)

  datatype Instr =
    | AddToSp(n: int)
    | Move(src: Loc, dst: Loc)
    | PUnsafe(src: Loc, dst: Loc)
    | PInt(i: int, dst: Loc)
    | PSym(tok: int, dst: Loc)
    | PUia(name: string, dst: Loc)
    | PYVar(y: Loc, dst: Loc)
    | PXVar(dst: Loc)
    | InitYVar1(y: Loc)
    | InitYVar2(incr: int)
    | PList(dst: Loc)
    | PStructure(functor: int, arity: nat, dst: Loc)
    | UInt(i: int)
    | USym(tok: int)
    | UVoid
    | UVal(src: Loc)
    | ULval(src: Loc)
    | UVar(dst: Loc)
    | EndStruct

  /** `open` holds between a structure's first instruction and its EndStruct; `spilled`
      records that a heap cell was pushed by PUnsafe while a structure was open.  `cursor` is
      the cell behind the last one that was initialized. */
  datatype Machine = Machine(
    e: int,
    sp: int,
    mem: map<int, Cell>,
    heap: seq<Cell>,
    next: nat,
    locals: set<nat>,
    spb: int,
    guarded: set<nat>,
    open: bool,
    spilled: bool,
    cursor: int)

  function Addr(m: Machine, l: Loc): int {
    match l.base
    case EREG => m.e + l.disp
    case SPREG => m.sp + l.disp
    case REGS => l.disp
  }

  function Get(mem: map<int, Cell>, a: int): Cell {
    if a in mem then mem[a] else Junk
  }

  predicate IsLocal(m: Machine, c: Cell) {
    c.CVar? && c.id in m.locals
  }

  /** The local variables that no choice point protects. */
  function Exposed(m: Machine): set<nat> {
    m.locals - m.guarded
  }

  predicate IsExposed(m: Machine, c: Cell) {
    c.CVar? && c.id in Exposed(m)
  }

  function Globalized(m: Machine, c: Cell): set<nat> {
    if c.CVar? then m.locals - {c.id} else m.locals
  }

  function Push(m: Machine, c: Cell): Machine {
    m.(heap := m.heap + [c])
  }

  function Store(m: Machine, l: Loc, c: Cell): Machine {
    m.(mem := m.mem[Addr(m, l) := c])
  }

  function Load(m: Machine, l: Loc): Cell {
    Get(m.mem, Addr(m, l))
  }

  /** A new variable in cell `a` of the environment. */
  function NewLocal(m: Machine, a: int): Machine {
    m.(mem := m.mem[a := CVar(m.next)], next := m.next + 1, locals := m.locals + {m.next},
       guarded := if a < m.spb then m.guarded - {m.next} else m.guarded + {m.next})
  }

  function Step(m: Machine, i: Instr): Machine {
    match i
    case AddToSp(n) => m.(sp := m.sp + n)
    case Move(src, dst) => Store(m, dst, Load(m, src))
    case PUnsafe(src, dst) =>
      var c := Load(m, src);
      var m1 := Store(m, dst, c);
      if IsExposed(m, c)
      then Push(m1, c).(locals := Globalized(m, c), spilled := m.spilled || m.open)
      else m1
    case PInt(n, dst) => Store(m, dst, CInt(n))
    case PSym(tok, dst) => Store(m, dst, CSym(tok))
    case PUia(name, dst) => Store(m, dst, CUia(name))
    case PYVar(y, dst) =>
      Store(NewLocal(m, Addr(m, y)), dst, CVar(m.next))
    case PXVar(dst) =>
      var c := CVar(m.next);
      Push(Store(m, dst, c), c).(next := m.next + 1)
    case InitYVar1(y) => NewLocal(m, Addr(m, y)).(cursor := Addr(m, y) + 1)
    case InitYVar2(incr) => NewLocal(m, m.cursor + incr).(cursor := m.cursor + incr + 1)
    case PList(dst) => Store(m, dst, CList(|m.heap|)).(open := true)
    case PStructure(f, n, dst) => Push(Store(m, dst, CStr(|m.heap|)), CFun(f, n)).(open := true)
    case UInt(n) => Push(m, CInt(n))
    case USym(tok) => Push(m, CSym(tok))
    case UVoid => Push(m, CVar(m.next)).(next := m.next + 1)
    case UVal(src) => Push(m, Load(m, src))
    case ULval(src) =>
      var c := Load(m, src);
      Push(m, c).(locals := Globalized(m, c))
    case UVar(dst) =>
      var c := CVar(m.next);
      Push(Store(m, dst, c), c).(next := m.next + 1)
    case EndStruct => m.(open := false)
  }

  function Run(m: Machine, code: seq<Instr>): Machine
    decreases |code|
  {
    if code == [] then m else Step(Run(m, code[..|code| - 1]), code[|code| - 1])
  }

  lemma RunSnoc(m: Machine, code: seq<Instr>, i: Instr)
    ensures Run(m, code + [i]) == Step(Run(m, code), i)
  {
    assert (code + [i])[..|code|] == code;
  }

  /** Every identity known to live in an environment has already been handed out. */
  predicate FreshIds(m: Machine) {
    forall id | id in m.locals :: id < m.next
  }

  // ---- what a cell stands for ----

  type Env = map<nat, Cell>

  predicate Extends(env: Env, env': Env) {
    env.Keys <= env'.Keys && forall v | v in env :: env'[v] == env[v]
  }

  /** Where the subterms of a compound cell start. */
  function ArgBase(c: Cell): nat {
    match c
    case CStr(a) => a + 1
    case CList(a) => a
    case _ => 0
  }

  predicate HeadMatches(h: seq<Cell>, c: Cell, t: Term) {
    match t
    case List(_, _) => c.CList?
    case Struct(f, args) => c.CStr? && c.a < |h| && h[c.a] == CFun(f, |args|)
    case _ => false
  }

  predicate LeafIs(c: Cell, t: Term, env: Env) {
    match t
    case Int(i) => c == CInt(i)
    case Sym(tok) => c == CSym(tok)
    case Uia(name) => c == CUia(name)
    case Var(v) => v in env && c == env[v]
    case _ => false
  }

  /** `c` is the representation of `t` when each variable stands for its `env` cell. */
  ghost predicate Denotes(h: seq<Cell>, c: Cell, t: Term, env: Env)
    decreases t
  {
    if Compound(t) then
      HeadMatches(h, c, t) && ArgBase(c) + |Kids(t)| <= |h| &&
      forall k | 0 <= k < |Kids(t)| :: Denotes(h, h[ArgBase(c) + k], Kids(t)[k], env)
    else LeafIs(c, t, env)
  }

  /** `c` is definitely not the representation of `t`: some leaf differs. */
  ghost predicate Refutes(h: seq<Cell>, c: Cell, t: Term, env: Env)
    decreases t
  {
    if Compound(t) then
      HeadMatches(h, c, t) &&
      exists k :: 0 <= k < |Kids(t)| && ArgBase(c) + k < |h| &&
                  Refutes(h, h[ArgBase(c) + k], Kids(t)[k], env)
    else !LeafIs(c, t, env) && (t.Var? ==> t.v in env)
  }

  lemma {:induction false} DenotesStays(h: seq<Cell>, h': seq<Cell>, c: Cell, t: Term, env: Env, env': Env)
    requires h <= h' && Extends(env, env') && Denotes(h, c, t, env)
    ensures Denotes(h', c, t, env')
    decreases t
  {
    if Compound(t) {
      forall k | 0 <= k < |Kids(t)| ensures Denotes(h', h'[ArgBase(c) + k], Kids(t)[k], env') {
        DenotesStays(h, h', h[ArgBase(c) + k], Kids(t)[k], env, env');
      }
    }
  }

  lemma {:induction false} RefutesStays(h: seq<Cell>, h': seq<Cell>, c: Cell, t: Term, env: Env, env': Env)
    requires h <= h' && Extends(env, env') && Refutes(h, c, t, env)
    ensures Refutes(h', c, t, env')
    decreases t
  {
    if Compound(t) {
      var k :| 0 <= k < |Kids(t)| && ArgBase(c) + k < |h| && Refutes(h, h[ArgBase(c) + k], Kids(t)[k], env);
      RefutesStays(h, h', h[ArgBase(c) + k], Kids(t)[k], env, env');
      assert h'[ArgBase(c) + k] == h[ArgBase(c) + k];
    }
  }

  lemma DenotesGrows(h: seq<Cell>, h': seq<Cell>, c: Cell, t: Term, env: Env, env': Env)
    requires h <= h' && Extends(env, env')
    ensures Denotes(h, c, t, env) ==> Denotes(h', c, t, env')
    ensures Refutes(h, c, t, env) ==> Refutes(h', c, t, env')
  {
    hide Denotes, Refutes;
    if Denotes(h, c, t, env) { DenotesStays(h, h', c, t, env, env'); }
    if Refutes(h, c, t, env) { RefutesStays(h, h', c, t, env, env'); }
  }

  lemma DenotesKid(h: seq<Cell>, c: Cell, t: Term, env: Env, k: nat)
    requires Compound(t) && Denotes(h, c, t, env) && k < |Kids(t)|
    ensures ArgBase(c) + k < |h| && Denotes(h, h[ArgBase(c) + k], Kids(t)[k], env)
  {
  }

  lemma RefutesKid(h: seq<Cell>, c: Cell, t: Term, env: Env) returns (k: nat)
    requires Compound(t) && Refutes(h, c, t, env)
    ensures k < |Kids(t)| && ArgBase(c) + k < |h| && Refutes(h, h[ArgBase(c) + k], Kids(t)[k], env)
  {
    k :| 0 <= k < |Kids(t)| && ArgBase(c) + k < |h| && Refutes(h, h[ArgBase(c) + k], Kids(t)[k], env);
  }

  // ---- what lies where, without `Kids` and `ArgBase` ----

  /** The head of a list lies in the cell its address names and the tail in the next one. */
  lemma DenotesList(h: seq<Cell>, c: Cell, car: Term, cdr: Term, env: Env)
    ensures Denotes(h, c, List(car, cdr), env) <==>
            && c.CList? && c.a + 2 <= |h|
            && Denotes(h, h[c.a], car, env) && Denotes(h, h[c.a + 1], cdr, env)
  {
    var t := List(car, cdr);
    assert Kids(t)[0] == car && Kids(t)[1] == cdr;
    if Denotes(h, c, t, env) {
      DenotesKid(h, c, t, env, 0);
      DenotesKid(h, c, t, env, 1);
    }
  }

  /** The arguments of a structure lie in order behind the functor. */
  lemma DenotesStruct(h: seq<Cell>, c: Cell, f: int, args: seq<Term>, env: Env)
    ensures Denotes(h, c, Struct(f, args), env) <==>
            && c.CStr? && c.a + 1 + |args| <= |h| && h[c.a] == CFun(f, |args|)
            && forall k | 0 <= k < |args| :: Denotes(h, h[c.a + 1 + k], args[k], env)
  {
    var t := Struct(f, args);
    assert Kids(t) == args;
    if Denotes(h, c, t, env) {
      forall k | 0 <= k < |args| ensures Denotes(h, h[c.a + 1 + k], args[k], env) {
        DenotesKid(h, c, t, env, k);
      }
    }
  }

  /** A list cell stands for another list if one of its two slots differs. */
  lemma RefutesList(h: seq<Cell>, c: Cell, car: Term, cdr: Term, env: Env)
    ensures Refutes(h, c, List(car, cdr), env) <==>
            && c.CList?
            && (|| (c.a < |h| && Refutes(h, h[c.a], car, env))
                || (c.a + 1 < |h| && Refutes(h, h[c.a + 1], cdr, env)))
  {
    var t := List(car, cdr);
    assert Kids(t)[0] == car && Kids(t)[1] == cdr;
    if Refutes(h, c, t, env) {
      var k := RefutesKid(h, c, t, env);
      assert k == 0 || k == 1;
    } else if c.CList? {
      assert c.a < |h| ==> !Refutes(h, h[ArgBase(c) + 0], Kids(t)[0], env);
      assert c.a + 1 < |h| ==> !Refutes(h, h[ArgBase(c) + 1], Kids(t)[1], env);
    }
  }

  /** A structure stands for another one if it has the functor and one of the slots differs. */
  lemma RefutesStruct(h: seq<Cell>, c: Cell, f: int, args: seq<Term>, env: Env)
    ensures Refutes(h, c, Struct(f, args), env) <==>
            && c.CStr? && c.a < |h| && h[c.a] == CFun(f, |args|)
            && exists k :: 0 <= k < |args| && c.a + 1 + k < |h| && Refutes(h, h[c.a + 1 + k], args[k], env)
  {
    var t := Struct(f, args);
    assert Kids(t) == args;
    if Refutes(h, c, t, env) {
      var k := RefutesKid(h, c, t, env);
      assert Refutes(h, h[c.a + 1 + k], args[k], env);
    } else if c.CStr? && c.a < |h| && h[c.a] == CFun(f, |args|) {
      forall k | 0 <= k < |args| && c.a + 1 + k < |h| ensures !Refutes(h, h[c.a + 1 + k], args[k], env) {
        assert !Refutes(h, h[ArgBase(c) + k], Kids(t)[k], env);
      }
    }
  }

  lemma NotBothLeaf(h: seq<Cell>, c: Cell, t: Term, env: Env)
    requires !Compound(t)
    ensures !(Denotes(h, c, t, env) && Refutes(h, c, t, env))
  {
  }

  lemma {:induction false} NotBoth(h: seq<Cell>, c: Cell, t: Term, env: Env)
    ensures !(Denotes(h, c, t, env) && Refutes(h, c, t, env))
    decreases t
  {
    hide Denotes, Refutes;
    if !Compound(t) {
      NotBothLeaf(h, c, t, env);
    } else if Denotes(h, c, t, env) && Refutes(h, c, t, env) {
      var k := RefutesKid(h, c, t, env);
      DenotesKid(h, c, t, env, k);
      NotBoth(h, h[ArgBase(c) + k], Kids(t)[k], env);
    }
  }
}
