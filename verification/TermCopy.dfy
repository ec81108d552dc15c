/** Terms leave the run-time heap for the compiler's form and come back: the `cvt_walk`
    functions number the variables, `heap_copy` makes a new variable for each number. */
module TermCopy {
  import opened Wam

  /** The buffer that names of strings are read into. */
  const UIA_BUFFER := 512

  /** What fits into the buffer of a name. */
  function Cut(name: string): string {
    if |name| < UIA_BUFFER then name else name[..UIA_BUFFER - 1]
  }

  function Vars(t: Term): set<nat>
    decreases t, |Kids(t)| + 1
  {
    if t.Var? then {t.v} else VarsBelow(t, |Kids(t)|)
  }

  /** The variables of the first `k` subterms. */
  function VarsBelow(t: Term, k: nat): set<nat>
    requires k <= |Kids(t)|
    decreases t, k
  {
    if k == 0 then {} else VarsBelow(t, k - 1) + Vars(Kids(t)[k - 1])
  }

  lemma {:induction false} VarsBelowGrows(t: Term, k: nat, n: nat)
    requires k <= n <= |Kids(t)|
    ensures VarsBelow(t, k) <= VarsBelow(t, n)
    decreases n
  {
    if k < n { VarsBelowGrows(t, k, n - 1); }
  }

  /** All strings are short enough for the buffer. */
  predicate NamesFit(t: Term)
    decreases t
  {
    match t
    case Uia(name) => |name| < UIA_BUFFER
    case _ => forall k | 0 <= k < |Kids(t)| :: NamesFit(Kids(t)[k])
  }

  // ---- the compiler's form ----

  predicate SameHead(t: Term, r: Term) {
    match t
    case List(_, _) => r.List?
    case Struct(f, args) => r.Struct? && r.functor == f && |r.args| == |args|
    case _ => false
  }

  /** `r` is `t` with each variable replaced by its place in the table and names cut. */
  ghost predicate Renamed(t: Term, r: Term, table: seq<nat>)
    decreases t
  {
    match t
    case Int(_) => r == t
    case Sym(_) => r == t
    case Uia(name) => r == Uia(Cut(name))
    case Var(v) => r.Var? && r.v < |table| && table[r.v] == v
    case _ => SameHead(t, r) && forall k | 0 <= k < |Kids(t)| :: Renamed(Kids(t)[k], Kids(r)[k], table)
  }

  lemma {:induction false} RenamedStays(t: Term, r: Term, table: seq<nat>, table': seq<nat>)
    requires Renamed(t, r, table) && table <= table'
    ensures Renamed(t, r, table')
    decreases t
  {
    if Compound(t) {
      forall k | 0 <= k < |Kids(t)| ensures Renamed(Kids(t)[k], Kids(r)[k], table') {
        RenamedStays(Kids(t)[k], Kids(r)[k], table, table');
      }
    }
  }

  ghost predicate Distinct(table: seq<nat>) {
    forall i, j | 0 <= i < j < |table| :: table[i] != table[j]
  }

  ghost function Elements(table: seq<nat>): set<nat> {
    set v | v in table
  }

  lemma {:induction false} DistinctSize(table: seq<nat>)
    requires Distinct(table)
    ensures |Elements(table)| == |table|
  {
    if table == [] {
      assert Elements(table) == {};
    } else {
      var n := |table| - 1;
      DistinctSize(table[..n]);
      assert table == table[..n] + [table[n]];
      assert Elements(table) == Elements(table[..n]) + {table[n]};
    }
  }

  /** The table of run-time variables met so far. */
  class Converter {
    const vtable: array<nat>
    var vtp: nat

    constructor (size: nat)
      ensures Valid() && Table() == [] && fresh(vtable) && vtable.Length == size
    {
      vtable := new nat[size];
      vtp := 0;
    }

    ghost predicate Valid()
      reads this, vtable
    {
      vtp <= vtable.Length && Distinct(Table())
    }

    ghost function Table(): seq<nat>
      requires vtp <= vtable.Length
      reads this, vtable
    {
      vtable[..vtp]
    }

    /** A variable's place in the table; a new variable gets the next one. */
    method CvtWalkVar(v: nat) returns (r: Term)
      requires Valid() && |Elements(Table()) + {v}| <= vtable.Length
      modifies this, vtable
      ensures Valid() && old(Table()) <= Table() && Renamed(Var(v), r, Table())
      ensures Elements(Table()) == old(Elements(Table())) + {v}
    {
      var i := 0;
      while i < vtp && vtable[i] != v
        invariant i <= vtp && v !in vtable[..i]
      {
        i := i + 1;
      }
      ghost var table := Table();
      if i >= vtp {
        DistinctSize(table);
        assert v !in Elements(table);
        assert |Elements(table) + {v}| == |table| + 1;
        i := vtp;
        vtp := vtp + 1;
        vtable[i] := v;
        assert Table() == table + [v];
      } else {
        assert v in Elements(table);
      }
      assert Elements(Table()) == Elements(table) + {v};
      return Var(i);
    }

    /** A term in the compiler's form.  In which order the two parts of a list are walked is
        not determined. */
    method CvtWalk(t: Term) returns (r: Term)
      requires Valid() && |Elements(Table()) + Vars(t)| <= vtable.Length
      modifies this, vtable
      decreases t, 2
      ensures Valid() && old(Table()) <= Table() && Renamed(t, r, Table())
      ensures Elements(Table()) == old(Elements(Table())) + Vars(t)
    {
      match t {
        case Int(_) =>
          r := t;
        case Sym(_) =>
          r := t;
        case Uia(name) =>
          r := Uia(Cut(name));
        case Var(v) =>
          r := CvtWalkVar(v);
        case List(car, cdr) =>
          r := CvtWalkList(t, car, cdr);
        case Struct(f, args) =>
          r := CvtWalkTerm(t, f, args);
      }
    }
  
    /** The two parts are walked in either order. */
    method CvtWalkList(t: Term, car: Term, cdr: Term) returns (r: Term)
      requires t == List(car, cdr) && Valid() && |Elements(Table()) + Vars(t)| <= vtable.Length
      modifies this, vtable
      decreases t, 1
      ensures Valid() && old(Table()) <= Table() && Renamed(t, r, Table())
      ensures Elements(Table()) == old(Elements(Table())) + Vars(t)
    {
      hide Distinct, Elements, Renamed, Vars;
      ListVars(car, cdr);
      var carFirst: bool := *;
      var a, d;
      if carFirst {
        a, d := CvtWalkBoth(car, cdr, t);
      } else {
        d, a := CvtWalkBoth(cdr, car, t);
      }
      r := List(a, d);
      ListRenamed(car, cdr, a, d, Table());
    }

    method CvtWalkBoth(one: Term, two: Term, ghost t: Term) returns (r1: Term, r2: Term)
      requires one < t && two < t && Valid() && Vars(t) == Vars(one) + Vars(two)
      requires |Elements(Table()) + Vars(t)| <= vtable.Length
      modifies this, vtable
      decreases t, 0
      ensures Valid() && old(Table()) <= Table() && Renamed(one, r1, Table()) && Renamed(two, r2, Table())
      ensures Elements(Table()) == old(Elements(Table())) + Vars(t)
    {
      hide Distinct, Elements, Renamed, Vars;
      ghost var before := Elements(Table());
      Fewer(before + Vars(one), before + Vars(t));
      r1 := CvtWalk(one);
      ghost var table := Table();
      assert Elements(table) + Vars(two) == before + Vars(t);
      r2 := CvtWalk(two);
      RenamedStays(one, r1, table, Table());
    }

    method CvtWalkTerm(t: Term, functor: int, args: seq<Term>) returns (r: Term)
      requires t == Struct(functor, args) && Valid() && |Elements(Table()) + Vars(t)| <= vtable.Length
      modifies this, vtable
      decreases t, 1
      ensures Valid() && old(Table()) <= Table() && Renamed(t, r, Table())
      ensures Elements(Table()) == old(Elements(Table())) + Vars(t)
    {
      hide Distinct, Elements;
      ghost var before, table0 := Elements(Table()), Table();
      var nt: seq<Term> := [];
      for i := 0 to |args|
        invariant Valid() && |nt| == i && table0 <= Table()
        invariant Elements(Table()) == before + VarsBelow(t, i)
        invariant AllRenamed(args, nt, i, Table())
      {
        var arg := CvtWalkArg(t, args, nt, i, before);
        nt := nt + [arg];
      }
      r := Struct(functor, nt);
    }

    method CvtWalkArg(ghost t: Term, args: seq<Term>, ghost nt: seq<Term>, i: nat, ghost before: set<nat>) returns (r: Term)
      requires i < |args| == |Kids(t)| && args == Kids(t) && !t.Var? && Valid() && |nt| == i
      requires |before + Vars(t)| <= vtable.Length && Elements(Table()) == before + VarsBelow(t, i)
      requires AllRenamed(args, nt, i, Table())
      modifies this, vtable
      decreases t, 0
      ensures Valid() && old(Table()) <= Table() && Elements(Table()) == before + VarsBelow(t, i + 1)
      ensures AllRenamed(args, nt + [r], i + 1, Table())
    {
      hide Distinct, Elements, Renamed, AllRenamed, VarsBelow, Vars;
      ghost var table := Table();
      VarsUpTo(t, i);
      assert Elements(table) + Vars(args[i]) == before + VarsBelow(t, i + 1);
      Fewer(Elements(table) + Vars(args[i]), before + Vars(t));
      r := CvtWalk(args[i]);
      OneMoreRenamed(args, nt, i, r, table, Table());
    }
  }

  ghost predicate AllRenamed(args: seq<Term>, nt: seq<Term>, n: nat, table: seq<nat>) {
    n <= |args| && n <= |nt| && forall k | 0 <= k < n :: Renamed(args[k], nt[k], table)
  }

  lemma OneMoreRenamed(args: seq<Term>, nt: seq<Term>, i: nat, r: Term, table: seq<nat>, table': seq<nat>)
    requires |nt| == i < |args| && AllRenamed(args, nt, i, table) && table <= table' && Renamed(args[i], r, table')
    ensures AllRenamed(args, nt + [r], i + 1, table')
  {
    hide Renamed;
    forall k | 0 <= k < i + 1 ensures Renamed(args[k], (nt + [r])[k], table') {
      if k < i { RenamedStays(args[k], nt[k], table, table'); }
    }
  }

  lemma VarsUpTo(t: Term, i: nat)
    requires !t.Var? && i < |Kids(t)|
    ensures VarsBelow(t, i + 1) == VarsBelow(t, i) + Vars(Kids(t)[i]) && VarsBelow(t, i + 1) <= Vars(t)
    ensures Kids(t)[i] < t
  {
    VarsBelowGrows(t, i + 1, |Kids(t)|);
  }

  lemma ListVars(car: Term, cdr: Term)
    ensures Vars(List(car, cdr)) == Vars(car) + Vars(cdr)
  {
    var t := List(car, cdr);
    assert VarsBelow(t, 2) == VarsBelow(t, 1) + Vars(cdr);
    assert VarsBelow(t, 1) == VarsBelow(t, 0) + Vars(car);
  }

  lemma ListRenamed(car: Term, cdr: Term, a: Term, d: Term, table: seq<nat>)
    requires Renamed(car, a, table) && Renamed(cdr, d, table)
    ensures Renamed(List(car, cdr), List(a, d), table)
  {
    assert Kids(List(car, cdr)) == [car, cdr] && Kids(List(a, d)) == [a, d];
  }

  lemma Fewer(a: set<nat>, b: set<nat>)
    requires a <= b
    ensures |a| <= |b|
  {
    assert b == a + (b - a);
  }

  // ---- back to the heap ----

  /** As Denotes, and every structure is one of those that start at `n` or later. */
  ghost predicate BuiltFrom(h: seq<Cell>, n: nat, c: Cell, t: Term, env: Env)
    decreases t
  {
    if Compound(t) then
      && HeadMatches(h, c, t) && n <= HeadOf(c) && ArgBase(c) + |Kids(t)| <= |h|
      && forall k: nat | k < |Kids(t)| :: BuiltFrom(h, n, KidCell(h, c, k), Kids(t)[k], env)
    else LeafIs(c, t, env)
  }

  function HeadOf(c: Cell): nat {
    match c
    case CStr(a) => a
    case CList(a) => a
    case _ => 0
  }

  function KidCell(h: seq<Cell>, c: Cell, k: nat): Cell
    requires ArgBase(c) + k < |h|
  {
    h[ArgBase(c) + k]
  }

  /** Writing below `n` and appending does not disturb what was built from `n` on. */
  lemma {:induction false} BuiltStays(h: seq<Cell>, h': seq<Cell>, n: nat, n': nat, c: Cell, t: Term, env: Env, env': Env)
    requires BuiltFrom(h, n, c, t, env) && Extends(env, env') && n' <= n
    requires |h| <= |h'| && forall i | n <= i < |h| :: h'[i] == h[i]
    ensures BuiltFrom(h', n', c, t, env')
    decreases t
  {
    if Compound(t) {
      forall k: nat | k < |Kids(t)| ensures BuiltFrom(h', n', KidCell(h', c, k), Kids(t)[k], env') {
        BuiltStays(h, h', n, n', KidCell(h, c, k), Kids(t)[k], env, env');
      }
    }
  }

  /** What was built stands for the term. */
  lemma {:induction false} BuiltDenotes(h: seq<Cell>, n: nat, c: Cell, t: Term, env: Env)
    requires BuiltFrom(h, n, c, t, env)
    ensures Denotes(h, c, t, env)
    decreases t
  {
    if Compound(t) {
      forall k | 0 <= k < |Kids(t)| ensures Denotes(h, h[ArgBase(c) + k], Kids(t)[k], env) {
        BuiltDenotes(h, n, KidCell(h, c, k), Kids(t)[k], env);
      }
    }
  }

  /** The copy of parsed terms: a variable number has a new heap variable, once it was met. */
  class Copier {
    var heap: seq<Cell>
    const varptrs: array<int>

    constructor (h: seq<Cell>, size: nat)
      ensures heap == h && varptrs.Length == size && fresh(varptrs) && Pointers() == map[] && Valid(|h|)
    {
      heap := h;
      varptrs := new int[size](_ => -1);
    }

    /** The variables met so far.  A variable is a cell of its own. */
    ghost function Pointers(): Env
      reads varptrs
    {
      map i: nat | i < varptrs.Length && varptrs[i] >= 0 :: CVar(varptrs[i])
    }

    /** Different numbers have different variables, all made since `n0`. */
    ghost predicate Valid(n0: nat)
      reads this, varptrs
    {
      && (forall i | 0 <= i < varptrs.Length :: varptrs[i] == -1 || n0 <= varptrs[i] < |heap|)
      && (forall i, j | 0 <= i < j < varptrs.Length && varptrs[i] != -1 :: varptrs[i] != varptrs[j])
    }

    lemma PointersDiffer(n0: nat)
      requires Valid(n0)
      ensures forall i | i in Pointers() :: Pointers()[i].CVar? && n0 <= Pointers()[i].id
      ensures forall i, j | i in Pointers() && j in Pointers() && i != j :: Pointers()[i] != Pointers()[j]
    {
    }

    ghost predicate Fits(w: Term) {
      forall v | v in Vars(w) :: v < varptrs.Length
    }

    method HcVar(i: nat, ghost n0: nat) returns (c: Cell)
      requires Valid(n0) && i < varptrs.Length && n0 <= |heap|
      modifies this, varptrs
      ensures Valid(n0) && old(heap) <= heap && Extends(old(Pointers()), Pointers())
      ensures LeafIs(c, Var(i), Pointers()) && Pointers().Keys == old(Pointers().Keys) + {i}
    {
      if varptrs[i] == -1 {
        c := CVar(|heap|);
        varptrs[i] := |heap|;
        heap := heap + [c];
      } else {
        c := CVar(varptrs[i]);
      }
    }
  
    /** The copy of a term is new, and stands for the term. */
    method Hc(w: Term, ghost n0: nat) returns (c: Cell)
      requires Valid(n0) && Fits(w) && n0 <= |heap|
      modifies this, varptrs
      decreases w, 1
      ensures Valid(n0) && old(heap) <= heap && Extends(old(Pointers()), Pointers())
      ensures BuiltFrom(heap, |old(heap)|, c, w, Pointers()) && Pointers().Keys == old(Pointers().Keys) + Vars(w)
      ensures Denotes(heap, c, w, Pointers())
    {
      hide Pointers, Valid;
      if w.Var? { assert w.v in Vars(w); }
      match w {
        case Int(i) =>
          c := CInt(i);
        case Sym(tok) =>
          c := CSym(tok);
        case Uia(name) =>
          c := CUia(name);
        case Var(i) =>
          c := HcVar(i, n0);
        case _ =>
          c := HcCompound(w, n0);
      }
    }

    /** Cells for the slots are set aside first; each is filled when its subterm is copied. */
    method HcCompound(w: Term, ghost n0: nat) returns (c: Cell)
      requires Compound(w) && Valid(n0) && Fits(w) && n0 <= |heap|
      modifies this, varptrs
      decreases w, 0, 1
      ensures Valid(n0) && old(heap) <= heap && Extends(old(Pointers()), Pointers())
      ensures BuiltFrom(heap, |old(heap)|, c, w, Pointers()) && Pointers().Keys == old(Pointers().Keys) + Vars(w)
      ensures Denotes(heap, c, w, Pointers())
    {
      hide Pointers, BuiltFrom, Vars;
      ghost var h0, env0 := heap, Pointers();
      if w.List? {
        c := CList(|heap|);
        heap := heap + [Junk, Junk];
      } else {
        c := CStr(|heap|);
        heap := heap + [CFun(w.functor, |w.args|)] + seq(|w.args|, _ => Junk);
      }
      ghost var top := ArgBase(c) + |Kids(w)|;
      SameCells(n0, h0);
      for k := 0 to |Kids(w)|
        invariant Valid(n0) && h0 <= heap && top <= |heap| && HeadMatches(heap, c, w) && Extends(env0, Pointers())
        invariant Filled(heap, top, c, w, k, Pointers())
        invariant Pointers().Keys == env0.Keys + VarsBelow(w, k)
      {
        FillSlot(w, c, k, h0, n0);
      }
      SlotsFilled(heap, |h0|, top, c, w, Pointers());
      BuiltDenotes(heap, |h0|, c, w, Pointers());
      AllVars(w);
    }

    lemma SameCells(n0: nat, h0: seq<Cell>)
      requires |h0| <= |heap| && forall i | 0 <= i < varptrs.Length :: varptrs[i] == -1 || n0 <= varptrs[i] < |h0|
      requires forall i, j | 0 <= i < j < varptrs.Length && varptrs[i] != -1 :: varptrs[i] != varptrs[j]
      ensures Valid(n0)
    {
    }

    method FillSlot(w: Term, c: Cell, k: nat, ghost h0: seq<Cell>, ghost n0: nat)
      requires Compound(w) && Valid(n0) && Fits(w) && n0 <= |h0| && h0 <= heap && k < |Kids(w)|
      requires |h0| <= HeadOf(c) && ArgBase(c) + |Kids(w)| <= |heap| && HeadMatches(heap, c, w)
      requires Filled(heap, ArgBase(c) + |Kids(w)|, c, w, k, Pointers())
      modifies this, varptrs
      decreases w, 0, 0
      ensures Valid(n0) && h0 <= heap && |old(heap)| <= |heap| && HeadMatches(heap, c, w) && Extends(old(Pointers()), Pointers())
      ensures Filled(heap, ArgBase(c) + |Kids(w)|, c, w, k + 1, Pointers())
      ensures Pointers().Keys == old(Pointers().Keys) + Vars(Kids(w)[k])
    {
      hide Pointers, BuiltFrom, Vars;
      ghost var h1, env1, top := heap, Pointers(), ArgBase(c) + |Kids(w)|;
      FitsKid(w, k);
      var v := Hc(Kids(w)[k], n0);
      ghost var h2 := heap;
      heap := heap[ArgBase(c) + k := v];
      forall j: nat | j < k + 1 ensures KidBuilt(heap, top, c, w, j, Pointers()) {
        if j < k {
          assert KidBuilt(h1, top, c, w, j, env1);
          BuiltStays(h1, heap, top, top, KidCell(h1, c, j), Kids(w)[j], env1, Pointers());
        } else {
          BuiltStays(h2, heap, |h1|, top, v, Kids(w)[j], Pointers(), Pointers());
        }
      }
    }

    lemma FitsKid(w: Term, k: nat)
      requires Compound(w) && Fits(w) && k < |Kids(w)|
      ensures Fits(Kids(w)[k])
    {
      VarsBelowGrows(w, k + 1, |Kids(w)|);
      assert Vars(Kids(w)[k]) <= VarsBelow(w, k + 1) <= Vars(w);
    }
  }

  ghost predicate KidBuilt(h: seq<Cell>, n: nat, c: Cell, w: Term, j: nat, env: Env)
    requires j < |Kids(w)| && ArgBase(c) + j < |h|
  {
    BuiltFrom(h, n, KidCell(h, c, j), Kids(w)[j], env)
  }

  ghost predicate Filled(h: seq<Cell>, n: nat, c: Cell, w: Term, k: nat, env: Env) {
    k <= |Kids(w)| && ArgBase(c) + k <= |h| && forall j: nat | j < k :: KidBuilt(h, n, c, w, j, env)
  }

  lemma SlotsFilled(h: seq<Cell>, n: nat, top: nat, c: Cell, w: Term, env: Env)
    requires Compound(w) && HeadMatches(h, c, w) && n <= HeadOf(c) && n <= top && Filled(h, top, c, w, |Kids(w)|, env)
    ensures BuiltFrom(h, n, c, w, env)
  {
    forall k: nat | k < |Kids(w)| ensures BuiltFrom(h, n, KidCell(h, c, k), Kids(w)[k], env) {
      assert KidBuilt(h, top, c, w, k, env);
      BuiltStays(h, h, top, n, KidCell(h, c, k), Kids(w)[k], env, env);
    }
  }

  lemma AllVars(w: Term)
    requires Compound(w)
    ensures Vars(w) == VarsBelow(w, |Kids(w)|)
  {
  }

  // ---- there and back ----

  function IndexOf(table: seq<nat>, v: nat): nat
    requires v in table
    ensures IndexOf(table, v) < |table| && table[IndexOf(table, v)] == v
  {
    if table[0] == v then 0 else 1 + IndexOf(table[1..], v)
  }

  /** The new variable for each run-time variable. */
  ghost function Through(table: seq<nat>, pointers: Env): Env {
    map v | v in table && IndexOf(table, v) in pointers :: pointers[IndexOf(table, v)]
  }

  lemma {:induction false} RenamedVars(t: Term, r: Term, table: seq<nat>)
    requires Renamed(t, r, table)
    ensures forall i | i in Vars(r) :: i < |table|
    decreases t, |Kids(t)| + 1
  {
    if Compound(t) { RenamedVarsBelow(t, r, table, |Kids(t)|); }
  }

  lemma {:induction false} RenamedVarsBelow(t: Term, r: Term, table: seq<nat>, k: nat)
    requires Compound(t) && Renamed(t, r, table) && k <= |Kids(t)|
    ensures forall i | i in VarsBelow(r, k) :: i < |table|
    decreases t, k
  {
    if k > 0 {
      RenamedVarsBelow(t, r, table, k - 1);
      RenamedVars(Kids(t)[k - 1], Kids(r)[k - 1], table);
    }
  }

  /** The copy stands for the original, each variable for its new one. */
  lemma {:induction false} CopyDenotes(h: seq<Cell>, n: nat, c: Cell, t: Term, r: Term, table: seq<nat>, pointers: Env)
    requires Renamed(t, r, table) && BuiltFrom(h, n, c, r, pointers) && NamesFit(t) && Distinct(table)
    ensures Denotes(h, c, t, Through(table, pointers))
    decreases t
  {
    hide Through;
    if Compound(t) {
      forall k | 0 <= k < |Kids(t)| ensures Denotes(h, h[ArgBase(c) + k], Kids(t)[k], Through(table, pointers)) {
        assert BuiltFrom(h, n, KidCell(h, c, k), Kids(r)[k], pointers);
        CopyDenotes(h, n, h[ArgBase(c) + k], Kids(t)[k], Kids(r)[k], table, pointers);
      }
    } else if t.Var? {
      ThroughVar(table, pointers, r.v);
    }
  }

  lemma ThroughVar(table: seq<nat>, pointers: Env, i: nat)
    requires Distinct(table) && i < |table| && i in pointers
    ensures table[i] in Through(table, pointers) && Through(table, pointers)[table[i]] == pointers[i]
  {
    var j := IndexOf(table, table[i]);
    assert table[j] == table[i];
  }

  /** A copy that stands for the original has lost no name. */
  lemma {:induction false} CopyKeepsNames(h: seq<Cell>, n: nat, c: Cell, t: Term, r: Term, table: seq<nat>, pointers: Env, env: Env)
    requires Renamed(t, r, table) && BuiltFrom(h, n, c, r, pointers) && Denotes(h, c, t, env)
    ensures NamesFit(t)
    decreases t
  {
    if Compound(t) {
      forall k | 0 <= k < |Kids(t)| ensures NamesFit(Kids(t)[k]) {
        assert BuiltFrom(h, n, KidCell(h, c, k), Kids(r)[k], pointers);
        CopyKeepsNames(h, n, h[ArgBase(c) + k], Kids(t)[k], Kids(r)[k], table, pointers, env);
      }
    }
  }

  /** `env` renames the variables of the original to different new ones. */
  ghost predicate Renaming(env: Env, n: nat) {
    && (forall v | v in env :: env[v].CVar? && n <= env[v].id)
    && (forall u, v | u in env && v in env && u != v :: env[u] != env[v])
  }

  ghost predicate IsVariant(h: seq<Cell>, n: nat, c: Cell, t: Term, env: Env) {
    Renaming(env, n) && Denotes(h, c, t, env)
  }

  lemma ThroughRenames(table: seq<nat>, pointers: Env, n: nat)
    requires forall i | i in pointers :: pointers[i].CVar? && n <= pointers[i].id
    requires forall i, j | i in pointers && j in pointers && i != j :: pointers[i] != pointers[j]
    ensures Renaming(Through(table, pointers), n)
  {
  }

  /** Of a string what fits is left. */
  lemma NameCopied(h: seq<Cell>, n: nat, c: Cell, t: Term, r: Term, table: seq<nat>, pointers: Env)
    requires t.Uia? && Renamed(t, r, table) && BuiltFrom(h, n, c, r, pointers)
    ensures c == CUia(if |t.name| < 512 then t.name else t.name[..511])
  {
  }

  /** A term converted to the compiler's form and copied back to the heap is a variant of the
      original exactly when every name fits the buffer; nothing on the heap before is changed. */
  method ConvertAndCopy(t: Term, h: seq<Cell>, tableSize: nat, maxVars: nat) returns (c: Cell, heap: seq<Cell>)
    requires |Vars(t)| <= tableSize && |Vars(t)| <= maxVars
    ensures h <= heap
    ensures NamesFit(t) <==> exists env :: IsVariant(heap, |h|, c, t, env)
    ensures t.Uia? ==> c == CUia(if |t.name| < 512 then t.name else t.name[..511])
  {
    hide Renamed, BuiltFrom, NamesFit, Denotes, Through, Vars, Distinct;
    var converter := new Converter(tableSize);
    assert Elements(converter.Table()) + Vars(t) == Vars(t);
    var r := converter.CvtWalk(t);
    ghost var table := converter.Table();
    DistinctSize(table);
    assert Elements(table) == Vars(t);
    RenamedVars(t, r, table);
    var copier := new Copier(h, maxVars);
    c := copier.Hc(r, |h|);
    heap := copier.heap;
    ghost var pointers := copier.Pointers();
    if t.Uia? { NameCopied(heap, |h|, c, t, r, table, pointers); }
    if NamesFit(t) {
      CopyDenotes(heap, |h|, c, t, r, table, pointers);
      copier.PointersDiffer(|h|);
      ThroughRenames(table, pointers, |h|);
      assert IsVariant(heap, |h|, c, t, Through(table, pointers));
    }
    if env :| IsVariant(heap, |h|, c, t, env) {
      CopyKeepsNames(heap, |h|, c, t, r, table, pointers, env);
    }
  }

  /** A name of 512 characters does not survive. */
  method LongNameIsCut() returns (t: Term, c: Cell, heap: seq<Cell>)
    ensures t == Uia(seq(UIA_BUFFER, _ => 'a')) && !exists env :: IsVariant(heap, 0, c, t, env)
    ensures c == CUia(seq(511, _ => 'a'))
  {
    t := Uia(seq(UIA_BUFFER, _ => 'a'));
    assert VarsBelow(t, 0) == {} == Vars(t);
    c, heap := ConvertAndCopy(t, [], 0, 0);
    assert t.name[..511] == seq(511, _ => 'a');
  }
}
