/** The compile-time model of the stack that argument set-up works on, and the
    invariant that ties it to the machine running the code emitted so far. */
module GoalModel {
  import opened Wam
  import opened VarTable

  /** What stays fixed while one goal is compiled.  `Top` is where the environment that
      survives the goal begins.  `gap` is how far the run-time stack frame lies below
      the place the model puts it: 0 when the two frames meet, otherwise at least the
      part of the environment that the argument block overlaps. */
  datatype Frame = Frame(
    N: int,
    E: int,
    Eend: int,
    Adst: int,
    SPstart: int,
    Top: int,
    goalnumber: int,
    gap: int,
    args: seq<Term>,
    total: seq<nat>)
  {
    function Base(): int { if Adst < Eend then Adst else Eend }

    ghost predicate Ok() {
      && 0 < SPstart <= Base() - 2
      && Eend <= Top && Adst + |args| <= Top <= E && E + 2 <= N
      && 0 <= gap && (gap == 0 || gap >= Top - Eend)
    }
  }

  datatype State = State(
    model: seq<Entry>,
    vtbl: seq<VarInf>,
    sp: int,
    m: Machine,
    env: Env,
    placed: set<int>)

  // ---- where a model cell lives at run time ----

  predicate IsPermCell(s: State, x: int)
    requires 0 <= x < |s.model|
  {
    s.model[x].Vo? && s.model[x].v < |s.vtbl| && s.vtbl[s.model[x].v].pvnum != 0
  }

  predicate InEnvironment(F: Frame, s: State, x: int)
    requires 0 <= x < |s.model|
  {
    x >= F.E || (x >= F.Eend && IsPermCell(s, x))
  }

  function Phys(F: Frame, s: State, x: int): int
    requires 0 <= x < |s.model|
  {
    if InEnvironment(F, s, x) then x else x - F.gap
  }

  function At(F: Frame, s: State, x: int): Cell
    requires 0 <= x < |s.model|
  {
    Get(s.m.mem, Phys(F, s, x))
  }

  function Home(s: State, v: nat): int
    requires v < |s.vtbl|
  {
    s.vtbl[v].home
  }

  function ArgAt(F: Frame, x: int): Term {
    if F.Adst <= x < F.Adst + |F.args| then F.args[x - F.Adst] else Int(0)
  }

  // ---- the invariant ----

  ghost predicate Shape(F: Frame, s: State) {
    && F.Ok()
    && |s.model| == F.N && |s.vtbl| == |F.total|
    && 0 < s.sp <= F.SPstart
    && s.m.e == F.E && s.m.sp == s.sp - F.gap
    && FreshIds(s.m)
    && forall x | 0 <= x < F.N && s.model[x].Vo? :: s.model[x].v < |s.vtbl|
  }

  /** A permanent variable that is at home. */
  predicate IsPerm(s: State, v: nat)
    requires v < |s.vtbl|
  {
    s.vtbl[v].pvnum != 0 && 0 <= Home(s, v) < |s.model| && s.model[Home(s, v)] == Vo(v)
  }

  predicate Resident(F: Frame, s: State, v: nat)
    requires |s.model| == F.N && v < |s.vtbl| && 0 < s.sp
  {
    && s.sp <= Home(s, v) < F.N && (Home(s, v) < F.SPstart || F.Base() <= Home(s, v))
    && Home(s, v) !in s.placed && s.model[Home(s, v)] == Vo(v)
  }

  /** The home of `v` is an argument cell finished for `v` itself. */
  predicate HomedInArgument(F: Frame, s: State, v: nat)
    requires |s.model| == F.N && v < |s.vtbl|
  {
    && Home(s, v) in s.placed && 0 <= Home(s, v) < F.N && ArgAt(F, Home(s, v)) == Var(v)
    && s.vtbl[v].pvnum == 0 && !IsPermCell(s, Home(s, v))
  }

  ghost predicate VarOk(F: Frame, s: State, exc: int, v: nat)
    requires Shape(F, s) && v < |s.vtbl|
  {
    var i := s.vtbl[v];
    // it has a value exactly when it has been used, and the machine holds it at home
    && (v in s.env <==> i.usecnt > 0)
    && (i.usecnt > 0 && Resident(F, s, v) ==> At(F, s, i.home) == s.env[v])
    // while it is still needed, it is at home or in an argument cell made for it
    && (Live(i) ==> Resident(F, s, v) || HomedInArgument(F, s, v))
    // a permanent variable lives in the environment; one that dies at this goal has a value
    && (IsPerm(s, v) <==> i.pvnum != 0 && i.usecnt < i.noccurences)
    && (IsPerm(s, v) ==> F.Eend <= i.home < F.E && (i.home < F.Top ==> i.usecnt > 0))
    // a temporary without a value has no home, except `exc`, which was just given one
    && (i.pvnum == 0 && i.usecnt == 0 ==> i.home == 0 || (v == exc && Resident(F, s, v)))
    // its target is its own argument position
    && (i.target != 0 ==> ArgAt(F, i.target) == Var(v))
    // use counts never pass the exact counts; what outlives the goal is homed above Top
    && i.usecnt <= F.total[v] <= i.noccurences
    && (0 < F.total[v] < i.noccurences ==> i.home >= F.Top && i.lastocc != F.goalnumber)
    && (Var(v) in F.args && F.total[v] == i.noccurences ==> i.lastocc == F.goalnumber)
    && (i.noccurences == 1 ==> i.pvnum == 0)
  }

  /** Outside the finished arguments, an argument or environment cell is free, a home, or a
      copy left behind by a variable whose home is now a finished argument. */
  ghost predicate CellOk(F: Frame, s: State, x: int)
    requires Shape(F, s) && 0 <= x < F.N
  {
    x in s.placed || s.model[x].Nil? ||
    (s.model[x].Vo? &&
     var v := s.model[x].v;
     if Home(s, v) == x
     then x >= F.Top ==> s.vtbl[v].pvnum != 0
     else x < F.Top && HomedInArgument(F, s, v) && v in s.env && Get(s.m.mem, x - F.gap) == s.env[v])
  }

  /** No variable is at home in `t`, so it may be overwritten. */
  ghost predicate Vacant(F: Frame, s: State, t: int)
    requires Shape(F, s)
  {
    && s.sp <= t < F.Top && t !in s.placed && (t < F.SPstart || t >= F.Base())
    && (s.model[t].Nil? ||
        (t >= F.Base() && s.model[t].Vo? && Home(s, s.model[t].v) != t))
  }

  /** A finished variable argument holds the variable's value for good. */
  ghost predicate PlacedOk(F: Frame, s: State, x: int)
    requires Shape(F, s)
  {
    && F.Adst <= x < F.Adst + |F.args|
    && (s.model[x].Vo? && Home(s, s.model[x].v) == x ==> s.vtbl[s.model[x].v].pvnum == 0)
    && (ArgAt(F, x).Var? ==>
          var v := ArgAt(F, x).v;
          && v < |s.vtbl| && v in s.env
          && Get(s.m.mem, x - F.gap) == s.env[v]
          && (Home(s, v) >= F.Top || HomedInArgument(F, s, v)))
  }

  ghost predicate Inv(F: Frame, s: State, exc: int) {
    && Shape(F, s)
    && (forall v: nat | v in s.env :: v < |s.vtbl|)
    && (forall v: nat | v < |s.vtbl| :: VarOk(F, s, exc, v))
    && (forall x | F.Base() <= x < F.E :: CellOk(F, s, x))
    && (forall x | x in s.placed :: PlacedOk(F, s, x))
  }

  // ---- elementary changes keep the invariant ----

  function Shrunk(s: State): State
    requires 0 < s.sp <= |s.model|
  {
    s.(sp := s.sp - 1, m := s.m.(sp := s.m.sp - 1), model := s.model[s.sp - 1 := Nil])
  }

  lemma ShrinkInv(F: Frame, s: State)
    requires Inv(F, s, -1) && s.sp >= 2
    ensures Inv(F, Shrunk(s), -1)
  {
    var s' := Shrunk(s);
    assert Shape(F, s');
    forall v: nat | v < |s.vtbl|
      ensures VarOk(F, s', -1, v)
    {
      assert VarOk(F, s, -1, v);
    }
    forall x | F.Base() <= x < F.E ensures CellOk(F, s', x) {
      assert CellOk(F, s, x);
    }
    forall x | x in s.placed ensures PlacedOk(F, s', x) {
      assert PlacedOk(F, s, x);
    }
  }

  /** No write through the stack pointer below Top hits another variable's home. */
  lemma PhysDistinct(F: Frame, s: State, v: nat, t: int)
    requires Inv(F, s, -1) && s.sp <= t < F.Top && v < |s.vtbl| && Resident(F, s, v) && Home(s, v) != t
    ensures Phys(F, s, Home(s, v)) != t - F.gap
  {
    if F.Top <= Home(s, v) < F.E {
      assert CellOk(F, s, Home(s, v));
    }
  }

  /** A permanent variable that has to be made safe when it leaves the environment. */
  predicate Unsafe(i: VarInf) {
    i.pvnum != 0 && i.unsafe && i.firstocc != 0
  }

  /** The machine after `c` has been copied to address `a`; with `push`, a variable that is
      still local and unprotected gets a heap cell. */
  function Copied(m: Machine, a: int, c: Cell, push: bool): Machine {
    var m1 := m.(mem := m.mem[a := c]);
    if push && IsExposed(m, c)
    then Push(m1, c).(locals := Globalized(m, c), spilled := m.spilled || m.open)
    else m1
  }

  /** Variable `v` leaves its home for the free cell `t` and is a temporary from now on. */
  ghost predicate Relocates(F: Frame, s: State, s': State, v: nat, t: int)
    requires Shape(F, s)
  {
    && v < |s.vtbl| && Resident(F, s, v) && s.sp <= t < F.Top
    && s'.model == s.model[t := Vo(v)][Home(s, v) := Nil]
    && s'.vtbl == s.vtbl[v := s.vtbl[v].(home := t, pvnum := 0, unsafe := s.vtbl[v].unsafe && !Unsafe(s.vtbl[v]))]
    && s'.sp == s.sp && s'.env == s.env && s'.placed == s.placed
    && s'.m == Copied(s.m, t - F.gap, At(F, s, Home(s, v)), Unsafe(s.vtbl[v]))
  }

  lemma RelocateVar(F: Frame, s: State, s': State, v: nat, t: int, u: nat)
    requires Inv(F, s, -1) && Relocates(F, s, s', v, t)
    requires Vacant(F, s, t) && Home(s, v) < F.Top && s.vtbl[v].usecnt > 0
    requires Shape(F, s') && u < |s.vtbl|
    ensures VarOk(F, s', -1, u)
  {
    hide CellOk, PlacedOk;
    assert VarOk(F, s, -1, v);
    assert VarOk(F, s, -1, u);
    if u != v {
      assert s'.vtbl[u] == s.vtbl[u];
      if Resident(F, s, u) { PhysDistinct(F, s, u, t); }
    }
  }

  lemma RelocateInv(F: Frame, s: State, s': State, v: nat, t: int)
    requires Inv(F, s, -1) && Relocates(F, s, s', v, t)
    requires Vacant(F, s, t) && Home(s, v) < F.Top && s.vtbl[v].usecnt > 0
    ensures Inv(F, s', -1)
  {
    assert Shape(F, s');
    assert VarOk(F, s, -1, v);
    forall u: nat | u < |s.vtbl| ensures VarOk(F, s', -1, u) {
      RelocateVar(F, s, s', v, t, u);
    }
    forall x | F.Base() <= x < F.E ensures CellOk(F, s', x) {
      assert CellOk(F, s, x);
    }
    forall x | x in s.placed ensures PlacedOk(F, s', x) {
      assert PlacedOk(F, s, x);
    }
  }

  // The remaining changes are given as functions of the old state and the new machine.

  /** A free temporary, or the argument cell of a non-variable argument, receives a built term. */
  function Filled(F: Frame, s: State, t: int, term: Term, m': Machine): State
    requires 0 <= t < |s.model|
  {
    s.(model := s.model[t := Other(term)], m := m',
       placed := if t < F.SPstart then s.placed else s.placed + {t})
  }

  ghost predicate Wrote(m: Machine, m': Machine, a: int, c: Cell) {
    m'.e == m.e && m'.sp == m.sp && m'.mem == m.mem[a := c] && FreshIds(m')
  }

  ghost predicate Quiet(m: Machine, m': Machine) {
    m'.e == m.e && m'.sp == m.sp && m'.mem == m.mem && FreshIds(m')
  }

  lemma FilledVar(F: Frame, s: State, t: int, term: Term, m': Machine, c: Cell, u: nat)
    requires Inv(F, s, -1) && Vacant(F, s, t)
    requires t < F.SPstart || (F.Adst <= t < F.Adst + |F.args| && !ArgAt(F, t).Var?)
    requires Wrote(s.m, m', t - F.gap, c) && Shape(F, Filled(F, s, t, term, m')) && u < |s.vtbl|
    ensures VarOk(F, Filled(F, s, t, term, m'), -1, u)
  {
    hide CellOk, PlacedOk;
    assert VarOk(F, s, -1, u);
    if Resident(F, s, u) { PhysDistinct(F, s, u, t); }
  }

  lemma FilledInv(F: Frame, s: State, t: int, term: Term, m': Machine, c: Cell)
    requires Inv(F, s, -1) && Vacant(F, s, t)
    requires t < F.SPstart || (F.Adst <= t < F.Adst + |F.args| && !ArgAt(F, t).Var?)
    requires Wrote(s.m, m', t - F.gap, c)
    ensures Inv(F, Filled(F, s, t, term, m'), -1)
  {
    var s' := Filled(F, s, t, term, m');
    assert Shape(F, s');
    forall u: nat | u < |s.vtbl| ensures VarOk(F, s', -1, u) {
      FilledVar(F, s, t, term, m', c, u);
    }
    forall x | F.Base() <= x < F.E ensures CellOk(F, s', x) {
      assert CellOk(F, s, x);
    }
    forall x | x in s'.placed ensures PlacedOk(F, s', x) {
      if x != t { assert PlacedOk(F, s, x); }
    }
  }

  lemma ReleasedInv(F: Frame, s: State, t: int)
    requires Inv(F, s, -1) && s.sp <= t < F.SPstart && s.model[t].Other?
    ensures Inv(F, s.(model := s.model[t := Nil]), -1)
  {
    var s' := s.(model := s.model[t := Nil]);
    assert Shape(F, s');
    forall u: nat | u < |s.vtbl| ensures VarOk(F, s', -1, u) {
      assert VarOk(F, s, -1, u);
    }
    forall x | F.Base() <= x < F.E ensures CellOk(F, s', x) {
      assert CellOk(F, s, x);
    }
    forall x | x in s.placed ensures PlacedOk(F, s', x) {
      assert PlacedOk(F, s, x);
    }
  }

  /** A variable that has no home yet is given the free cell `t`. */
  function Homed(s: State, v: nat, t: int): State
    requires v < |s.vtbl| && 0 <= t < |s.model|
  {
    s.(model := s.model[t := Vo(v)], vtbl := s.vtbl[v := s.vtbl[v].(home := t)])
  }

  lemma HomedInv(F: Frame, s: State, v: nat, t: int)
    requires Inv(F, s, -1) && v < |s.vtbl| && Home(s, v) == 0 && s.vtbl[v].usecnt < F.total[v]
    requires Vacant(F, s, t)
    ensures s.vtbl[v].usecnt == 0 && s.vtbl[v].pvnum == 0
    ensures Inv(F, Homed(s, v, t), v)
  {
    var s' := Homed(s, v, t);
    assert Shape(F, s');
    assert VarOk(F, s, -1, v);
    forall u: nat | u < |s.vtbl| ensures VarOk(F, s', v, u) {
      assert VarOk(F, s, -1, u);
    }
    forall x | F.Base() <= x < F.E ensures CellOk(F, s', x) {
      assert CellOk(F, s, x);
    }
    forall x | x in s.placed ensures PlacedOk(F, s', x) {
      assert PlacedOk(F, s, x);
    }
  }

  /** First use inside a structure: the new variable `c` is written to the home. */
  function FirstUsed(s: State, v: nat, c: Cell, m': Machine): State
    requires v < |s.vtbl|
  {
    s.(vtbl := s.vtbl[v := s.vtbl[v].(unsafe := false, usecnt := s.vtbl[v].usecnt + 1)],
       env := s.env[v := c], m := m')
  }

  lemma FirstUsedVar(F: Frame, s: State, v: nat, c: Cell, m': Machine, u: nat)
    requires Inv(F, s, v) && v < |s.vtbl| && Resident(F, s, v)
    requires s.vtbl[v].usecnt == 0 < F.total[v] && s.vtbl[v].noccurences != 1
    requires Wrote(s.m, m', Phys(F, s, Home(s, v)), c)
    requires Shape(F, FirstUsed(s, v, c, m')) && u < |s.vtbl|
    ensures VarOk(F, FirstUsed(s, v, c, m'), -1, u)
  {
    assert VarOk(F, s, v, v);
    assert VarOk(F, s, v, u);
    if u != v && Resident(F, s, u) { PhysApart(F, s, v, u, v); }
  }

  lemma FirstUsedInv(F: Frame, s: State, v: nat, c: Cell, m': Machine)
    requires Inv(F, s, v) && v < |s.vtbl| && Resident(F, s, v)
    requires s.vtbl[v].usecnt == 0 < F.total[v] && s.vtbl[v].noccurences != 1
    requires Wrote(s.m, m', Phys(F, s, Home(s, v)), c)
    ensures Inv(F, FirstUsed(s, v, c, m'), -1)
  {
    var s' := FirstUsed(s, v, c, m');
    assert Shape(F, s');
    assert VarOk(F, s, v, v);
    forall u: nat | u < |s.vtbl| ensures VarOk(F, s', -1, u) {
      FirstUsedVar(F, s, v, c, m', u);
    }
    forall x | F.Base() <= x < F.E ensures CellOk(F, s', x) {
      assert CellOk(F, s, x);
    }
    forall x | x in s.placed ensures PlacedOk(F, s', x) {
      assert PlacedOk(F, s, x);
      if F.Base() <= Home(s, v) < F.E { assert CellOk(F, s, Home(s, v)); }
    }
  }

  /** Two residents never share a run-time cell. */
  lemma PhysApart(F: Frame, s: State, exc: int, u: nat, v: nat)
    requires Inv(F, s, exc) && u < |s.vtbl| && v < |s.vtbl| && u != v
    requires Resident(F, s, u) && Resident(F, s, v)
    ensures Phys(F, s, Home(s, u)) != Phys(F, s, Home(s, v))
  {
    if F.Base() <= Home(s, u) < F.E { assert CellOk(F, s, Home(s, u)); }
    if F.Base() <= Home(s, v) < F.E { assert CellOk(F, s, Home(s, v)); }
  }

  /** A later use inside a structure; the last one frees the home. */
  function LaterUsed(s: State, v: nat, m': Machine): State
    requires v < |s.vtbl| && 0 <= Home(s, v) < |s.model|
  {
    var i := s.vtbl[v].(usecnt := s.vtbl[v].usecnt + 1);
    s.(vtbl := s.vtbl[v := i], m := m',
       model := if i.usecnt == i.noccurences then s.model[i.home := Nil] else s.model)
  }

  lemma LaterUsedVar(F: Frame, s: State, v: nat, m': Machine, u: nat)
    requires Inv(F, s, -1) && v < |s.vtbl| && Resident(F, s, v)
    requires 0 < s.vtbl[v].usecnt < F.total[v]
    requires Quiet(s.m, m')
    requires Shape(F, LaterUsed(s, v, m')) && u < |s.vtbl|
    ensures VarOk(F, LaterUsed(s, v, m'), -1, u)
  {
    hide CellOk, PlacedOk;
    assert VarOk(F, s, -1, v);
    assert VarOk(F, s, -1, u);
    var s' := LaterUsed(s, v, m');
    if u != v {
      assert s'.vtbl[u] == s.vtbl[u] && (Resident(F, s', u) <==> Resident(F, s, u));
    }
  }

  lemma LaterUsedInv(F: Frame, s: State, v: nat, m': Machine)
    requires Inv(F, s, -1) && v < |s.vtbl| && Resident(F, s, v)
    requires 0 < s.vtbl[v].usecnt < F.total[v]
    requires Quiet(s.m, m')
    ensures Inv(F, LaterUsed(s, v, m'), -1)
  {
    var s' := LaterUsed(s, v, m');
    assert Shape(F, s');
    assert VarOk(F, s, -1, v);
    forall u: nat | u < |s.vtbl| ensures VarOk(F, s', -1, u) {
      LaterUsedVar(F, s, v, m', u);
    }
    forall x | F.Base() <= x < F.E ensures CellOk(F, s', x) {
      assert CellOk(F, s, x);
    }
    forall x | x in s.placed ensures PlacedOk(F, s', x) {
      assert PlacedOk(F, s, x);
    }
  }

  /** The only use of a variable that occurs once. */
  function VoidUsed(s: State, v: nat, c: Cell, m': Machine): State
    requires v < |s.vtbl|
  {
    s.(vtbl := s.vtbl[v := s.vtbl[v].(usecnt := s.vtbl[v].usecnt + 1)], env := s.env[v := c], m := m')
  }

  lemma VoidUsedInv(F: Frame, s: State, v: nat, c: Cell, m': Machine)
    requires Inv(F, s, -1) && v < |s.vtbl| && s.vtbl[v].noccurences == 1 && s.vtbl[v].usecnt < F.total[v]
    requires Quiet(s.m, m')
    ensures Inv(F, VoidUsed(s, v, c, m'), -1)
  {
    var s' := VoidUsed(s, v, c, m');
    assert Shape(F, s');
    assert VarOk(F, s, -1, v);
    forall u: nat | u < |s.vtbl| ensures VarOk(F, s', -1, u) {
      assert VarOk(F, s, -1, u);
    }
    forall x | F.Base() <= x < F.E ensures CellOk(F, s', x) {
      assert CellOk(F, s, x);
    }
    forall x | x in s.placed ensures PlacedOk(F, s', x) {
      assert PlacedOk(F, s, x);
    }
  }

  // ---- variable arguments ----

  ghost predicate Pending(F: Frame, s: State, v: nat, loc: int)
    requires |s.model| == F.N && |s.vtbl| == |F.total| && F.Ok()
  {
    && F.Adst <= loc < F.Adst + |F.args| && loc !in s.placed && ArgAt(F, loc) == Var(v)
    && v < |s.vtbl| && s.vtbl[v].usecnt < F.total[v]
  }

  /** The argument was already set up on the way. */
  function InPlace(s: State, v: nat, loc: int): State
    requires v < |s.vtbl|
  {
    s.(vtbl := s.vtbl[v := s.vtbl[v].(usecnt := s.vtbl[v].usecnt + 1)], placed := s.placed + {loc})
  }

  lemma InPlaceInv(F: Frame, s: State, v: nat, loc: int)
    requires Inv(F, s, -1) && Pending(F, s, v, loc) && s.model[loc] == Vo(v) && s.vtbl[v].pvnum == 0
    ensures Inv(F, InPlace(s, v, loc), -1) && v in s.env
  {
    var s' := InPlace(s, v, loc);
    assert Shape(F, s');
    assert VarOk(F, s, -1, v) && CellOk(F, s, loc);
    forall u: nat | u < |s.vtbl| ensures VarOk(F, s', -1, u) {
      InPlaceVar(F, s, v, loc, u);
    }
    forall x | F.Base() <= x < F.E ensures CellOk(F, s', x) {
      assert CellOk(F, s, x);
    }
    forall x | x in s'.placed ensures PlacedOk(F, s', x) {
      if x != loc { assert PlacedOk(F, s, x); }
    }
  }

  lemma InPlaceVar(F: Frame, s: State, v: nat, loc: int, u: nat)
    requires Inv(F, s, -1) && Pending(F, s, v, loc) && s.model[loc] == Vo(v) && s.vtbl[v].pvnum == 0
    requires Shape(F, InPlace(s, v, loc)) && u < |s.vtbl|
    ensures VarOk(F, InPlace(s, v, loc), -1, u)
  {
    assert VarOk(F, s, -1, v) && CellOk(F, s, loc);
    assert VarOk(F, s, -1, u);
  }

  /** A permanent variable appears first as this argument. */
  function PutY(s: State, v: nat, loc: int, c: Cell, m': Machine): State
    requires v < |s.vtbl|
  {
    s.(vtbl := s.vtbl[v := s.vtbl[v].(usecnt := s.vtbl[v].usecnt + 1)],
       placed := s.placed + {loc}, env := s.env[v := c], m := m')
  }

  lemma PutYVar(F: Frame, s: State, v: nat, loc: int, c: Cell, m': Machine, u: nat)
    requires Inv(F, s, -1) && Pending(F, s, v, loc) && Vacant(F, s, loc)
    requires s.vtbl[v].usecnt == 0 && s.vtbl[v].pvnum != 0
    requires m'.e == s.m.e && m'.sp == s.m.sp && FreshIds(m')
    requires m'.mem == s.m.mem[Home(s, v) := c][loc - F.gap := c]
    requires Shape(F, PutY(s, v, loc, c, m')) && u < |s.vtbl|
    ensures VarOk(F, PutY(s, v, loc, c, m'), -1, u)
  {
    assert VarOk(F, s, -1, v);
    assert VarOk(F, s, -1, u);
    if Resident(F, s, u) { PhysDistinct(F, s, u, loc); }
    if u != v && Resident(F, s, u) { PhysApart(F, s, -1, v, u); }
  }

  lemma PutYInv(F: Frame, s: State, v: nat, loc: int, c: Cell, m': Machine)
    requires Inv(F, s, -1) && Pending(F, s, v, loc) && Vacant(F, s, loc)
    requires s.vtbl[v].usecnt == 0 && s.vtbl[v].pvnum != 0
    requires m'.e == s.m.e && m'.sp == s.m.sp && FreshIds(m')
    requires m'.mem == s.m.mem[Home(s, v) := c][loc - F.gap := c]
    ensures Inv(F, PutY(s, v, loc, c, m'), -1)
  {
    var s' := PutY(s, v, loc, c, m');
    assert Shape(F, s');
    assert VarOk(F, s, -1, v);
    forall u: nat | u < |s.vtbl| ensures VarOk(F, s', -1, u) {
      PutYVar(F, s, v, loc, c, m', u);
    }
    forall x | F.Base() <= x < F.E ensures CellOk(F, s', x) {
      assert CellOk(F, s, x);
    }
    forall x | x in s'.placed ensures PlacedOk(F, s', x) {
      if x != loc { assert PlacedOk(F, s, x); }
    }
  }

  /** A temporary appears first as this argument. */
  function PutX(s: State, v: nat, loc: int, c: Cell, m': Machine): State
    requires v < |s.vtbl|
  {
    s.(vtbl := s.vtbl[v := s.vtbl[v].(home := loc, unsafe := false, usecnt := s.vtbl[v].usecnt + 1)],
       placed := s.placed + {loc}, env := s.env[v := c], m := m')
  }

  lemma PutXVar(F: Frame, s: State, v: nat, loc: int, c: Cell, m': Machine, u: nat)
    requires Inv(F, s, -1) && Pending(F, s, v, loc) && Vacant(F, s, loc)
    requires s.vtbl[v].usecnt == 0 && s.vtbl[v].pvnum == 0
    requires Wrote(s.m, m', loc - F.gap, c)
    requires Shape(F, PutX(s, v, loc, c, m')) && u < |s.vtbl|
    ensures VarOk(F, PutX(s, v, loc, c, m'), -1, u)
  {
    assert VarOk(F, s, -1, v) && CellOk(F, s, loc);
    assert VarOk(F, s, -1, u);
    if Resident(F, s, u) { PhysDistinct(F, s, u, loc); }
  }

  lemma PutXInv(F: Frame, s: State, v: nat, loc: int, c: Cell, m': Machine)
    requires Inv(F, s, -1) && Pending(F, s, v, loc) && Vacant(F, s, loc)
    requires s.vtbl[v].usecnt == 0 && s.vtbl[v].pvnum == 0
    requires Wrote(s.m, m', loc - F.gap, c)
    ensures Inv(F, PutX(s, v, loc, c, m'), -1)
  {
    var s' := PutX(s, v, loc, c, m');
    assert Shape(F, s');
    assert VarOk(F, s, -1, v) && CellOk(F, s, loc);
    forall u: nat | u < |s.vtbl| ensures VarOk(F, s', -1, u) {
      PutXVar(F, s, v, loc, c, m', u);
    }
    forall x | F.Base() <= x < F.E ensures CellOk(F, s', x) {
      assert CellOk(F, s, x);
    }
    forall x | x in s'.placed ensures PlacedOk(F, s', x) {
      if x != loc { assert PlacedOk(F, s, x); }
    }
  }

  /** A variable with a value is copied from its home; the last occurrence moves the home too. */
  function PutValue(s: State, v: nat, loc: int, dies: bool, m': Machine): State
    requires v < |s.vtbl| && 0 <= loc < |s.model| && 0 <= Home(s, v) < |s.model|
  {
    var i := s.vtbl[v].(usecnt := s.vtbl[v].usecnt + 1);
    var src := i.home;
    var model := s.model[loc := s.model[src]];
    s.(vtbl := s.vtbl[v := if dies then i.(home := loc, pvnum := 0) else i],
       model := if dies && src != loc && i.pvnum != 0 then model[src := Nil] else model,
       placed := s.placed + {loc}, m := m')
  }

  ghost predicate PutValueReady(F: Frame, s: State, v: nat, loc: int, m': Machine) {
    && Inv(F, s, -1) && Pending(F, s, v, loc) && s.vtbl[v].usecnt > 0
    && (Vacant(F, s, loc) || (s.model[loc] == Vo(v) && Home(s, v) == loc && s.vtbl[v].pvnum == 0))
    && 0 <= Home(s, v) < F.N
    && m'.e == s.m.e && m'.sp == s.m.sp && FreshIds(m')
    && (m'.mem == s.m.mem[loc - F.gap := At(F, s, Home(s, v))] || (m'.mem == s.m.mem && Home(s, v) == loc))
  }

  function PutValueHere(F: Frame, s: State, v: nat, loc: int, m': Machine): State
    requires v < |s.vtbl| && 0 <= loc < |s.model| && 0 <= Home(s, v) < |s.model|
  {
    PutValue(s, v, loc, s.vtbl[v].lastocc == F.goalnumber, m')
  }

  lemma CopiedReady(F: Frame, s: State, v: nat, loc: int, m': Machine)
    requires Inv(F, s, -1) && Pending(F, s, v, loc) && s.vtbl[v].usecnt > 0 && !s.m.open && 0 <= Home(s, v) < F.N
    requires Vacant(F, s, loc) || (s.model[loc] == Vo(v) && Home(s, v) == loc && s.vtbl[v].pvnum == 0)
    requires Phys(F, s, loc) == loc - F.gap
    requires m' == Copied(s.m, loc - F.gap, At(F, s, Home(s, v)), true) || (m' == s.m && Home(s, v) == loc)
             || m' == s.m.(mem := s.m.mem[loc - F.gap := At(F, s, Home(s, v))])
    ensures PutValueReady(F, s, v, loc, m') && m'.next == s.m.next && s.m.heap <= m'.heap && !m'.open
    ensures m'.spilled == s.m.spilled
  {
  }

  lemma PutValueInv(F: Frame, s: State, v: nat, loc: int, m': Machine)
    requires PutValueReady(F, s, v, loc, m')
    ensures Inv(F, PutValueHere(F, s, v, loc, m'), -1) && v in s.env
    ensures At(F, s, Home(s, v)) == s.env[v]
  {
    hide VarOk, CellOk, PlacedOk, Vacant;
    var s' := PutValueHere(F, s, v, loc, m');
    PutValueShape(F, s, v, loc, m');
    forall u: nat | u < |s.vtbl| ensures VarOk(F, s', -1, u) {
      if u == v {
        PutValueSelf(F, s, v, loc, m');
      } else {
        PutValueOther(F, s, v, loc, m', u);
      }
    }
    forall x | F.Base() <= x < F.E ensures CellOk(F, s', x) {
      PutValueCell(F, s, v, loc, m', x);
    }
    forall x | x in s'.placed ensures PlacedOk(F, s', x) {
      PutValuePlaced(F, s, v, loc, m', x);
    }
  }

  lemma PutValueShape(F: Frame, s: State, v: nat, loc: int, m': Machine)
    requires PutValueReady(F, s, v, loc, m')
    ensures Shape(F, PutValueHere(F, s, v, loc, m')) && v in s.env
    ensures At(F, s, Home(s, v)) == s.env[v]
  {
    assert VarOk(F, s, -1, v);
    if HomedInArgument(F, s, v) { assert PlacedOk(F, s, Home(s, v)); }
  }

  lemma PutValuePlaced(F: Frame, s: State, v: nat, loc: int, m': Machine, x: int)
    requires PutValueReady(F, s, v, loc, m') && Shape(F, PutValueHere(F, s, v, loc, m'))
    requires x in PutValueHere(F, s, v, loc, m').placed
    ensures PlacedOk(F, PutValueHere(F, s, v, loc, m'), x)
  {
    PutValueShape(F, s, v, loc, m');
    assert VarOk(F, s, -1, v);
    if x != loc { assert PlacedOk(F, s, x); }
  }

  lemma PutValueSelf(F: Frame, s: State, v: nat, loc: int, m': Machine)
    requires PutValueReady(F, s, v, loc, m') && Shape(F, PutValueHere(F, s, v, loc, m'))
    ensures VarOk(F, PutValueHere(F, s, v, loc, m'), -1, v)
  {
    assert VarOk(F, s, -1, v) && Var(v) in F.args;
    if HomedInArgument(F, s, v) { assert PlacedOk(F, s, Home(s, v)); }
  }

  lemma PutValueOther(F: Frame, s: State, v: nat, loc: int, m': Machine, u: nat)
    requires PutValueReady(F, s, v, loc, m') && Shape(F, PutValueHere(F, s, v, loc, m'))
    requires u < |s.vtbl| && u != v
    ensures VarOk(F, PutValueHere(F, s, v, loc, m'), -1, u)
  {
    hide CellOk, PlacedOk;
    assert VarOk(F, s, -1, u) && VarOk(F, s, -1, v);
    if Resident(F, s, u) { PhysDistinct(F, s, u, loc); }
  }

  lemma PutValueCell(F: Frame, s: State, v: nat, loc: int, m': Machine, x: int)
    requires PutValueReady(F, s, v, loc, m') && Shape(F, PutValueHere(F, s, v, loc, m'))
    requires F.Base() <= x < F.E
    ensures CellOk(F, PutValueHere(F, s, v, loc, m'), x)
  {
    assert VarOk(F, s, -1, v) && CellOk(F, s, x);
  }

  // ---- what a step may do besides its own purpose ----

  function PermCount(vt: seq<VarInf>): nat {
    if vt == [] then 0
    else PermCount(vt[..|vt| - 1]) + if vt[|vt| - 1].pvnum != 0 then 1 else 0
  }

  lemma {:induction false} PermCountUpdate(vt: seq<VarInf>, v: nat, i: VarInf)
    requires v < |vt|
    ensures PermCount(vt[v := i]) == PermCount(vt)
                                     + (if i.pvnum != 0 then 1 else 0) - (if vt[v].pvnum != 0 then 1 else 0)
  {
    var n := |vt| - 1;
    if v < n {
      assert vt[v := i][..n] == vt[..n][v := i];
      PermCountUpdate(vt[..n], v, i);
    } else {
      assert vt[v := i][..n] == vt[..n];
    }
  }

  lemma PermCountPositive(vt: seq<VarInf>, v: nat)
    requires v < |vt| && vt[v].pvnum != 0
    ensures PermCount(vt) >= 1
  {
    PermCountUpdate(vt, v, vt[v].(pvnum := 0));
  }

  /** Stack cells left for temporaries when every permanent variable has been set one aside. */
  function Room(s: State): int {
    s.sp - PermCount(s.vtbl)
  }

  /** All that argument shuffling does to the heap: push variables that used to be exposed. */
  ghost predicate Pushes(m: Machine, m': Machine) {
    && m.heap <= m'.heap
    && (forall k | |m.heap| <= k < |m'.heap| :: m'.heap[k].CVar? && m'.heap[k].id < m.next)
    && m'.spilled == (m.spilled || (m.open && |m'.heap| > |m.heap|))
    && Exposed(m') <= Exposed(m) && (m'.heap == m.heap <==> Exposed(m') == Exposed(m))
    && m'.open == m.open && m'.next == m.next
  }

  predicate SameVar(F: Frame, s: State, s': State, v: nat)
    requires v < |s.vtbl| == |s'.vtbl|
  {
    var i, i' := s.vtbl[v], s'.vtbl[v];
    && i'.firstocc == i.firstocc && i'.lastocc == i.lastocc
    && i'.noccurences == i.noccurences && i'.target == i.target
    && i.usecnt <= i'.usecnt && (i'.unsafe ==> i.unsafe) && (i.home != 0 ==> i'.home != 0)
    // it is made safe by its first use, or when it leaves the environment
    && (i.unsafe && !i'.unsafe ==> i.usecnt == 0 < i'.usecnt || i'.pvnum == 0 != i.pvnum)
    && (i'.pvnum != 0 ==> i.pvnum != 0 && i'.home == i.home)
    && (i.home >= F.Top ==> i'.home == i.home || i'.lastocc == F.goalnumber)
  }

  predicate SameTemp(F: Frame, s: State, s': State, x: int)
    requires 0 <= x < |s.model| == |s'.model|
  {
    s.model[x].Other? ==>
      s'.model[x] == s.model[x] && Get(s'.m.mem, x - F.gap) == Get(s.m.mem, x - F.gap)
  }

  predicate SameArgument(F: Frame, s: State, s': State, x: int) {
    x in s'.placed && Get(s'.m.mem, x - F.gap) == Get(s.m.mem, x - F.gap)
  }

  /** Finished arguments and built terms waiting in temporaries stay as they are. */
  ghost predicate KeepsBuilt(F: Frame, s: State, s': State) {
    && |s'.model| == |s.model| && |s'.vtbl| == |s.vtbl| && 0 < s'.sp <= s.sp && F.SPstart <= |s.model|
    && (forall x | s.sp <= x < F.SPstart :: SameTemp(F, s, s', x))
    && (forall x | x in s.placed :: SameArgument(F, s, s', x))
    && (forall v: nat | v < |s.vtbl| :: SameVar(F, s, s', v))
  }

  /** No permanent variable that dies at this goal may still be a local variable. */
  ghost predicate NoUnsafe(F: Frame, s: State) {
    forall v: nat | v < |s.vtbl| :: SafeVar(F, s, v)
  }

  predicate SafeVar(F: Frame, s: State, v: nat)
    requires v < |s.vtbl|
  {
    var i := s.vtbl[v];
    i.pvnum != 0 && i.home < F.Top && i.unsafe ==> i.firstocc == 0
  }

  lemma NoUnsafeStays(F: Frame, s: State, s': State)
    requires KeepsBuilt(F, s, s') && NoUnsafe(F, s)
    ensures NoUnsafe(F, s')
  {
    forall v: nat | v < |s'.vtbl| ensures SafeVar(F, s', v) {
      assert SafeVar(F, s, v) && SameVar(F, s, s', v);
    }
  }

  /** Homes move, values do not. */
  ghost predicate Shuffles(F: Frame, s: State, s': State) {
    && KeepsBuilt(F, s, s') && Pushes(s.m, s'.m) && (NoUnsafe(F, s) ==> s'.m.heap == s.m.heap)
    && s'.env == s.env && s'.placed == s.placed
    && forall v: nat | v < |s.vtbl| :: SameUse(s, s', v)
  }

  predicate SameUse(s: State, s': State, v: nat)
    requires v < |s.vtbl| == |s'.vtbl|
  {
    s'.vtbl[v].usecnt == s.vtbl[v].usecnt
  }

  /** A temporary is where it was. */
  predicate Stays(F: Frame, s: State, s': State, u: nat)
    requires Shape(F, s) && Shape(F, s') && u < |s.vtbl|
  {
    s.vtbl[u].pvnum == 0 ==>
      s'.vtbl[u] == s.vtbl[u] && (Resident(F, s, u) ==> Resident(F, s', u))
  }

  /** Temporaries, except `exc`, are where they were. */
  ghost predicate StayHome(F: Frame, s: State, s': State, exc: int)
    requires Shape(F, s) && Shape(F, s')
  {
    forall u: nat | u < |s.vtbl| && u != exc :: Stays(F, s, s', u)
  }

  lemma ShufflesRefl(F: Frame, s: State)
    requires Shape(F, s)
    ensures Shuffles(F, s, s)
  {
  }

  lemma ShufflesTrans(F: Frame, s: State, s1: State, s2: State)
    requires Shuffles(F, s, s1) && Shuffles(F, s1, s2)
    ensures Shuffles(F, s, s2)
  {
    KeepsBuiltTrans(F, s, s1, s2);
    if NoUnsafe(F, s) { NoUnsafeStays(F, s, s1); }
    forall v: nat | v < |s.vtbl| ensures SameUse(s, s2, v) {
      assert SameUse(s, s1, v) && SameUse(s1, s2, v);
    }
  }

  lemma KeepsBuiltTrans(F: Frame, s: State, s1: State, s2: State)
    requires KeepsBuilt(F, s, s1) && KeepsBuilt(F, s1, s2)
    ensures KeepsBuilt(F, s, s2)
  {
    forall v: nat | v < |s.vtbl| ensures SameVar(F, s, s2, v) {
      assert SameVar(F, s, s1, v) && SameVar(F, s1, s2, v);
    }
    forall x | s.sp <= x < F.SPstart ensures SameTemp(F, s, s2, x) {
      assert SameTemp(F, s, s1, x) && SameTemp(F, s1, s2, x);
    }
    forall x | x in s.placed ensures SameArgument(F, s, s2, x) {
      assert SameArgument(F, s, s1, x) && SameArgument(F, s1, s2, x);
    }
  }

  lemma ShrunkShuffles(F: Frame, s: State)
    requires Inv(F, s, -1) && s.sp >= 2
    ensures Shuffles(F, s, Shrunk(s)) && Room(Shrunk(s)) == Room(s) - 1
  {
  }

  /** A move pushes at most the variable moved, and only when it has to be made safe. */
  lemma RelocatePushes(F: Frame, s: State, s': State, v: nat, t: int)
    requires Inv(F, s, -1) && Relocates(F, s, s', v, t) && Home(s, v) < F.Top
    ensures Pushes(s.m, s'.m) && (SafeVar(F, s, v) ==> s'.m.heap == s.m.heap)
  {
  }

  lemma RelocateShuffles(F: Frame, s: State, s': State, v: nat, t: int)
    requires Inv(F, s, -1) && Relocates(F, s, s', v, t)
    requires Vacant(F, s, t) && Home(s, v) < F.Top
    ensures Shuffles(F, s, s')
    ensures Room(s') == Room(s) + (if s.vtbl[v].pvnum != 0 then 1 else 0)
  {
    PermCountUpdate(s.vtbl, v, s'.vtbl[v]);
    RelocatePushes(F, s, s', v, t);
    RelocateKeeps(F, s, s', v, t);
  }

  lemma RelocateKeeps(F: Frame, s: State, s': State, v: nat, t: int)
    requires Inv(F, s, -1) && Relocates(F, s, s', v, t) && Vacant(F, s, t) && Home(s, v) < F.Top
    ensures KeepsBuilt(F, s, s')
  {
    forall x | x in s.placed ensures SameArgument(F, s, s', x) {
      assert x != t;
    }
  }

  /** However homes are shuffled, every variable with uses left is still found with the value
      it had: no chain or cycle of moves loses one. */
  lemma ShufflesKeepValues(F: Frame, s: State, s': State, v: nat)
    requires Inv(F, s, -1) && Inv(F, s', -1) && Shuffles(F, s, s')
    requires v < |s.vtbl| && Live(s.vtbl[v])
    ensures Live(s'.vtbl[v]) && 0 <= Home(s, v) < F.N && 0 <= Home(s', v) < F.N
    ensures At(F, s', Home(s', v)) == At(F, s, Home(s, v))
  {
    assert SameUse(s, s', v) && SameVar(F, s, s', v);
    LiveAtHome(F, s, v);
    LiveAtHome(F, s', v);
  }

  /** A variable that is still needed is found at its recorded home. */
  lemma LiveAtHome(F: Frame, s: State, v: nat)
    requires Inv(F, s, -1) && v < |s.vtbl| && Live(s.vtbl[v])
    ensures 0 <= Home(s, v) < F.N && v in s.env && At(F, s, Home(s, v)) == s.env[v]
  {
    assert VarOk(F, s, -1, v);
    if !Resident(F, s, v) { assert PlacedOk(F, s, Home(s, v)); }
  }

  /** The cell may be overwritten, or the one variable it is meant for has settled there. */
  ghost predicate Freed(F: Frame, s: State, loc: int)
    requires Shape(F, s) && 0 <= loc < F.N
  {
    || Vacant(F, s, loc)
    || (s.model[loc].Vo? &&
        var i := s.vtbl[s.model[loc].v];
        i.home == loc && i.target == loc && i.pvnum == 0)
  }

  lemma VacantTemp(F: Frame, s: State, t: int)
    requires Inv(F, s, -1) && s.sp <= t < F.SPstart && s.model[t] == Nil
    ensures Vacant(F, s, t)
  {
    assert t in s.placed ==> PlacedOk(F, s, t);
  }

  /** Distinct variables have distinct targets. */
  lemma TargetsInjective(F: Frame, s: State, u: nat, v: nat)
    requires Inv(F, s, -1) && u < |s.vtbl| && v < |s.vtbl|
    requires s.vtbl[u].target == s.vtbl[v].target != 0
    ensures u == v
  {
    assert VarOk(F, s, -1, u) && VarOk(F, s, -1, v);
  }

  /** The target of a variable that is at home elsewhere has not been finished yet. */
  lemma TargetOpen(F: Frame, s: State, v: nat)
    requires Inv(F, s, -1) && v < |s.vtbl| && s.vtbl[v].target != 0
    requires Resident(F, s, v) && Home(s, v) < F.Top
    ensures F.Adst <= s.vtbl[v].target < F.Top && s.vtbl[v].target !in s.placed
  {
    assert VarOk(F, s, -1, v);
    assert s.vtbl[v].target in s.placed ==> PlacedOk(F, s, s.vtbl[v].target);
  }

  /** A variable at home below Top has a value. */
  lemma ResidentHasValue(F: Frame, s: State, v: nat)
    requires Inv(F, s, -1) && v < |s.vtbl| && Resident(F, s, v) && Home(s, v) < F.Top
    ensures s.vtbl[v].usecnt > 0
  {
    assert VarOk(F, s, -1, v);
  }

  lemma PermNotPlaced(F: Frame, s: State, x: int)
    requires Inv(F, s, -1) && 0 <= x < F.N && IsPermCell(s, x) && Home(s, s.model[x].v) == x
    ensures x !in s.placed
  {
    assert x in s.placed ==> PlacedOk(F, s, x);
  }

  lemma ShrunkStays(F: Frame, s: State)
    requires Inv(F, s, -1) && s.sp >= 2
    ensures StayHome(F, s, Shrunk(s), -1)
    ensures forall x | F.Base() <= x < F.Top && Freed(F, s, x) :: Freed(F, Shrunk(s), x)
  {
  }

  lemma RelocateStays(F: Frame, s: State, s': State, v: nat, t: int)
    requires Inv(F, s, -1) && Relocates(F, s, s', v, t) && Vacant(F, s, t) && Shape(F, s')
    ensures StayHome(F, s, s', v)
  {
  }

  /** Once freed, a cell is refilled only by the variable it is meant for. */
  lemma RelocateFrees(F: Frame, s: State, s': State, v: nat, t: int, x: int)
    requires Inv(F, s, -1) && Relocates(F, s, s', v, t) && Vacant(F, s, t) && Shape(F, s')
    requires F.Base() <= x < F.Top && x !in s.placed
    requires Home(s, v) == x || Freed(F, s, x)
    requires t < F.SPstart || t == s.vtbl[v].target
    ensures Freed(F, s', x)
  {
  }

  lemma StayHomeTrans(F: Frame, s: State, s1: State, s2: State)
    requires Shape(F, s) && Shape(F, s1) && Shape(F, s2) && |s1.vtbl| == |s.vtbl|
    requires StayHome(F, s, s1, -1) && StayHome(F, s1, s2, -1)
    ensures StayHome(F, s, s2, -1)
  {
    forall u: nat | u < |s.vtbl| ensures Stays(F, s, s2, u) {
      assert Stays(F, s, s1, u) && Stays(F, s1, s2, u);
    }
  }

  lemma NilTarget(F: Frame, s: State, t: int)
    requires Shape(F, s) && F.Adst <= t < F.Top && t !in s.placed && s.model[t] == Nil
    ensures Vacant(F, s, t)
  {
  }

  lemma RoomBelow(s: State, v: nat)
    requires v < |s.vtbl|
    ensures s.sp >= Room(s) + if s.vtbl[v].pvnum != 0 then 1 else 0
  {
    if s.vtbl[v].pvnum != 0 { PermCountPositive(s.vtbl, v); }
  }

  lemma SamePlaced(F: Frame, s: State, s': State)
    requires Shuffles(F, s, s')
    ensures s'.placed == s.placed && s'.env == s.env && |s'.vtbl| == |s.vtbl| && |s'.model| == |s.model|
    ensures s'.m.open == s.m.open && s'.m.next == s.m.next && s.m.heap <= s'.m.heap
    ensures !s.m.open ==> s'.m.spilled == s.m.spilled
    ensures NoVarPlaced(F, s) ==> NoVarPlaced(F, s')
    ensures s'.m.spilled == (s.m.spilled || (s.m.open && |s'.m.heap| > |s.m.heap|))
    ensures forall k | |s.m.heap| <= k < |s'.m.heap| :: s'.m.heap[k].CVar? && s'.m.heap[k].id < s.m.next
    ensures NoUnsafe(F, s) ==> s'.m.heap == s.m.heap
    ensures forall v: nat | v < |s.vtbl| :: SameUse(s, s', v) && SameVar(F, s, s', v)
  {
  }

  /** A new stack cell was or was not needed for a temporary. */
  ghost predicate MaybeShrunk(s: State, s1: State) {
    s1 == s || (2 <= s.sp <= |s.model| && s1 == Shrunk(s))
  }

  lemma MaybeShrunkKeeps(F: Frame, s: State, s1: State)
    requires Inv(F, s, -1) && MaybeShrunk(s, s1)
    ensures Inv(F, s1, -1) && Shuffles(F, s, s1) && Room(s1) >= Room(s) - 1
    ensures StayHome(F, s, s1, -1)
    ensures forall x | F.Base() <= x < F.Top && Freed(F, s, x) :: Freed(F, s1, x)
  {
    if s1 == s {
      ShufflesRefl(F, s);
    } else {
      ShrinkInv(F, s);
      ShrunkShuffles(F, s);
      ShrunkStays(F, s);
    }
  }

  /** A permanent variable is set aside in `t`. */
  lemma EvictKeeps(F: Frame, s: State, s1: State, s2: State, v: nat, t: int, first: int)
    requires Inv(F, s, -1) && MaybeShrunk(s, s1)
    requires v < |s.vtbl| && s.vtbl[v].pvnum != 0
    requires t < F.SPstart || (t == s.vtbl[v].target && s1 == s)
    requires Shape(F, s1) && Relocates(F, s1, s2, v, t) && Vacant(F, s1, t) && Home(s, v) < F.Top
    requires F.Base() <= first < F.Top && first !in s.placed && (Home(s, v) == first || Freed(F, s, first))
    ensures Inv(F, s2, -1) && Shuffles(F, s, s2) && Room(s2) >= Room(s)
    ensures StayHome(F, s, s2, -1) && Freed(F, s2, first) && s2.m.next == s.m.next && s2.env == s.env
  {
    MaybeShrunkKeeps(F, s, s1);
    ResidentHasValue(F, s1, v);
    RelocateInv(F, s1, s2, v, t);
    RelocateShuffles(F, s1, s2, v, t);
    RelocateStays(F, s1, s2, v, t);
    RelocateFrees(F, s1, s2, v, t, first);
    ShufflesTrans(F, s, s1, s2);
    forall u: nat | u < |s.vtbl| ensures Stays(F, s, s2, u) {
      assert Stays(F, s, s1, u) && (u != v ==> Stays(F, s1, s2, u));
    }
  }

  /** A temporary is set aside in another temporary cell. */
  lemma MoveToTempKeeps(F: Frame, s: State, s1: State, s2: State, v: nat, t: int)
    requires Inv(F, s, -1) && MaybeShrunk(s, s1)
    requires v < |s.vtbl| && t < F.SPstart
    requires Shape(F, s1) && Relocates(F, s1, s2, v, t) && Vacant(F, s1, t) && Home(s, v) < F.Top
    ensures Inv(F, s2, -1) && Shuffles(F, s, s2) && Room(s2) >= Room(s) - 1 && StayHome(F, s, s2, v)
  {
    MaybeShrunkKeeps(F, s, s1);
    ResidentHasValue(F, s1, v);
    RelocateInv(F, s1, s2, v, t);
    RelocateShuffles(F, s1, s2, v, t);
    RelocateStays(F, s1, s2, v, t);
    ShufflesTrans(F, s, s1, s2);
    forall u: nat | u < |s.vtbl| && u != v ensures Stays(F, s, s2, u) {
      assert Stays(F, s, s1, u) && Stays(F, s1, s2, u);
    }
  }

  /** A vacant cell is addressed through the stack pointer. */
  lemma VacantPhys(F: Frame, s: State, t: int)
    requires Inv(F, s, -1) && Vacant(F, s, t)
    ensures s.sp <= t < F.Top < F.N && t !in s.placed && Phys(F, s, t) == t - F.gap
    ensures t < F.SPstart || F.Base() <= t
  {
    if t >= F.Base() { assert CellOk(F, s, t); }
  }

  // ---- chains of displaced variables ----

  /** Entry `i` of a chain: a temporary at home in `start`, or in the target of the entry before. */
  ghost predicate LinkOk(F: Frame, s: State, chain: seq<nat>, i: nat, start: int)
    requires Shape(F, s) && i < |chain|
  {
    var u := chain[i];
    && u < |s.vtbl| && Resident(F, s, u) && F.Base() <= Home(s, u) < F.Top && s.vtbl[u].pvnum == 0
    && s.vtbl[u].target != 0 && s.vtbl[u].target != start && s.vtbl[u].target != Home(s, u)
    && Home(s, u) == LinkCell(s, chain, i, start)
  }

  /** The cell that entry `i` of the chain occupies, or that the chain leads to. */
  function LinkCell(s: State, chain: seq<nat>, i: nat, start: int): int
    requires i <= |chain|
  {
    if i == 0 then start else if chain[i - 1] < |s.vtbl| then s.vtbl[chain[i - 1]].target else 0
  }

  ghost predicate ChainOk(F: Frame, s: State, chain: seq<nat>, start: int)
    requires Shape(F, s)
  {
    && (forall i: nat | i < |chain| :: LinkOk(F, s, chain, i, start))
    && (forall i, j | 0 <= i < j < |chain| :: chain[i] != chain[j])
  }

  lemma ChainStarts(F: Frame, s: State, stack: seq<int>, tdbase: nat, start: int)
    requires Shape(F, s) && tdbase <= |stack|
    ensures ChainOk(F, s, [], start) && Stacked(s, stack, tdbase, [], start)
  {
  }

  /** A chain never meets the same variable twice, because targets are distinct. */
  lemma ChainFresh(F: Frame, s: State, chain: seq<nat>, start: int, v: nat)
    requires Inv(F, s, -1) && ChainOk(F, s, chain, start)
    requires v < |s.vtbl| && Home(s, v) == LinkCell(s, chain, |chain|, start)
    ensures v !in chain
  {
    forall i | 0 <= i < |chain| ensures chain[i] != v {
      assert LinkOk(F, s, chain, i, start);
      assert LinkOk(F, s, chain, |chain| - 1, start);
      if i > 0 { assert LinkOk(F, s, chain, i - 1, start); }
      if i > 0 && LinkCell(s, chain, i, start) == LinkCell(s, chain, |chain|, start) {
        TargetsInjective(F, s, chain[i - 1], chain[|chain| - 1]);
      }
    }
  }

  lemma ChainGrows(F: Frame, s: State, chain: seq<nat>, start: int, v: nat)
    requires Inv(F, s, -1) && ChainOk(F, s, chain, start)
    requires v < |s.vtbl| && Resident(F, s, v) && F.Base() <= Home(s, v) < F.Top && s.vtbl[v].pvnum == 0
    requires s.vtbl[v].target != 0 && s.vtbl[v].target != start && s.vtbl[v].target != Home(s, v)
    requires Home(s, v) == LinkCell(s, chain, |chain|, start)
    ensures ChainOk(F, s, chain + [v], start)
    ensures forall i: nat | i <= |chain| :: LinkCell(s, chain + [v], i, start) == LinkCell(s, chain, i, start)
  {
    var chain' := chain + [v];
    ChainFresh(F, s, chain, start, v);
    forall i: nat | i < |chain'| ensures LinkOk(F, s, chain', i, start) {
      if i < |chain| { assert LinkOk(F, s, chain, i, start); }
    }
  }

  lemma {:induction false} DistinctBelow(chain: seq<nat>, n: nat)
    requires forall i | 0 <= i < |chain| :: chain[i] < n
    requires forall i, j | 0 <= i < j < |chain| :: chain[i] != chain[j]
    ensures |chain| <= n
    decreases n
  {
    if |chain| > 0 {
      assert chain[0] < n;
      if k :| 0 <= k < |chain| && chain[k] == n - 1 {
        DistinctBelow(chain[..k] + chain[k + 1..], n - 1);
      } else {
        DistinctBelow(chain, n - 1);
      }
    }
  }

  lemma ChainShort(F: Frame, s: State, chain: seq<nat>, start: int)
    requires Shape(F, s) && ChainOk(F, s, chain, start)
    ensures |chain| <= |s.vtbl|
  {
    forall i | 0 <= i < |chain| ensures chain[i] < |s.vtbl| {
      assert LinkOk(F, s, chain, i, start);
    }
    DistinctBelow(chain, |s.vtbl|);
  }

  /** The to-do stack records the cells of the chain, each pushed twice. */
  ghost predicate Stacked(s: State, stack: seq<int>, tdbase: nat, chain: seq<nat>, start: int) {
    && tdbase + 2 * |chain| <= |stack|
    && forall i: nat | i < |chain| :: StackedAt(s, stack, tdbase, chain, i, start)
  }

  predicate StackedAt(s: State, stack: seq<int>, tdbase: nat, chain: seq<nat>, i: nat, start: int)
    requires i < |chain| && tdbase + 2 * |chain| <= |stack|
  {
    stack[tdbase + 2 * i] == stack[tdbase + 2 * i + 1] == LinkCell(s, chain, i, start)
  }

  lemma StackGrows(s: State, stack: seq<int>, tdbase: nat, chain: seq<nat>, v: nat, cur: int, start: int)
    requires Stacked(s, stack, tdbase, chain, start) && tdbase + 2 * |chain| + 2 <= |stack|
    requires cur == LinkCell(s, chain, |chain|, start)
    ensures var top := tdbase + 2 * |chain|;
            Stacked(s, stack[top := cur][top + 1 := cur], tdbase, chain + [v], start)
  {
    var top := tdbase + 2 * |chain|;
    var stack' := stack[top := cur][top + 1 := cur];
    forall i: nat | i < |chain| + 1 ensures StackedAt(s, stack', tdbase, chain + [v], i, start) {
      if i < |chain| { assert StackedAt(s, stack, tdbase, chain, i, start); }
    }
  }

  lemma StackTop(s: State, stack: seq<int>, tdbase: nat, chain: seq<nat>, start: int)
    requires Stacked(s, stack, tdbase, chain, start) && |chain| > 0
    ensures tdbase + 2 * |chain| <= |stack|
    ensures var top := tdbase + 2 * |chain|;
            stack[top - 2] == stack[top - 1] == LinkCell(s, chain, |chain| - 1, start)
  {
    assert StackedAt(s, stack, tdbase, chain, |chain| - 1, start);
  }

  lemma VacantIsFreed(F: Frame, s: State, x: int)
    requires Shape(F, s) && Vacant(F, s, x)
    ensures Freed(F, s, x)
  {
  }

  lemma StackShrinks(s: State, s': State, stack: seq<int>, tdbase: nat, chain: seq<nat>, start: int)
    requires Stacked(s, stack, tdbase, chain, start) && |chain| > 0
    requires forall i: nat | i < |chain| :: LinkCell(s', chain[..|chain| - 1], i, start) == LinkCell(s, chain, i, start)
    ensures Stacked(s', stack, tdbase, chain[..|chain| - 1], start)
  {
    var rest := chain[..|chain| - 1];
    forall i: nat | i < |rest| ensures StackedAt(s', stack, tdbase, rest, i, start) {
      assert StackedAt(s, stack, tdbase, chain, i, start);
    }
  }

  lemma PermHome(F: Frame, s: State, v: nat)
    requires Inv(F, s, -1) && v < |s.vtbl| && IsPerm(s, v)
    ensures F.Eend <= Home(s, v)
  {
    assert VarOk(F, s, -1, v);
  }

  /** The rest of a chain is untouched while other variables move. */
  lemma ChainStays(F: Frame, s: State, s': State, chain: seq<nat>, start: int, exc: int)
    requires Inv(F, s, -1) && Inv(F, s', -1)
    requires ChainOk(F, s, chain, start) && StayHome(F, s, s', exc)
    requires forall i | 0 <= i < |chain| :: chain[i] != exc
    ensures ChainOk(F, s', chain, start)
    ensures forall stack, tdbase: nat | Stacked(s, stack, tdbase, chain, start) :: Stacked(s', stack, tdbase, chain, start)
    ensures forall i: nat | i <= |chain| :: LinkCell(s', chain, i, start) == LinkCell(s, chain, i, start)
  {
    forall i: nat | i < |chain| ensures LinkOk(F, s', chain, i, start) {
      assert LinkOk(F, s, chain, i, start) && Stays(F, s, s', chain[i]);
      if i > 0 { assert LinkOk(F, s, chain, i - 1, start) && Stays(F, s, s', chain[i - 1]); }
    }
    forall i: nat | i <= |chain| ensures LinkCell(s', chain, i, start) == LinkCell(s, chain, i, start) {
      if i > 0 { assert LinkOk(F, s, chain, i - 1, start) && Stays(F, s, s', chain[i - 1]); }
    }
    forall stack, tdbase: nat | Stacked(s, stack, tdbase, chain, start)
      ensures Stacked(s', stack, tdbase, chain, start)
    {
      forall i: nat | i < |chain| ensures StackedAt(s', stack, tdbase, chain, i, start) {
        assert StackedAt(s, stack, tdbase, chain, i, start);
      }
    }
  }

  /** The cell a chain leads to is open, and once freed it is vacant. */
  lemma ChainEnd(F: Frame, s: State, chain: seq<nat>, start: int)
    requires Inv(F, s, -1) && ChainOk(F, s, chain, start) && |chain| > 0
    ensures LinkOk(F, s, chain, |chain| - 1, start)
    ensures var cur := LinkCell(s, chain, |chain|, start);
            && F.Adst <= cur < F.Top && cur !in s.placed
            && (Freed(F, s, cur) ==> Vacant(F, s, cur))
  {
    var u := chain[|chain| - 1];
    var cur := LinkCell(s, chain, |chain|, start);
    assert LinkOk(F, s, chain, |chain| - 1, start);
    TargetOpen(F, s, u);
    if s.model[cur].Vo? && s.vtbl[s.model[cur].v].target == cur { TargetsInjective(F, s, s.model[cur].v, u); }
  }

  /** The last variable of a chain takes its target; its old cell is free for the one before. */
  lemma SettleKeeps(F: Frame, s: State, s': State, chain: seq<nat>, start: int)
    requires Inv(F, s, -1) && ChainOk(F, s, chain, start) && |chain| > 0
    requires var u := chain[|chain| - 1];
             u < |s.vtbl| && Relocates(F, s, s', u, s.vtbl[u].target) && Vacant(F, s, s.vtbl[u].target)
    ensures Inv(F, s', -1) && Shuffles(F, s, s') && Room(s') == Room(s)
    ensures s'.m.next == s.m.next && s'.env == s.env
    ensures ChainOk(F, s', chain[..|chain| - 1], start)
    ensures Vacant(F, s', LinkCell(s', chain[..|chain| - 1], |chain| - 1, start))
    ensures forall i: nat | i < |chain| :: LinkCell(s', chain[..|chain| - 1], i, start) == LinkCell(s, chain, i, start)
  {
    var n := |chain| - 1;
    var u := chain[n];
    assert LinkOk(F, s, chain, n, start);
    ResidentHasValue(F, s, u);
    RelocateInv(F, s, s', u, s.vtbl[u].target);
    RelocateShuffles(F, s, s', u, s.vtbl[u].target);
    RelocateStays(F, s, s', u, s.vtbl[u].target);
    var rest := chain[..n];
    forall i: nat | i < n ensures LinkOk(F, s, rest, i, start) {
      assert LinkOk(F, s, chain, i, start);
    }
    ChainStays(F, s, s', rest, start, u);
    forall i: nat | i <= n ensures LinkCell(s', rest, i, start) == LinkCell(s, chain, i, start) {
      assert LinkCell(s, rest, i, start) == LinkCell(s, chain, i, start);
    }
  }

  lemma CellAt(F: Frame, s: State, x: int)
    requires Inv(F, s, -1) && F.Base() <= x < F.Top && x !in s.placed
    ensures !s.model[x].Other?
    ensures s.model[x].Vo? && Home(s, s.model[x].v) != x ==> Freed(F, s, x)
    ensures s.model[x].Nil? ==> Freed(F, s, x)
    ensures (s.model[x].Vo? && s.vtbl[s.model[x].v].home == s.vtbl[s.model[x].v].target == x
             && s.vtbl[s.model[x].v].pvnum == 0) ==> Freed(F, s, x)
    ensures s.model[x].Vo? && Home(s, s.model[x].v) == x ==> Resident(F, s, s.model[x].v)
  {
    assert CellOk(F, s, x);
  }

  /** A variable at home in one cell has left no copy in a vacant one. */
  lemma NotInPlace(F: Frame, s: State, v: nat, t: int)
    requires Inv(F, s, -1) && v < |s.vtbl| && Resident(F, s, v) && Vacant(F, s, t)
    ensures s.model[t] != Vo(v)
  {
    if t >= F.Base() { assert CellOk(F, s, t); }
  }

  // ---- building terms ----

  ghost predicate Builds(F: Frame, s: State, s': State) {
    KeepsBuilt(F, s, s') && s.m.heap <= s'.m.heap && Extends(s.env, s'.env) && (s.m.spilled ==> s'.m.spilled)
  }

  lemma BuildsTrans(F: Frame, s: State, s1: State, s2: State)
    requires Builds(F, s, s1) && Builds(F, s1, s2)
    ensures Builds(F, s, s2)
  {
    KeepsBuiltTrans(F, s, s1, s2);
  }

  lemma BuildsRefl(F: Frame, s: State)
    requires Inv(F, s, -1)
    ensures Builds(F, s, s)
  {
  }

  lemma ShufflesBuilds(F: Frame, s: State, s': State)
    requires Shuffles(F, s, s')
    ensures Builds(F, s, s')
  {
  }

  function Used(s: State, v: nat): int
    requires v < |s.vtbl|
  {
    s.vtbl[v].usecnt
  }

  ghost predicate NoVarPlaced(F: Frame, s: State) {
    forall x | x in s.placed :: !ArgAt(F, x).Var?
  }

  /** While only non-variable arguments are finished, a variable with uses left is at home. */
  lemma NeededIsHome(F: Frame, s: State, v: nat)
    requires Inv(F, s, -1) && NoVarPlaced(F, s) && v < |s.vtbl| && Used(s, v) < F.total[v]
    ensures Home(s, v) != 0 ==> Resident(F, s, v)
    ensures Home(s, v) == 0 ==> Used(s, v) == 0
    ensures Used(s, v) > 0 ==> v in s.env && At(F, s, Home(s, v)) == s.env[v]
  {
    assert VarOk(F, s, -1, v);
    if s.vtbl[v].pvnum != 0 { PermNotPlaced(F, s, Home(s, v)); }
  }

  lemma FirstUsedBuilds(F: Frame, s: State, v: nat, c: Cell, m': Machine)
    requires Inv(F, s, v) && v < |s.vtbl| && Resident(F, s, v) && s.vtbl[v].usecnt == 0
    requires Wrote(s.m, m', Phys(F, s, Home(s, v)), c) && s.m.heap <= m'.heap && m'.spilled == s.m.spilled
    ensures Builds(F, s, FirstUsed(s, v, c, m')) && Room(FirstUsed(s, v, c, m')) == Room(s)
  {
    var s' := FirstUsed(s, v, c, m');
    assert VarOk(F, s, v, v);
    PermCountUpdate(s.vtbl, v, s'.vtbl[v]);
    forall x | x in s.placed ensures SameArgument(F, s, s', x) {
      assert PlacedOk(F, s, x);
      if F.Base() <= Home(s, v) < F.E { assert CellOk(F, s, Home(s, v)); }
    }
    forall x | s.sp <= x < F.SPstart ensures SameTemp(F, s, s', x) {
      if F.Base() <= Home(s, v) < F.E { assert CellOk(F, s, Home(s, v)); }
    }
  }

  lemma LaterUsedBuilds(F: Frame, s: State, v: nat, m': Machine)
    requires Inv(F, s, -1) && v < |s.vtbl| && Resident(F, s, v)
    requires Quiet(s.m, m') && s.m.heap <= m'.heap && m'.spilled == s.m.spilled
    ensures Builds(F, s, LaterUsed(s, v, m')) && Room(LaterUsed(s, v, m')) == Room(s)
  {
    var s' := LaterUsed(s, v, m');
    PermCountUpdate(s.vtbl, v, s'.vtbl[v]);
  }

  lemma VoidUsedBuilds(F: Frame, s: State, v: nat, c: Cell, m': Machine)
    requires Inv(F, s, -1) && v < |s.vtbl| && s.vtbl[v].usecnt == 0
    requires Quiet(s.m, m') && s.m.heap <= m'.heap && m'.spilled == s.m.spilled
    ensures Builds(F, s, VoidUsed(s, v, c, m')) && Room(VoidUsed(s, v, c, m')) == Room(s)
  {
    var s' := VoidUsed(s, v, c, m');
    assert VarOk(F, s, -1, v);
    PermCountUpdate(s.vtbl, v, s'.vtbl[v]);
  }

  lemma HomedShuffles(F: Frame, s: State, v: nat, t: int)
    requires Inv(F, s, -1) && v < |s.vtbl| && Home(s, v) == 0 && s.vtbl[v].pvnum == 0 && Vacant(F, s, t)
    ensures Shuffles(F, s, Homed(s, v, t)) && Room(Homed(s, v, t)) == Room(s)
  {
    assert VarOk(F, s, -1, v);
    PermCountUpdate(s.vtbl, v, Homed(s, v, t).vtbl[v]);
  }

  /** A variable without a home can only find its own target vacated. */
  lemma TargetVacant(F: Frame, s: State, v: nat)
    requires Inv(F, s, -1) && v < |s.vtbl| && Home(s, v) == 0 && s.vtbl[v].target != 0
    requires Used(s, v) < F.total[v] && NoVarPlaced(F, s)
    ensures F.Base() <= s.vtbl[v].target < F.Top && s.vtbl[v].target !in s.placed
    ensures Freed(F, s, s.vtbl[v].target) ==> Vacant(F, s, s.vtbl[v].target)
  {
    assert VarOk(F, s, -1, v);
    var t := s.vtbl[v].target;
    if s.model[t].Vo? && s.vtbl[s.model[t].v].target == t { TargetsInjective(F, s, s.model[t].v, v); }
  }

  lemma UnusedIsUnbound(F: Frame, s: State, v: nat)
    requires Inv(F, s, v) && v < |s.vtbl| && s.vtbl[v].usecnt == 0
    ensures v !in s.env && |F.total| == |s.vtbl| && F.total[v] <= s.vtbl[v].noccurences
  {
    assert VarOk(F, s, v, v);
  }

  lemma UnusedIsHomeless(F: Frame, s: State, v: nat)
    requires Inv(F, s, -1) && v < |s.vtbl| && s.vtbl[v].usecnt == 0 && s.vtbl[v].pvnum == 0
    ensures Home(s, v) == 0
  {
    assert VarOk(F, s, -1, v);
  }

  lemma HomelessIsUnused(F: Frame, s: State, v: nat)
    requires Inv(F, s, -1) && v < |s.vtbl| && Home(s, v) == 0 && Used(s, v) < F.total[v]
    ensures s.vtbl[v].pvnum == 0 && Used(s, v) == 0
  {
    assert VarOk(F, s, -1, v);
  }

  lemma AllowOne(F: Frame, s: State, v: nat)
    requires Inv(F, s, -1)
    ensures Inv(F, s, v)
  {
    forall u: nat | u < |s.vtbl| ensures VarOk(F, s, v, u) {
      assert VarOk(F, s, -1, u);
    }
  }

  /** Every variable that got its value since entry stands for a new machine variable of its own. */
  ghost predicate FreshBindings(entry: Env, n0: nat, env: Env, n: nat) {
    && Extends(entry, env) && n0 <= n
    && (forall v | v in env && v !in entry :: env[v].CVar? && n0 <= env[v].id < n)
    && (forall u, v | u in env && v in env && u !in entry && v !in entry && u != v :: env[u] != env[v])
  }

  lemma BindFresh(entry: Env, n0: nat, env: Env, n: nat, v: nat)
    requires FreshBindings(entry, n0, env, n) && v !in env
    ensures FreshBindings(entry, n0, env[v := CVar(n)], n + 1)
  {
  }

  /** One more subterm has been written to the open structure.  A variable that was pushed
      in the middle displaces it. */
  ghost predicate Appended(h: seq<Cell>, m': Machine, t: Term, env': Env) {
    && h <= m'.heap && |h| < |m'.heap|
    && (|m'.heap| == |h| + 1 ==> Denotes(m'.heap, m'.heap[|h|], t, env'))
    && (|m'.heap| > |h| + 1 ==> m'.spilled && Refutes(m'.heap, m'.heap[|h|], t, env'))
  }

  /** An argument cell of a non-variable argument can only be found vacated. */
  lemma ArgumentVacant(F: Frame, s: State, loc: int)
    requires Inv(F, s, -1) && F.Adst <= loc < F.Adst + |F.args| && !ArgAt(F, loc).Var? && Freed(F, s, loc)
    ensures Vacant(F, s, loc)
  {
    if s.model[loc].Vo? { assert VarOk(F, s, -1, s.model[loc].v); }
  }

  lemma FilledBuilds(F: Frame, s: State, t: int, term: Term, m': Machine, c: Cell)
    requires Inv(F, s, -1) && Vacant(F, s, t) && Wrote(s.m, m', t - F.gap, c)
    requires s.m.heap <= m'.heap && m'.spilled == s.m.spilled
    requires t < F.SPstart ==> s.model[t].Nil?
    ensures Builds(F, s, Filled(F, s, t, term, m'))
    ensures Room(Filled(F, s, t, term, m')) == Room(s)
  {
    var s' := Filled(F, s, t, term, m');
    forall x | x in s.placed ensures SameArgument(F, s, s', x) {
      assert x != t;
    }
  }

  /** A temporary that did not hold a term before may be released. */
  lemma BuildsRelease(F: Frame, s0: State, s: State, t: int, m': Machine)
    requires Builds(F, s0, s) && s.sp <= t < F.SPstart && (t < s0.sp || !s0.model[t].Other?)
    requires m'.mem == s.m.mem && s.m.heap <= m'.heap && m'.spilled == s.m.spilled
    ensures Builds(F, s0, s.(model := s.model[t := Nil], m := m'))
  {
    var s' := s.(model := s.model[t := Nil], m := m');
    forall x | s0.sp <= x < F.SPstart ensures SameTemp(F, s0, s', x) {
      assert SameTemp(F, s0, s, x);
    }
    forall x | x in s0.placed ensures SameArgument(F, s0, s', x) {
      assert SameArgument(F, s0, s, x);
    }
    forall v: nat | v < |s0.vtbl| ensures SameVar(F, s0, s', v) {
      assert SameVar(F, s0, s, v);
    }
  }

  /** Occurrences of `v` that the goal still has to set up. */
  function Left(F: Frame, s: State, v: nat): int {
    if v < |s.vtbl| && v < |F.total| then F.total[v] - s.vtbl[v].usecnt else 0
  }

  lemma SameLeft(F: Frame, s: State, s1: State)
    requires |s.vtbl| == |s1.vtbl| && forall v: nat | v < |s.vtbl| :: SameUse(s, s1, v)
    ensures forall v: nat :: Left(F, s1, v) == Left(F, s, v)
  {
    forall v: nat ensures Left(F, s1, v) == Left(F, s, v) {
      if v < |s.vtbl| { assert SameUse(s, s1, v); }
    }
  }

  /** One occurrence of `v` has been set up. */
  lemma OneUsed(F: Frame, s: State, s': State, v: nat)
    requires v < |s.vtbl| && |s.vtbl| == |F.total| && |s'.vtbl| == |s.vtbl|
    requires s'.vtbl == s.vtbl[v := s'.vtbl[v]] && Used(s', v) == Used(s, v) + 1
    ensures forall u: nat :: Left(F, s', u) == Left(F, s, u) - Unit(u, Var(v))
  {
  }

  // ---- built subterms waiting in temporaries ----

  predicate KidReady(F: Frame, s0: State, s: State, t: int, kid: Term, c: Cell)
    requires |s.model| == |s0.model| == F.N
  {
    if Built(kid) then
      && 0 <= s.sp <= t < F.SPstart <= F.N && s.model[t].Other?
      && Get(s.m.mem, t - F.gap) == c && (t < s0.sp || !s0.model[t].Other?)
    else t == 0
  }

  ghost predicate KidsReady(F: Frame, s0: State, s: State, stack: seq<int>, tdbase: nat, kids: seq<Term>, cells: seq<Cell>, k: nat)
  {
    && |s.model| == |s0.model| == F.N && |kids| == |cells| && tdbase + |kids| <= |stack|
    && (forall j | k <= j < |kids| :: KidReady(F, s0, s, stack[tdbase + j], kids[j], cells[j]))
    && (forall i, j | k <= i < j < |kids| && Built(kids[i]) && Built(kids[j]) :: stack[tdbase + i] != stack[tdbase + j])
  }

  lemma KidsStayReady(F: Frame, s0: State, s: State, s': State, stack: seq<int>, tdbase: nat,
                      kids: seq<Term>, cells: seq<Cell>, k: nat)
    requires KidsReady(F, s0, s, stack, tdbase, kids, cells, k) && Builds(F, s, s')
    ensures KidsReady(F, s0, s', stack, tdbase, kids, cells, k)
  {
    forall j | k <= j < |kids| ensures KidReady(F, s0, s', stack[tdbase + j], kids[j], cells[j]) {
      assert KidReady(F, s0, s, stack[tdbase + j], kids[j], cells[j]);
      if Built(kids[j]) { assert SameTemp(F, s, s', stack[tdbase + j]); }
    }
  }

  lemma KidAt(F: Frame, s0: State, s: State, stack: seq<int>, tdbase: nat, kids: seq<Term>, cells: seq<Cell>, k: nat)
    requires Inv(F, s, -1) && KidsReady(F, s0, s, stack, tdbase, kids, cells, k) && k < |kids|
    ensures |kids| == |cells| && tdbase + |kids| <= |stack|
    ensures stack[tdbase + k] != 0 <==> Built(kids[k])
    ensures Built(kids[k]) ==> s.sp <= stack[tdbase + k] < F.SPstart <= |s.model| && s.model[stack[tdbase + k]].Other?
  {
    assert KidReady(F, s0, s, stack[tdbase + k], kids[k], cells[k]);
  }

  /** The share of one slot. */
  lemma SlotShare(kids: seq<Term>, k: nat)
    requires k < |kids|
    ensures forall w :: LeafTally(w, kids, k) == LeafTally(w, kids, k + 1) + if Built(kids[k]) then 0 else Unit(w, kids[k])
  {
  }

  lemma NoneReadyYet(F: Frame, s: State, stack: seq<int>, tdbase: nat, kids: seq<Term>, cells: seq<Cell>)
    requires Inv(F, s, -1) && |kids| == |cells| && tdbase + |kids| <= |stack|
    ensures KidsReady(F, s, s, stack, tdbase, kids, cells, |kids|)
  {
  }

  /** One more subterm has been built in a temporary of its own. */
  lemma OneMoreReady(F: Frame, s0: State, s: State, s': State, stack: seq<int>, tdbase: nat,
                     kids: seq<Term>, cells: seq<Cell>, i: nat, r: int, c: Cell)
    requires 0 < i <= |kids| && KidsReady(F, s0, s, stack, tdbase, kids, cells, i) && Builds(F, s, s') && Builds(F, s0, s)
    requires KidReady(F, s, s', r, kids[i - 1], c)
    ensures KidsReady(F, s0, s', stack[tdbase + i - 1 := r], tdbase, kids, cells[i - 1 := c], i - 1)
  {
    KidsStayReady(F, s0, s, s', stack, tdbase, kids, cells, i);
    var stack' := stack[tdbase + i - 1 := r];
    var cells' := cells[i - 1 := c];
    forall j | i - 1 <= j < |kids| ensures KidReady(F, s0, s', stack'[tdbase + j], kids[j], cells'[j]) {
      if j >= i {
        assert KidReady(F, s0, s', stack[tdbase + j], kids[j], cells[j]);
      } else if Built(kids[j]) && s0.sp <= r {
        assert SameTemp(F, s0, s, r);
      }
    }
    forall j | i <= j < |kids| && Built(kids[i - 1]) && Built(kids[j]) ensures stack[tdbase + j] != r {
      assert KidReady(F, s0, s, stack[tdbase + j], kids[j], cells[j]);
    }
  }

  /** What is left covers the next subterm to be built. */
  lemma KidFits(F: Frame, s: State, s0: State, t: Term, i: nat)
    requires 0 < i <= |Kids(t)|
    requires forall v: nat :: Tally(v, t) <= Left(F, s0, v)
    requires forall v: nat :: Left(F, s, v) == Left(F, s0, v) - BuiltTally(v, t, |Kids(t)|) + BuiltTally(v, t, i)
    ensures Built(Kids(t)[i - 1]) ==> forall v: nat :: Tally(v, Kids(t)[i - 1]) <= Left(F, s, v)
    ensures Built(Kids(t)[i - 1]) ==> |Kids(t)| + Size(Kids(t)[i - 1]) <= Size(t)
    ensures Built(Kids(t)[i - 1]) ==>
              Size(Kids(t)[i - 1]) + BuiltTally(-1, t, |Kids(t)|) - BuiltTally(-1, t, i) <= Size(t)
  {
    if Built(Kids(t)[i - 1]) { SizeOfKid(t, i - 1); }
    forall v: nat ensures Built(Kids(t)[i - 1]) ==> Tally(v, Kids(t)[i - 1]) <= Left(F, s, v) {
      assert Left(F, s, v) == Left(F, s0, v) - BuiltTally(v, t, |Kids(t)|) + BuiltTally(v, t, i);
      assert Tally(v, t) <= Left(F, s0, v);
    }
    BuiltMonotone(-1, t, i, |Kids(t)|);
  }

  lemma {:induction false} BuiltMonotone(w: int, t: Term, i: nat, j: nat)
    requires i <= j <= |Kids(t)|
    ensures BuiltTally(w, t, i) <= BuiltTally(w, t, j)
    decreases j
  {
    if i < j { BuiltMonotone(w, t, i, j - 1); }
  }

  lemma KidGathered(F: Frame, s0: State, s: State, s': State, t: Term, stack: seq<int>, stack': seq<int>, tdbase: nat,
                    cells: seq<Cell>, i: nat, r: int, c: Cell)
    requires 0 < i <= |Kids(t)| && KidsReady(F, s0, s, stack, tdbase, Kids(t), cells, i)
    requires Builds(F, s0, s) && Builds(F, s, s') && KidReady(F, s, s', r, Kids(t)[i - 1], c)
    requires |stack'| == |stack| && forall j | tdbase <= j < tdbase + |Kids(t)| :: stack'[j] == if j == tdbase + i - 1 then r else stack[j]
    requires forall v: nat :: Left(F, s, v) == Left(F, s0, v) - BuiltTally(v, t, |Kids(t)|) + BuiltTally(v, t, i)
    requires if Built(Kids(t)[i - 1]) then forall v: nat :: Left(F, s', v) == Left(F, s, v) - Tally(v, Kids(t)[i - 1]) else s' == s
    ensures Builds(F, s0, s')
    ensures KidsReady(F, s0, s', stack', tdbase, Kids(t), cells[i - 1 := c], i - 1)
    ensures forall v: nat :: Left(F, s', v) == Left(F, s0, v) - BuiltTally(v, t, |Kids(t)|) + BuiltTally(v, t, i - 1)
  {
    BuildsTrans(F, s0, s, s');
    OneMoreReady(F, s0, s, s', stack, tdbase, Kids(t), cells, i, r, c);
    forall j | i - 1 <= j < |Kids(t)|
      ensures KidReady(F, s0, s', stack'[tdbase + j], Kids(t)[j], cells[i - 1 := c][j])
    {
      assert KidReady(F, s0, s', stack[tdbase + i - 1 := r][tdbase + j], Kids(t)[j], cells[i - 1 := c][j]);
    }
  }

  /** What is left covers the next variable in a slot. */
  lemma LeafFits(F: Frame, s: State, s0: State, kids: seq<Term>, k: nat)
    requires k < |kids| && !Built(kids[k])
    requires forall v: nat :: LeafTally(v, kids, 0) <= Left(F, s0, v)
    requires forall v: nat :: Left(F, s, v) == Left(F, s0, v) - LeafTally(v, kids, 0) + LeafTally(v, kids, k)
    ensures kids[k].Var? ==> kids[k].v < |s.vtbl| && kids[k].v < |F.total| && Used(s, kids[k].v) < F.total[kids[k].v]
  {
    if kids[k].Var? {
      var v := kids[k].v;
      assert LeafTally(v, kids, 0) <= Left(F, s0, v);
      assert Left(F, s, v) == Left(F, s0, v) - LeafTally(v, kids, 0) + LeafTally(v, kids, k);
    }
  }

  lemma KidReleased(F: Frame, s0: State, s: State, m': Machine, stack: seq<int>, tdbase: nat,
                    kids: seq<Term>, cells: seq<Cell>, k: nat)
    requires Inv(F, s, -1) && k < |kids| && Built(kids[k])
    requires KidsReady(F, s0, s, stack, tdbase, kids, cells, k) && Builds(F, s0, s)
    requires Quiet(s.m, m') && s.m.heap <= m'.heap && m'.spilled == s.m.spilled
    ensures var t := stack[tdbase + k];
            var s' := s.(model := s.model[t := Nil], m := m');
            && s.sp <= t < F.SPstart && Get(s.m.mem, t - F.gap) == cells[k] && Phys(F, s, t) == t - F.gap
            && Inv(F, s', -1) && Builds(F, s0, s') && KidsReady(F, s0, s', stack, tdbase, kids, cells, k + 1)
            && Room(s') == Room(s) && forall v: nat :: Left(F, s', v) == Left(F, s, v)
  {
    var t := stack[tdbase + k];
    assert KidReady(F, s0, s, t, kids[k], cells[k]);
    var s' := s.(model := s.model[t := Nil], m := m');
    ReleasedInv(F, s, t);
    QuietInv(F, s.(model := s.model[t := Nil]), m');
    BuildsRelease(F, s0, s, t, m');
    forall j | k + 1 <= j < |kids| ensures KidReady(F, s0, s', stack[tdbase + j], kids[j], cells[j]) {
      assert KidReady(F, s0, s, stack[tdbase + j], kids[j], cells[j]);
    }
  }

  lemma QuietInv(F: Frame, s: State, m': Machine)
    requires Inv(F, s, -1) && Quiet(s.m, m')
    ensures Inv(F, s.(m := m'), -1)
  {
    var s' := s.(m := m');
    assert Shape(F, s');
    forall u: nat | u < |s.vtbl| ensures VarOk(F, s', -1, u) {
      assert VarOk(F, s, -1, u);
    }
    forall x | F.Base() <= x < F.E ensures CellOk(F, s', x) {
      assert CellOk(F, s, x);
    }
    forall x | x in s.placed ensures PlacedOk(F, s', x) {
      assert PlacedOk(F, s, x);
    }
  }

  lemma QuietBuilds(F: Frame, s: State, m': Machine)
    requires Shape(F, s) && Quiet(s.m, m') && s.m.heap <= m'.heap && m'.spilled == s.m.spilled
    ensures Builds(F, s, s.(m := m'))
  {
  }

  lemma LeafFilled(F: Frame, s0: State, s1: State, s: State, s': State, stack: seq<int>, stack': seq<int>, tdbase: nat,
                   kids: seq<Term>, cells: seq<Cell>, k: nat)
    requires k < |kids| && !Built(kids[k]) && KidsReady(F, s0, s, stack, tdbase, kids, cells, k)
    requires Builds(F, s0, s) && Builds(F, s, s')
    requires |stack'| == |stack| && forall j | tdbase <= j < tdbase + |kids| :: stack'[j] == stack[j]
    requires forall v: nat :: Left(F, s, v) == Left(F, s1, v) - LeafTally(v, kids, 0) + LeafTally(v, kids, k)
    requires forall v: nat :: Left(F, s', v) == Left(F, s, v) - Unit(v, kids[k])
    ensures Builds(F, s0, s') && KidsReady(F, s0, s', stack', tdbase, kids, cells, k + 1)
    ensures forall v: nat :: Left(F, s', v) == Left(F, s1, v) - LeafTally(v, kids, 0) + LeafTally(v, kids, k + 1)
  {
    BuildsTrans(F, s0, s, s');
    KidsStayReady(F, s0, s, s', stack, tdbase, kids, cells, k);
    forall j | k + 1 <= j < |kids| ensures KidReady(F, s0, s', stack'[tdbase + j], kids[j], cells[j]) {
      assert KidReady(F, s0, s', stack[tdbase + j], kids[j], cells[j]);
    }
  }

  /** What is left after gathering covers the slots. */
  lemma GatheredFits(F: Frame, s0: State, s1: State, t: Term)
    requires Compound(t)
    requires forall v: nat :: Tally(v, t) <= Left(F, s0, v)
    requires forall v: nat :: Left(F, s1, v) == Left(F, s0, v) - BuiltTally(v, t, |Kids(t)|)
    ensures forall v: nat :: LeafTally(v, Kids(t), 0) <= Left(F, s1, v)
    ensures forall v: nat :: Left(F, s1, v) - LeafTally(v, Kids(t), 0) == Left(F, s0, v) - Tally(v, t)
    ensures Size(t) == 1 + BuiltTally(-1, t, |Kids(t)|) + LeafTally(-1, Kids(t), 0)
    ensures |Kids(t)| < Size(t)
  {
    SizeOfKids(t);
    forall v: nat ensures LeafTally(v, Kids(t), 0) <= Left(F, s1, v)
                  ensures Left(F, s1, v) - LeafTally(v, Kids(t), 0) == Left(F, s0, v) - Tally(v, t)
    {
      assert Tally(v, t) <= Left(F, s0, v);
      assert Left(F, s1, v) == Left(F, s0, v) - BuiltTally(v, t, |Kids(t)|);
    }
  }

  /** The state with the subterms' temporaries already given back. */
  ghost function Given(F: Frame, s: State, stack: seq<int>, tdbase: nat, n: nat): State
    requires tdbase + n <= |stack|
  {
    s.(model := seq(|s.model|, x requires 0 <= x < |s.model| =>
         if IsKidCell(stack, tdbase, n, x) then Nil else s.model[x]))
  }

  ghost predicate IsKidCell(stack: seq<int>, tdbase: nat, n: nat, x: int)
    requires tdbase + n <= |stack|
  {
    x != 0 && exists j :: 0 <= j < n && KidCell(stack, tdbase, j) == x
  }

  function KidCell(stack: seq<int>, tdbase: nat, j: nat): int
    requires tdbase + j < |stack|
  {
    stack[tdbase + j]
  }

  lemma KidCellIsNew(F: Frame, s0: State, s: State, stack: seq<int>, tdbase: nat, kids: seq<Term>, cells: seq<Cell>, x: int)
    requires KidsReady(F, s0, s, stack, tdbase, kids, cells, 0) && IsKidCell(stack, tdbase, |kids|, x)
    ensures 0 <= s.sp <= x < F.SPstart <= F.N && s.model[x].Other? && (x < s0.sp || !s0.model[x].Other?)
  {
    var j :| 0 <= j < |kids| && KidCell(stack, tdbase, j) == x;
    assert KidReady(F, s0, s, stack[tdbase + j], kids[j], cells[j]);
  }

  lemma GivenReady(F: Frame, s0: State, s: State, stack: seq<int>, tdbase: nat, kids: seq<Term>, cells: seq<Cell>)
    requires Inv(F, s, -1) && Builds(F, s0, s) && KidsReady(F, s0, s, stack, tdbase, kids, cells, 0)
    ensures Builds(F, Given(F, s, stack, tdbase, |kids|), s)
    ensures KidsReady(F, Given(F, s, stack, tdbase, |kids|), s, stack, tdbase, kids, cells, 0)
  {
    var g := Given(F, s, stack, tdbase, |kids|);
    forall j | 0 <= j < |kids| ensures KidReady(F, g, s, stack[tdbase + j], kids[j], cells[j]) {
      assert KidReady(F, s0, s, stack[tdbase + j], kids[j], cells[j]);
      if Built(kids[j]) { assert KidCell(stack, tdbase, j) == stack[tdbase + j]; }
    }
  }

  /** Once the slots are filled, everything except the subterms' temporaries is as it was. */
  lemma FilledAround(F: Frame, s0: State, s1: State, s2: State, s3: State, stack: seq<int>, tdbase: nat,
                     kids: seq<Term>, cells: seq<Cell>, r: int, t: Term, c: Cell)
    requires Inv(F, s0, -1) && Builds(F, s0, s1) && Builds(F, s1, s2) && KidsReady(F, s0, s1, stack, tdbase, kids, cells, 0)
    requires tdbase + |kids| <= |stack|
    requires Builds(F, Given(F, s2, stack, tdbase, |kids|), s3)
    requires Built(t) && KidReady(F, s1, s2, r, t, c)
    ensures KidReady(F, s0, s3, r, t, c)
  {
    assert SameTemp(F, Given(F, s2, stack, tdbase, |kids|), s3, r);
    if s0.sp <= r { assert SameTemp(F, s0, s1, r); }
    if IsKidCell(stack, tdbase, |kids|, r) {
      KidCellIsNew(F, s0, s1, stack, tdbase, kids, cells, r);
    }
  }

  lemma BuildsAround(F: Frame, s0: State, s1: State, s2: State, s3: State, stack: seq<int>, tdbase: nat,
                     kids: seq<Term>, cells: seq<Cell>)
    requires Inv(F, s0, -1) && Builds(F, s0, s1) && Builds(F, s1, s2) && KidsReady(F, s0, s1, stack, tdbase, kids, cells, 0)
    requires Builds(F, Given(F, s2, stack, tdbase, |kids|), s3)
    ensures Builds(F, s0, s3)
  {
    BuildsTrans(F, s0, s1, s2);
    var g := Given(F, s2, stack, tdbase, |kids|);
    forall v: nat | v < |s0.vtbl| ensures SameVar(F, s0, s3, v) {
      assert SameVar(F, s0, s2, v) && SameVar(F, g, s3, v);
    }
    forall x | x in s0.placed ensures SameArgument(F, s0, s3, x) {
      assert SameArgument(F, s0, s2, x) && SameArgument(F, g, s3, x);
    }
    forall x | s0.sp <= x < F.SPstart ensures SameTemp(F, s0, s3, x) {
      assert SameTemp(F, s0, s2, x) && SameTemp(F, g, s3, x);
      if IsKidCell(stack, tdbase, |kids|, x) {
        KidCellIsNew(F, s0, s1, stack, tdbase, kids, cells, x);
      }
    }
  }

  lemma StructureDone(F: Frame, s0: State, s1: State, s2: State, s3: State, stack: seq<int>, tdbase: nat,
                      cells: seq<Cell>, r: int, t: Term, c: Cell, temp: bool)
    requires Inv(F, s0, -1) && Builds(F, s0, s1) && Builds(F, s1, s2) && KidsReady(F, s0, s1, stack, tdbase, Kids(t), cells, 0)
    requires Builds(F, Given(F, s2, stack, tdbase, |Kids(t)|), s3) && Built(t)
    requires c == Get(s2.m.mem, r - F.gap)
    requires if temp then KidReady(F, s1, s2, r, t, c) else r in s2.placed
    ensures Builds(F, s0, s3) && Get(s3.m.mem, r - F.gap) == c
    ensures temp ==> KidReady(F, s0, s3, r, t, c)
  {
    BuildsAround(F, s0, s1, s2, s3, stack, tdbase, Kids(t), cells);
    if temp {
      FilledAround(F, s0, s1, s2, s3, stack, tdbase, Kids(t), cells, r, t, c);
    } else {
      assert SameArgument(F, Given(F, s2, stack, tdbase, |Kids(t)|), s3, r);
    }
  }

  lemma BuildsQuiet(F: Frame, s0: State, s: State, m': Machine)
    requires Inv(F, s, -1) && Builds(F, s0, s) && Quiet(s.m, m') && s.m.heap <= m'.heap && m'.spilled == s.m.spilled
    ensures Builds(F, s0, s.(m := m'))
  {
    QuietBuilds(F, s, m');
    BuildsTrans(F, s0, s, s.(m := m'));
  }

  /** A free temporary did not hold a term before either. */
  lemma TempIsNew(F: Frame, s: State, s1: State, r: int)
    requires KeepsBuilt(F, s, s1)
    ensures s.sp <= r < F.SPstart && s1.model[r].Nil? ==> !s.model[r].Other?
  {
    if s.sp <= r < F.SPstart { assert SameTemp(F, s, s1, r); }
  }

  lemma VacantAbove(F: Frame, s: State, r: int)
    requires Inv(F, s, -1) && Vacant(F, s, r)
    ensures 0 <= s.sp <= r < F.N
  {
  }

  lemma KidsReadyAt(F: Frame, s0: State, s: State, stack: seq<int>, stack': seq<int>, top: nat, tdbase: nat,
                    kids: seq<Term>, cells: seq<Cell>)
    requires KidsReady(F, s0, s, stack, tdbase, kids, cells, 0) && tdbase + |kids| <= top <= |stack| == |stack'|
    requires stack'[..top] == stack[..top]
    ensures KidsReady(F, s0, s, stack', tdbase, kids, cells, 0)
  {
    assert forall j | 0 <= j < top :: stack'[..top][j] == stack'[j] && stack[..top][j] == stack[j];
    forall j | 0 <= j < |kids| ensures KidReady(F, s0, s, stack'[tdbase + j], kids[j], cells[j]) {
      assert KidReady(F, s0, s, stack[tdbase + j], kids[j], cells[j]);
    }
  }

  // ---- when nothing is pushed into an open structure ----

  /** Giving `v` a home disturbs no variable that would have to be pushed. */
  ghost predicate CalmVar(F: Frame, s: State, v: nat) {
    NoUnsafe(F, s) || (v < |s.vtbl| && (s.vtbl[v].target == 0 || s.vtbl[v].home != 0))
  }

  ghost predicate Calm(F: Frame, s: State, t: Term) {
    NoUnsafe(F, s) || forall v: nat | Tally(v, t) > 0 :: CalmVar(F, s, v)
  }

  lemma CalmVarStays(F: Frame, s: State, s': State, v: nat)
    requires Builds(F, s, s') && CalmVar(F, s, v)
    ensures CalmVar(F, s', v)
  {
    if NoUnsafe(F, s) { NoUnsafeStays(F, s, s'); } else { assert SameVar(F, s, s', v); }
  }

  /** What is calm for a structure stays calm for its subterms. */
  lemma CalmKid(F: Frame, s: State, s': State, t: Term, k: nat)
    requires Compound(t) && k < |Kids(t)| && Builds(F, s, s') && Calm(F, s, t)
    ensures Built(Kids(t)[k]) ==> Calm(F, s', Kids(t)[k])
    ensures Kids(t)[k].Var? ==> CalmVar(F, s', Kids(t)[k].v)
  {
    if NoUnsafe(F, s) {
      NoUnsafeStays(F, s, s');
    } else {
      forall v: nat | Tally(v, Kids(t)[k]) > 0 ensures CalmVar(F, s', v) {
        KidTally(v, t, k);
        CalmVarStays(F, s, s', v);
      }
      if Kids(t)[k].Var? { SimpleTally(Kids(t)[k]); assert Tally(Kids(t)[k].v, Kids(t)[k]) > 0; }
    }
  }

  lemma CalmGiven(F: Frame, s0: State, s: State, stack: seq<int>, tdbase: nat, t: Term)
    requires Builds(F, s0, s) && tdbase + |Kids(t)| <= |stack| && Calm(F, s0, t)
    ensures Calm(F, Given(F, s, stack, tdbase, |Kids(t)|), t)
  {
    var g := Given(F, s, stack, tdbase, |Kids(t)|);
    if NoUnsafe(F, s0) { NoUnsafeStays(F, s0, s); }
    if NoUnsafe(F, s) {
      forall v: nat | v < |g.vtbl| ensures SafeVar(F, g, v) { assert SafeVar(F, s, v); }
    } else {
      forall v: nat | Tally(v, t) > 0 ensures CalmVar(F, g, v) { CalmVarStays(F, s0, s, v); }
    }
  }

  // ---- variable arguments build nothing and disturb nothing ----

  lemma InPlaceBuilds(F: Frame, s: State, v: nat, loc: int)
    requires Inv(F, s, -1) && Pending(F, s, v, loc)
    ensures Builds(F, s, InPlace(s, v, loc)) && Room(InPlace(s, v, loc)) == Room(s)
    ensures forall u: nat :: Left(F, InPlace(s, v, loc), u) == Left(F, s, u) - Unit(u, Var(v))
  {
    PermCountUpdate(s.vtbl, v, InPlace(s, v, loc).vtbl[v]);
  }

  lemma PutYBuilds(F: Frame, s: State, v: nat, loc: int, c: Cell, m': Machine)
    requires Inv(F, s, -1) && Pending(F, s, v, loc) && s.vtbl[v].usecnt == 0 && s.vtbl[v].pvnum != 0
    requires m'.mem == s.m.mem[Home(s, v) := c][loc - F.gap := c]
    requires s.m.heap <= m'.heap && m'.spilled == s.m.spilled
    ensures Builds(F, s, PutY(s, v, loc, c, m')) && Room(PutY(s, v, loc, c, m')) == Room(s)
    ensures forall u: nat :: Left(F, PutY(s, v, loc, c, m'), u) == Left(F, s, u) - Unit(u, Var(v))
  {
    var s' := PutY(s, v, loc, c, m');
    assert VarOk(F, s, -1, v);
    PermCountUpdate(s.vtbl, v, s'.vtbl[v]);
    forall x | x in s.placed ensures SameArgument(F, s, s', x) {
      assert PlacedOk(F, s, x);
    }
  }

  lemma PutXBuilds(F: Frame, s: State, v: nat, loc: int, c: Cell, m': Machine)
    requires Inv(F, s, -1) && Pending(F, s, v, loc) && s.vtbl[v].usecnt == 0 && s.vtbl[v].pvnum == 0
    requires m'.mem == s.m.mem[loc - F.gap := c]
    requires s.m.heap <= m'.heap && m'.spilled == s.m.spilled
    ensures Builds(F, s, PutX(s, v, loc, c, m')) && Room(PutX(s, v, loc, c, m')) == Room(s)
    ensures forall u: nat :: Left(F, PutX(s, v, loc, c, m'), u) == Left(F, s, u) - Unit(u, Var(v))
  {
    var s' := PutX(s, v, loc, c, m');
    assert VarOk(F, s, -1, v);
    PermCountUpdate(s.vtbl, v, s'.vtbl[v]);
    forall x | x in s.placed ensures SameArgument(F, s, s', x) {
      assert x != loc;
    }
  }

  lemma PutValueBuilds(F: Frame, s: State, v: nat, loc: int, m': Machine)
    requires PutValueReady(F, s, v, loc, m')
    requires s.m.heap <= m'.heap && m'.spilled == s.m.spilled
    ensures Builds(F, s, PutValueHere(F, s, v, loc, m')) && Room(PutValueHere(F, s, v, loc, m')) >= Room(s)
    ensures forall u: nat :: Left(F, PutValueHere(F, s, v, loc, m'), u) == Left(F, s, u) - Unit(u, Var(v))
  {
    var s' := PutValueHere(F, s, v, loc, m');
    assert VarOk(F, s, -1, v);
    PermCountUpdate(s.vtbl, v, s'.vtbl[v]);
    forall x | x in s.placed ensures SameArgument(F, s, s', x) {
      assert x != loc;
    }
  }

  /** A freed argument cell is vacant, or already taken by the variable it is for. */
  lemma ArgumentFreed(F: Frame, s: State, v: nat, loc: int)
    requires Inv(F, s, -1) && Pending(F, s, v, loc) && Freed(F, s, loc)
    ensures Vacant(F, s, loc) || (s.model[loc] == Vo(v) && Home(s, v) == loc && s.vtbl[v].pvnum == 0)
    ensures s.vtbl[v].usecnt == 0 ==> Vacant(F, s, loc)
    ensures s.vtbl[v].usecnt > 0 ==> s.sp <= Home(s, v) < F.N && Phys(F, s, loc) == loc - F.gap
    ensures s.vtbl[v].usecnt == 0 ==> v !in s.env && Phys(F, s, loc) == loc - F.gap
    ensures s.vtbl[v].usecnt == 0 && s.vtbl[v].pvnum != 0 ==>
              s.sp <= Home(s, v) < F.N && Phys(F, s, Home(s, v)) == Home(s, v)
  {
    assert VarOk(F, s, -1, v);
    if s.model[loc].Vo? { assert VarOk(F, s, -1, s.model[loc].v); }
    if Vacant(F, s, loc) { VacantPhys(F, s, loc); }
    if HomedInArgument(F, s, v) { assert PlacedOk(F, s, Home(s, v)); }
    if s.vtbl[v].pvnum != 0 { PermNotPlaced(F, s, Home(s, v)); }
  }

  lemma PermIsResident(F: Frame, s: State, v: nat)
    requires Inv(F, s, -1) && v < |s.vtbl| && s.vtbl[v].pvnum != 0 && Used(s, v) < F.total[v]
    ensures Resident(F, s, v)
  {
    assert VarOk(F, s, -1, v);
    PermNotPlaced(F, s, Home(s, v));
  }

  lemma ShapeOf(F: Frame, s: State, exc: int)
    requires Inv(F, s, exc)
    ensures Shape(F, s)
  {
  }

  lemma StillPending(F: Frame, s: State, s1: State, v: nat, loc: int)
    requires Inv(F, s, -1) && Inv(F, s1, -1) && Shuffles(F, s, s1) && Pending(F, s, v, loc)
    ensures Pending(F, s1, v, loc)
  {
    assert SameUse(s, s1, v);
  }
}
