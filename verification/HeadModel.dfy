/** The compile-time model of the stack while the head is compiled, and the invariant that
    ties it to the machine.  The clause is not a single goal: the arguments of its first goal
    do not overlap those of the head, and the two frames of the machine meet. */
module HeadModel {
  import opened Wam
  import opened VarTable
  import opened HeadMachine
  import opened HeadLogic
  import opened HeadFill

  /** What stays fixed.  The head's arguments are the cells from `E + 2` on, and hold `cells`.
      `total` is how often each variable occurs in the head; the newest choice point is at `spb`. */
  datatype HeadFrame = HeadFrame(
    N: int,
    E: int,
    Eend: int,
    Adst: int,
    SPstart: int,
    head: seq<Term>,
    goal: seq<Term>,
    total: seq<nat>,
    cells: seq<Cell>,
    spb: int)
  {
    predicate Ok() {
      && 0 < SPstart == Adst - 2 && Adst <= Eend <= E && Adst + |goal| <= Eend
      && N == E + 2 + |head| && |cells| == |head|
    }
  }

  datatype HeadState = HeadState(model: seq<Entry>, vtbl: seq<VarInf>, sp: int, m: Head, env: Env)

  function ArgCell(F: HeadFrame, j: nat): int {
    F.E + 2 + j
  }

  /** Argument `j` is the first argument of the head that is this very variable. */
  predicate FirstAt(head: seq<Term>, j: nat)
    requires j < |head|
  {
    head[j].Var? && head[j] !in head[..j]
  }

  predicate AtHome(F: HeadFrame, s: HeadState, v: nat)
    requires v < |s.vtbl| && |s.model| == F.N && 0 < s.sp
  {
    s.sp <= s.vtbl[v].home < F.N && s.model[s.vtbl[v].home] == Vo(v)
  }

  // ---- the compile-time half ----

  predicate VarOk(F: HeadFrame, s: HeadState, exc: int, v: nat)
    requires v < |s.vtbl| == |F.total| && |s.model| == F.N && 0 < s.sp
  {
    var i := s.vtbl[v];
    && i.usecnt <= F.total[v] <= i.noccurences
    && (Live(i) ==> AtHome(F, s, v))
    && (i.pvnum != 0 ==> F.Eend <= i.home == F.E - i.pvnum && AtHome(F, s, v) && F.total[v] < i.noccurences)
    && (i.pvnum == 0 && i.usecnt == 0 ==> i.home == 0 || (v == exc && AtHome(F, s, v) && i.home < F.E))
    && (i.target != 0 ==> F.Adst <= i.target < F.Adst + |F.goal| && F.goal[i.target - F.Adst] == Var(v))
    // a value that was met in a structure first has a heap cell
    && (i.unsafe <==> i.usecnt == 0 || i.noccurences == 1 || Var(v) in F.head)
  }

  /** A cell meant for an argument of the first goal is free, or home of the variable it is for. */
  predicate TargetOk(F: HeadFrame, s: HeadState, x: int)
    requires 0 <= x < |s.model|
  {
    s.model[x].Nil? ||
    (s.model[x].Vo? && s.model[x].v < |s.vtbl| && s.vtbl[s.model[x].v].home == s.vtbl[s.model[x].v].target == x
     && F.Adst <= x < F.Adst + |F.goal| && F.goal[x - F.Adst] == Var(s.model[x].v))
  }

  /** A variable argument is at home in its first place; arguments from `from` on are recorded. */
  predicate ArgOk(F: HeadFrame, s: HeadState, from: nat, j: nat)
    requires j < |F.head| && |s.model| == F.N == ArgCell(F, |F.head|) && F.E >= 0
  {
    match F.head[j]
    case Var(v) =>
      && v < |s.vtbl| && s.vtbl[v].pvnum == 0 && s.vtbl[v].usecnt > 0 && ArgCell(F, 0) <= s.vtbl[v].home
      && (FirstAt(F.head, j) <==> s.vtbl[v].home == ArgCell(F, j))
      && (from <= j && !FirstAt(F.head, j) ==> s.model[ArgCell(F, j)] == Vo(v))
    case t => from <= j ==> s.model[ArgCell(F, j)] == Other(t)
  }

  predicate KnownVars(model: seq<Entry>, n: nat) {
    forall x | 0 <= x < |model| && model[x].Vo? :: model[x].v < n
  }

  ghost predicate CompileOk(F: HeadFrame, s: HeadState, exc: int, from: nat) {
    && F.Ok() && |s.model| == F.N && |s.vtbl| == |F.total| && 0 < s.sp <= F.SPstart
    && KnownVars(s.model, |s.vtbl|)
    && (forall v: nat | v < |s.vtbl| :: VarOk(F, s, exc, v))
    && (forall x | F.SPstart <= x < F.Eend :: TargetOk(F, s, x))
    && (forall j: nat | j < |F.head| :: ArgOk(F, s, from, j))
  }

  // ---- the run-time half ----

  predicate VarHeld(F: HeadFrame, s: HeadState, v: nat)
    requires v < |s.vtbl| && |s.model| == F.N && 0 < s.sp
  {
    var i := s.vtbl[v];
    && (v in s.env <==> i.usecnt > 0)
    && (v in s.env && AtHome(F, s, v) ==> Get(s.m.w.mem, i.home) == s.env[v])
    && (v in s.env && !i.unsafe ==> !IsLocal(s.m.w, s.env[v]))
  }

  predicate ArgHeld(F: HeadFrame, s: HeadState, j: nat)
    requires j < |F.cells|
  {
    Get(s.m.w.mem, ArgCell(F, j)) == F.cells[j]
  }

  ghost predicate RunOk(F: HeadFrame, s: HeadState)
    requires |s.model| == F.N && 0 < s.sp
  {
    && s.m.w.e == F.E && s.m.w.sp == s.sp && s.m.w.spb == F.spb && FreshIds(s.m.w) && Global(s.m) && !s.m.w.open && !s.m.w.spilled
    && (forall v | v in s.env :: v < |s.vtbl|)
    && (forall v: nat | v < |s.vtbl| :: VarHeld(F, s, v))
    && (forall j: nat | j < |F.cells| :: ArgHeld(F, s, j))
  }

  ghost predicate Inv(F: HeadFrame, s: HeadState, exc: int, from: nat) {
    CompileOk(F, s, exc, from) && (!s.m.failed ==> RunOk(F, s))
  }

  function Left(F: HeadFrame, s: HeadState, v: nat): int {
    if v < |s.vtbl| && v < |F.total| then F.total[v] - s.vtbl[v].usecnt else 0
  }

  // ---- terms waiting in cells ----

  predicate Waits(s: HeadState, x: int, t: Term, c: Cell) {
    0 < s.sp <= x < |s.model| && s.model[x] == Other(t) && (!s.m.failed ==> Get(s.m.w.mem, x) == c)
  }

  predicate OtherStays(s: HeadState, s': HeadState, x: int)
    requires 0 <= x < |s.model| == |s'.model|
  {
    s.model[x].Other? ==> s'.model[x] == s.model[x] && (!s'.m.failed ==> Get(s'.m.w.mem, x) == Get(s.m.w.mem, x))
  }

  /** Compiling the head changes homes and counts of variables only. */
  predicate SameFact(i: VarInf, i': VarInf) {
    i' == i.(home := i'.home, usecnt := i'.usecnt, unsafe := i'.unsafe)
  }

  predicate SameFacts(vtbl: seq<VarInf>, vtbl': seq<VarInf>) {
    |vtbl'| == |vtbl| && forall v: nat | v < |vtbl| :: SameFact(vtbl[v], vtbl'[v])
  }

  lemma FactsTrans(vtbl: seq<VarInf>, vtbl1: seq<VarInf>, vtbl2: seq<VarInf>)
    requires SameFacts(vtbl, vtbl1) && SameFacts(vtbl1, vtbl2)
    ensures SameFacts(vtbl, vtbl2)
  {
    forall v: nat | v < |vtbl| ensures SameFact(vtbl[v], vtbl2[v]) {
      assert SameFact(vtbl[v], vtbl1[v]) && SameFact(vtbl1[v], vtbl2[v]);
    }
  }

  /** Terms that wait to be matched stay where they are, except the one in `loc`. */
  ghost predicate Spares(s: HeadState, s': HeadState, loc: int) {
    && |s'.model| == |s.model| && 0 < s'.sp <= s.sp && (s.m.failed ==> s'.m.failed)
    && (forall x | s.sp <= x < |s.model| && x != loc :: OtherStays(s, s', x))
    && SameFacts(s.vtbl, s'.vtbl)
  }

  lemma SparesTrans(s: HeadState, s1: HeadState, s2: HeadState, loc: int)
    requires Spares(s, s1, loc) && Spares(s1, s2, -1)
    ensures Spares(s, s2, loc)
  {
    forall x | s.sp <= x < |s.model| && x != loc ensures OtherStays(s, s2, x) {
      assert OtherStays(s, s1, x) && OtherStays(s1, s2, x);
    }
    FactsTrans(s.vtbl, s1.vtbl, s2.vtbl);
  }

  lemma SparesFailed(s: HeadState, s': HeadState, loc: int)
    requires Spares(s, s', loc)
    ensures s.m.failed ==> s'.m.failed
  {
  }

  lemma SparesFacts(s: HeadState, s': HeadState, loc: int)
    requires Spares(s, s', loc)
    ensures SameFacts(s.vtbl, s'.vtbl)
  {
  }

  lemma FactsRefl(vtbl: seq<VarInf>)
    ensures SameFacts(vtbl, vtbl)
  {
  }

  // ---- elementary changes ----

  function Shrunk(s: HeadState, m': Head): HeadState
    requires 0 < s.sp <= |s.model|
  {
    s.(sp := s.sp - 1, m := m', model := s.model[s.sp - 1 := Nil])
  }

  lemma ShrunkInv(F: HeadFrame, s: HeadState, from: nat, m': Head)
    requires Inv(F, s, -1, from) && s.sp >= 2
    requires m' == if s.m.failed then s.m else s.m.(w := s.m.w.(sp := s.m.w.sp - 1))
    ensures Inv(F, Shrunk(s, m'), -1, from) && Spares(s, Shrunk(s, m'), -1)
  {
    var s' := Shrunk(s, m');
    forall v: nat | v < |s.vtbl| ensures VarOk(F, s', -1, v) { assert VarOk(F, s, -1, v); }
    forall x | F.SPstart <= x < F.Eend ensures TargetOk(F, s', x) { assert TargetOk(F, s, x); }
    forall j: nat | j < |F.head| ensures ArgOk(F, s', from, j) { assert ArgOk(F, s, from, j); }
    if !s'.m.failed {
      forall v: nat | v < |s.vtbl| ensures VarHeld(F, s', v) { assert VarHeld(F, s, v); }
      forall j: nat | j < |F.cells| ensures ArgHeld(F, s', j) { assert ArgHeld(F, s, j); }
    }
  }

  /** A variable without a home gets one, in a free temporary cell or at its target. */
  function Homed(s: HeadState, v: nat, t: int): HeadState
    requires v < |s.vtbl| && 0 <= t < |s.model|
  {
    s.(model := s.model[t := Vo(v)], vtbl := s.vtbl[v := s.vtbl[v].(home := t)])
  }

  predicate Free(F: HeadFrame, s: HeadState, v: nat, t: int)
    requires v < |s.vtbl|
  {
    && 0 <= s.sp <= t < |s.model| && s.model[t].Nil?
    && (t < F.SPstart || (t == s.vtbl[v].target && F.Adst <= t < F.Adst + |F.goal|))
  }

  lemma HomedInv(F: HeadFrame, s: HeadState, from: nat, v: nat, t: int)
    requires Inv(F, s, -1, from) && v < |s.vtbl| && s.vtbl[v].home == 0 && Free(F, s, v, t)
    requires s.vtbl[v].usecnt < F.total[v]
    ensures Inv(F, Homed(s, v, t), v, from) && Spares(s, Homed(s, v, t), -1)
    ensures s.vtbl[v].usecnt == 0 && s.vtbl[v].pvnum == 0
  {
    var s' := Homed(s, v, t);
    assert VarOk(F, s, -1, v);
    forall u: nat | u < |s.vtbl| ensures VarOk(F, s', v, u) { assert VarOk(F, s, -1, u); }
    forall x | F.SPstart <= x < F.Eend ensures TargetOk(F, s', x) { assert TargetOk(F, s, x); }
    forall j: nat | j < |F.head| ensures ArgOk(F, s', from, j) { assert ArgOk(F, s, from, j); }
    if !s'.m.failed {
      forall u: nat | u < |s.vtbl| ensures VarHeld(F, s', u) { assert VarHeld(F, s, u); }
      forall j: nat | j < |F.cells| ensures ArgHeld(F, s', j) { assert ArgHeld(F, s, j); }
    }
  }

  /** The first occurrence in a structure.  A void variable gets no home. */
  function FirstUsed(s: HeadState, v: nat, env: Env, m': Head): HeadState
    requires v < |s.vtbl|
  {
    var i := s.vtbl[v];
    s.(vtbl := s.vtbl[v := i.(usecnt := i.usecnt + 1, unsafe := i.unsafe && i.noccurences == 1)],
       env := env, m := m')
  }

  /** The machine moved on and wrote at most the cell `x`. */
  ghost predicate Wrote(m: Head, m': Head, x: int, c: Cell) {
    && Keeps(m, m')
    && (!m'.failed ==> m'.w.mem == (if x == 0 then m.w.mem else m.w.mem[x := c]))
  }

  lemma FirstUsedVar(F: HeadFrame, s: HeadState, exc: int, v: nat, env: Env, m': Head, u: nat)
    requires v < |s.vtbl| == |F.total| && u < |s.vtbl| && |s.model| == F.N && 0 < s.sp && VarOk(F, s, exc, u) && VarOk(F, s, exc, v)
    requires s.vtbl[v].usecnt == 0 < F.total[v] && (exc == -1 || exc == v)
    requires (if s.vtbl[v].noccurences == 1 then exc == -1 else AtHome(F, s, v)) && Var(v) !in F.head
    ensures VarOk(F, FirstUsed(s, v, env, m'), -1, u)
  {
  }

  /** The arguments that are variables have been used from the start. */
  lemma ArgumentUsed(F: HeadFrame, s: HeadState, exc: int, from: nat, v: nat)
    requires Inv(F, s, exc, from) && v < |s.vtbl|
    ensures Var(v) in F.head ==> s.vtbl[v].usecnt > 0
  {
    if Var(v) in F.head {
      var j: nat :| j < |F.head| && F.head[j] == Var(v);
      assert ArgOk(F, s, from, j);
    }
  }

  /** Two variables that are at home are in different cells. */
  lemma HomesDiffer(F: HeadFrame, s: HeadState, u: nat, v: nat)
    requires u < |s.vtbl| && v < |s.vtbl| && u != v && |s.model| == F.N && 0 < s.sp && AtHome(F, s, u) && AtHome(F, s, v)
    ensures s.vtbl[u].home != s.vtbl[v].home
  {
  }

  lemma FirstUsedRun(F: HeadFrame, s: HeadState, exc: int, from: nat, v: nat, c: Cell, env: Env, m': Head, x: int)
    requires Inv(F, s, exc, from) && v < |s.vtbl| && s.vtbl[v].usecnt == 0 < F.total[v] && (exc == -1 || exc == v)
    requires if s.vtbl[v].noccurences == 1 then exc == -1 && x == 0 else AtHome(F, s, v) && x == s.vtbl[v].home && x < F.E
    requires Wrote(s.m, m', x, c) && !m'.failed && FreshIds(m'.w) && !IsLocal(m'.w, c) && env == s.env[v := c]
    ensures RunOk(F, FirstUsed(s, v, env, m'))
  {
    var s' := FirstUsed(s, v, env, m');
    assert VarOk(F, s, exc, v);
    forall u: nat | u < |s.vtbl| ensures VarHeld(F, s', u) {
      assert VarHeld(F, s, u) && VarOk(F, s, exc, u);
      if u != v && Live(s.vtbl[u]) && x != 0 { HomesDiffer(F, s, u, v); }
    }
    forall j: nat | j < |F.cells| ensures ArgHeld(F, s', j) { assert ArgHeld(F, s, j); }
  }

  lemma FirstUsedInv(F: HeadFrame, s: HeadState, exc: int, from: nat, v: nat, c: Cell, env: Env, m': Head, x: int)
    requires Inv(F, s, exc, from) && v < |s.vtbl| && s.vtbl[v].usecnt == 0 < F.total[v] && (exc == -1 || exc == v)
    requires if s.vtbl[v].noccurences == 1 then exc == -1 && x == 0 else AtHome(F, s, v) && x == s.vtbl[v].home && x < F.E
    requires Wrote(s.m, m', x, c) && (!m'.failed ==> FreshIds(m'.w) && !IsLocal(m'.w, c) && env == s.env[v := c])
    ensures Inv(F, FirstUsed(s, v, env, m'), -1, from) && Spares(s, FirstUsed(s, v, env, m'), -1)
  {
    var s' := FirstUsed(s, v, env, m');
    ArgumentUsed(F, s, exc, from, v);
    forall u: nat | u < |s.vtbl| ensures VarOk(F, s', -1, u) {
      assert VarOk(F, s, exc, u) && VarOk(F, s, exc, v);
      FirstUsedVar(F, s, exc, v, env, m', u);
    }
    forall x | F.SPstart <= x < F.Eend ensures TargetOk(F, s', x) { assert TargetOk(F, s, x); }
    forall j: nat | j < |F.head| ensures ArgOk(F, s', from, j) { assert ArgOk(F, s, from, j); }
    if !m'.failed { FirstUsedRun(F, s, exc, from, v, c, env, m', x); }
    forall y | s.sp <= y < |s.model| ensures OtherStays(s, s', y) {
      if x != 0 { assert s.model[x] == Vo(v); }
    }
  }

  /** A later occurrence; the last one of all frees the home. */
  function LaterUsed(s: HeadState, v: nat, m': Head): HeadState
    requires v < |s.vtbl| && 0 <= s.vtbl[v].home < |s.model|
  {
    var i := s.vtbl[v].(usecnt := s.vtbl[v].usecnt + 1);
    s.(vtbl := s.vtbl[v := i], m := m', model := if i.usecnt == i.noccurences then s.model[i.home := Nil] else s.model)
  }

  lemma LaterUsedInv(F: HeadFrame, s: HeadState, from: nat, v: nat, m': Head)
    requires Inv(F, s, -1, from) && v < |s.vtbl| && 0 < s.vtbl[v].usecnt < F.total[v] && AtHome(F, s, v)
    requires Wrote(s.m, m', 0, Junk) && (!m'.failed ==> FreshIds(m'.w))
    ensures Inv(F, LaterUsed(s, v, m'), -1, from) && Spares(s, LaterUsed(s, v, m'), -1)
  {
    var s' := LaterUsed(s, v, m');
    assert VarOk(F, s, -1, v);
    forall u: nat | u < |s.vtbl| ensures VarOk(F, s', -1, u) { assert VarOk(F, s, -1, u); }
    forall x | F.SPstart <= x < F.Eend ensures TargetOk(F, s', x) { assert TargetOk(F, s, x); }
    forall j: nat | j < |F.head| ensures ArgOk(F, s', from, j) { assert ArgOk(F, s, from, j); }
    if !s'.m.failed {
      forall u: nat | u < |s.vtbl| ensures VarHeld(F, s', u) { assert VarHeld(F, s, u); }
      forall j: nat | j < |F.cells| ensures ArgHeld(F, s', j) { assert ArgHeld(F, s, j); }
    }
  }

  /** The machine moved on without writing to the stack. */
  lemma QuietInv(F: HeadFrame, s: HeadState, from: nat, m': Head)
    requires Inv(F, s, -1, from) && Keeps(s.m, m') && (!m'.failed ==> m'.w.mem == s.m.w.mem)
    ensures Inv(F, s.(m := m'), -1, from) && Spares(s, s.(m := m'), -1)
  {
    var s' := s.(m := m');
    forall u: nat | u < |s.vtbl| ensures VarOk(F, s', -1, u) { assert VarOk(F, s, -1, u); }
    forall x | F.SPstart <= x < F.Eend ensures TargetOk(F, s', x) { assert TargetOk(F, s, x); }
    forall j: nat | j < |F.head| ensures ArgOk(F, s', from, j) { assert ArgOk(F, s, from, j); }
    if !s'.m.failed {
      forall u: nat | u < |s.vtbl| ensures VarHeld(F, s', u) { assert VarHeld(F, s, u); }
      forall j: nat | j < |F.cells| ensures ArgHeld(F, s', j) { assert ArgHeld(F, s, j); }
    }
  }

  /** A subterm is put aside in the free temporary `t`. */
  function Parked(s: HeadState, t: int, kid: Term, m': Head): HeadState
    requires 0 <= t < |s.model|
  {
    s.(model := s.model[t := Other(kid)], m := m')
  }

  lemma ParkedInv(F: HeadFrame, s: HeadState, from: nat, t: int, kid: Term, c: Cell, m': Head)
    requires Inv(F, s, -1, from) && s.sp <= t < F.SPstart && s.model[t].Nil?
    requires Wrote(s.m, m', t, c) && (!m'.failed ==> FreshIds(m'.w))
    ensures Inv(F, Parked(s, t, kid, m'), -1, from) && Spares(s, Parked(s, t, kid, m'), -1)
    ensures Waits(Parked(s, t, kid, m'), t, kid, c)
  {
    var s' := Parked(s, t, kid, m');
    forall u: nat | u < |s.vtbl| ensures VarOk(F, s', -1, u) { assert VarOk(F, s, -1, u); }
    forall x | F.SPstart <= x < F.Eend ensures TargetOk(F, s', x) { assert TargetOk(F, s, x); }
    forall j: nat | j < |F.head| ensures ArgOk(F, s', from, j) { assert ArgOk(F, s, from, j); }
    if !s'.m.failed {
      forall u: nat | u < |s.vtbl| ensures VarHeld(F, s', u) {
        assert VarHeld(F, s, u) && VarOk(F, s, -1, u);
      }
      forall j: nat | j < |F.cells| ensures ArgHeld(F, s', j) { assert ArgHeld(F, s, j); }
    }
  }

  /** A term is taken from the cell `loc`. */
  function Taken(s: HeadState, loc: int, m': Head): HeadState
    requires 0 <= loc < |s.model|
  {
    s.(model := s.model[loc := Nil], m := m')
  }

  /** `loc` is a temporary, or the cell of an argument dealt with. */
  predicate MayTake(F: HeadFrame, s: HeadState, from: nat, loc: int) {
    && 0 < s.sp <= loc < |s.model| && (loc < F.SPstart || F.E + 2 <= loc < F.E + 2 + from)
  }

  lemma TakenInv(F: HeadFrame, s: HeadState, from: nat, loc: int, m': Head)
    requires Inv(F, s, -1, from) && MayTake(F, s, from, loc) && !s.model[loc].Vo?
    requires Wrote(s.m, m', 0, Junk) && (!m'.failed ==> FreshIds(m'.w))
    ensures Inv(F, Taken(s, loc, m'), -1, from) && Spares(s, Taken(s, loc, m'), loc)
  {
    var s' := Taken(s, loc, m');
    forall u: nat | u < |s.vtbl| ensures VarOk(F, s', -1, u) { assert VarOk(F, s, -1, u); }
    forall x | F.SPstart <= x < F.Eend ensures TargetOk(F, s', x) { assert TargetOk(F, s, x); }
    forall j: nat | j < |F.head| ensures ArgOk(F, s', from, j) { assert ArgOk(F, s, from, j); }
    if !s'.m.failed {
      forall u: nat | u < |s.vtbl| ensures VarHeld(F, s', u) { assert VarHeld(F, s, u); }
      forall j: nat | j < |F.cells| ensures ArgHeld(F, s', j) { assert ArgHeld(F, s, j); }
    }
  }

  /** A variable has a home, or is unused and has none. */
  lemma HomeKnown(F: HeadFrame, s: HeadState, from: nat, v: nat)
    requires Inv(F, s, -1, from) && v < |s.vtbl| && s.vtbl[v].usecnt < F.total[v]
    ensures s.vtbl[v].home != 0 ==> AtHome(F, s, v) && Inv(F, s, if s.vtbl[v].usecnt == 0 then v else -1, from)
    ensures s.vtbl[v].home == 0 ==> s.vtbl[v].usecnt == 0
    ensures Spares(s, s, -1) && F.Ok() && |s.model| == F.N && |s.vtbl| == |F.total|
  {
    assert VarOk(F, s, -1, v);
    if s.vtbl[v].home != 0 {
      var exc := if s.vtbl[v].usecnt == 0 then v else -1;
      forall u: nat | u < |s.vtbl| ensures VarOk(F, s, exc, u) { assert VarOk(F, s, -1, u); }
    }
  }

  // ---- the to-do stack ----

  predicate WaitsAt(F: HeadFrame, s: HeadState, stack: seq<int>, tdbase: nat, todo: seq<Equation>, j: nat)
    requires j < |todo| && tdbase + |todo| <= |stack|
  {
    Waits(s, stack[tdbase + j], todo[j].1, todo[j].0) && stack[tdbase + j] < F.SPstart && Built(todo[j].1)
  }

  predicate Apart(stack: seq<int>, tdbase: nat, i: nat, j: nat)
    requires tdbase + i < |stack| && tdbase + j < |stack|
  {
    stack[tdbase + i] != stack[tdbase + j]
  }

  /** The entries of the to-do stack from `tdbase` on are the temporaries of the subterms left. */
  ghost predicate Stacked(F: HeadFrame, s: HeadState, stack: seq<int>, tdbase: nat, todo: seq<Equation>) {
    && tdbase + |todo| <= |stack|
    && (forall j: nat | j < |todo| :: WaitsAt(F, s, stack, tdbase, todo, j))
    && (forall i: nat, j: nat | i < j < |todo| :: Apart(stack, tdbase, i, j))
  }

  lemma StackedStays(F: HeadFrame, s: HeadState, s': HeadState, stack: seq<int>, tdbase: nat, todo: seq<Equation>)
    requires Stacked(F, s, stack, tdbase, todo) && Spares(s, s', -1)
    ensures Stacked(F, s', stack, tdbase, todo)
  {
    forall j: nat | j < |todo| ensures WaitsAt(F, s', stack, tdbase, todo, j) {
      assert WaitsAt(F, s, stack, tdbase, todo, j);
      assert OtherStays(s, s', stack[tdbase + j]);
    }
  }

  /** A temporary that was free is put on top. */
  lemma StackedGrows(F: HeadFrame, s: HeadState, s': HeadState, stack: seq<int>, stack': seq<int>, tdbase: nat, todo: seq<Equation>, t: int, q: Equation)
    requires Stacked(F, s, stack, tdbase, todo) && Spares(s, s', -1)
    requires 0 <= t < |s.model| && s.model[t].Nil? && Waits(s', t, q.1, q.0) && t < F.SPstart && Built(q.1)
    requires |stack'| == |stack| && tdbase + |todo| < |stack| && stack' == stack[tdbase + |todo| := t]
    ensures Stacked(F, s', stack', tdbase, todo + [q])
  {
    var todo' := todo + [q];
    StackedStays(F, s, s', stack, tdbase, todo);
    forall j: nat | j < |todo'| ensures WaitsAt(F, s', stack', tdbase, todo', j) {
      if j < |todo| { assert WaitsAt(F, s', stack, tdbase, todo, j); }
    }
    forall i: nat, j: nat | i < j < |todo'| ensures Apart(stack', tdbase, i, j) {
      if j < |todo| { assert Apart(stack, tdbase, i, j); } else { assert WaitsAt(F, s, stack, tdbase, todo, i); }
    }
  }

  lemma InvShape(F: HeadFrame, s: HeadState, exc: int, from: nat)
    requires Inv(F, s, exc, from)
    ensures F.Ok() && |s.model| == F.N && |s.vtbl| == |F.total| && 0 < s.sp <= F.SPstart
    ensures !s.m.failed ==> s.m.w.e == F.E && s.m.w.sp == s.sp && FreshIds(s.m.w)
  {
  }

  lemma GlobalOf(F: HeadFrame, s: HeadState, exc: int, from: nat)
    requires Inv(F, s, exc, from) && !s.m.failed
    ensures Global(s.m) && FreshIds(s.m.w) && |s.vtbl| == |F.total| && forall v | v in s.env :: v < |F.total|
  {
  }

  /** A variable with its single occurrence still to come stands for nothing yet. */
  lemma VarUnused(F: HeadFrame, s: HeadState, exc: int, from: nat, v: nat)
    requires Inv(F, s, exc, from) && v < |s.vtbl| && Left(F, s, v) > 0
    ensures s.vtbl[v].noccurences == 1 ==> s.vtbl[v].usecnt == 0
    ensures s.vtbl[v].usecnt == 0 && !s.m.failed ==> v !in s.env
    ensures s.vtbl[v].usecnt > 0 && !s.m.failed ==> v in s.env && AtHome(F, s, v) && Get(s.m.w.mem, s.vtbl[v].home) == s.env[v]
    ensures s.vtbl[v].usecnt > 0 && !s.m.failed && !s.vtbl[v].unsafe ==> !IsLocal(s.m.w, s.env[v])
    ensures s.vtbl[v].usecnt > 0 ==> AtHome(F, s, v)
  {
    assert VarOk(F, s, exc, v);
    if !s.m.failed { assert VarHeld(F, s, v); }
  }

  /** A home that was just given out is not the cell of an argument. */
  lemma UnusedHome(F: HeadFrame, s: HeadState, exc: int, from: nat, v: nat)
    requires Inv(F, s, exc, from) && v < |s.vtbl| && s.vtbl[v].usecnt == 0 && AtHome(F, s, v) && s.vtbl[v].noccurences != 1
    ensures s.vtbl[v].home < F.E
  {
    assert VarOk(F, s, exc, v);
  }

  lemma FreshStays(F: HeadFrame, s: HeadState, exc: int, from: nat, m': Head)
    requires Inv(F, s, exc, from) && Keeps(s.m, m')
    ensures !m'.failed ==> FreshIds(m'.w)
  {
  }

  // ---- counting occurrences ----

  /** The variables among the first `k` subterms have been used. */
  ghost predicate LeavesUsed(F: HeadFrame, s0: HeadState, s: HeadState, t: Term, k: nat)
    requires k <= |Kids(t)|
  {
    forall v: nat :: Left(F, s, v) == Left(F, s0, v) - LeafTally(v, Kids(t), 0) + LeafTally(v, Kids(t), k)
  }

  /** The subterms put aside are those of the first `k` that need it. */
  ghost predicate Tallied(t: Term, k: nat, todo: seq<Equation>)
    requires k <= |Kids(t)|
  {
    && |todo| == BuiltBelow(Kids(t), k)
    && (forall w: int :: SumTally(w, todo) == BuiltTally(w, t, k))
    && (forall j | 0 <= j < |todo| :: todo[j].1 < t)
  }

  lemma TalliesStart(F: HeadFrame, s0: HeadState, s: HeadState, t: Term)
    requires s.vtbl == s0.vtbl
    ensures LeavesUsed(F, s0, s, t, 0) && Tallied(t, 0, [])
  {
  }

  lemma LeafNext(F: HeadFrame, s0: HeadState, s: HeadState, t: Term, k: nat)
    requires k < |Kids(t)| && LeavesUsed(F, s0, s, t, k)
    requires forall v: nat :: LeafTally(v, Kids(t), 0) <= Left(F, s0, v)
    ensures Kids(t)[k].Var? ==> Left(F, s, Kids(t)[k].v) > 0
  {
    if Kids(t)[k].Var? {
      var v := Kids(t)[k].v;
      assert Left(F, s, v) == Left(F, s0, v) - LeafTally(v, Kids(t), 0) + LeafTally(v, Kids(t), k);
    }
  }

  lemma TalliesNext(F: HeadFrame, s0: HeadState, s: HeadState, s': HeadState, t: Term, k: nat, todo: seq<Equation>, todo': seq<Equation>)
    requires k < |Kids(t)| && LeavesUsed(F, s0, s, t, k) && Tallied(t, k, todo)
    requires if Built(Kids(t)[k]) then |todo'| == |todo| + 1 && todo'[..|todo|] == todo && todo'[|todo|].1 == Kids(t)[k] else todo' == todo
    requires forall v: nat :: Left(F, s', v) == Left(F, s, v) - if Built(Kids(t)[k]) then 0 else Unit(v, Kids(t)[k])
    ensures LeavesUsed(F, s0, s', t, k + 1) && Tallied(t, k + 1, todo')
  {
    forall v: nat ensures Left(F, s', v) == Left(F, s0, v) - LeafTally(v, Kids(t), 0) + LeafTally(v, Kids(t), k + 1) {
      assert Left(F, s, v) == Left(F, s0, v) - LeafTally(v, Kids(t), 0) + LeafTally(v, Kids(t), k);
    }
    forall j | 0 <= j < |todo'| ensures todo'[j].1 < t {
      if j < |todo| { assert todo'[j] == todo'[..|todo|][j]; }
    }
    if Built(Kids(t)[k]) {
      assert todo' == todo + [todo'[|todo|]];
      forall w: int ensures SumTally(w, todo') == BuiltTally(w, t, k + 1) { SumSnoc(w, todo, todo'[|todo|]); }
    }
  }

  /** The subterms before the one on the stack at `j` have been matched. */
  ghost predicate KidsUsed(F: HeadFrame, s0: HeadState, s: HeadState, t: Term, todo: seq<Equation>, j: nat)
    requires j <= |todo|
  {
    forall v: nat :: Left(F, s, v) == Left(F, s0, v) - LeafTally(v, Kids(t), 0) - SumTally(v, todo[..j])
  }

  lemma KidsStart(F: HeadFrame, s0: HeadState, s: HeadState, t: Term, todo: seq<Equation>)
    requires LeavesUsed(F, s0, s, t, |Kids(t)|)
    ensures KidsUsed(F, s0, s, t, todo, 0) && SumTally(-1, todo[..0]) == 0
  {
  }

  /** What was demanded for the whole term is enough for the next subterm. */
  lemma KidFits(F: HeadFrame, s0: HeadState, s: HeadState, t: Term, todo: seq<Equation>, j: nat)
    requires Compound(t) && j < |todo| && Tallied(t, |Kids(t)|, todo) && KidsUsed(F, s0, s, t, todo, j)
    requires forall v: nat :: Tally(v, t) <= Left(F, s0, v)
    ensures forall v: nat :: Tally(v, todo[j].1) <= Left(F, s, v)
    ensures |Kids(t)| + SumTally(-1, todo[..j]) - j + Size(todo[j].1) <= Size(t)
    ensures |todo| + Size(todo[j].1) <= Size(t)
  {
    assert todo[..|todo|] == todo;
    LeafShare(Kids(t), 0);
    SumRest(-1, todo, j, |todo|);
    assert SumTally(-1, todo) == BuiltTally(-1, t, |Kids(t)|);
    SumAtLeast(todo, j);
    forall v: nat ensures Tally(v, todo[j].1) <= Left(F, s, v) {
      assert Tally(v, t) <= Left(F, s0, v);
      assert SumTally(v, todo) == BuiltTally(v, t, |Kids(t)|);
      SumRest(v, todo, j, |todo|);
    }
  }

  lemma {:induction false} SumAtLeast(todo: seq<Equation>, j: nat)
    requires j <= |todo|
    ensures SumTally(-1, todo[..j]) >= j
  {
    if j > 0 { SumAtLeast(todo, j - 1); SumNext(-1, todo, j - 1); }
  }

  lemma KidsNext(F: HeadFrame, s0: HeadState, s: HeadState, s': HeadState, t: Term, todo: seq<Equation>, j: nat)
    requires j < |todo| && KidsUsed(F, s0, s, t, todo, j)
    requires forall v: nat :: Left(F, s', v) == Left(F, s, v) - Tally(v, todo[j].1)
    ensures KidsUsed(F, s0, s', t, todo, j + 1)
    ensures SumTally(-1, todo[..j + 1]) == SumTally(-1, todo[..j]) + Size(todo[j].1)
  {
    forall v: nat ensures Left(F, s', v) == Left(F, s0, v) - LeafTally(v, Kids(t), 0) - SumTally(v, todo[..j + 1]) {
      assert Left(F, s, v) == Left(F, s0, v) - LeafTally(v, Kids(t), 0) - SumTally(v, todo[..j]);
      SumNext(v, todo, j);
    }
    SumNext(-1, todo, j);
  }

  lemma KidsDone(F: HeadFrame, s0: HeadState, s: HeadState, t: Term, todo: seq<Equation>)
    requires Compound(t) && Tallied(t, |Kids(t)|, todo) && KidsUsed(F, s0, s, t, todo, |todo|)
    ensures forall v: nat :: Left(F, s, v) == Left(F, s0, v) - Tally(v, t)
    ensures |Kids(t)| + SumTally(-1, todo[..|todo|]) - |todo| == Size(t) - 1
  {
    assert todo[..|todo|] == todo;
    LeafShare(Kids(t), 0);
    assert SumTally(-1, todo) == BuiltTally(-1, t, |Kids(t)|);
    forall v: nat ensures Left(F, s, v) == Left(F, s0, v) - Tally(v, t) {
      assert SumTally(v, todo) == BuiltTally(v, t, |Kids(t)|);
    }
  }

  lemma LeavesFit(F: HeadFrame, s: HeadState, t: Term)
    requires Compound(t) && forall v: nat :: Tally(v, t) <= Left(F, s, v)
    ensures forall v: nat :: LeafTally(v, Kids(t), 0) <= Left(F, s, v)
    ensures |Kids(t)| < Size(t)
  {
    SizeOfKids(t);
    forall v: nat ensures LeafTally(v, Kids(t), 0) <= Left(F, s, v) { assert Tally(v, t) <= Left(F, s, v); }
  }

  // ---- what the matching of one subterm leaves of the others ----

  predicate NewTemp(s0: HeadState, loc: int, x: int) {
    0 <= s0.sp <= x < |s0.model| && x != loc ==> !s0.model[x].Other?
  }

  predicate NewAt(s0: HeadState, loc: int, stack: seq<int>, tdbase: nat, j: nat)
    requires tdbase + j < |stack|
  {
    NewTemp(s0, loc, stack[tdbase + j])
  }

  /** The temporaries on the stack held no waiting term before. */
  ghost predicate AllNew(s0: HeadState, loc: int, stack: seq<int>, tdbase: nat, n: nat) {
    tdbase + n <= |stack| && forall j: nat | j < n :: NewAt(s0, loc, stack, tdbase, j)
  }

  lemma NewSooner(s0: HeadState, s: HeadState, loc: int, x: int)
    requires Spares(s0, s, loc) && NewTemp(s, -1, x)
    ensures NewTemp(s0, loc, x)
  {
    if 0 <= s0.sp <= x < |s0.model| && x != loc { assert OtherStays(s0, s, x); }
  }

  lemma AllNewGrows(s0: HeadState, s: HeadState, loc: int, stack: seq<int>, stack': seq<int>, tdbase: nat, n: nat, n': nat)
    requires AllNew(s0, loc, stack, tdbase, n) && Spares(s0, s, loc) && |stack'| == |stack| && stack'[..tdbase + n] == stack[..tdbase + n]
    requires n' == n || (n' == n + 1 && tdbase + n' <= |stack'| && NewTemp(s, -1, stack'[tdbase + n]))
    ensures AllNew(s0, loc, stack', tdbase, n')
  {
    forall j: nat | j < n' ensures NewAt(s0, loc, stack', tdbase, j) {
      if j < n {
        assert NewAt(s0, loc, stack, tdbase, j) && stack'[..tdbase + n][tdbase + j] == stack[..tdbase + n][tdbase + j];
      } else {
        NewSooner(s0, s, loc, stack'[tdbase + n]);
      }
    }
  }

  lemma SparesNew(s0: HeadState, s: HeadState, s': HeadState, loc: int, x: int)
    requires Spares(s0, s, loc) && Spares(s, s', x) && NewTemp(s0, loc, x)
    ensures Spares(s0, s', loc)
  {
    forall y | s0.sp <= y < |s0.model| && y != loc ensures OtherStays(s0, s', y) {
      assert OtherStays(s0, s, y);
      if y != x { assert OtherStays(s, s', y); }
    }
  }

  /** The entries from `i` on are still to be matched. */
  ghost predicate StackedFrom(F: HeadFrame, s: HeadState, stack: seq<int>, tdbase: nat, todo: seq<Equation>, i: nat) {
    && tdbase + |todo| <= |stack|
    && (forall j: nat | i <= j < |todo| :: WaitsAt(F, s, stack, tdbase, todo, j))
    && (forall i: nat, j: nat | i < j < |todo| :: Apart(stack, tdbase, i, j))
  }

  lemma StackedNext(F: HeadFrame, s: HeadState, s': HeadState, stack: seq<int>, stack': seq<int>, tdbase: nat, todo: seq<Equation>, i: nat)
    requires StackedFrom(F, s, stack, tdbase, todo, i) && i < |todo| && Spares(s, s', stack[tdbase + i])
    requires |stack'| == |stack| && stack'[..tdbase + |todo|] == stack[..tdbase + |todo|]
    ensures StackedFrom(F, s', stack', tdbase, todo, i + 1)
  {
    assert forall k | 0 <= k < tdbase + |todo| :: stack'[..tdbase + |todo|][k] == stack'[k] && stack[..tdbase + |todo|][k] == stack[k];
    forall j: nat | i + 1 <= j < |todo| ensures WaitsAt(F, s', stack', tdbase, todo, j) {
      assert WaitsAt(F, s, stack, tdbase, todo, j) && Apart(stack, tdbase, i, j);
      assert OtherStays(s, s', stack[tdbase + j]);
    }
    forall i: nat, j: nat | i < j < |todo| ensures Apart(stack', tdbase, i, j) { assert Apart(stack, tdbase, i, j); }
  }

  lemma StackedAll(F: HeadFrame, s: HeadState, stack: seq<int>, tdbase: nat, todo: seq<Equation>)
    requires Stacked(F, s, stack, tdbase, todo)
    ensures StackedFrom(F, s, stack, tdbase, todo, 0)
  {
  }

  /** The next entry is the temporary of a term smaller than the whole. */
  lemma NextWaits(F: HeadFrame, s: HeadState, stack: seq<int>, tdbase: nat, todo: seq<Equation>, j: nat, t: Term)
    requires StackedFrom(F, s, stack, tdbase, todo, j) && j < |todo| && Tallied(t, |Kids(t)|, todo)
    ensures Waits(s, stack[tdbase + j], todo[j].1, todo[j].0) && stack[tdbase + j] < F.SPstart && Built(todo[j].1) && todo[j].1 < t
  {
    assert WaitsAt(F, s, stack, tdbase, todo, j);
  }

  lemma SparesNewAt(s0: HeadState, s: HeadState, s': HeadState, loc: int, stack: seq<int>, tdbase: nat, n: nat, j: nat)
    requires j < n && AllNew(s0, loc, stack, tdbase, n) && Spares(s0, s, loc) && Spares(s, s', stack[tdbase + j])
    ensures Spares(s0, s', loc)
  {
    assert NewAt(s0, loc, stack, tdbase, j);
    SparesNew(s0, s, s', loc, stack[tdbase + j]);
  }

  lemma AllNewStays(s0: HeadState, loc: int, stack: seq<int>, stack': seq<int>, tdbase: nat, n: nat)
    requires AllNew(s0, loc, stack, tdbase, n) && |stack'| == |stack| && stack'[..tdbase + n] == stack[..tdbase + n]
    ensures AllNew(s0, loc, stack', tdbase, n)
  {
    forall j: nat | j < n ensures NewAt(s0, loc, stack', tdbase, j) {
      assert NewAt(s0, loc, stack, tdbase, j) && stack'[..tdbase + n][tdbase + j] == stack[..tdbase + n][tdbase + j];
    }
  }

  lemma AllNewNone(s0: HeadState, loc: int, stack: seq<int>, tdbase: nat)
    requires tdbase <= |stack|
    ensures AllNew(s0, loc, stack, tdbase, 0)
  {
  }

  // ---- the arguments of the head ----

  /** The share of argument `i`; the first place of a variable is counted when the model is set up. */
  function Weight(w: int, head: seq<Term>, i: nat): nat
    requires i < |head|
  {
    if FirstAt(head, i) then 0 else Tally(w, head[i])
  }

  function RestTally(w: int, head: seq<Term>, i: nat): nat
    requires i <= |head|
    decreases |head| - i
  {
    if i == |head| then 0 else Weight(w, head, i) + RestTally(w, head, i + 1)
  }

  function ArgEq(head: seq<Term>, cells: seq<Cell>, i: nat): seq<Equation>
    requires i < |head| == |cells|
  {
    if FirstAt(head, i) then [] else [(cells[i], head[i])]
  }

  /** The equations of the arguments from `i` on. */
  function RestEqs(head: seq<Term>, cells: seq<Cell>, i: nat): seq<Equation>
    requires i <= |head| == |cells|
    decreases |head| - i
  {
    if i == |head| then [] else ArgEq(head, cells, i) + RestEqs(head, cells, i + 1)
  }

  lemma FromNext(F: HeadFrame, s: HeadState, i: nat)
    requires Inv(F, s, -1, i) && i < |F.head|
    ensures Inv(F, s, -1, i + 1) && ArgOk(F, s, i, i) && (!s.m.failed ==> Get(s.m.w.mem, ArgCell(F, i)) == F.cells[i])
    ensures MayTake(F, s, i + 1, ArgCell(F, i)) && ArgCell(F, |F.head|) == F.N
  {
    var from := i + 1;
    forall j: nat | j < |F.head| ensures ArgOk(F, s, from, j) { assert ArgOk(F, s, i, j); }
    if !s.m.failed { assert ArgHeld(F, s, i); }
  }

  /** The record of a variable that is dead, or at home elsewhere, is cleared. */
  lemma ClearedInv(F: HeadFrame, s: HeadState, from: nat, loc: int)
    requires Inv(F, s, -1, from) && F.E + 2 <= loc < F.E + 2 + from && loc < F.N && s.model[loc].Vo? && s.model[loc].v < |s.vtbl|
    requires s.vtbl[s.model[loc].v].usecnt == s.vtbl[s.model[loc].v].noccurences
    ensures Inv(F, s.(model := s.model[loc := Nil]), -1, from)
  {
    var s' := s.(model := s.model[loc := Nil]);
    forall u: nat | u < |s.vtbl| ensures VarOk(F, s', -1, u) { assert VarOk(F, s, -1, u); }
    forall x | F.SPstart <= x < F.Eend ensures TargetOk(F, s', x) { assert TargetOk(F, s, x); }
    forall j: nat | j < |F.head| ensures ArgOk(F, s', from, j) { assert ArgOk(F, s, from, j); }
    if !s'.m.failed {
      forall u: nat | u < |s.vtbl| ensures VarHeld(F, s', u) { assert VarHeld(F, s, u); }
      forall j: nat | j < |F.cells| ensures ArgHeld(F, s', j) { assert ArgHeld(F, s, j); }
    }
  }

  lemma RestNext(F: HeadFrame, s: HeadState, head: seq<Term>, cells: seq<Cell>, i: nat)
    requires i < |head| == |cells|
    ensures multiset(RestEqs(head, cells, i)) ==
            (if FirstAt(head, i) then multiset{} else multiset{(cells[i], head[i])}) + multiset(RestEqs(head, cells, i + 1))
    ensures forall w: int :: RestTally(w, head, i) == Weight(w, head, i) + RestTally(w, head, i + 1)
    ensures forall w: int :: Weight(w, head, i) == if FirstAt(head, i) then 0 else Tally(w, head[i])
    ensures !Compound(head[i]) ==> forall w: int :: Tally(w, head[i]) == Unit(w, head[i])
  {
    if !Compound(head[i]) { SimpleTally(head[i]); }
  }

  lemma LeftEnough(F: HeadFrame, s: HeadState, head: seq<Term>, i: nat)
    requires i < |head| && forall v: nat :: RestTally(v, head, i) <= Left(F, s, v)
    ensures !FirstAt(head, i) ==> forall v: nat :: Tally(v, head[i]) <= Left(F, s, v)
    ensures !FirstAt(head, i) && head[i].Var? ==> Left(F, s, head[i].v) > 0
    ensures !FirstAt(head, i) ==> RestTally(-1, head, i) >= Size(head[i])
    ensures !head[i].Var? ==> !FirstAt(head, i)
  {
    if !FirstAt(head, i) {
      forall v: nat ensures Tally(v, head[i]) <= Left(F, s, v) { assert RestTally(v, head, i) <= Left(F, s, v); }
      if head[i].Var? { assert Tally(head[i].v, head[i]) == 1; }
    }
  }

  lemma RestEnds(head: seq<Term>, cells: seq<Cell>)
    requires |cells| == |head|
    ensures RestEqs(head, cells, |head|) == [] && forall w: int :: RestTally(w, head, |head|) == 0
  {
  }

  /** When nothing is left, every variable of the head has its value, and is at home if needed. */
  lemma AllUsed(F: HeadFrame, s: HeadState, from: nat, v: nat)
    requires Inv(F, s, -1, from) && v < |s.vtbl| && Left(F, s, v) == 0
    ensures s.vtbl[v].usecnt == F.total[v]
    ensures !s.m.failed ==> (v in s.env <==> F.total[v] > 0)
    ensures !s.m.failed && Live(s.vtbl[v]) ==> v in s.env && AtHome(F, s, v) && Get(s.m.w.mem, s.vtbl[v].home) == s.env[v]
  {
    assert VarOk(F, s, -1, v);
    if !s.m.failed { assert VarHeld(F, s, v); }
  }
}
