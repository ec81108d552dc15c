/** The goals of a clause body but the last, one after the other: arguments are set up, the
    goal is called, the environment is trimmed, the next goal gets its targets.  All goals see
    the variables of the clause as the same machine variables. */
module ClauseBody {
  import opened Wam
  import opened VarTable
  import opened GoalModel
  import opened GoalDanger
  import opened GoalSpill
  import opened GoalTargets
  import opened GoalUnsafe
  import opened NextGoal
  import opened ClauseEntry
  import C = GoalCompiler

  // ---- one goal ----

  /** What a goal may do to the machine `m` that calls it: above its arguments the stack stays
      as it is.  Variables being identities, binding one changes no cell. */
  ghost predicate LeavesAlone(goal: Term, m: Machine, m': Machine)
    requires goal.Struct?
  {
    && FreshIds(m') && m.next <= m'.next && !m'.open && !m'.spilled
    && forall a | a >= m.sp + 2 + |goal.args| :: Get(m'.mem, a) == Get(m.mem, a)
  }

  /** The machine when it has come back from a goal and has trimmed the environment. */
  ghost predicate Returned(F: Frame, F': Frame, m: Machine, m': Machine) {
    && m'.e == F'.E && m'.sp == F'.SPstart - F'.gap && FreshIds(m') && m.next <= m'.next
    && !m'.open && !m'.spilled
    && forall a | a >= F.Top :: Get(m'.mem, a) == Get(m.mem, a)
  }

  /** The callee finds argument `j` above its stack pointer, where a head expects it. */
  ghost predicate ArgRight(F: Frame, m: Machine, env: Env, j: nat)
    requires j < |F.args|
  {
    Denotes(m.heap, Get(m.mem, m.sp + 2 + j), F.args[j], env)
  }

  ghost predicate ArgWrong(F: Frame, m: Machine, env: Env, j: nat)
    requires j < |F.args|
  {
    Refutes(m.heap, Get(m.mem, m.sp + 2 + j), F.args[j], env)
  }

  ghost predicate AllRight(F: Frame, m: Machine, env: Env) {
    forall j: nat | j < |F.args| :: ArgRight(F, m, env, j)
  }

  /** `code`, run from `entry`, ends in the call `m`; there the arguments are right unless the
      entry collides, and then one is wrong. */
  ghost predicate Outcome(F: Frame, entry: State, code: seq<Instr>, m: Machine, env: Env) {
    && m == Run(entry.m, code) && m.sp == F.Adst - 2 - F.gap
    && (forall j: nat | j < |F.args| && (F.args[j].Var? || !GoalCollides(F, entry)) :: ArgRight(F, m, env, j))
    && (GoalCollides(F, entry) ==> exists j: nat :: j < |F.args| && ArgWrong(F, m, env, j))
  }

  lemma OutcomeStays(F: Frame, entry: State, code: seq<Instr>, m: Machine, env: Env, env': Env)
    requires Outcome(F, entry, code, m, env) && Extends(env, env')
    ensures Outcome(F, entry, code, m, env')
  {
    hide Denotes, Refutes, GoalCollides, Run;
    forall j: nat | j < |F.args|
      ensures ArgRight(F, m, env, j) ==> ArgRight(F, m, env', j)
      ensures ArgWrong(F, m, env, j) ==> ArgWrong(F, m, env', j)
    {
      DenotesGrows(m.heap, m.heap, Get(m.mem, m.sp + 2 + j), F.args[j], env, env');
    }
  }

  lemma RightExactly(F: Frame, entry: State, code: seq<Instr>, m: Machine, env: Env)
    requires Outcome(F, entry, code, m, env)
    ensures AllRight(F, m, env) <==> !GoalCollides(F, entry)
  {
    hide Denotes, Refutes, GoalCollides, Run;
    if GoalCollides(F, entry) {
      var j: nat :| j < |F.args| && ArgWrong(F, m, env, j);
      NotBoth(m.heap, Get(m.mem, m.sp + 2 + j), F.args[j], env);
      assert !ArgRight(F, m, env, j);
    }
  }

  lemma FreshThen(env0: Env, n0: nat, env1: Env, n1: nat, n1': nat, env2: Env, n2: nat)
    requires FreshBindings(env0, n0, env1, n1) && n1 <= n1' && FreshBindings(env1, n1', env2, n2)
    ensures FreshBindings(env0, n0, env2, n2) && Extends(env1, env2)
  {
    forall u, v | u in env2 && v in env2 && u !in env0 && v !in env0 && u != v ensures env2[u] != env2[v] {
    }
  }

  // ---- between two goals ----

  /** A permanent variable that has not been used is at home. */
  predicate Housed(i: VarInf) {
    i.pvnum != 0 && i.noccurences > 0 && i.home == 0 ==> i.usecnt > 0
  }

  /** What `classify_vars` says of a variable before the body holds when its goal comes. */
  lemma StillClassified(F: Frame, F': Frame, s: State, was: VarInf, v: nat)
    requires Inv(F, s, -1) && v < |s.vtbl| && |F'.total| == |F.total| && Left(F, s, v) == 0 && Since(was, s.vtbl[v])
    requires Housed(was)
    requires Classified(F, F', was.(usecnt := F.total[v]), v)
    ensures Classified(F, F', s.vtbl[v], v)
  {
    assert VarOk(F, s, -1, v);
  }

  /** Between two goals everything is as the next one demands. */
  lemma JoinsUp(F: Frame, s: State, F': Frame, s': State, table: seq<VarInf>, m0: Machine)
    requires Inv(F, s, -1) && (forall v: nat :: Left(F, s, v) == 0) && F'.Ok() && Trimmed(F, F')
    requires |s'.model| == |s.model| && |s'.vtbl| == |s.vtbl| && AllSince(table, s.vtbl)
    requires forall x | 0 <= x < |s.model| :: s'.model[x] == if F'.Adst - 2 <= x < F'.Eend then Nil else s.model[x]
    requires forall v: nat | v < |s.vtbl| :: s'.vtbl[v] == TargetFor(F'.args, F'.Adst, v, s.vtbl[v].(target := 0))
    requires s'.sp == F'.SPstart && s'.placed == {} && s'.env == s.env && Returned(F, F', m0, s'.m) && m0.mem == s.m.mem
    requires forall v: nat | v < |table| :: Housed(table[v]) && Classified(F, F', table[v].(usecnt := F.total[v]), v)
    ensures Joins(F, s, F', s')
  {
    hide Inv, Classified, Left, TargetFor;
    ShapeOf(F, s, -1);
    forall v: nat | v < |s.vtbl| ensures Classified(F, F', s.vtbl[v], v) {
      assert Left(F, s, v) == 0 && Since(table[v], s.vtbl[v]);
      StillClassified(F, F', s, table[v], v);
    }
  }

  // ---- the body ----

  /** What a goal makes of the machine that calls it. */
  type Callee = (nat, Machine) -> Machine

  /** What is known of a clause before its body is compiled, with `stack` cells on the to-do stack. */
  ghost predicate BodyOk(b: Body, table: seq<VarInf>, stack: int, call: Callee) {
    && b.Shaped() && Behaves(b, call) && (forall v: nat | v < |table| :: Housed(table[v]) && AtPlace(b.E, table[v]))
    && (forall k: nat | k < |b.goals| :: GoalOk(b, |table|, stack, k))
    && (forall k: nat | k + 1 < |b.goals| :: GoalFollows(b, table, k))
  }

  ghost predicate GoalOk(b: Body, nvars: nat, stack: int, k: nat)
    requires b.Shaped() && k < |b.goals|
  {
    b.F(k).Ok() && |b.totals[k]| == nvars && Size(b.goals[k]) + 2 * nvars <= stack
  }

  /** What ties goal `k` to the next one. */
  ghost predicate GoalFollows(b: Body, table: seq<VarInf>, k: nat)
    requires b.Shaped() && k + 1 < |b.goals|
  {
    && b.SPstart(k + 1) - PermCount(table) >= Size(b.goals[k + 1])
    && |b.totals[k]| == |b.totals[k + 1]| == |table|
    && (forall v: nat :: SharesAt(b, k, v))
    && (forall v: nat | v < |table| :: ClassifiedAt(b, table, k, v))
  }

  ghost predicate SharesAt(b: Body, k: nat, v: nat)
    requires b.Shaped() && k + 1 < |b.goals|
  {
    Tally(v, b.goals[k + 1]) == Share(b.F(k), b.F(k + 1), v)
  }

  predicate ClassifiedAt(b: Body, table: seq<VarInf>, k: nat, v: nat)
    requires b.Shaped() && k + 1 < |b.goals| && v < |table| == |b.totals[k]| == |b.totals[k + 1]|
  {
    Classified(b.F(k), b.F(k + 1), table[v].(usecnt := b.totals[k][v]), v)
  }

  ghost predicate Behaves(b: Body, call: Callee)
    requires b.Shaped()
  {
    forall k: nat, m | k < |b.goals| :: LeavesAlone(b.goals[k], m, call(k, m))
  }

  /** Goal `k` is called from `m`; the machine comes back and trims the environment. */
  function Resumed(b: Body, call: Callee, k: nat, m: Machine): Machine
    requires b.Shaped() && k + 1 < |b.goals|
  {
    call(k, m).(e := b.E, sp := b.SPstart(k + 1) - b.gaps[k + 1])
  }

  // ---- the environment before the first goal ----

  /** Cell `x` holds a new local variable if it is one to be initialized, and is as before otherwise. */
  predicate Initialized(m0: Machine, m: Machine, lo: int, hi: int, later: bool, x: int) {
    if lo <= x < hi && later then
      var c := Get(m.mem, x);
      c.CVar? && m0.next <= c.id < m.next && c.id in m.locals
    else Get(m.mem, x) == Get(m0.mem, x)
  }

  lemma InitKeeps(F: Frame, s: State, x: int, cursor: int)
    requires Inv(F, s, -1) && F.gap == 0 && s.placed == {} && F.Eend <= x < F.E && s.model[x].Vo?
    requires s.model[x].v < |s.vtbl| && s.vtbl[s.model[x].v].usecnt == 0
    ensures var s' := s.(m := NewLocal(s.m, x).(cursor := cursor));
            Inv(F, s', -1) && (Settled(F, s) ==> Settled(F, s')) && Room(s') == Room(s)
            && forall v: nat :: Left(F, s', v) == Left(F, s, v)
  {
    var s' := s.(m := NewLocal(s.m, x).(cursor := cursor));
    forall v: nat | v < |s.vtbl| ensures VarOk(F, s', -1, v) { assert VarOk(F, s, -1, v); }
    forall y | F.Base() <= y < F.E ensures CellOk(F, s', y) { assert CellOk(F, s, y); }
    SettledStays(F, s, s') by {
      forall v: nat | v < |s.vtbl| ensures SettledVar(F, s, v) ==> SettledVar(F, s', v) { }
    }
  }

  // ---- the compiler ----

  class Compiler {
    const model: array<Entry>
    const vtbl: array<VarInf>
    const toDo: array<int>
    const plan: Plan

    var modelSP: int
    var prelude: seq<Instr>
    var code: seq<seq<Instr>>

    // The machine that runs the code, and what the proof knows about it.
    ghost const b: Body
    ghost const call: Callee
    ghost const table: seq<VarInf>
    ghost var m: Machine
    ghost var env: Env
    ghost var entries: seq<State>
    ghost var calls: seq<Machine>

    constructor (model: array<Entry>, vtbl: array<VarInf>, toDo: array<int>, plan: Plan, sp: int, ghost b: Body,
                 ghost call: Callee, ghost m0: Machine, ghost env0: Env)
      ensures this.model == model && this.vtbl == vtbl && this.toDo == toDo && this.plan == plan
      ensures this.b == b && this.call == call
      ensures table == vtbl[..] && S() == State(model[..], vtbl[..], sp, m0, env0, {})
      ensures prelude == [] && code == [] && entries == [] && calls == []
    {
      this.model, this.vtbl, this.toDo, this.plan, this.b, this.call := model, vtbl, toDo, plan, b, call;
      modelSP, prelude, code, table, m, env, entries, calls := sp, [], [], vtbl[..], m0, env0, [], [];
    }

    ghost function S(): State
      reads this, model, vtbl
    {
      State(model[..], vtbl[..], modelSP, m, env, {})
    }

    ghost predicate Known() {
      BodyOk(b, table, toDo.Length, call) && b.plan == plan && b.N == model.Length && |table| == vtbl.Length
    }

    /** Goal `k` can be set up. */
    ghost predicate Ready(k: nat)
      requires b.Shaped() && k < |b.goals|
      reads this, model, vtbl
    {
      && Inv(b.F(k), S(), -1) && Settled(b.F(k), S()) && !m.open && !m.spilled
      && (forall v: nat :: Left(b.F(k), S(), v) == Tally(v, b.goals[k])) && Room(S()) >= Size(b.goals[k])
      && AllSince(table, vtbl[..]) && AllTold(b, table, k, vtbl[..]) && AllAim(b.goals[k].args, b.Adst(k), vtbl[..])
      && Older(env, m.next)
    }

    /** The variable in environment cell `x` first occurs after the first goal. */
    predicate Later(x: int)
      reads model, vtbl
    {
      && 0 <= x < model.Length && model[x].Vo? && model[x].v < vtbl.Length
      && vtbl[model[x].v].firstocc > plan.firstgoalnumber
    }

    lemma EnvironmentThere()
      requires Known() && Ready(0)
      ensures b.Eend(0) <= b.E && m.e == b.E
    {
      assert GoalOk(b, |table|, toDo.Length, 0);
    }

    /** Cell `x` gets a new variable. */
    method InitCell(i: Instr, ghost x: int, ghost m0: Machine)
      requires Known() && Ready(0) && b.gaps[0] == 0 && b.Eend(0) <= x < b.E && Later(x)
      requires forall v: nat | v < vtbl.Length && vtbl[v].firstocc > b.firstgoalnumber :: vtbl[v].usecnt == 0
      requires m == Run(m0, prelude) && Step(m, i) == NewLocal(m, x).(cursor := x + 1)
      modifies this`prelude, this`m
      ensures Ready(0) && m == NewLocal(old(m), x).(cursor := x + 1) && m == Run(m0, prelude)
    {
      hide Inv, Settled, Left, Room, Size, AllSince, Run, Step, GoalOk, GoalFollows;
      EnvironmentThere();
      RunSnoc(m0, prelude, i);
      ghost var s := S();
      assert s.model[x] == model[x] && s.vtbl[model[x].v] == vtbl[model[x].v];
      InitKeeps(b.F(0), s, x, x + 1);
      prelude, m := prelude + [i], Step(m, i);
      assert S() == s.(m := NewLocal(s.m, x).(cursor := x + 1));
    }

    /** Every variable of the environment that first occurs after the first goal gets a safe
        value for the garbage collector: the first one by its place in the environment, the
        others by their distance from the one before. */
    method InitializeEnvironmentVariables()
      requires Known() && Ready(0) && b.gaps[0] == 0 && prelude == []
      requires forall v: nat | v < vtbl.Length && vtbl[v].firstocc > b.firstgoalnumber :: vtbl[v].usecnt == 0
      modifies this`prelude, this`m
      ensures Ready(0) && m == Run(old(m), prelude)
      ensures forall x :: Initialized(old(m), m, b.Eend(0), b.E, Later(x), x)
      ensures m.heap == old(m).heap && old(m).next <= m.next
    {
      hide Run, GoalOk, GoalFollows, Ready;
      EnvironmentThere();
      ghost var m0 := m;
      RunNothing(m);
      var i := plan.Eend(0);
      while i < plan.E
        invariant b.Eend(0) <= i <= b.E && m == m0 && prelude == [] && Ready(0)
        invariant forall x | b.Eend(0) <= x < i :: !Later(x)
      {
        if Later(i) {
          InitCell(InitYVar1(Loc(EREG, i - plan.E)), i, m0);
          break;
        }
        i := i + 1;
      }
      i := i + 1;
      var inc := 0;
      while i < plan.E
        invariant b.Eend(0) < i && 0 <= inc && m == Run(m0, prelude) && Ready(0) && m.e == m0.e
        invariant i <= b.E ==> m.cursor + inc == i
        invariant forall x :: Initialized(m0, m, b.Eend(0), if i < b.E then i else b.E, Later(x), x)
        invariant m.heap == m0.heap && m0.next <= m.next
      {
        if Later(i) {
          InitCell(InitYVar2(inc), i, m0);
          inc := -1;
        }
        i, inc := i + 1, inc + 1;
      }
    }

    /** The arguments of goal `k`, and the way to the call. */
    method SetUp(k: nat) returns (ghost end: State)
      requires k < |b.goals| && Known() && Ready(k)
      requires |code| == |entries| == |calls| == k
      modifies this`modelSP, this`code, this`m, this`env, this`entries, this`calls, model, vtbl, toDo
      ensures Inv(b.F(k), end, -1) && (forall v: nat :: Left(b.F(k), end, v) == 0) && AllSince(table, end.vtbl)
      ensures end.model == model[..] && end.vtbl == vtbl[..] && end.env == env
      ensures end.m.mem == m.mem && end.m.next == m.next && m.sp == b.Adst(k) - 2 - b.gaps[k]
      ensures |code| == k + 1 && code[..k] == old(code)
      ensures entries == old(entries) + [old(S())] && calls == old(calls) + [m]
      ensures Outcome(b.F(k), old(S()), code[k], m, env) && FreshBindings(old(env), old(m).next, env, m.next)
      ensures AllTold(b, table, k + 1, end.vtbl) && Older(env, m.next) && Entered(k, old(S()), m, env)
    {
      hide Inv, Settled, Left, Tally, Room, Size, AllSince, GoalCollides, Run, Denotes, Refutes, Builds, FreshBindings,
           Calm, GoalFollows, AllTold, AllAim, Older, Marked, FlagTold, Watched, EntryWatch, Entered;
      assert GoalOk(b, |table|, toDo.Length, k);
      ghost var s := S();
      var c := new C.Compiler(model, vtbl, toDo, plan.E, plan.Eend(k), plan.Adst(k), plan.SPstart(k),
                              plan.firstgoalnumber + k, modelSP, b.F(k), m, env);
      assert c.S() == s;
      RunNothing(m);
      FreshAtFirst(env, m.next);
      c.CompGoal(plan.goals[k]);
      end := c.S();
      BuildsSince(b.F(k), s, end, table);
      var adjust := AddToSp(plan.Adst(k) - 2 - c.modelSP);
      RunSnoc(m, c.code, adjust);
      ShapeOf(b.F(k), end, -1);
      entries := entries + [s];
      code := code + [c.code + [adjust]];
      m, env, modelSP := Step(c.m, adjust), c.env, plan.Adst(k) - 2;
      calls := calls + [m];
      GoalSetUp(b.F(k), s, c.m, code[k], m, env, b.goals[k]);
      OlderThen(s.env, s.m.next, env, m.next);
      AllToldNext(b, table, k, s, end);
      EnteredAndLeft(k, s, end, m);
    }

    /** After the call: the cells that the next goal's arguments need are free, its variables get
        their targets, and the machine is as it came back. */
    method Trim(k: nat, ghost s: State)
      requires k + 1 < |b.goals| && Known() && Inv(b.F(k), s, -1) && (forall v: nat :: Left(b.F(k), s, v) == 0)
      requires s.model == model[..] && s.vtbl == vtbl[..] && s.env == env && s.m.mem == m.mem && AllSince(table, s.vtbl)
      requires AllTold(b, table, k + 1, s.vtbl) && Older(env, m.next)
      requires m.sp == b.Adst(k) - 2 - b.gaps[k]
      modifies this`modelSP, this`m, model, vtbl
      ensures Ready(k + 1) && m == Resumed(b, call, k, old(m)) && Returned(b.F(k), b.F(k + 1), old(m), m)
    {
      hide Inv, Settled, Left, Tally, Size, AllSince, PermCount, Classified, Share, NextGoal.Between, AllTold, AllAim;
      var n := k + 1;
      assert GoalOk(b, |table|, toDo.Length, k) && GoalOk(b, |table|, toDo.Length, n);
      assert GoalFollows(b, table, k) && LeavesAlone(b.goals[k], m, call(k, m));
      ShapeOf(b.F(k), s, -1);
      ClearCells(n);
      VarsKnown(k);
      InitOnlyTargets(vtbl, plan.goals[n].args, plan.Adst(n), plan.firstgoalnumber + n, plan.firstgoalnumber);
      modelSP := plan.SPstart(n);
      ghost var m0 := m;
      m := Resumed(b, call, k, m);
      forall v: nat | v < |table| ensures Classified(b.F(k), b.F(n), table[v].(usecnt := b.F(k).total[v]), v) {
        assert ClassifiedAt(b, table, k, v);
      }
      JoinsUp(b.F(k), s, b.F(n), S(), table, m0);
      forall v: nat ensures Tally(v, b.goals[n]) == Share(b.F(k), b.F(n), v) { assert SharesAt(b, k, v); }
      GoalReadiesNext(b.F(k), s, b.F(n), S(), b.goals[n].functor);
      SinceTargets(s.vtbl, vtbl[..], table, b.goals[n].args, b.Adst(n));
      FewerSince(table, vtbl[..]);
      ToldTargets(b, table, n, s.vtbl, vtbl[..], b.goals[n].args, b.Adst(n));
    }

    method ClearCells(k: nat)
      requires b.Shaped() && b.plan == plan && k < |b.goals| && 2 <= b.Adst(k) && b.Eend(k) <= model.Length
      modifies model
      ensures forall x | 0 <= x < model.Length ::
                model[x] == if b.Adst(k) - 2 <= x < b.Eend(k) then Nil else old(model[x])
    {
      var i := plan.Adst(k) - 2;
      while i < plan.Eend(k)
        invariant b.Adst(k) - 2 <= i
        invariant forall x | 0 <= x < model.Length ::
                    model[x] == if b.Adst(k) - 2 <= x < i && x < b.Eend(k) then Nil else old(model[x])
      {
        model[i] := Nil;
        i := i + 1;
      }
    }

    lemma VarsKnown(k: nat)
      requires k + 1 < |b.goals| && Known()
      ensures var args := b.goals[k + 1].args;
              forall j | 0 <= j < |args| && args[j].Var? :: args[j].v < vtbl.Length
    {
      var goal := b.goals[k + 1];
      assert GoalOk(b, |table|, toDo.Length, k) && GoalOk(b, |table|, toDo.Length, k + 1);
      assert GoalFollows(b, table, k);
      forall j | 0 <= j < |goal.args| && goal.args[j].Var? ensures goal.args[j].v < vtbl.Length {
        var v := goal.args[j].v;
        KidTally(v, goal, j);
        SimpleTally(Var(v));
        assert SharesAt(b, k, v);
      }
    }

    /** Goal `k` has been set up, and run from where the goals before it led to. */
    ghost predicate GoalDone(k: nat, m0: Machine, entries: seq<State>, code: seq<seq<Instr>>, calls: seq<Machine>,
                             env: Env)
      requires b.Shaped() && k < |b.goals| && k < |entries| == |calls| == |code|
    {
      && Outcome(b.F(k), entries[k], code[k], calls[k], env)
      && entries[k].m == (if k == 0 then m0 else Resumed(b, call, k - 1, calls[k - 1]))
      && Entered(k, entries[k], calls[k], env)
    }

    /** What is watched when goal `k` is entered is what the clause says, and so is which new
        variables are exposed when it is called; a goal over which nothing is cut off the
        environment does not collide, nor does one that is entered with nothing exposed. */
    ghost predicate Entered(k: nat, s: State, m: Machine, env: Env)
      requires b.Shaped() && k < |b.goals|
    {
      && Watched(s) == EntryWatch(b, table, k, env, Exposed(s.m)) && Valued(b, table, k, env)
      && AllExposed(b, table, k, env, m) && FreshIds(m)
      && (b.Eend(k) == b.Eend(k + 1) || Exposed(s.m) == {} ==> !GoalCollides(b.F(k), s))
    }

    lemma EnteredAndLeft(k: nat, s: State, end: State, m: Machine)
      requires Known() && k < |b.goals| && Inv(b.F(k), s, -1) && Inv(b.F(k), end, -1) && s.placed == {} && !s.m.spilled
      requires AllSince(table, s.vtbl) && AllTold(b, table, k, s.vtbl) && AllAim(b.goals[k].args, b.Adst(k), s.vtbl)
      requires AllSince(table, end.vtbl) && AllTold(b, table, k + 1, end.vtbl) && Marked(s.env, end)
      requires Exposed(m) == Exposed(end.m) && m.spb == end.m.spb && FreshIds(m) && Extends(s.env, end.env)
      ensures Entered(k, s, m, end.env)
    {
      hide Inv, AllSince, AllTold, AllAim, Marked, Watched, EntryWatch, GoalOk, GoalFollows, Behaves, GoalCollides,
           Valued, AllExposed;
      EntryIsWatched(b, table, k, s);
      EntryStays(b, table, k, s.env, end.env, Exposed(s.m));
      assert |s.vtbl| == |table| by { SameSize(table, s.vtbl); }
      NewAreExposed(b, table, k, s, end, m);
      if b.Eend(k) == b.Eend(k + 1) { ApartIsRight(b.F(k), s); }
      if Exposed(s.m) == {} { HiddenIsRight(b.F(k), s); }
    }

    lemma EnteredTells(k: nat, s: State, m: Machine, env: Env)
      requires b.Shaped() && k < |b.goals| && Entered(k, s, m, env)
      ensures GoalCollides(b.F(k), s) <==> BodyCollides(b, table, k, env, Exposed(s.m))
      ensures b.Eend(k) == b.Eend(k + 1) || Exposed(s.m) == {} ==> !GoalCollides(b.F(k), s)
    {
      hide Collision, Watched, EntryWatch;
    }

    lemma EnteredStays(k: nat, s: State, m: Machine, env: Env, env': Env)
      requires b.Shaped() && k < |b.goals| && Entered(k, s, m, env) && Extends(env, env')
      ensures Entered(k, s, m, env')
    {
      hide Watched, EntryWatch, GoalCollides, AllExposed, Valued;
      EntryStays(b, table, k, env, env', Exposed(s.m));
      ExposedStays(b, table, k, env, env', m);
    }

    lemma DoneStays(k: nat, m0: Machine, es: seq<State>, co: seq<seq<Instr>>, cs: seq<Machine>, e: Env,
                    es': seq<State>, co': seq<seq<Instr>>, cs': seq<Machine>, e': Env)
      requires b.Shaped() && k < |b.goals| && k < |es| == |co| == |cs| && GoalDone(k, m0, es, co, cs, e)
      requires |es'| == |co'| == |cs'| == |es| + 1 && es'[..|es|] == es && co'[..|es|] == co && cs'[..|es|] == cs
      requires Extends(e, e')
      ensures GoalDone(k, m0, es', co', cs', e')
    {
      hide Outcome, Entered;
      assert es'[..|es|][k] == es[k] && co'[..|es|][k] == co[k] && cs'[..|es|][k] == cs[k];
      assert k > 0 ==> cs'[..|es|][k - 1] == cs[k - 1];
      OutcomeStays(b.F(k), es[k], co[k], cs[k], e, e');
      EnteredStays(k, es[k], cs[k], e, e');
    }

    /** Initializes the environment, then sets up and calls all goals.  There is one binding
        `env` of the clause's variables to machine variables, different ones for different
        variables, under which at every call the arguments are right, exactly if the goal does
        not collide, which the body and the variables exposed on entry tell. */
    method CompBody()
      requires Known() && table == vtbl[..] && Ready(0) && b.gaps[0] == 0
      requires forall v: nat | v < vtbl.Length && vtbl[v].firstocc > b.firstgoalnumber :: vtbl[v].usecnt == 0
      requires prelude == [] && code == [] && entries == [] && calls == []
      modifies this`modelSP, this`prelude, this`code, this`m, this`env, this`entries, this`calls, model, vtbl, toDo
      ensures |code| == |entries| == |calls| == |b.goals|
      ensures forall k: nat | k < |b.goals| :: GoalDone(k, Run(old(m), prelude), entries, code, calls, env)
      ensures forall k: nat | k < |b.goals| ::
                AllRight(b.F(k), calls[k], env) <==> !BodyCollides(b, table, k, env, Exposed(entries[k].m))
      ensures forall k: nat | k < |b.goals| && (b.Eend(k) == b.Eend(k + 1) || Exposed(entries[k].m) == {}) ::
                AllRight(b.F(k), calls[k], env)
      ensures FreshBindings(old(env), old(m).next, env, m.next)
    {
      hide Inv, Settled, Left, Tally, Room, Size, AllSince, GoalCollides, Run, FreshBindings, Outcome, AllRight,
           GoalOk, GoalFollows, Ready, AllTold, Older, Entered, BodyCollides;
      FreshAtFirst(env, m.next);
      InitializeEnvironmentVariables();
      ghost var m0 := m;
      FreshAtFirst(env, m.next);
      FreshThen(env, old(m).next, env, old(m).next, m.next, env, m.next);
      for k := 0 to |plan.goals|
        invariant |code| == |entries| == |calls| == k && (k < |b.goals| ==> Ready(k)) && m0 == Run(old(m), prelude)
        invariant forall i: nat | i < k :: GoalDone(i, m0, entries, code, calls, env)
        invariant k < |b.goals| ==> m == (if k == 0 then m0 else Resumed(b, call, k - 1, calls[k - 1]))
        invariant FreshBindings(old(env), old(m).next, env, m.next)
      {
        ghost var env0, n0, es, co, cs := env, m.next, entries, code, calls;
        ghost var end := SetUp(k);
        FreshThen(old(env), old(m).next, env0, n0, n0, env, m.next);
        forall i: nat | i < k + 1 ensures GoalDone(i, m0, entries, code, calls, env) {
          if i < k { DoneStays(i, m0, es, co, cs, env0, entries, code, calls, env); }
        }
        if k + 1 < |plan.goals| {
          ghost var n1 := m.next;
          Trim(k, end);
          FreshAtFirst(env, m.next);
          FreshThen(old(env), old(m).next, env, n1, m.next, env, m.next);
        }
      }
      forall k: nat | k < |b.goals|
        ensures AllRight(b.F(k), calls[k], env) <==> !BodyCollides(b, table, k, env, Exposed(entries[k].m))
      {
        assert GoalDone(k, m0, entries, code, calls, env);
        EnteredTells(k, entries[k], calls[k], env);
        RightExactly(b.F(k), entries[k], code[k], calls[k], env);
      }
      forall k: nat | k < |b.goals| && (b.Eend(k) == b.Eend(k + 1) || Exposed(entries[k].m) == {})
        ensures AllRight(b.F(k), calls[k], env)
      {
        assert GoalDone(k, m0, entries, code, calls, env);
        EnteredTells(k, entries[k], calls[k], env);
      }
    }
  }

  lemma RunNothing(m: Machine)
    ensures Run(m, []) == m
  {
  }

  lemma SameSize(table: seq<VarInf>, vtbl: seq<VarInf>)
    requires AllSince(table, vtbl)
    ensures |vtbl| == |table|
  {
  }

  lemma OlderThen(env0: Env, n0: nat, env: Env, n: nat)
    requires Older(env0, n0) && FreshBindings(env0, n0, env, n)
    ensures Older(env, n) && Extends(env0, env)
  {
  }

  lemma FreshAtFirst(env: Env, n: nat)
    ensures FreshBindings(env, n, env, n)
  {
  }

  /** Moving the stack pointer does not change what the argument cells hold. */
  lemma GoalSetUp(F: Frame, s: State, end: Machine, code: seq<Instr>, m: Machine, env: Env, goal: Term)
    requires goal.Struct? && goal.args == F.args && m == end.(sp := F.Adst - 2 - F.gap) && m == Run(s.m, code)
    requires end.spilled <==> GoalCollides(F, s)
    requires (forall i | 0 <= i < |goal.args| ::
                Denotes(end.heap, Get(end.mem, F.Adst + i - F.gap), goal.args[i], env)) <==> !end.spilled
    requires forall i | 0 <= i < |goal.args| && goal.args[i].Var? ::
               Denotes(end.heap, Get(end.mem, F.Adst + i - F.gap), goal.args[i], env)
    requires end.spilled ==>
               exists i | 0 <= i < |goal.args| && !goal.args[i].Var? ::
                 Refutes(end.heap, Get(end.mem, F.Adst + i - F.gap), goal.args[i], env)
    ensures Outcome(F, s, code, m, env)
  {
    hide Denotes, Refutes, GoalCollides, Run;
    forall j: nat | j < |F.args| && (F.args[j].Var? || !GoalCollides(F, s)) ensures ArgRight(F, m, env, j) {
      assert m.sp + 2 + j == F.Adst + j - F.gap;
      assert Denotes(end.heap, Get(end.mem, F.Adst + j - F.gap), goal.args[j], env);
    }
    if GoalCollides(F, s) {
      var i :| 0 <= i < |goal.args| && !goal.args[i].Var? &&
               Refutes(end.heap, Get(end.mem, F.Adst + i - F.gap), goal.args[i], env);
      assert m.sp + 2 + i == F.Adst + i - F.gap;
      assert ArgWrong(F, m, env, i);
    }
  }
}
