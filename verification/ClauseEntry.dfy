/** The goals of a clause body, and what the clause tells about the state in which each of them
    is entered: whatever has been called in between, of all that decides whether a goal goes
    wrong only the exposed machine variables are not known before the clause is run. */
module ClauseEntry {
  import opened Wam
  import opened VarTable
  import opened GoalModel
  import opened GoalDanger
  import opened GoalSpill
  import opened GoalTargets
  import opened GoalUnsafe

  /** What the compiler knows: the size of the model, the goals, and how much of the environment
      is kept over each; before them, all of it. */
  datatype Plan = Plan(N: int, E: int, firstgoalnumber: int, goals: seq<Term>, callEnvSizes: seq<nat>) {
    predicate Shaped() {
      |callEnvSizes| == |goals| + 1 && |goals| > 0 && forall k | 0 <= k < |goals| :: goals[k].Struct?
    }

    function Eend(k: nat): int
      requires k < |callEnvSizes|
    {
      E - callEnvSizes[k]
    }

    /** The arguments go right below what is kept of the environment. */
    function Adst(k: nat): int
      requires Shaped() && k < |goals|
    {
      Eend(k + 1) - |goals[k].args|
    }

    function SPstart(k: nat): int
      requires Shaped() && k < |goals|
    {
      if Adst(k) < Eend(k) then Adst(k) - 2 else Eend(k) - 2
    }
  }

  /** What the proof knows beside it: `totals` counts the occurrences of each variable up to the
      end of each goal, and `gaps` is how far the two frames of the machine are apart in each. */
  datatype Body = Body(plan: Plan, totals: seq<seq<nat>>, gaps: seq<int>) {
    const N := plan.N
    const E := plan.E
    const goals := plan.goals
    const firstgoalnumber := plan.firstgoalnumber

    predicate Shaped() {
      plan.Shaped() && |totals| == |gaps| == |goals|
    }

    function Eend(k: nat): int
      requires k < |plan.callEnvSizes|
    {
      plan.Eend(k)
    }

    function Adst(k: nat): int
      requires Shaped() && k < |goals|
    {
      plan.Adst(k)
    }

    function SPstart(k: nat): int
      requires Shaped() && k < |goals|
    {
      plan.SPstart(k)
    }

    function F(k: nat): Frame
      requires Shaped() && k < |goals|
    {
      Frame(N, E, Eend(k), Adst(k), SPstart(k), Eend(k + 1), firstgoalnumber + k, gaps[k], goals[k].args, totals[k])
    }
  }

  // ---- what stays of the table ----

  /** Over the goals `was` has become `now`: only permanent variables lose their place, and a
      variable that has a home keeps one. */
  predicate Since(was: VarInf, now: VarInf) {
    && now.noccurences == was.noccurences && now.firstocc == was.firstocc && now.lastocc == was.lastocc
    && (now.pvnum != 0 ==> was.pvnum != 0 && now.home == was.home)
    && (was.home != 0 ==> now.home != 0) && was.usecnt <= now.usecnt
  }

  predicate AllSince(table: seq<VarInf>, vtbl: seq<VarInf>) {
    |vtbl| == |table| && forall v: nat | v < |table| :: Since(table[v], vtbl[v])
  }

  lemma {:induction false} FewerPermanent(table: seq<VarInf>, vtbl: seq<VarInf>)
    requires |vtbl| == |table| && forall v: nat | v < |table| :: vtbl[v].pvnum != 0 ==> table[v].pvnum != 0
    ensures PermCount(vtbl) <= PermCount(table)
  {
    if table != [] {
      var n := |table| - 1;
      assert vtbl[n].pvnum != 0 ==> table[n].pvnum != 0;
      forall v: nat | v < n ensures vtbl[..n][v].pvnum != 0 ==> table[..n][v].pvnum != 0 {
        assert vtbl[v].pvnum != 0 ==> table[v].pvnum != 0;
      }
      FewerPermanent(table[..n], vtbl[..n]);
    }
  }

  lemma FewerSince(table: seq<VarInf>, vtbl: seq<VarInf>)
    requires AllSince(table, vtbl)
    ensures PermCount(vtbl) <= PermCount(table)
  {
    forall v: nat | v < |table| ensures vtbl[v].pvnum != 0 ==> table[v].pvnum != 0 { assert Since(table[v], vtbl[v]); }
    FewerPermanent(table, vtbl);
  }

  lemma BuildsSince(F: Frame, s: State, s': State, table: seq<VarInf>)
    requires Builds(F, s, s') && AllSince(table, s.vtbl)
    ensures AllSince(table, s'.vtbl)
  {
    forall v: nat | v < |table| ensures Since(table[v], s'.vtbl[v]) {
      assert Since(table[v], s.vtbl[v]) && SameVar(F, s, s', v);
    }
  }

  lemma SinceTargets(vtbl: seq<VarInf>, vtbl': seq<VarInf>, table: seq<VarInf>, args: seq<Term>, adst: int)
    requires AllSince(table, vtbl) && |vtbl'| == |vtbl|
    requires forall v: nat | v < |vtbl| :: vtbl'[v] == TargetFor(args, adst, v, vtbl[v].(target := 0))
    ensures AllSince(table, vtbl')
  {
    forall v: nat | v < |table| ensures Since(table[v], vtbl'[v]) { assert Since(table[v], vtbl[v]); }
  }

  // ---- what is watched when a goal is entered ----

  /** How often `v` occurs before goal `k`; `table` is that of the variables after the head. */
  function Before(b: Body, table: seq<VarInf>, k: nat, v: nat): nat
    requires b.Shaped() && k <= |b.goals| && v < |table|
  {
    if k == 0 then table[v].usecnt else if v < |b.totals[k - 1]| then b.totals[k - 1][v] else 0
  }

  /** No goal before `k` has met `v` for the first time in a structure, nor has the head made it safe. */
  predicate Bare(b: Body, table: seq<VarInf>, k: nat, v: nat)
    requires b.Shaped() && k <= |b.goals| && v < |table|
  {
    if k == 0 then table[v].unsafe
    else
      var goal := b.goals[k - 1];
      Bare(b, table, k - 1, v) && (Before(b, table, k - 1, v) > 0 || BuiltTally(v, goal, |Kids(goal)|) == 0)
  }

  function EntryInfo(b: Body, table: seq<VarInf>, k: nat, env: Env, v: nat): Info
    requires b.Shaped() && k < |b.goals| && v < |table|
  {
    var i, n := table[v], Before(b, table, k, v);
    Info(if i.pvnum != 0 && n < i.noccurences then b.E - i.pvnum else -1,
         n > 0 || n >= i.noccurences || i.pvnum != 0, n, i.noccurences,
         FirstCell(b.goals[k].args, b.Adst(k), v, 0), i.firstocc,
         if 0 < n < i.noccurences && Bare(b, table, k, v) && v in env then env[v] else Junk)
  }

  /** What is watched when goal `k` is entered, as a function of the clause, of the binding of its
      variables and of the exposed machine variables. */
  function EntryWatch(b: Body, table: seq<VarInf>, k: nat, env: Env, exposed: set<nat>): Watch
    requires b.Shaped() && k < |b.goals|
  {
    Watch(seq(|table|, v requires 0 <= v < |table| => EntryInfo(b, table, k, env, v)), exposed, false)
  }

  /** Goal `k` pushes a variable into an open structure. */
  ghost predicate BodyCollides(b: Body, table: seq<VarInf>, k: nat, env: Env, exposed: set<nat>)
    requires b.Shaped() && k < |b.goals|
  {
    Collision(EntryWatch(b, table, k, env, exposed), GoalEvents(b.goals[k].args, b.Adst(k), |b.goals[k].args|))
  }

  /** A permanent variable has its place. */
  predicate AtPlace(e: int, i: VarInf) {
    i.pvnum != 0 ==> i.home == e - i.pvnum
  }

  /** The record `i` of `v` is what the clause tells before goal `k`, but for the target. */
  predicate Told(b: Body, table: seq<VarInf>, k: nat, v: nat, i: VarInf)
    requires b.Shaped() && k <= |b.goals| && v < |table|
  {
    && i.usecnt == Before(b, table, k, v)
    && (i.usecnt < i.noccurences ==>
          (i.unsafe <==> Bare(b, table, k, v)) && (i.usecnt == 0 ==> i.unsafe) && (table[v].pvnum != 0 ==> i.pvnum != 0))
  }

  ghost predicate AllTold(b: Body, table: seq<VarInf>, k: nat, vtbl: seq<VarInf>)
    requires b.Shaped() && k <= |b.goals|
  {
    |vtbl| == |table| && forall v: nat | v < |table| :: Told(b, table, k, v, vtbl[v])
  }

  predicate Aims(args: seq<Term>, adst: int, v: nat, i: VarInf) {
    i.target == FirstCell(args, adst, v, 0)
  }

  ghost predicate AllAim(args: seq<Term>, adst: int, vtbl: seq<VarInf>) {
    forall v: nat | v < |vtbl| :: Aims(args, adst, v, vtbl[v])
  }

  lemma EntryInfoIs(b: Body, table: seq<VarInf>, k: nat, s: State, v: nat)
    requires b.Shaped() && k < |b.goals| && Inv(b.F(k), s, -1) && s.placed == {} && v < |table| == |s.vtbl|
    requires Since(table[v], s.vtbl[v]) && Told(b, table, k, v, s.vtbl[v]) && AtPlace(b.E, table[v])
    requires Aims(b.goals[k].args, b.Adst(k), v, s.vtbl[v])
    ensures InfoOf(s, v) == EntryInfo(b, table, k, s.env, v) && (Before(b, table, k, v) > 0 ==> v in s.env)
  {
    assert VarOk(b.F(k), s, -1, v);
  }

  /** All that was used before goal `k` has a value. */
  ghost predicate Valued(b: Body, table: seq<VarInf>, k: nat, env: Env)
    requires b.Shaped() && k <= |b.goals|
  {
    forall v: nat | v < |table| && Before(b, table, k, v) > 0 :: v in env
  }

  lemma EntryIsWatched(b: Body, table: seq<VarInf>, k: nat, s: State)
    requires b.Shaped() && k < |b.goals| && Inv(b.F(k), s, -1) && s.placed == {} && !s.m.spilled
    requires AllSince(table, s.vtbl) && AllTold(b, table, k, s.vtbl) && AllAim(b.goals[k].args, b.Adst(k), s.vtbl)
    requires forall v: nat | v < |table| :: AtPlace(b.E, table[v])
    ensures Watched(s) == EntryWatch(b, table, k, s.env, Exposed(s.m)) && Valued(b, table, k, s.env)
  {
    hide Inv, Since, Told, Aims, InfoOf, EntryInfo, AtPlace, Before;
    var w := EntryWatch(b, table, k, s.env, Exposed(s.m));
    forall v: nat | v < |s.vtbl| ensures ShowsAt(s, w, v) && (Before(b, table, k, v) > 0 ==> v in s.env) {
      assert Since(table[v], s.vtbl[v]) && Told(b, table, k, v, s.vtbl[v]) && AtPlace(b.E, table[v]);
      assert Aims(b.goals[k].args, b.Adst(k), v, s.vtbl[v]);
      EntryInfoIs(b, table, k, s, v);
    }
    ShowsWatched(s, w);
  }

  lemma EntryStays(b: Body, table: seq<VarInf>, k: nat, env: Env, env': Env, exposed: set<nat>)
    requires b.Shaped() && k < |b.goals| && Valued(b, table, k, env) && Extends(env, env')
    ensures EntryWatch(b, table, k, env', exposed) == EntryWatch(b, table, k, env, exposed) && Valued(b, table, k, env')
  {
    var w, w' := EntryWatch(b, table, k, env, exposed), EntryWatch(b, table, k, env', exposed);
    forall v: nat | v < |table| ensures w'.info[v] == w.info[v] { }
    assert w'.info == w.info;
  }

  // ---- from goal to goal ----

  lemma ToldNext(b: Body, table: seq<VarInf>, k: nat, F: Frame, s: State, s': State, v: nat)
    requires b.Shaped() && k < |b.goals| && F == b.F(k) && v < |table| == |s.vtbl| == |s'.vtbl| == |F.total|
    requires Inv(F, s, -1) && Inv(F, s', -1) && Builds(F, s, s')
    requires Left(F, s', v) == 0 && Left(F, s, v) == Tally(v, b.goals[k])
    requires Told(b, table, k, v, s.vtbl[v]) && FlagTold(s.vtbl[v], s'.vtbl[v], v, b.goals[k])
    ensures Told(b, table, k + 1, v, s'.vtbl[v])
  {
    assert SameVar(F, s, s', v);
    if s'.vtbl[v].usecnt < s'.vtbl[v].noccurences && table[v].pvnum != 0 { NeededIsPermanent(F, s, s', v); }
  }

  lemma AllToldNext(b: Body, table: seq<VarInf>, k: nat, s: State, s': State)
    requires b.Shaped() && k < |b.goals| && AllTold(b, table, k, s.vtbl) && |s'.vtbl| == |table|
    requires Inv(b.F(k), s, -1) && Inv(b.F(k), s', -1) && Builds(b.F(k), s, s')
    requires forall v: nat :: Left(b.F(k), s', v) == 0
    requires forall v: nat :: Left(b.F(k), s, v) == Tally(v, b.goals[k])
    requires forall v: nat | v < |table| :: FlagTold(s.vtbl[v], s'.vtbl[v], v, b.goals[k])
    ensures AllTold(b, table, k + 1, s'.vtbl)
  {
    hide Builds, Left, Tally, Told, FlagTold;
    var n := k + 1;
    ShapeOf(b.F(k), s, -1);
    hide Inv;
    forall v: nat | v < |table| ensures Told(b, table, n, v, s'.vtbl[v]) {
      assert Told(b, table, k, v, s.vtbl[v]) && FlagTold(s.vtbl[v], s'.vtbl[v], v, b.goals[k]);
      assert Left(b.F(k), s', v) == 0 && Left(b.F(k), s, v) == Tally(v, b.goals[k]);
      ToldNext(b, table, k, b.F(k), s, s', v);
    }
  }

  lemma ToldTargets(b: Body, table: seq<VarInf>, k: nat, vtbl: seq<VarInf>, vtbl': seq<VarInf>, args: seq<Term>, adst: int)
    requires b.Shaped() && k <= |b.goals| && AllTold(b, table, k, vtbl) && |vtbl'| == |vtbl|
    requires forall v: nat | v < |vtbl| :: vtbl'[v] == TargetFor(args, adst, v, vtbl[v].(target := 0))
    ensures AllTold(b, table, k, vtbl') && AllAim(args, adst, vtbl')
  {
    forall v: nat | v < |table| ensures Told(b, table, k, v, vtbl'[v]) { assert Told(b, table, k, v, vtbl[v]); }
    forall v: nat | v < |vtbl'| ensures Aims(args, adst, v, vtbl'[v]) { }
  }

  // ---- new variables at the call ----

  /** Goal `k` is the first to have `v`, a permanent variable needed after it, and has it outside
      structures only. */
  predicate NewAt(b: Body, table: seq<VarInf>, k: nat, v: nat)
    requires b.Shaped() && k < |b.goals| && v < |table|
  {
    && Before(b, table, k, v) == 0 < Before(b, table, k + 1, v) < table[v].noccurences && table[v].pvnum != 0
    && Bare(b, table, k + 1, v)
  }

  /** When goal `k` is called, such a variable is exposed exactly if no choice point protects its cell. */
  predicate ExposedAt(b: Body, table: seq<VarInf>, k: nat, v: nat, env: Env, m: Machine)
    requires b.Shaped() && k < |b.goals| && v < |table|
  {
    NewAt(b, table, k, v) ==>
      v in env && env[v].CVar? && (env[v].id in Exposed(m) <==> b.E - table[v].pvnum < m.spb)
  }

  ghost predicate AllExposed(b: Body, table: seq<VarInf>, k: nat, env: Env, m: Machine)
    requires b.Shaped() && k < |b.goals|
  {
    forall v: nat | v < |table| :: ExposedAt(b, table, k, v, env, m)
  }

  lemma NewIsExposed(b: Body, table: seq<VarInf>, k: nat, s: State, s': State, m: Machine, v: nat)
    requires b.Shaped() && k < |b.goals| && v < |table| == |s.vtbl| == |s'.vtbl|
    requires Inv(b.F(k), s, -1) && Inv(b.F(k), s', -1) && Marked(s.env, s')
    requires Exposed(m) == Exposed(s'.m) && m.spb == s'.m.spb
    requires Told(b, table, k, v, s.vtbl[v]) && Told(b, table, k + 1, v, s'.vtbl[v]) && Since(table[v], s'.vtbl[v])
    requires AtPlace(b.E, table[v])
    ensures ExposedAt(b, table, k, v, s'.env, m)
  {
    assert VarOk(b.F(k), s, -1, v) && VarOk(b.F(k), s', -1, v);
    if v !in s.env { assert MarkedVar(s', v); }
  }

  lemma NewAreExposed(b: Body, table: seq<VarInf>, k: nat, s: State, s': State, m: Machine)
    requires b.Shaped() && k < |b.goals| && |s.vtbl| == |table|
    requires Inv(b.F(k), s, -1) && Inv(b.F(k), s', -1) && Marked(s.env, s')
    requires Exposed(m) == Exposed(s'.m) && m.spb == s'.m.spb
    requires AllTold(b, table, k, s.vtbl) && AllTold(b, table, k + 1, s'.vtbl) && AllSince(table, s'.vtbl)
    requires forall v: nat | v < |table| :: AtPlace(b.E, table[v])
    ensures AllExposed(b, table, k, s'.env, m)
  {
    hide Inv, Marked, Told, Since, AtPlace, ExposedAt;
    var n := k + 1;
    forall v: nat | v < |table| ensures ExposedAt(b, table, k, v, s'.env, m) {
      assert Told(b, table, k, v, s.vtbl[v]) && Told(b, table, n, v, s'.vtbl[v]) && Since(table[v], s'.vtbl[v]);
      assert AtPlace(b.E, table[v]);
      NewIsExposed(b, table, k, s, s', m, v);
    }
  }

  lemma ExposedStays(b: Body, table: seq<VarInf>, k: nat, env: Env, env': Env, m: Machine)
    requires b.Shaped() && k < |b.goals| && AllExposed(b, table, k, env, m) && Extends(env, env')
    ensures AllExposed(b, table, k, env', m)
  {
    forall v: nat | v < |table| ensures ExposedAt(b, table, k, v, env', m) {
      assert ExposedAt(b, table, k, v, env, m);
    }
  }

  // ---- goals that cannot go wrong ----

  predicate Above(i: Info, x: int) {
    (i.spot >= 0 ==> i.spot >= x) && (i.target != 0 ==> i.target < x)
  }

  /** When no variable is cut off the environment, no argument cell is the place of one. */
  lemma {:induction false} ApartIsRight(F: Frame, s: State)
    requires Inv(F, s, -1) && F.Adst + |F.args| <= F.Eend
    ensures !GoalCollides(F, s)
  {
    var w := Watched(s);
    forall v: nat | v < |w.info| ensures Above(w.info[v], F.Eend) {
      assert w.info[v] == InfoOf(s, v) && VarOk(F, s, -1, v);
    }
  }

  /** When nothing is exposed, nothing has to be pushed. */
  lemma {:induction false} HiddenIsRight(F: Frame, s: State)
    requires Exposed(s.m) == {}
    ensures !GoalCollides(F, s)
  {
  }
}
