/** What argument set-up for one goal leaves behind, after the call and with the environment
    trimmed, is what argument set-up for the next goal demands. */
module NextGoal {
  import opened Wam
  import opened VarTable
  import opened GoalModel
  import opened GoalTargets
  import D = GoalDanger

  /** The environment of the next goal ends where the part kept over this one began; its
      argument block lies right below the part that is kept in turn. */
  predicate Trimmed(F: Frame, F': Frame) {
    && F'.N == F.N && F'.E == F.E && F'.Eend == F.Top && |F'.total| == |F.total|
    && F'.Top == F'.Adst + |F'.args| && F'.SPstart == F'.Base() - 2
  }

  /** The facts about one variable that `classify_vars` computes, for the next goal. */
  predicate Classified(F: Frame, F': Frame, i: VarInf, v: nat)
    requires v < |F.total| == |F'.total|
  {
    var total := F'.total[v];
    && F.total[v] <= total <= i.noccurences
    && (0 < total < i.noccurences ==>
          i.lastocc != F'.goalnumber && (i.pvnum != 0 ==> i.home >= F'.Top) && (i.usecnt == 0 ==> i.pvnum != 0))
    && (Var(v) in F'.args && total == i.noccurences ==> i.lastocc == F'.goalnumber)
    && (i.pvnum != 0 && i.usecnt == 0 ==> i.home >= F'.Top)
  }

  /** The model between two goals: the argument block below the environment is cleared and the
      targets are those of the next goal.  The callee leaves the environment and the head's
      arguments alone. */
  ghost predicate Between(F: Frame, s: State, F': Frame, s': State)
    requires |s.model| == |s'.model| && |s.vtbl| == |s'.vtbl|
  {
    && (forall x | 0 <= x < |s.model| :: s'.model[x] == if F'.Adst - 2 <= x < F'.Eend then Nil else s.model[x])
    && (forall v: nat | v < |s.vtbl| :: s'.vtbl[v] == TargetFor(F'.args, F'.Adst, v, s.vtbl[v].(target := 0)))
    && s'.sp == F'.SPstart && s'.placed == {} && s'.env == s.env
    && s'.m.e == F'.E && s'.m.sp == s'.sp - F'.gap && FreshIds(s'.m)
    && (forall a | a >= F.Top :: Get(s'.m.mem, a) == Get(s.m.mem, a))
  }

  ghost predicate Joins(F: Frame, s: State, F': Frame, s': State) {
    && Inv(F, s, -1) && (forall v: nat :: Left(F, s, v) == 0)
    && F'.Ok() && Trimmed(F, F') && |s.model| == |s'.model| && |s.vtbl| == |s'.vtbl| && Between(F, s, F', s')
    && forall v: nat | v < |s.vtbl| :: Classified(F, F', s.vtbl[v], v)
  }

  lemma JoinedShape(F: Frame, s: State, F': Frame, s': State)
    requires Joins(F, s, F', s')
    ensures Shape(F', s')
  {
  }

  /** Whoever is still at home is at home above the cut, as before. */
  lemma StillHome(F: Frame, s: State, F': Frame, s': State, v: nat)
    requires Joins(F, s, F', s') && v < |s.vtbl| && 0 <= Home(s, v) < F.N && F'.Base() <= Home(s, v)
    requires s'.model[Home(s, v)] == Vo(v)
    ensures F.Top <= Home(s, v) && s.model[Home(s, v)] == Vo(v) && Home(s, v) !in s.placed
    ensures Home(s, v) < F.E ==> s.vtbl[v].pvnum != 0
  {
    assert Home(s, v) in s.placed ==> PlacedOk(F, s, Home(s, v));
    if Home(s, v) < F.E { assert CellOk(F, s, Home(s, v)); }
  }

  lemma VarReady(F: Frame, s: State, F': Frame, s': State, v: nat)
    requires Joins(F, s, F', s') && Shape(F', s') && v < |s.vtbl|
    ensures VarOk(F', s', -1, v)
  {
    assert VarOk(F, s, -1, v) && Left(F, s, v) == 0 && Classified(F, F', s.vtbl[v], v);
    FirstCellIsFirst(F'.args, F'.Adst, v, 0);
    if Home(s, v) in s.placed { assert PlacedOk(F, s, Home(s, v)); }
    if F.Top <= Home(s, v) < F.E { assert CellOk(F, s, Home(s, v)); }
    if 0 <= Home(s, v) < F.N && F'.Base() <= Home(s, v) && s'.model[Home(s, v)] == Vo(v) { StillHome(F, s, F', s', v); }
  }

  lemma CellReady(F: Frame, s: State, F': Frame, s': State, x: int)
    requires Joins(F, s, F', s') && Shape(F', s') && F'.Base() <= x < F'.E
    ensures CellOk(F', s', x)
  {
    if F.Top <= x {
      assert CellOk(F, s, x);
      assert x in s.placed ==> PlacedOk(F, s, x);
    }
  }

  /** Occurrences of `v` in the next goal. */
  function Share(F: Frame, F': Frame, v: nat): int {
    if v < |F.total| && v < |F'.total| then F'.total[v] as int - F.total[v] as int else 0
  }

  /** Goal after goal, the invariant holds on entry, and no temporary is in the way. */
  lemma GoalReadiesNext(F: Frame, s: State, F': Frame, s': State, functor: int)
    requires Joins(F, s, F', s')
    requires forall v: nat :: Tally(v, Struct(functor, F'.args)) == Share(F, F', v)
    ensures Inv(F', s', -1) && D.Settled(F', s')
    ensures forall v: nat :: Left(F', s', v) == Tally(v, Struct(functor, F'.args))
  {
    JoinedShape(F, s, F', s');
    forall v: nat | v < |s.vtbl| ensures VarOk(F', s', -1, v) { VarReady(F, s, F', s', v); }
    forall x | F'.Base() <= x < F'.E ensures CellOk(F', s', x) { CellReady(F, s, F', s', x); }
    forall v: nat | v < |s'.vtbl| ensures D.SettledVar(F', s', v) {
      if 0 <= Home(s, v) < F.N && F'.Base() <= Home(s, v) < F'.Top && s'.model[Home(s, v)] == Vo(v) { StillHome(F, s, F', s', v); }
    }
    forall v: nat ensures Left(F', s', v) == Tally(v, Struct(functor, F'.args)) { assert Left(F, s, v) == 0; }
  }
}
