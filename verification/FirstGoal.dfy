/** What the compiled head leaves behind is what argument set-up for the first goal demands. */
module FirstGoal {
  import opened Wam
  import opened VarTable
  import G = GoalModel
  import H = HeadModel
  import D = GoalDanger

  /** The facts about one variable that `classify_vars` computes; `total` counts its
      occurrences up to the first goal. */
  predicate Classified(F: H.HeadFrame, i: VarInf, v: nat, total: nat, goalnumber: int)
    requires v < |F.total|
  {
    && F.total[v] <= total <= i.noccurences
    && (0 < total < i.noccurences ==> (i.pvnum != 0 || Var(v) in F.head) && i.lastocc != goalnumber)
    && (Var(v) in F.goal && total == i.noccurences ==> i.lastocc == goalnumber)
    && (i.noccurences == 1 ==> i.pvnum == 0)
  }

  predicate IsPerm(F: H.HeadFrame, vtbl: seq<VarInf>, x: int, v: nat) {
    v < |vtbl| && vtbl[v].pvnum != 0 && F.E - vtbl[v].pvnum == x
  }

  ghost predicate HasPerm(F: H.HeadFrame, vtbl: seq<VarInf>, x: int) {
    exists v: nat :: IsPerm(F, vtbl, x, v)
  }

  /** Every cell of the environment belongs to a permanent variable. */
  ghost predicate TableFits(F: H.HeadFrame, vtbl: seq<VarInf>, total: seq<nat>, goalnumber: int) {
    && |total| == |vtbl| == |F.total|
    && (forall v: nat | v < |vtbl| :: Classified(F, vtbl[v], v, total[v], goalnumber))
    && (forall x | F.Eend <= x < F.E :: HasPerm(F, vtbl, x))
  }

  /** The first goal is set up with the whole environment kept, and the two frames meet. */
  function GoalFrame(F: H.HeadFrame, total: seq<nat>, goalnumber: int): G.Frame {
    G.Frame(F.N, F.E, F.Eend, F.Adst, F.SPstart, F.Eend, goalnumber, 0, F.goal, total)
  }

  function GoalState(s: H.HeadState): G.State {
    G.State(s.model, s.vtbl, s.sp, s.m.w, s.env, {})
  }

  lemma VarReady(F: H.HeadFrame, s: H.HeadState, total: seq<nat>, goalnumber: int, v: nat)
    requires H.Inv(F, s, -1, |F.head|) && !s.m.failed && TableFits(F, s.vtbl, total, goalnumber) && v < |s.vtbl|
    requires H.Left(F, s, v) == 0 && G.Shape(GoalFrame(F, total, goalnumber), GoalState(s))
    ensures G.VarOk(GoalFrame(F, total, goalnumber), GoalState(s), -1, v)
  {
    assert H.VarOk(F, s, -1, v) && H.VarHeld(F, s, v) && Classified(F, s.vtbl[v], v, total[v], goalnumber);
    if F.SPstart <= s.vtbl[v].home < F.Adst { assert H.TargetOk(F, s, s.vtbl[v].home); }
    if Var(v) in F.head {
      var j: nat :| j < |F.head| && F.head[j] == Var(v);
      assert H.ArgOk(F, s, |F.head|, j);
    }
  }

  lemma CellReady(F: H.HeadFrame, s: H.HeadState, total: seq<nat>, goalnumber: int, x: int)
    requires H.Inv(F, s, -1, |F.head|) && !s.m.failed && TableFits(F, s.vtbl, total, goalnumber) && F.Adst <= x < F.E
    requires G.Shape(GoalFrame(F, total, goalnumber), GoalState(s))
    ensures G.CellOk(GoalFrame(F, total, goalnumber), GoalState(s), x)
  {
    if x < F.Eend {
      assert H.TargetOk(F, s, x);
    } else {
      assert HasPerm(F, s.vtbl, x);
      var v: nat :| IsPerm(F, s.vtbl, x, v);
      assert H.VarOk(F, s, -1, v);
    }
  }

  /** When the head has been compiled and has matched, the invariant of argument set-up holds
      for the first goal: what is demanded there on entry is what the head provides, and every
      temporary that is in the way of an argument is the argument it is in the way of. */
  lemma HeadReadiesFirstGoal(F: H.HeadFrame, s: H.HeadState, total: seq<nat>, goalnumber: int, functor: int)
    requires H.Inv(F, s, -1, |F.head|) && !s.m.failed && TableFits(F, s.vtbl, total, goalnumber)
    requires forall v: nat :: H.Left(F, s, v) == 0
    requires forall v: nat :: Tally(v, Struct(functor, F.goal)) == if v < |total| then total[v] - F.total[v] else 0
    ensures G.Inv(GoalFrame(F, total, goalnumber), GoalState(s), -1)
    ensures D.Settled(GoalFrame(F, total, goalnumber), GoalState(s))
    ensures forall v: nat :: G.Left(GoalFrame(F, total, goalnumber), GoalState(s), v) == Tally(v, Struct(functor, F.goal))
  {
    var F', s' := GoalFrame(F, total, goalnumber), GoalState(s);
    assert G.Shape(F', s');
    forall v: nat | v < |s.vtbl| ensures G.VarOk(F', s', -1, v) { VarReady(F, s, total, goalnumber, v); }
    forall x | F'.Base() <= x < F'.E ensures G.CellOk(F', s', x) { CellReady(F, s, total, goalnumber, x); }
    forall v: nat | v < |s'.vtbl| ensures D.SettledVar(F', s', v) {
      if F.Adst <= s.vtbl[v].home < F.Eend { assert H.TargetOk(F, s, s.vtbl[v].home); }
    }
    forall v: nat ensures G.Left(F', s', v) == Tally(v, Struct(functor, F.goal)) { assert H.Left(F, s, v) == 0; }
  }
}
