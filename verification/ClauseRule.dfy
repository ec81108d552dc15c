/** A whole clause but for its last goal: the head, then the goals of the body. */
module ClauseRule {
  import opened Wam
  import opened VarTable
  import opened HeadMachine
  import opened ClauseEntry
  import opened ClauseBody
  import H = HeadModel
  import G = GoalModel
  import D = GoalDanger
  import N = NextGoal
  import U = GoalUnsafe
  import HC = HeadCompiler
  import HS = HeadStart
  import HT = HeadTheorem
  import HL = HeadLogic
  import HF = HeadFill
  import FG = FirstGoal

  function PlacedVar(i: VarInf, E: int): VarInf {
    if i.pvnum != 0 then i.(home := E - i.pvnum) else i
  }

  /** The table when permanent variables have been given their places. */
  function Placed(vtbl: seq<VarInf>, E: int): (r: seq<VarInf>)
    ensures |r| == |vtbl|
  {
    seq(|vtbl|, v requires 0 <= v < |vtbl| => PlacedVar(vtbl[v], E))
  }

  /** What is known of a clause before it is compiled. */
  ghost predicate RuleOk(F: H.HeadFrame, vtbl: seq<VarInf>, b: Body, stack: int, call: Callee) {
    && BodyOk(b, Placed(vtbl, F.E), stack, call)
    && b.N == F.N && b.E == F.E && b.Eend(0) == b.Eend(1) == F.Eend && b.Adst(0) == F.Adst && b.gaps[0] == 0
    && b.goals[0].args == F.goal && FG.TableFits(F, vtbl, b.totals[0], b.firstgoalnumber)
    && AllAim(F.goal, F.Adst, vtbl)
    && (forall v: nat :: FirstShare(F, b, v))
    && (forall v: nat | v < |vtbl| && vtbl[v].firstocc > b.firstgoalnumber :: F.total[v] == 0)
    && F.SPstart - H.RestTally(-1, F.head, 0) - G.PermCount(vtbl) >= Size(b.goals[0])
  }

  predicate FirstShare(F: H.HeadFrame, b: Body, v: nat)
    requires b.Shaped()
  {
    Tally(v, b.goals[0]) == if v < |b.totals[0]| && v < |F.total| then b.totals[0][v] as int - F.total[v] as int else 0
  }

  /** A machine on which the head has matched, for a head that has been compiled: the one that
      has run the code, or one that might have if that has failed. */
  function Matched(F: H.HeadFrame, s: H.HeadState, start: Head): H.HeadState {
    if !s.m.failed then s
    else
      var mem := map a | a in start.w.mem && H.ArgCell(F, 0) <= a < F.N :: start.w.mem[a];
      s.(m := Head(Machine(F.E, s.sp, mem, [], start.w.next, {}, F.spb, {}, false, false, 0), map[], Write, false),
         env := map v: nat | v < |s.vtbl| && s.vtbl[v].usecnt > 0 :: Get(mem, s.vtbl[v].home))
  }

  lemma MatchedInv(F: H.HeadFrame, nm: Names, s: H.HeadState, start: Head)
    requires H.Inv(F, s, -1, |F.head|) && HS.StartOk(F, nm, start)
    ensures H.Inv(F, Matched(F, s, start), -1, |F.head|) && !Matched(F, s, start).m.failed
    ensures !s.m.failed ==> s.m.w.spb == F.spb
  {
    var s' := Matched(F, s, start);
    if s.m.failed {
      forall v: nat | v < |s'.vtbl| ensures H.VarOk(F, s', -1, v) && H.VarHeld(F, s', v) {
        assert H.VarOk(F, s, -1, v);
      }
      forall x | F.SPstart <= x < F.Eend ensures H.TargetOk(F, s', x) { assert H.TargetOk(F, s, x); }
      forall j: nat | j < |F.head| ensures H.ArgOk(F, s', |F.head|, j) { assert H.ArgOk(F, s, |F.head|, j); }
      forall j: nat | j < |F.cells| ensures H.ArgHeld(F, s', j) { assert HS.CellGiven(F, start, j); }
    }
  }

  /** The values of the head's variables are cells the machine has handed out. */
  lemma MatchedOlder(F: H.HeadFrame, nm: Names, s: H.HeadState, start: Head, l: HL.Logic)
    requires H.Inv(F, s, -1, |F.head|) && HS.StartOk(F, nm, start) && HT.Ended(F, nm, start, s.m, l) && l.env == s.env
    ensures var s' := Matched(F, s, start); U.Older(s'.env, s'.m.w.next)
  {
    var s' := Matched(F, s, start);
    if s.m.failed {
      forall v | v in s'.env && s'.env[v].CVar? ensures s'.env[v].id < s'.m.w.next {
        assert HS.CellGiven(F, start, s.vtbl[v].home - H.ArgCell(F, 0));
      }
    } else {
      HF.SameOk(nm, HS.StartLogic(F, start), l);
    }
  }

  // ---- from the head to the body ----

  /** What a body needs to know of a variable is the same. */
  predicate SameForBody(i: VarInf, i': VarInf) {
    && i'.noccurences == i.noccurences && i'.lastocc == i.lastocc && i'.pvnum == i.pvnum && i.usecnt <= i'.usecnt
    && (i.pvnum != 0 ==> i'.home == i.home)
  }

  lemma BodyOkStays(b: Body, t: seq<VarInf>, t': seq<VarInf>, stack: int, call: Callee)
    requires BodyOk(b, t, stack, call) && |t'| == |t| && forall v: nat | v < |t| :: SameForBody(t[v], t'[v])
    ensures BodyOk(b, t', stack, call)
  {
    hide GoalOk, N.Classified, Behaves, SharesAt, Size;
    forall v: nat | v < |t'| ensures Housed(t'[v]) { assert Housed(t[v]) && SameForBody(t[v], t'[v]); }
    forall v: nat | v < |t| ensures t'[v].pvnum != 0 ==> t[v].pvnum != 0 { assert SameForBody(t[v], t'[v]); }
    FewerPermanent(t, t');
    forall k: nat | k + 1 < |b.goals| ensures GoalFollows(b, t', k) {
      assert GoalFollows(b, t, k);
      forall v: nat | v < |t'| ensures ClassifiedAt(b, t', k, v) {
        assert ClassifiedAt(b, t, k, v) && SameForBody(t[v], t'[v]);
        ClassifiedSame(b.F(k), b.F(k + 1), t[v].(usecnt := b.totals[k][v]), t'[v].(usecnt := b.totals[k][v]), v);
      }
    }
  }

  lemma ClassifiedSame(F: G.Frame, F': G.Frame, i: VarInf, i': VarInf, v: nat)
    requires v < |F.total| == |F'.total| && N.Classified(F, F', i, v) && SameForBody(i, i') && i'.usecnt == i.usecnt
    ensures N.Classified(F, F', i', v)
  {
  }

  /** The compiled head leaves what the body needs to know. */
  lemma BodyAfterHead(F: H.HeadFrame, vtbl0: seq<VarInf>, s: H.HeadState, b: Body, stack: int, call: Callee)
    requires BodyOk(b, Placed(vtbl0, F.E), stack, call) && HS.TableOk(F, vtbl0) && H.SameFacts(vtbl0, s.vtbl)
    requires H.Inv(F, s, -1, |F.head|)
    ensures BodyOk(b, s.vtbl, stack, call)
  {
    hide BodyOk;
    var t := Placed(vtbl0, F.E);
    forall v: nat | v < |t| ensures SameForBody(t[v], s.vtbl[v]) {
      assert H.SameFact(vtbl0[v], s.vtbl[v]) && H.VarOk(F, s, -1, v) && HS.Classified(F, vtbl0[v], v);
    }
    BodyOkStays(b, t, s.vtbl, stack, call);
  }

  lemma FitsAfterHead(F: H.HeadFrame, vtbl0: seq<VarInf>, vtbl: seq<VarInf>, total: seq<nat>, goalnumber: int)
    requires FG.TableFits(F, vtbl0, total, goalnumber) && H.SameFacts(vtbl0, vtbl)
    ensures FG.TableFits(F, vtbl, total, goalnumber) && |total| == |F.total| == |vtbl| == |vtbl0|
    ensures G.PermCount(vtbl) <= G.PermCount(vtbl0)
  {
    forall v: nat | v < |vtbl0| ensures vtbl[v].pvnum != 0 ==> vtbl0[v].pvnum != 0 {
      assert H.SameFact(vtbl0[v], vtbl[v]);
    }
    FewerPermanent(vtbl0, vtbl);
    forall v: nat | v < |vtbl| ensures FG.Classified(F, vtbl[v], v, total[v], goalnumber) {
      assert FG.Classified(F, vtbl0[v], v, total[v], goalnumber) && H.SameFact(vtbl0[v], vtbl[v]);
    }
    forall x | F.Eend <= x < F.E ensures FG.HasPerm(F, vtbl, x) {
      assert FG.HasPerm(F, vtbl0, x);
      var v: nat :| FG.IsPerm(F, vtbl0, x, v);
      assert H.SameFact(vtbl0[v], vtbl[v]) && FG.IsPerm(F, vtbl, x, v);
    }
  }

  /** What the head has made of the record of `v`: its occurrences are counted, and it need not be
      made safe any more if it is no argument of the head. */
  predicate HeadLeaves(F: H.HeadFrame, was: VarInf, now: VarInf, v: nat)
    requires v < |F.total|
  {
    && now == was.(home := now.home, usecnt := F.total[v], unsafe := now.unsafe)
    && (F.total[v] < was.noccurences ==> (now.unsafe <==> F.total[v] == 0 || Var(v) in F.head))
  }

  ghost predicate AllLeft(F: H.HeadFrame, vtbl0: seq<VarInf>, vtbl: seq<VarInf>) {
    |vtbl| == |vtbl0| == |F.total| && forall v: nat | v < |vtbl0| :: HeadLeaves(F, vtbl0[v], vtbl[v], v)
  }

  lemma HeadHasLeft(F: H.HeadFrame, vtbl0: seq<VarInf>, s: H.HeadState)
    requires H.Inv(F, s, -1, |F.head|) && H.SameFacts(vtbl0, s.vtbl) && forall v: nat :: H.Left(F, s, v) == 0
    ensures AllLeft(F, vtbl0, s.vtbl)
  {
    forall v: nat | v < |vtbl0| ensures HeadLeaves(F, vtbl0[v], s.vtbl[v], v) {
      assert H.SameFact(vtbl0[v], s.vtbl[v]) && H.VarOk(F, s, -1, v) && H.Left(F, s, v) == 0;
    }
  }

  lemma ToldAtFirst(F: H.HeadFrame, vtbl0: seq<VarInf>, vtbl: seq<VarInf>, b: Body)
    requires AllLeft(F, vtbl0, vtbl) && AllAim(F.goal, F.Adst, vtbl0) && b.Shaped()
    ensures AllTold(b, vtbl, 0, vtbl) && AllAim(F.goal, F.Adst, vtbl)
  {
    forall v: nat | v < |vtbl| ensures Told(b, vtbl, 0, v, vtbl[v]) { assert HeadLeaves(F, vtbl0[v], vtbl[v], v); }
    forall v: nat | v < |vtbl| ensures Aims(F.goal, F.Adst, v, vtbl[v]) {
      assert HeadLeaves(F, vtbl0[v], vtbl[v], v) && Aims(F.goal, F.Adst, v, vtbl0[v]);
    }
  }

  lemma FrameFits(F: H.HeadFrame, vtbl0: seq<VarInf>, b: Body, stack: int, call: Callee)
    requires RuleOk(F, vtbl0, b, stack, call) && F.Ok()
    ensures b.Shaped() && b.F(0) == FG.GoalFrame(F, b.totals[0], b.firstgoalnumber)
    ensures AllAim(F.goal, F.Adst, vtbl0) && b.Adst(0) == F.Adst && b.goals[0].args == F.goal
    ensures b.goals[0] == Struct(b.goals[0].functor, F.goal) && BodyOk(b, Placed(vtbl0, F.E), stack, call)
  {
  }

  lemma NotYetUsed(F: H.HeadFrame, vtbl0: seq<VarInf>, s: H.HeadState, goalnumber: int)
    requires H.SameFacts(vtbl0, s.vtbl) && |vtbl0| == |F.total| && (forall v: nat :: H.Left(F, s, v) == 0)
    requires forall v: nat | v < |vtbl0| && vtbl0[v].firstocc > goalnumber :: F.total[v] == 0
    ensures forall v: nat | v < |s.vtbl| && s.vtbl[v].firstocc > goalnumber :: s.vtbl[v].usecnt == 0
  {
    forall v: nat | v < |s.vtbl| && s.vtbl[v].firstocc > goalnumber ensures s.vtbl[v].usecnt == 0 {
      assert H.SameFact(vtbl0[v], s.vtbl[v]) && H.Left(F, s, v) == 0;
    }
  }

  /** What the body starts from once the head has been compiled. */
  lemma FirstGoalReady(F: H.HeadFrame, vtbl0: seq<VarInf>, s: H.HeadState, b: Body, stack: int, call: Callee)
    requires RuleOk(F, vtbl0, b, stack, call) && H.SameFacts(vtbl0, s.vtbl) && b.Shaped()
    requires H.Inv(F, s, -1, |F.head|) && !s.m.failed && (forall v: nat :: H.Left(F, s, v) == 0)
    requires s.sp >= F.SPstart - H.RestTally(-1, F.head, 0)
    ensures G.Inv(b.F(0), FG.GoalState(s), -1) && D.Settled(b.F(0), FG.GoalState(s)) && !s.m.w.open && !s.m.w.spilled
    ensures forall v: nat :: G.Left(b.F(0), FG.GoalState(s), v) == Tally(v, b.goals[0])
    ensures G.Room(FG.GoalState(s)) >= Size(b.goals[0])
    ensures AllTold(b, s.vtbl, 0, s.vtbl) && AllAim(b.goals[0].args, b.Adst(0), s.vtbl) && AllLeft(F, vtbl0, s.vtbl)
    ensures forall v: nat | v < |s.vtbl| && s.vtbl[v].firstocc > b.firstgoalnumber :: s.vtbl[v].usecnt == 0
  {
    hide BodyOk, FG.TableFits, H.VarOk, H.SameFacts, H.VarHeld, H.Left, H.RestTally, AllTold, AllAim, AllLeft;
    FrameFits(F, vtbl0, b, stack, call);
    HeadHasLeft(F, vtbl0, s);
    ToldAtFirst(F, vtbl0, s.vtbl, b);
    FitsAfterHead(F, vtbl0, s.vtbl, b.totals[0], b.firstgoalnumber);
    forall v: nat
      ensures Tally(v, b.goals[0]) == if v < |b.totals[0]| then b.totals[0][v] as int - F.total[v] as int else 0
    {
      assert FirstShare(F, b, v);
    }
    NotYetUsed(F, vtbl0, s, b.firstgoalnumber);
    FG.HeadReadiesFirstGoal(F, s, b.totals[0], b.firstgoalnumber, b.goals[0].functor);
  }

  /** Compiles the head and the goals of the body but the last.  The code of the head unifies
      the arguments with it.  Where that succeeds, the cells that the head's variables stand for
      are what the goals find under these variables: one binding of all variables of the clause,
      under which at every call the arguments are right, exactly if the goal does not collide. */
  method CompRule(hc: HC.Compiler, plan: Plan, ghost b: Body, ghost call: Callee) returns (bc: Compiler)
    requires HS.TableOk(hc.F(), hc.vtbl[..]) && hc.F().Ok() && HS.StartOk(hc.F(), hc.names, hc.m)
    requires H.KnownVars(hc.model[..], hc.vtbl.Length) && hc.modelAdst >= 2
    requires hc.m == hc.start && hc.code == [] && hc.l == HS.StartLogic(hc.F(), hc.m)
    requires HL.Injective(hc.names) && IsUnifier(hc.names, hc.unify)
    requires hc.modelSPstart >= H.RestTally(-1, hc.head, 0) + 1
    requires hc.toDoTop + H.RestTally(-1, hc.head, 0) <= hc.toDo.Length
    requires RuleOk(hc.F(), hc.vtbl[..], b, hc.toDo.Length, call) && b.plan == plan
    modifies hc, hc.vtbl, hc.model, hc.toDo
    ensures hc.m == HeadRun(hc.names, hc.unify, hc.start, hc.code)
    ensures HT.Sound(hc.names, hc.start, hc.m, hc.l.env, hc.head, hc.cells)
    ensures HT.Complete(hc.names, hc.start, hc.m, hc.l.env, hc.head, hc.cells)
    ensures HT.Decides(hc.F(), hc.names, hc.start, hc.m)
    ensures fresh(bc) && bc.b == b && bc.call == call && AllLeft(hc.F(), old(hc.vtbl[..]), bc.table)
    ensures |bc.code| == |bc.entries| == |bc.calls| == |b.goals|
    ensures !hc.m.failed ==>
              && (forall k: nat | k < |b.goals| ::
                    bc.GoalDone(k, Run(hc.m.w, bc.prelude), bc.entries, bc.code, bc.calls, bc.env))
              && (forall k: nat | k < |b.goals| ::
                    AllRight(b.F(k), bc.calls[k], bc.env) <==>
                      !BodyCollides(b, bc.table, k, bc.env, Exposed(bc.entries[k].m)))
              && (forall k: nat | k < |b.goals| && (b.Eend(k) == b.Eend(k + 1) || Exposed(bc.entries[k].m) == {}) ::
                    AllRight(b.F(k), bc.calls[k], bc.env))
              && G.FreshBindings(hc.l.env, hc.m.w.next, bc.env, bc.m.next) && hc.m.w.spb == hc.F().spb
  {
    hide BodyOk, RuleOk, H.SameFacts, H.Inv, H.Left, H.RestTally, HS.TableOk, HS.StartOk, IsUnifier, HL.Injective,
         HT.Sound, HT.Complete, HT.Decides, HT.Ended, G.Inv, D.Settled, G.Left, G.Room, Tally, AllSince, BodyCollides, AllRight,
         HS.StartLogic, Matched, HeadRun, G.FreshBindings, AllTold, AllAim, AllLeft, U.Older;
    ghost var F, vtbl0 := hc.F(), hc.vtbl[..];
    FrameFits(F, vtbl0, b, hc.toDo.Length, call);
    hc.CompileHead();
    ghost var s := Matched(F, hc.S(), hc.start);
    MatchedInv(F, hc.names, hc.S(), hc.start);
    MatchedSame(F, hc.S(), hc.start);
    MatchedOlder(F, hc.names, hc.S(), hc.start, hc.l);
    BodyAfterHead(F, vtbl0, hc.S(), b, hc.toDo.Length, call);
    FirstGoalReady(F, vtbl0, s, b, hc.toDo.Length, call);
    bc := new Compiler(hc.model, hc.vtbl, hc.toDo, plan, hc.modelSP, b, call, s.m.w, s.env);
    assert bc.S() == FG.GoalState(s);
    SinceRefl(bc.table);
    bc.CompBody();
  }

  lemma MatchedSame(F: H.HeadFrame, s: H.HeadState, start: Head)
    ensures var s' := Matched(F, s, start); s'.model == s.model && s'.vtbl == s.vtbl && s'.sp == s.sp
    ensures !s.m.failed ==> Matched(F, s, start) == s
    ensures forall v: nat :: H.Left(F, Matched(F, s, start), v) == H.Left(F, s, v)
  {
  }

  lemma SinceRefl(table: seq<VarInf>)
    ensures AllSince(table, table)
  {
  }
}
