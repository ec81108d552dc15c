/** The clause  h :- g(Y), s(f(X), Y, X), z.  compiled as a whole: what is demanded of a clause
    can be met; g is called with its argument right; and s is called with f(X) right exactly
    when g has bound Y or has protected it by a choice point. */
module ClauseExample {
  import opened Wam
  import opened VarTable
  import opened HeadMachine
  import opened VarProc
  import opened ClauseEntry
  import opened ClauseBody
  import opened ClauseTest
  import opened ClauseCompile
  import D = GoalDanger
  import E = GoalExample
  import G = GoalModel
  import H = HeadModel
  import HC = HeadCompiler
  import HL = HeadLogic
  import HT = HeadTheorem
  import HU = HeadUnify
  import P = GoalSpill
  import T = GoalTargets
  import U = GoalUnsafe
  import X = HeadExample

  const G_TOKEN := 72
  const H_TOKEN := 73
  const Z_TOKEN := 74

  function FirstGoal(): Term { Struct(G_TOKEN, [Var(0)]) }

  function TheRule(): Rule {
    Rule(Struct(H_TOKEN, []), [FirstGoal(), E.Goal(), Struct(Z_TOKEN, [])])
  }

  function Before(): Head {
    Head(Machine(38, 20, map[], [], 0, {}, 40, {}, false, false, 0), map[], Write, false)
  }

  /** A goal that succeeds and does nothing. */
  function Succeed(k: nat, m: Machine): Machine {
    m.(locals := (set id | id in m.locals && id < m.next), open := false, spilled := false)
  }

  /** A goal that binds its first argument, if that is a variable, and does nothing else. */
  function Bind(k: nat, m: Machine): Machine {
    var c := Get(m.mem, m.sp + 2);
    Succeed(k, m.(locals := Globalized(m, c)))
  }

  /** No choice point is left behind. */
  function NoGap(k: nat, before: nat, kept: nat): int { 0 }

  lemma FirstTally(w: int)
    ensures Tally(w, FirstGoal()) == if w == 0 then 1 else if w < 0 then 2 else 0
  {
    var t := FirstGoal();
    assert Kids(t) == [Var(0)];
    assert BuiltTally(w, t, 1) == BuiltTally(w, t, 0) == 0;
    assert LeafTally(w, Kids(t), 1) == 0;
    assert LeafTally(w, Kids(t), 0) == Unit(w, Var(0));
  }

  lemma NoArgsTally(w: int, token: int)
    ensures Tally(w, Struct(token, [])) == if w < 0 then 1 else 0
  {
    assert Kids(Struct(token, [])) == [];
  }

  lemma VariablesKnown()
    ensures TheRule().AllKnown(2)
  {
    var r := TheRule();
    hide Tally;
    forall k: nat | k <= 3 ensures r.PartKnown(2, k) {
      forall v: nat | v >= 2 ensures Tally(v, r.Part(k)) == 0 {
        NoArgsTally(v, H_TOKEN);
        FirstTally(v);
        E.GoalTally(v);
        NoArgsTally(v, Z_TOKEN);
      }
    }
  }

  lemma HasRoom()
    ensures Spacious(TheRule(), 40, 2, 16)
  {
    var r := TheRule();
    hide Tally;
    FirstTally(-1);
    E.GoalSize();
    assert H.RestTally(-1, r.head.args, 0) == 0;
    forall k: nat | k < 2 ensures SpaceFor(r, 40, 2, 16, k) { assert k == 0 || k == 1; }
  }

  lemma IsCalled()
    ensures Called(TheRule(), 40, [], Before())
  {
    forall c ensures Ends(Before().bind, c) { }
  }

  lemma NoArguments(nm: Names, m: Head, n: nat)
    requires m.w.next == 0 && m.bind == map[] && !m.failed
    ensures HT.GroundArgs(nm, m, [], []) && Solves(nm, m, map[])
    ensures exists sigma :: |sigma| == n && HT.IsInstance(nm, [], sigma, [])
  {
    var sigma := seq(n, _ => VInt(0));
    assert |sigma| == n && HT.IsInstance(nm, [], sigma, []);
  }

  lemma HeadMatches(F: H.HeadFrame, nm: Names, start: Head, m: Head)
    requires HT.Decides(F, nm, start, m) && F.head == [] && F.cells == []
    requires start.w.next == 0 && start.bind == map[] && !start.failed
    ensures !m.failed
  {
    hide HT.GroundArgs, Solves, HT.IsInstance;
    NoArguments(nm, start, |F.total|);
  }

  // ---- what is found out about the clause ----

  lemma Occurs(v: nat)
    requires v < 2
    ensures var r := TheRule();
            && r.Upto(v, 0) == 0 && r.Upto(v, 1) == (if v == 0 then 1 else 0) && r.Upto(v, 2) == r.Upto(v, 3) == 2
  {
    hide Tally;
    var r := TheRule();
    NoArgsTally(v, H_TOKEN);
    FirstTally(v);
    E.GoalTally(v);
    NoArgsTally(v, Z_TOKEN);
    assert r.Upto(v, 1) == r.In(v, 1) + r.Upto(v, 0) && r.Upto(v, 2) == r.In(v, 2) + r.Upto(v, 1);
    assert r.Upto(v, 3) == r.In(v, 3) + r.Upto(v, 2);
  }

  lemma Spans(vt: seq<VarInf>, p: seq<nat>, v: nat)
    requires |vt| == 2 && Found(TheRule(), vt, p) && v < 2
    ensures vt[v].firstocc == v + 1 && vt[v].lastocc == vt[v].noccurences == 2
    ensures vt[v].pvnum != 0 <==> v == 0
    ensures vt[v].pvnum <= |p|
  {
    hide Lists, Ordered, Numbered, Facts;
    var r := TheRule();
    Occurs(v);
    assert FoundAt(r, vt[v], v);
    SpanAt(r, vt[v], v, 0);
    SpanAt(r, vt[v], v, 1);
    SpanAt(r, vt[v], v, 2);
    PermNumbered(r, vt, p, v);
    NotTopLevel(r, vt, p, v);
  }

  lemma NotTopLevel(r: Rule, vt: seq<VarInf>, p: seq<nat>, v: nat)
    requires r.head.Struct? && r.head.args == [] && Found(r, vt, p) && v < |vt|
    ensures !vt[v].istoplevinhead
  {
    assert FoundAt(r, vt[v], v);
  }

  lemma AtMostOne(p: seq<nat>)
    requires forall k | 0 <= k < |p| :: p[k] == 0
    ensures Distinct(p) ==> |p| <= 1
  {
    assert |p| > 1 ==> p[0] == p[1];
  }

  /** Y is the only permanent variable. */
  lemma OnlyY(vt: seq<VarInf>, p: seq<nat>)
    requires |vt| == 2 && Found(TheRule(), vt, p)
    ensures |p| == 1 && vt[0].pvnum == 1
  {
    hide FoundAt, Ordered, Numbered, TheRule;
    Spans(vt, p, 0);
    Spans(vt, p, 1);
    ListedOnce(p, vt, 1);
    forall k | 0 <= k < |p| ensures p[k] == 0 { assert IsListed(p, vt, 1, k); }
    AtMostOne(p);
  }

  lemma KeptOver(vt: seq<VarInf>, p: seq<nat>, sizes: seq<nat>)
    requires Prepared(TheRule(), vt, p, sizes) && |vt| == 2
    ensures sizes[1] == 1 && sizes[2] == 0 && |p| == 1
  {
    hide Found;
    Spans(vt, p, 0);
    Spans(vt, p, 1);
    OnlyY(vt, p);
    assert CountKept(vt, 1, 1) == 1 && CountKept(vt, 1, 2) == 0;
  }

  /** Where s is set up: its arguments begin at 35, and the place of Y is its last argument cell. */
  lemma Places(vt: seq<VarInf>, p: seq<nat>, sizes: seq<nat>)
    requires Prepared(TheRule(), vt, p, sizes) && |vt| == 2
    ensures var b := BodyOf(TheRule(), 40, 2, |p|, sizes, NoGap); b.E == 38 && b.Adst(1) == 35 && |b.goals| == 2
  {
    hide Found, BodyOf;
    KeptOver(vt, p, sizes);
    PlaceOf(TheRule(), 2, |p|, sizes, 40, NoGap, 1);
  }

  /** What is watched when s is entered. */
  lemma SecondWatch(vt: seq<VarInf>, p: seq<nat>, env: Env, exposed: set<nat>)
    requires |vt| == 2 && Found(TheRule(), vt, p) && 0 in env
    ensures ClauseWatch(TheRule(), vt, 38, 35, 1, env, exposed) == E.Entry(35, env[0], exposed)
  {
    hide Found, Tally;
    var r, args := TheRule(), E.Goal().args;
    Spans(vt, p, 0);
    Spans(vt, p, 1);
    OnlyY(vt, p);
    Occurs(0);
    Occurs(1);
    assert T.FirstCell(args, 35, 0, 0) == T.FirstCell(args, 35, 0, 1) == 36;
    assert T.FirstCell(args, 35, 1, 0) == T.FirstCell(args, 35, 1, 1) == T.FirstCell(args, 35, 1, 2) == 37;
    NotBuilt(r);
    assert WatchedOf(r, vt[0], 38, 35, 1, env, 0) == D.Info(37, true, 1, 2, 36, 1, env[0]);
    assert WatchedOf(r, vt[1], 38, 35, 1, env, 1) == D.Info(-1, false, 0, 2, 37, 2, Junk);
  }

  lemma NotBuilt(r: Rule)
    requires r == TheRule()
    ensures r.Part(1) == FirstGoal() && BuiltTally(0, FirstGoal(), |Kids(FirstGoal())|) == 0
  {
    assert Kids(FirstGoal()) == [Var(0)];
    assert BuiltTally(0, FirstGoal(), 1) == BuiltTally(0, FirstGoal(), 0) == 0;
  }

  // ---- the clause compiled and run ----

  /** The only argument of s that can be wrong is f(X). */
  lemma WrongIsFirst(F: G.Frame, m: Machine, env: Env, entry: G.State, code: seq<Instr>)
    requires F.args == E.Goal().args && Outcome(F, entry, code, m, env) && !AllRight(F, m, env)
    ensures ArgWrong(F, m, env, 0)
  {
    hide Denotes, Refutes, Run, P.GoalCollides;
    assert P.GoalCollides(F, entry);
    var j: nat :| j < |F.args| && ArgWrong(F, m, env, j);
    if j != 0 {
      assert F.args[j].Var? && ArgRight(F, m, env, j);
      NotBoth(m.heap, Get(m.mem, m.sp + 2 + j), F.args[j], env);
    }
  }

  /** The clause is compiled and its head matches.  g is called with Y, a variable that is exposed.
      When g has come back and s is called, f(X) is wrong if Y is still exposed; otherwise all
      arguments are right. */
  method GThenS(ghost call: Callee) returns (hc: HC.Compiler, bc: Compiler, ghost y: nat)
    requires AllBehave(TheRule(), call)
    ensures fresh(hc) && fresh(bc) && hc.start == Allocated(Before(), hc.start.w.sp) && !hc.m.failed && bc.call == call
    ensures bc.b.Shaped() && bc.b.goals == [FirstGoal(), E.Goal()] && |bc.calls| == |bc.entries| == |bc.code| == 2
    ensures AllRight(bc.b.F(0), bc.calls[0], bc.env) && Get(bc.calls[0].mem, bc.calls[0].sp + 2) == CVar(y)
    ensures y in Exposed(bc.calls[0]) && FreshIds(bc.calls[0])
    ensures if y in Exposed(call(0, bc.calls[0])) then ArgWrong(bc.b.F(1), bc.calls[1], bc.env, 0)
            else AllRight(bc.b.F(1), bc.calls[1], bc.env)
  {
    hide IsUnifier, HL.Injective, HT.Sound, HT.Complete, HT.GroundArgs, Solves, HT.IsInstance, AllRight, P.GoalCollides,
         Called, Spacious, Found, BodyOf, AllBehave, Prepared, Foretold, HeadRun, G.FreshBindings, HT.Decides, ArgWrong;
    X.LettersDiffer();
    HU.UnifierExists(X.Letters);
    VariablesKnown();
    HasRoom();
    IsCalled();
    forall k: nat, before: nat, kept: nat ensures GapAt(NoGap, k, before, kept) { }
    ghost var unify: Unifier :| IsUnifier(X.Letters, unify);
    ghost var vt, p, sizes;
    hc, bc, vt, p, sizes := CompileClause(TheRule(), 2, 40, 16, NoGap, [], X.Letters, unify, Before(), call);
    HeadMatches(hc.F(), X.Letters, hc.start, hc.m);
    assert bc.b.goals == [FirstGoal(), E.Goal()];
    y := BothGoals(hc, bc, vt, p, sizes);
  }

  lemma BothGoals(hc: HC.Compiler, bc: Compiler, vt: seq<VarInf>, p: seq<nat>, sizes: seq<nat>) returns (y: nat)
    requires Prepared(TheRule(), vt, p, sizes) && |vt| == 2 && bc.b == BodyOf(TheRule(), 40, 2, |p|, sizes, NoGap)
    requires bc.b.goals == [FirstGoal(), E.Goal()] && |bc.code| == |bc.entries| == |bc.calls| == 2
    requires !hc.m.failed && hc.m.w.spb == 40
    requires forall k: nat | k < 2 :: bc.GoalDone(k, Run(hc.m.w, bc.prelude), bc.entries, bc.code, bc.calls, bc.env)
    requires forall k: nat | k < 2 :: Foretold(TheRule(), vt, bc.b, k, bc.entries[k], bc.calls[k], bc.env)
    ensures AllRight(bc.b.F(0), bc.calls[0], bc.env) && Get(bc.calls[0].mem, bc.calls[0].sp + 2) == CVar(y)
    ensures y in Exposed(bc.calls[0]) && FreshIds(bc.calls[0])
    ensures if y in Exposed(bc.call(0, bc.calls[0])) then ArgWrong(bc.b.F(1), bc.calls[1], bc.env, 0)
            else AllRight(bc.b.F(1), bc.calls[1], bc.env)
  {
    hide Found, BodyOf, Prepared, ClauseWatch, Outcome, P.Collision, Run, ExposedNew, AllRight;
    assert Found(TheRule(), vt, p) by { FoundOf(vt, p, sizes); }
    Places(vt, p, sizes);
    assert Foretold(TheRule(), vt, bc.b, 0, bc.entries[0], bc.calls[0], bc.env);
    assert Foretold(TheRule(), vt, bc.b, 1, bc.entries[1], bc.calls[1], bc.env);
    assert bc.GoalDone(0, Run(hc.m.w, bc.prelude), bc.entries, bc.code, bc.calls, bc.env);
    assert bc.GoalDone(1, Run(hc.m.w, bc.prelude), bc.entries, bc.code, bc.calls, bc.env);
    y := YIsExposed(vt, p, bc.b, hc.m.w, bc.prelude, bc.code[0], bc.entries[0], bc.calls[0], bc.env);
    SecondWatch(vt, p, bc.env, Exposed(bc.entries[1].m));
    E.CollidesIfExposed(35, CVar(y), Exposed(bc.entries[1].m));
    if !AllRight(bc.b.F(1), bc.calls[1], bc.env) {
      WrongIsFirst(bc.b.F(1), bc.calls[1], bc.env, bc.entries[1], bc.code[1]);
    }
  }

  lemma FoundOf(vt: seq<VarInf>, p: seq<nat>, sizes: seq<nat>)
    requires Prepared(TheRule(), vt, p, sizes)
    ensures Found(TheRule(), vt, p)
  {
  }

  /** Y is first met as an argument of g, and no choice point protects its place. */
  lemma YIsExposed(vt: seq<VarInf>, p: seq<nat>, b: Body, w: Machine, prelude: seq<Instr>, code: seq<Instr>, entry: G.State,
                   m: Machine, env: Env) returns (y: nat)
    requires Found(TheRule(), vt, p) && |vt| == 2 && b.Shaped() && b.E == 38 && b.goals[0] == FirstGoal() && w.spb == 40
    requires entry.m == Run(w, prelude) && Outcome(b.F(0), entry, code, m, env) && AllRight(b.F(0), m, env)
    requires ExposedNew(TheRule(), vt[0], 38, 0, 0, env, m)
    ensures 0 in env && env[0] == CVar(y) && Get(m.mem, m.sp + 2) == CVar(y) && y in Exposed(m)
  {
    hide Found, Run, Refutes, P.GoalCollides;
    Spans(vt, p, 0);
    OnlyY(vt, p);
    NotBuilt(TheRule());
    assert MetAsArgument(TheRule(), vt[0], 0, 0);
    U.RunKeepsChoice(w, prelude);
    U.RunKeepsChoice(entry.m, code);
    assert ArgRight(b.F(0), m, env, 0);
    y := env[0].id;
  }

  /** When g leaves Y unbound, f(X) comes out wrong. */
  method UnboundGoesWrong() returns (bc: Compiler)
    ensures fresh(bc) && bc.call == Succeed && bc.b.Shaped() && bc.b.goals == [FirstGoal(), E.Goal()] && |bc.calls| == 2
    ensures Refutes(bc.calls[1].heap, Get(bc.calls[1].mem, bc.calls[1].sp + 2), E.FOfX(), bc.env)
  {
    forall k: nat, m | k < 3 ensures LeavesAlone(TheRule().goals[k], m, Succeed(k, m)) { }
    var hc; ghost var y;
    hc, bc, y := GThenS(Succeed);
  }

  /** When g binds Y, all arguments of s are right. */
  method BoundIsRight() returns (bc: Compiler)
    ensures fresh(bc) && bc.call == Bind && bc.b.Shaped() && bc.b.goals == [FirstGoal(), E.Goal()] && |bc.calls| == 2
    ensures AllRight(bc.b.F(1), bc.calls[1], bc.env)
  {
    forall k: nat, m | k < 3 ensures LeavesAlone(TheRule().goals[k], m, Bind(k, m)) { }
    var hc; ghost var y;
    hc, bc, y := GThenS(Bind);
  }
}
