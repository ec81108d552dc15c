/** A goal whose code goes wrong: the second goal of  h :- g(Y), s(f(X), Y, X), z.

    Y is a permanent variable whose last occurrence is here and that is still unbound; its
    environment slot is the argument cell that X is meant for.  Giving X a home in the middle
    of f(X) sends Y to its own argument cell, with an instruction that also pushes Y to the
    heap, between the functor and the slot of X: the first argument comes out as f(Y). */
module GoalExample {
  import opened Wam
  import opened VarTable
  import opened GoalModel
  import opened GoalDanger
  import opened GoalSpill
  import opened GoalCompiler

  const F_TOKEN := 70
  const S_TOKEN := 71

  function FOfX(): Term { Struct(F_TOKEN, [Var(1)]) }

  function Goal(): Term { Struct(S_TOKEN, [FOfX(), Var(0), Var(1)]) }

  function TheFrame(): Frame {
    Frame(20, 18, 17, 15, 13, 18, 2, 0, Goal().args, [2, 2])
  }

  function Model(): seq<Entry> {
    seq(20, x => if x == 17 then Vo(0) else Nil)
  }

  function Variables(): seq<VarInf> {
    [VarInf(1, false, 2, 2, 1, 17, 1, 16, true), VarInf(2, false, 2, 2, 0, 0, 0, 17, true)]
  }

  function Before(): Machine {
    Machine(18, 13, map[17 := CVar(5)], [], 6, {5}, 20, {}, false, false, 0)
  }

  function Start(): State {
    State(Model(), Variables(), 13, Before(), map[0 := CVar(5)], {})
  }

  lemma StartIsValid()
    ensures Inv(TheFrame(), Start(), -1) && Room(Start()) == 12
    ensures forall v: nat :: Left(TheFrame(), Start(), v) == Tally(v, Goal())
  {
    hide Inv, Room, Left, Tally;
    Valid(TheFrame(), Start());
    RoomAndUses(TheFrame(), Start());
    forall v: nat ensures Left(TheFrame(), Start(), v) == Tally(v, Goal()) { GoalTally(v); }
  }

  /** What makes the start valid, spelled out. */
  predicate Looks(F: Frame, s: State, y: VarInf, x: VarInf) {
    && F.N == 20 && F.E == 18 && F.Eend == 17 && F.Adst == 15 && F.SPstart == 13 && F.Top == 18 && F.gap == 0
    && F.goalnumber == 2 && |F.args| == 3 && F.args[0].Struct? && F.args[1] == Var(0) && F.args[2] == Var(1)
    && |F.total| == 2 && F.total[0] == F.total[1] == 2
    && |s.model| == 20 && s.model[17] == Vo(0) && (forall k | 0 <= k < 20 && k != 17 :: s.model[k] == Nil)
    && s.vtbl == [y, x]
    && y.home == 17 && y.pvnum == 1 && y.usecnt == 1 && y.noccurences == 2 && y.target == 16 && y.lastocc == 2
    && x.home == 0 && x.pvnum == 0 && x.usecnt == 0 && x.noccurences == 2 && x.target == 17 && x.lastocc == 2
    && s.sp == 13 && s.m.e == 18 && s.m.sp == 13 && s.placed == {} && FreshIds(s.m)
    && s.env == map[0 := CVar(5)] && Get(s.m.mem, 17) == CVar(5)
  }

  lemma Valid(F: Frame, s: State)
    requires F == TheFrame() && s == Start()
    ensures Inv(F, s, -1)
  {
    hide Inv;
    LooksValid(F, s, s.vtbl[0], s.vtbl[1]);
  }

  lemma LooksValid(F: Frame, s: State, y: VarInf, x: VarInf)
    requires Looks(F, s, y, x)
    ensures Inv(F, s, -1)
  {
    assert Shape(F, s);
    YIsOk(F, s, y, x);
    XIsOk(F, s, y, x);
  }

  lemma YIsOk(F: Frame, s: State, y: VarInf, x: VarInf)
    requires Looks(F, s, y, x) && Shape(F, s)
    ensures VarOk(F, s, -1, 0)
  {
  }

  lemma XIsOk(F: Frame, s: State, y: VarInf, x: VarInf)
    requires Looks(F, s, y, x) && Shape(F, s)
    ensures VarOk(F, s, -1, 1)
  {
  }

  lemma RoomAndUses(F: Frame, s: State)
    requires F == TheFrame() && s == Start()
    ensures Room(s) == 12
    ensures forall v: nat :: Left(F, s, v) == if v == 0 then 1 else if v == 1 then 2 else 0
  {
    assert s.vtbl[..1] == [s.vtbl[0]] && s.vtbl[..1][..0] == [];
    assert PermCount(s.vtbl[..1]) == 1;
  }

  lemma GoalTally(v: nat)
    ensures Tally(v, Goal()) == if v == 0 then 1 else if v == 1 then 2 else 0
  {
    var t := FOfX();
    assert Kids(t) == [Var(1)];
    assert BuiltTally(v, t, 1) == BuiltTally(v, t, 0) == 0;
    assert LeafTally(v, Kids(t), 1) == 0;
    assert LeafTally(v, Kids(t), 0) == Unit(v, Var(1));
    var g := Goal();
    assert BuiltTally(v, g, 1) == Tally(v, t);
    assert BuiltTally(v, g, 3) == BuiltTally(v, g, 2) == BuiltTally(v, g, 1);
    assert LeafTally(v, Kids(g), 3) == 0;
    assert LeafTally(v, Kids(g), 2) == Unit(v, Var(1));
    assert LeafTally(v, Kids(g), 1) == Unit(v, Var(0)) + Unit(v, Var(1));
    assert LeafTally(v, Kids(g), 0) == LeafTally(v, Kids(g), 1);
  }

  lemma RunNothing(m: Machine)
    ensures Run(m, []) == m
  {
  }

  /** The cell of the first argument is freed, then X is used in f(X); that is all. */
  lemma TheEvents(adst: int)
    requires adst > 0
    ensures GoalEvents(Goal().args, adst, 3) == [Free(adst), Use(1)]
  {
    var t, g := FOfX(), Goal().args;
    assert GatherEvents(t, 1) == [] && GatherEvents(t, 0) == [];
    assert LeafEvents(Kids(t), 1) == LeafEvents(Kids(t), 0) + LeafEvent(Var(1)) == [Use(1)];
    assert BuildEvents(t, adst) == [Free(adst), Use(1)];
    assert GoalEvents(g, adst, 1) == GoalEvents(g, adst, 0) + ArgEvents(t, adst) == [Free(adst), Use(1)];
    assert GoalEvents(g, adst, 2) == GoalEvents(g, adst, 1) + ArgEvents(Var(0), adst + 1) == [Free(adst), Use(1)];
  }

  /** What is watched when the goal is entered: Y, with the value `y`, is at home in the last
      argument cell, which X is meant for. */
  function Entry(adst: int, y: Cell, exposed: set<nat>): Watch {
    Watch([Info(adst + 2, true, 1, 2, adst + 1, 1, y), Info(-1, false, 0, 2, adst + 2, 2, Junk)], exposed, false)
  }

  /** The goal goes wrong exactly if Y is exposed. */
  lemma {:induction false} CollidesIfExposed(adst: int, y: Cell, exposed: set<nat>)
    requires adst > 0
    ensures Collision(Entry(adst, y, exposed), GoalEvents(Goal().args, adst, 3)) <==> y.CVar? && y.id in exposed
  {
    var w, evs, x := Entry(adst, y, exposed), [Free(adst), Use(1)], adst + 2;
    TheEvents(adst);
    assert Count(evs, 1, 0) == Count(evs, 0, 0) == 0 && Count(evs, 1, 1) == Count(evs, 0, 1) == 0;
    assert StandsAt(w, evs, 1, 0, x);
    assert !Standing(w, evs, 0, adst);
    if y.CVar? {
      assert Risks(w.info[0], -1, x) && y.id in Risky(w, -1, x);
      if y.id in exposed { assert StillExposed(w, evs, 1, y.id); assert Collides(w, evs, 1); }
    }
    if Collision(w, evs) {
      var p: nat :| p < |evs| && Collides(w, evs, p);
      var id :| id in Risky(w, -1, x) && StillExposed(w, evs, 1, id);
      var u: nat :| u < |w.info| && Risks(w.info[u], -1, x) && w.info[u].id.id == id;
      assert u == 0;
    }
  }

  /** X is meant for the cell of Y, and Y has to be made safe. */
  lemma StartCollides()
    ensures Settled(TheFrame(), Start()) && GoalCollides(TheFrame(), Start())
  {
    assert Watched(Start()) == Entry(15, CVar(5), {5});
    CollidesIfExposed(15, CVar(5), {5});
  }

  lemma GoalSize()
    ensures Size(Goal()) == 5
  {
    var t, g := FOfX(), Goal();
    assert Kids(t) == [Var(1)];
    assert BuiltTally(-1, t, 1) == BuiltTally(-1, t, 0) == 0;
    assert LeafTally(-1, Kids(t), 1) == 0 && LeafTally(-1, Kids(t), 0) == 1;
    assert Tally(-1, t) == 2;
    assert BuiltTally(-1, g, 3) == BuiltTally(-1, g, 2) == BuiltTally(-1, g, 1) == 2;
    assert LeafTally(-1, Kids(g), 3) == 0 && LeafTally(-1, Kids(g), 2) == 1 && LeafTally(-1, Kids(g), 1) == 2;
  }

  /** The goal meets every demand on entry, and the code that is emitted for it sets up a
      first argument that is not f(X). */
  method FirstArgumentIsWrong() returns (c: Compiler)
    ensures fresh(c) && c.F() == TheFrame() && c.start == Before() && c.entry == map[0 := CVar(5)]
    ensures c.m == Run(Before(), c.code) && c.m.spilled
    ensures Refutes(c.m.heap, Get(c.m.mem, 15), FOfX(), c.env)
  {
    hide Run, Inv, Tally, Calm, Denotes, Refutes, Room, Left, GoalCollides, Settled;
    var model := new Entry[20](x => if x == 17 then Vo(0) else Nil);
    var vtbl := new VarInf[2](v requires 0 <= v < 2 => Variables()[v]);
    var toDo := new int[16];
    c := new Compiler(model, vtbl, toDo, 18, 17, 15, 13, 2, 13, TheFrame(), Before(), map[0 := CVar(5)]);
    assert c.model[..] == Model() && c.vtbl[..] == Variables() && c.S() == Start();
    StartIsValid();
    StartCollides();
    RunNothing(Before());
    GoalSize();
    c.CompGoal(Goal());
    assert Goal().args[1].Var? && Goal().args[2].Var?;
  }
}
