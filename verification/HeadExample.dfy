/** A head compiled and run: that of  p(f(X, X), Y) :- q(Y), r.  with two arguments of which the
    first is a structure with two integers.  It matches when they are the same. */
module HeadExample {
  import opened Wam
  import opened VarTable
  import opened HeadMachine
  import opened HeadLogic
  import opened HeadFill
  import opened HeadModel
  import opened HeadStart
  import opened HeadTheorem
  import opened HeadUnify
  import opened HeadCompiler

  const F_TOKEN := 70

  function FOfXX(): Term { Struct(F_TOKEN, [Var(0), Var(0)]) }

  function TheHead(): seq<Term> { [FOfXX(), Var(1)] }

  function TheFrame(): HeadFrame {
    HeadFrame(17, 13, 13, 12, 10, TheHead(), [Var(1)], [2, 1], [CStr(0), CInt(9)], 20)
  }

  function Variables(): seq<VarInf> {
    [VarInf(0, false, 0, 2, 0, 0, 0, 0, true), VarInf(0, true, 1, 2, 0, 0, 0, 12, true)]
  }

  function Before(a: int, b: int): Head {
    Head(Machine(13, 10, map[15 := CStr(0), 16 := CInt(9)], [CFun(F_TOKEN, 2), CInt(a), CInt(b)], 0, {}, 20, {}, false, false, 0),
         map[], Write, false)
  }

  function Letters(i: int): string {
    if i < 0 then seq(-i, _ => 'b') else seq(i, _ => 'a')
  }

  lemma LettersDiffer()
    ensures Injective(Letters)
  {
    forall i, j | Letters(i) == Letters(j) ensures i == j {
      assert |Letters(i)| == |Letters(j)|;
      if i != 0 { assert Letters(i)[0] == Letters(j)[0]; }
    }
  }

  lemma TermTally(w: int)
    ensures Tally(w, FOfXX()) == if w == 0 then 2 else if w < 0 then 3 else 0
  {
    var t := FOfXX();
    assert Kids(t) == [Var(0), Var(0)];
    assert BuiltTally(w, t, 2) == BuiltTally(w, t, 1) == BuiltTally(w, t, 0) == 0;
    assert LeafTally(w, Kids(t), 2) == 0;
    assert LeafTally(w, Kids(t), 1) == Unit(w, Var(0));
    assert LeafTally(w, Kids(t), 0) == Unit(w, Var(0)) + LeafTally(w, Kids(t), 1);
  }

  lemma HeadTally(w: int)
    ensures Occurrences(w, TheHead(), 0) == if w == 0 then 2 else if w == 1 then 1 else if w < 0 then 4 else 0
    ensures RestTally(-1, TheHead(), 0) == 3
  {
    var h := TheHead();
    TermTally(w);
    TermTally(-1);
    SimpleTally(Var(1));
    assert h[1] == Var(1) && h[0] == FOfXX() && FirstAt(h, 1) && !FirstAt(h, 0);
    assert Occurrences(w, h, 2) == 0 && Occurrences(w, h, 1) == Unit(w, Var(1));
    assert RestTally(-1, h, 2) == 0 && RestTally(-1, h, 1) == 0;
  }

  lemma TableIsOk()
    ensures TheFrame().Ok() && TableOk(TheFrame(), Variables())
  {
    var F := TheFrame();
    hide Occurrences;
    forall v: nat | v >= 2 ensures Occurrences(v, F.head, 0) == 0 { HeadTally(v); }
    HeadTally(0);
    HeadTally(1);
    assert Classified(F, Variables()[0], 0) && Classified(F, Variables()[1], 1);
  }

  lemma StateIsOk(F: HeadFrame, m: Head, a: int, b: int)
    requires F == TheFrame() && m == Before(a, b)
    ensures StartOk(F, Letters, m)
  {
    forall c ensures Ends(m.bind, c) { }
    assert CellGiven(F, m, 0) && CellGiven(F, m, 1);
  }

  /** The demands on entry can be met. */
  lemma StartIsValid(a: int, b: int)
    ensures TheFrame().Ok() && TableOk(TheFrame(), Variables()) && StartOk(TheFrame(), Letters, Before(a, b))
    ensures Injective(Letters) && exists unify :: IsUnifier(Letters, unify)
  {
    hide IsUnifier, Injective, TableOk, StartOk;
    LettersDiffer();
    UnifierExists(Letters);
    TableIsOk();
    StateIsOk(TheFrame(), Before(a, b), a, b);
  }

  function Given(a: int, b: int): seq<Value> {
    [VStruct(F_TOKEN, [VInt(a), VInt(b)]), VInt(9)]
  }

  lemma ArgumentsAreGround(a: int, b: int)
    ensures GroundArgs(Letters, Before(a, b), TheFrame().cells, Given(a, b)) && Solves(Letters, Before(a, b), map[])
  {
    var m, F, xs := Before(a, b), TheFrame(), Given(a, b);
    var h := m.w.heap;
    var x := xs[0];
    assert Parts(x) == [VInt(a), VInt(b)];
    forall k: nat | k < |Parts(x)| ensures Ground(Letters, h, m.bind, PartCell(h, CStr(0), k), Parts(x)[k]) {
      assert k == 0 || k == 1;
    }
    assert GroundArg(Letters, m, F.cells, xs, 0) && GroundArg(Letters, m, F.cells, xs, 1);
  }

  lemma SameIsInstance(a: int, b: int)
    ensures (exists sigma :: |sigma| == 2 && IsInstance(Letters, TheHead(), sigma, Given(a, b))) <==> a == b
  {
    forall sigma: seq<Value> | |sigma| == 2
      ensures IsInstance(Letters, TheHead(), sigma, Given(a, b)) <==> sigma == [VInt(a), VInt(9)] && a == b
    {
      var h := TheHead();
      var x := Inst(Letters, sigma, h[0]);
      assert h[0] == FOfXX() && x == VStruct(F_TOKEN, x.args) && x.args == [sigma[0], sigma[0]];
      assert Inst(Letters, sigma, h[1]) == sigma[1];
      assert [sigma[0], sigma[0]] == [VInt(a), VInt(b)] <==> sigma[0] == VInt(a) && a == b;
    }
    assert a == b ==> IsInstance(Letters, TheHead(), [VInt(a), VInt(9)], Given(a, b));
  }

  /** The code for the head succeeds exactly when the two parts of the structure are the same. */
  method MatchesIfSame(a: int, b: int) returns (c: Compiler)
    ensures fresh(c) && c.F() == TheFrame() && c.start == Before(a, b)
    ensures c.m == HeadRun(c.names, c.unify, Before(a, b), c.code) && (c.m.failed <==> a != b)
  {
    hide HeadRun, Inv, IsUnifier, Injective, TableOk, StartOk, RestTally, StartLogic, Ended, Sound, Complete, Decides,
         GroundArgs, Solves, IsInstance, Global, Before;
    StartIsValid(a, b);
    HeadTally(0);
    ghost var unify: Unifier :| IsUnifier(Letters, unify);
    var model := new Entry[17](_ => Nil);
    var vtbl := new VarInf[2](v requires 0 <= v < 2 => Variables()[v]);
    var toDo := new int[4];
    c := new Compiler(model, vtbl, toDo, TheHead(), 13, 13, 12, TheFrame(), Letters, unify, Before(a, b));
    assert vtbl[..] == Variables();
    c.CompileHead();
    ArgumentsAreGround(a, b);
    SameIsInstance(a, b);
    Decided(c.m, a, b);
  }

  lemma Decided(m: Head, a: int, b: int)
    requires Decides(TheFrame(), Letters, Before(a, b), m)
    requires GroundArgs(Letters, Before(a, b), TheFrame().cells, Given(a, b)) && Solves(Letters, Before(a, b), map[])
    ensures m.failed <==> !exists sigma :: |sigma| == 2 && IsInstance(Letters, TheHead(), sigma, Given(a, b))
  {
    hide GroundArgs, Solves, IsInstance;
  }
}
