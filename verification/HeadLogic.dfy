/** What is known about the solutions while a head is matched.

    `pend` holds the equations still to be solved between cells and head terms, `env` the
    cell that stands for each head variable met so far.  A pair of a solution and a
    substitution is good when it satisfies the bindings, the variables and the equations.
    Each step of the emitted code turns equations into bindings and variables, and neither
    loses nor gains a good pair. */
module HeadLogic {
  import opened Wam
  import opened HeadMachine

  type Equation = (Cell, Term)

  datatype Logic = Logic(heap: seq<Cell>, next: nat, bind: Bindings, failed: bool, env: Env, pend: multiset<Equation>)

  ghost predicate VarHolds(nm: Names, l: Logic, rho: Solution, sigma: seq<Value>, v: nat)
    requires v in l.env
  {
    Stands(nm, l.heap, rho, l.env[v], Inst(nm, sigma, Var(v)))
  }

  ghost predicate Holds(nm: Names, h: seq<Cell>, rho: Solution, sigma: seq<Value>, p: Equation) {
    Stands(nm, h, rho, p.0, Inst(nm, sigma, p.1))
  }

  ghost predicate VarsHold(nm: Names, l: Logic, rho: Solution, sigma: seq<Value>) {
    forall v | v in l.env :: VarHolds(nm, l, rho, sigma, v)
  }

  ghost predicate Good(nm: Names, l: Logic, rho: Solution, sigma: seq<Value>) {
    && !l.failed && Satisfies(nm, l.heap, l.next, l.bind, rho)
    && VarsHold(nm, l, rho, sigma)
    && PendHolds(nm, l.heap, rho, sigma, l.pend)
  }

  ghost predicate PendHolds(nm: Names, h: seq<Cell>, rho: Solution, sigma: seq<Value>, pend: multiset<Equation>) {
    forall p | p in pend :: Holds(nm, h, rho, sigma, p)
  }

  lemma PendMinus(nm: Names, h: seq<Cell>, rho: Solution, sigma: seq<Value>, pend: multiset<Equation>, p: Equation)
    requires p in pend
    ensures PendHolds(nm, h, rho, sigma, pend) <==> PendHolds(nm, h, rho, sigma, pend - multiset{p}) && Holds(nm, h, rho, sigma, p)
  {
    hide Holds;
    assert forall q | q in pend :: q in pend - multiset{p} || q == p;
  }

  lemma PendPlus(nm: Names, h: seq<Cell>, rho: Solution, sigma: seq<Value>, pend: multiset<Equation>, eqs: seq<Equation>)
    ensures PendHolds(nm, h, rho, sigma, pend + multiset(eqs)) <==> PendHolds(nm, h, rho, sigma, pend) && AllHold(nm, h, rho, sigma, eqs)
  {
    hide Holds;
    assert forall k | 0 <= k < |eqs| :: eqs[k] in multiset(eqs);
    assert forall q: Equation | q in multiset(eqs) :: q in eqs;
  }

  ghost predicate Ok(l: Logic) {
    && OkHeap(l.heap, l.next) && OkBind(l.heap, l.next, l.bind) && Settled(l.bind)
    && (forall v | v in l.env :: OkCell(l.heap, l.next, l.env[v]))
    && (forall p | p in l.pend :: OkCell(l.heap, l.next, p.0))
  }

  /** Every good pair afterwards was one before. */
  ghost predicate Back(nm: Names, l: Logic, l': Logic, rho: Solution, sigma: seq<Value>) {
    Good(nm, l', rho, sigma) ==> Good(nm, l, rho, sigma)
  }

  /** Every good pair before is one afterwards, when new variables get suitable values. */
  ghost predicate Forth(nm: Names, l: Logic, l': Logic, rho: Solution, sigma: seq<Value>) {
    Good(nm, l, rho, sigma) ==> exists rho' :: Agree(rho, rho', l.next) && Good(nm, l', rho', sigma)
  }

  ghost predicate AllGround(nm: Names, l: Logic) {
    && (forall v | v in l.env :: IsGround(nm, l.heap, l.bind, l.env[v]))
    && (forall p | p in l.pend :: IsGround(nm, l.heap, l.bind, p.0))
  }

  /** Matching ground arguments neither binds nor builds anything. */
  ghost predicate StaysGround(nm: Names, l: Logic, l': Logic) {
    AllGround(nm, l) && !l'.failed ==> l'.bind == l.bind && l'.heap == l.heap && l'.next == l.next && AllGround(nm, l')
  }

  ghost predicate Same(nm: Names, l: Logic, l': Logic) {
    && l.next <= l'.next && (l.failed ==> l'.failed) && (!l'.failed ==> Ok(l'))
    && (forall rho, sigma :: Back(nm, l, l', rho, sigma))
    && (forall rho, sigma :: Forth(nm, l, l', rho, sigma))
    && StaysGround(nm, l, l')
  }

  lemma AgreeTrans(a: Solution, b: Solution, c: Solution, n: nat, n': nat)
    requires Agree(a, b, n) && Agree(b, c, n') && n <= n'
    ensures Agree(a, c, n)
  {
  }

  lemma AgreeRefl(nm: Names, l: Logic, rho: Solution, sigma: seq<Value>)
    requires Good(nm, l, rho, sigma)
    ensures Agree(rho, rho, l.next)
  {
  }

  lemma SameRefl(nm: Names, l: Logic)
    requires !l.failed ==> Ok(l)
    ensures Same(nm, l, l)
  {
    forall rho, sigma ensures Forth(nm, l, l, rho, sigma) {
      if Good(nm, l, rho, sigma) { AgreeRefl(nm, l, rho, sigma); }
    }
  }

  lemma SameTrans(nm: Names, l: Logic, l1: Logic, l2: Logic)
    requires Same(nm, l, l1) && Same(nm, l1, l2)
    ensures Same(nm, l, l2)
  {
    hide Good, Ok, AllGround, Agree;
    forall rho, sigma ensures Back(nm, l, l2, rho, sigma) {
      assert Back(nm, l, l1, rho, sigma) && Back(nm, l1, l2, rho, sigma);
    }
    forall rho, sigma ensures Forth(nm, l, l2, rho, sigma) {
      if Good(nm, l, rho, sigma) {
        assert Forth(nm, l, l1, rho, sigma);
        var rho1 :| Agree(rho, rho1, l.next) && Good(nm, l1, rho1, sigma);
        assert Forth(nm, l1, l2, rho1, sigma);
        var rho2 :| Agree(rho1, rho2, l1.next) && Good(nm, l2, rho2, sigma);
        AgreeTrans(rho, rho1, rho2, l.next, l1.next);
      }
    }
  }

  /** When nothing new is handed out, it is enough that the same pairs are good. */
  lemma SamePairs(nm: Names, l: Logic, l': Logic)
    requires l'.next == l.next && (l.failed ==> l'.failed) && (!l'.failed ==> Ok(l')) && StaysGround(nm, l, l')
    requires forall rho, sigma :: Good(nm, l, rho, sigma) <==> Good(nm, l', rho, sigma)
    ensures Same(nm, l, l')
  {
    forall rho, sigma ensures Back(nm, l, l', rho, sigma) && Forth(nm, l, l', rho, sigma) {
      if Good(nm, l, rho, sigma) { AgreeRefl(nm, l, rho, sigma); assert Good(nm, l', rho, sigma); }
    }
  }

  // ---- steps that solve one equation ----

  /** The logic after the machine went to `m` and equation `p` was solved. */
  function Solved(l: Logic, m: Head, p: Equation): Logic {
    l.(heap := m.w.heap, next := m.w.next, bind := m.bind, failed := m.failed, pend := l.pend - multiset{p})
  }

  ghost predicate Mirrors(l: Logic, m: Head) {
    l.heap == m.w.heap && l.next == m.w.next && l.bind == m.bind && l.failed == m.failed
  }

  function ConstCell(t: Term): Cell {
    match t
    case Int(i) => CInt(i)
    case Sym(tok) => CSym(tok)
    case Uia(name) => CUia(name)
    case _ => Junk
  }

  predicate Constant(t: Term) {
    t.Int? || t.Sym? || t.Uia?
  }

  ghost predicate Injective(nm: Names) {
    forall i, j :: nm(i) == nm(j) ==> i == j
  }

  /** Solving one equation: what is left is what is good and solves it. */
  lemma Solve(nm: Names, l: Logic, l': Logic, p: Equation, rho: Solution, sigma: seq<Value>)
    requires p in l.pend && l' == l.(bind := l'.bind, failed := l'.failed, pend := l.pend - multiset{p}) && !l.failed
    requires VarsHold(nm, l, rho, sigma) ==>
               (!l'.failed && Satisfies(nm, l'.heap, l'.next, l'.bind, rho) <==>
                Satisfies(nm, l.heap, l.next, l.bind, rho) && Holds(nm, l.heap, rho, sigma, p))
    ensures Good(nm, l, rho, sigma) <==> Good(nm, l', rho, sigma)
  {
    hide Satisfies, Holds, Stands;
    PendMinus(nm, l.heap, rho, sigma, l.pend, p);
    if VarsHold(nm, l, rho, sigma) { VarsHoldSame(nm, l, l', rho, sigma); }
    if VarsHold(nm, l', rho, sigma) { VarsHoldSame(nm, l', l, rho, sigma); }
  }

  lemma VarsHoldSame(nm: Names, l: Logic, l': Logic, rho: Solution, sigma: seq<Value>)
    requires l'.heap == l.heap && (forall v | v in l'.env :: v in l.env && l'.env[v] == l.env[v])
    requires VarsHold(nm, l, rho, sigma)
    ensures VarsHold(nm, l', rho, sigma)
  {
    forall v | v in l'.env ensures VarHolds(nm, l', rho, sigma, v) { assert VarHolds(nm, l, rho, sigma, v); }
  }

  /** A constant is matched, or bound to a variable, or there is no solution. */
  lemma ConstSolves(nm: Names, l: Logic, m: Head, c: Cell, t: Term, rho: Solution, sigma: seq<Value>)
    requires Ok(l) && Mirrors(l, m) && !l.failed && OkCell(l.heap, l.next, c) && Constant(t) && Injective(nm)
    ensures var m' := GetConst(nm, m, c, ConstCell(t));
            !m'.failed && Satisfies(nm, l.heap, l.next, m'.bind, rho) <==>
            Satisfies(nm, l.heap, l.next, l.bind, rho) && Holds(nm, l.heap, rho, sigma, (c, t))
  {
    var d := Deref(l.bind, c);
    DerefOk(l.heap, l.next, l.bind, c);
    assert Ends(l.bind, c);
    if d.CVar? { BoundSatisfies(nm, l.heap, l.next, l.bind, rho, d.id, ConstCell(t)); }
    if Satisfies(nm, l.heap, l.next, l.bind, rho) {
      DerefSame(nm, l.heap, l.next, l.bind, rho, c, Inst(nm, sigma, t));
    }
  }

  lemma ConstOk(nm: Names, l: Logic, m: Head, c: Cell, t: Term)
    requires Ok(l) && Mirrors(l, m) && !l.failed && OkCell(l.heap, l.next, c) && Constant(t)
    ensures var m' := GetConst(nm, m, c, ConstCell(t));
            OkBind(l.heap, l.next, m'.bind) && Settled(m'.bind) && (NoStackRefs(m.w.locals, m.bind) ==> NoStackRefs(m.w.locals, m'.bind))
            && m' == m.(bind := m'.bind, failed := m'.failed) && (IsGround(nm, l.heap, l.bind, c) ==> m'.bind == l.bind)
  {
    var d := Deref(l.bind, c);
    DerefOk(l.heap, l.next, l.bind, c);
    assert Ends(l.bind, c);
    if d.CVar? { BoundSettled(l.bind, d.id, ConstCell(t)); }
  }

  lemma ConstSolved(nm: Names, l: Logic, m: Head, p: Equation)
    requires Ok(l) && Mirrors(l, m) && !l.failed && p in l.pend && Constant(p.1) && Injective(nm)
    ensures Same(nm, l, Solved(l, GetConst(nm, m, p.0, ConstCell(p.1)), p))
  {
    var m' := GetConst(nm, m, p.0, ConstCell(p.1));
    var l' := Solved(l, m', p);
    ConstOk(nm, l, m, p.0, p.1);
    hide Good, Satisfies, Settled, OkHeap, OkBind, GetConst, Holds, IsGround;
    forall rho, sigma ensures Good(nm, l, rho, sigma) <==> Good(nm, l', rho, sigma) {
      ConstSolves(nm, l, m, p.0, p.1, rho, sigma);
      Solve(nm, l, l', p, rho, sigma);
    }
    SamePairs(nm, l, l');
  }

  /** Unifying a cell with that of a variable met before solves the equation between them. */
  lemma UnifySolves(nm: Names, l: Logic, m: Head, p: Equation, a: Cell, b: Cell, m': Head, rho: Solution, sigma: seq<Value>)
    requires Mirrors(l, m) && !l.failed && p.1.Var? && p.1.v in l.env && Unified(nm, m, a, b, m') && VarsHold(nm, l, rho, sigma)
    requires (a == p.0 && b == l.env[p.1.v]) || (b == p.0 && a == l.env[p.1.v])
    ensures !m'.failed && Satisfies(nm, l.heap, l.next, m'.bind, rho) <==>
            Satisfies(nm, l.heap, l.next, l.bind, rho) && Holds(nm, l.heap, rho, sigma, p)
  {
    hide Satisfies, Stands;
    var x := Inst(nm, sigma, p.1);
    assert VarHolds(nm, l, rho, sigma, p.1.v);
    assert Solves(nm, m', rho) <==> Solves(nm, m, rho) && Meet(nm, l.heap, rho, a, b);
    if Holds(nm, l.heap, rho, sigma, p) {
      assert Stands(nm, l.heap, rho, a, x) && Stands(nm, l.heap, rho, b, x);
    }
    if Meet(nm, l.heap, rho, a, b) {
      var y :| Stands(nm, l.heap, rho, a, y) && Stands(nm, l.heap, rho, b, y);
      StandsUnique(nm, l.heap, rho, l.env[p.1.v], x, y);
    }
  }

  lemma UnifySolved(nm: Names, l: Logic, m: Head, p: Equation, a: Cell, b: Cell, m': Head)
    requires Ok(l) && Mirrors(l, m) && !l.failed && p in l.pend && p.1.Var? && p.1.v in l.env && Unified(nm, m, a, b, m')
    requires (a == p.0 && b == l.env[p.1.v]) || (b == p.0 && a == l.env[p.1.v])
    ensures Same(nm, l, Solved(l, m', p))
  {
    hide Good, Satisfies, Settled, OkHeap, OkBind, Solves, Meet, VarsHold, Holds, IsGround;
    var l' := Solved(l, m', p);
    forall rho, sigma ensures Good(nm, l, rho, sigma) <==> Good(nm, l', rho, sigma) {
      if VarsHold(nm, l, rho, sigma) { UnifySolves(nm, l, m, p, a, b, m', rho, sigma); }
      Solve(nm, l, l', p, rho, sigma);
    }
    SamePairs(nm, l, l');
  }

  // ---- first occurrences ----

  /** The first occurrence of a variable in an argument or an existing slot: it stands for what is there. */
  function Named(l: Logic, v: nat, p: Equation): Logic {
    l.(env := l.env[v := p.0], pend := l.pend - multiset{p})
  }

  lemma FirstSeen(nm: Names, l: Logic, p: Equation)
    requires Ok(l) && !l.failed && p in l.pend && p.1.Var? && p.1.v !in l.env
    ensures Same(nm, l, Named(l, p.1.v, p))
  {
    var l' := Named(l, p.1.v, p);
    hide Satisfies, Settled, OkHeap, OkBind, Stands, Ground;
    forall rho, sigma ensures Good(nm, l, rho, sigma) <==> Good(nm, l', rho, sigma) {
      PendMinus(nm, l.heap, rho, sigma, l.pend, p);
      if VarsHold(nm, l', rho, sigma) {
        VarsHoldSame(nm, l', l, rho, sigma);
        assert VarHolds(nm, l', rho, sigma, p.1.v);
      }
      if Good(nm, l, rho, sigma) {
        forall v | v in l'.env ensures VarHolds(nm, l', rho, sigma, v) { if v in l.env { assert VarHolds(nm, l, rho, sigma, v); } }
      }
    }
    SamePairs(nm, l, l');
  }

  // ---- structures in read mode ----

  /** The equations between the slots of a structure and the subterms of a head term. */
  function Slots(h: seq<Cell>, base: nat, kids: seq<Term>): (eqs: seq<Equation>)
    requires base + |kids| <= |h|
    ensures |eqs| == |kids|
  {
    seq(|kids|, k requires 0 <= k < |kids| => (h[base + k], kids[k]))
  }

  ghost predicate AllHold(nm: Names, h: seq<Cell>, rho: Solution, sigma: seq<Value>, eqs: seq<Equation>) {
    forall k | 0 <= k < |eqs| :: Holds(nm, h, rho, sigma, eqs[k])
  }

  lemma StructureHolds(nm: Names, h: seq<Cell>, rho: Solution, sigma: seq<Value>, d: Cell, t: Term)
    requires Compound(t) && !d.CVar?
    requires HeadMatches(h, d, t) ==> ArgBase(d) + |Kids(t)| <= |h|
    ensures Holds(nm, h, rho, sigma, (d, t)) <==>
            HeadMatches(h, d, t) && AllHold(nm, h, rho, sigma, Slots(h, ArgBase(d), Kids(t)))
  {
    var x := Inst(nm, sigma, t);
    PartsOfInst(nm, sigma, t);
    if HeadMatches(h, d, t) {
      var eqs := Slots(h, ArgBase(d), Kids(t));
      if Stands(nm, h, rho, d, x) {
        forall k | 0 <= k < |eqs| ensures Holds(nm, h, rho, sigma, eqs[k]) {
          assert Stands(nm, h, rho, PartCell(h, d, k), Parts(x)[k]);
        }
      }
      if AllHold(nm, h, rho, sigma, eqs) {
        forall k: nat | k < |Parts(x)| ensures Stands(nm, h, rho, PartCell(h, d, k), Parts(x)[k]) {
          assert Holds(nm, h, rho, sigma, eqs[k]);
        }
      }
    }
  }

  /** The equation of a structure with an existing structure becomes those of the slots. */
  function Opened(l: Logic, p: Equation, base: nat): Logic
    requires base + |Kids(p.1)| <= |l.heap|
  {
    l.(pend := l.pend - multiset{p} + multiset(Slots(l.heap, base, Kids(p.1))))
  }

  lemma OpenedPairs(nm: Names, l: Logic, p: Equation, d: Cell, rho: Solution, sigma: seq<Value>)
    requires p in l.pend && Compound(p.1) && d == Deref(l.bind, p.0) && !d.CVar?
    requires HeadMatches(l.heap, d, p.1) && ArgBase(d) + |Kids(p.1)| <= |l.heap|
    ensures Good(nm, l, rho, sigma) <==> Good(nm, Opened(l, p, ArgBase(d)), rho, sigma)
  {
    var eqs := Slots(l.heap, ArgBase(d), Kids(p.1));
    var l' := Opened(l, p, ArgBase(d));
    StructureHolds(nm, l.heap, rho, sigma, d, p.1);
    if Satisfies(nm, l.heap, l.next, l.bind, rho) {
      DerefSame(nm, l.heap, l.next, l.bind, rho, p.0, Inst(nm, sigma, p.1));
    }
    hide Satisfies, Stands, Inst, Slots, AllHold, PendHolds, VarsHold, HeadMatches;
    PendMinus(nm, l.heap, rho, sigma, l.pend, p);
    PendPlus(nm, l.heap, rho, sigma, l.pend - multiset{p}, eqs);
    if VarsHold(nm, l, rho, sigma) { VarsHoldSame(nm, l, l', rho, sigma); }
    if VarsHold(nm, l', rho, sigma) { VarsHoldSame(nm, l', l, rho, sigma); }
  }

  lemma SlotOk(nm: Names, l: Logic, p: Equation, d: Cell, k: nat)
    requires Ok(l) && p in l.pend && Compound(p.1) && d == Deref(l.bind, p.0) && !d.CVar?
    requires HeadMatches(l.heap, d, p.1) && ArgBase(d) + |Kids(p.1)| <= |l.heap| && k < |Kids(p.1)|
    ensures OkCell(l.heap, l.next, l.heap[ArgBase(d) + k])
    ensures IsGround(nm, l.heap, l.bind, p.0) ==> IsGround(nm, l.heap, l.bind, l.heap[ArgBase(d) + k])
  {
    if IsGround(nm, l.heap, l.bind, p.0) {
      var x :| Ground(nm, l.heap, l.bind, p.0, x);
      assert Ground(nm, l.heap, l.bind, PartCell(l.heap, d, k), Parts(x)[k]);
    }
  }

  lemma SlotsOk(nm: Names, l: Logic, p: Equation, d: Cell)
    requires Ok(l) && p in l.pend && Compound(p.1) && d == Deref(l.bind, p.0) && !d.CVar?
    requires HeadMatches(l.heap, d, p.1) && ArgBase(d) + |Kids(p.1)| <= |l.heap|
    ensures forall q: Equation | q in multiset(Slots(l.heap, ArgBase(d), Kids(p.1))) ::
              OkCell(l.heap, l.next, q.0) && (IsGround(nm, l.heap, l.bind, p.0) ==> IsGround(nm, l.heap, l.bind, q.0))
  {
    hide Ok, IsGround, HeadMatches, OkCell;
    var eqs := Slots(l.heap, ArgBase(d), Kids(p.1));
    forall q: Equation | q in multiset(eqs)
      ensures OkCell(l.heap, l.next, q.0) && (IsGround(nm, l.heap, l.bind, p.0) ==> IsGround(nm, l.heap, l.bind, q.0))
    {
      var k :| 0 <= k < |eqs| && q == eqs[k];
      SlotOk(nm, l, p, d, k);
    }
  }

  lemma OpenedOk(nm: Names, l: Logic, p: Equation, d: Cell)
    requires Ok(l) && p in l.pend && Compound(p.1) && d == Deref(l.bind, p.0) && !d.CVar?
    requires HeadMatches(l.heap, d, p.1) && ArgBase(d) + |Kids(p.1)| <= |l.heap|
    ensures Ok(Opened(l, p, ArgBase(d))) && (AllGround(nm, l) ==> AllGround(nm, Opened(l, p, ArgBase(d))))
  {
    SlotsOk(nm, l, p, d);
    hide OkHeap, OkBind, Settled, IsGround, HeadMatches, OkCell, Slots;
  }

  lemma OpenedSame(nm: Names, l: Logic, p: Equation, d: Cell)
    requires Ok(l) && p in l.pend && Compound(p.1) && d == Deref(l.bind, p.0) && !d.CVar?
    requires HeadMatches(l.heap, d, p.1) && ArgBase(d) + |Kids(p.1)| <= |l.heap|
    ensures Same(nm, l, Opened(l, p, ArgBase(d)))
  {
    var l' := Opened(l, p, ArgBase(d));
    OpenedOk(nm, l, p, d);
    hide Good, Ok, AllGround, Opened;
    forall rho, sigma ensures Good(nm, l, rho, sigma) <==> Good(nm, l', rho, sigma) {
      OpenedPairs(nm, l, p, d, rho, sigma);
    }
    SamePairs(nm, l, l');
  }

  /** A structure that is not the one of the head leaves no solution. */
  lemma NoMatch(nm: Names, l: Logic, m: Head, p: Equation, d: Cell, m': Head)
    requires Ok(l) && Mirrors(l, m) && !l.failed && p in l.pend && Compound(p.1)
    requires d == Deref(l.bind, p.0) && !d.CVar? && !HeadMatches(l.heap, d, p.1) && m' == m.(failed := true)
    ensures Same(nm, l, Solved(l, m', p))
  {
    var l' := Solved(l, m', p);
    forall rho, sigma ensures Good(nm, l, rho, sigma) <==> Good(nm, l', rho, sigma) {
      if Good(nm, l, rho, sigma) {
        assert Holds(nm, l.heap, rho, sigma, p);
        DerefSame(nm, l.heap, l.next, l.bind, rho, p.0, Inst(nm, sigma, p.1));
        StructureHolds(nm, l.heap, rho, sigma, d, p.1);
      }
    }
    SamePairs(nm, l, l');
  }

  // ---- structures in write mode ----

  /** While the structure for an unbound variable is built, nothing is ground. */
  lemma NotGround(nm: Names, l: Logic, p: Equation)
    requires p in l.pend && Deref(l.bind, p.0).CVar?
    ensures !AllGround(nm, l)
  {
    assert AllGround(nm, l) ==> IsGround(nm, l.heap, l.bind, p.0);
  }

  /** A new variable for the first occurrence of a head variable. */
  function NewVar(l: Logic, v: nat): Logic {
    l.(env := l.env[v := CVar(l.next)], next := l.next + 1)
  }

  /** A new variable for a subterm that is matched later. */
  function NewKid(l: Logic, kid: Term): Logic {
    l.(pend := l.pend + multiset{(CVar(l.next), kid)}, next := l.next + 1)
  }

  /** Good pairs stay good when the next variable gets a value. */
  lemma GoodExtends(nm: Names, l: Logic, rho: Solution, sigma: seq<Value>, x: Value)
    requires Ok(l) && Good(nm, l, rho, sigma)
    ensures Agree(rho, rho[l.next := x], l.next)
    ensures Satisfies(nm, l.heap, l.next + 1, l.bind, rho[l.next := x])
    ensures VarsHold(nm, l, rho[l.next := x], sigma)
    ensures PendHolds(nm, l.heap, rho[l.next := x], sigma, l.pend)
  {
    var rho' := rho[l.next := x];
    assert Agree(rho, rho', l.next);
    hide OkHeap;
    forall id | id in l.bind ensures Stands(nm, l.heap, rho', l.bind[id], rho'[id]) {
      StandsSame(nm, l.heap, l.heap, rho, rho', l.next, l.bind[id], rho[id]);
    }
    forall v | v in l.env ensures VarHolds(nm, l, rho', sigma, v) {
      assert VarHolds(nm, l, rho, sigma, v);
      StandsSame(nm, l.heap, l.heap, rho, rho', l.next, l.env[v], Inst(nm, sigma, Var(v)));
    }
    forall p | p in l.pend ensures Holds(nm, l.heap, rho', sigma, p) {
      assert Holds(nm, l.heap, rho, sigma, p);
      StandsSame(nm, l.heap, l.heap, rho, rho', l.next, p.0, Inst(nm, sigma, p.1));
    }
  }

  lemma NewVarSame(nm: Names, l: Logic, v: nat, open: Equation)
    requires Ok(l) && !l.failed && v !in l.env && open in l.pend && Deref(l.bind, open.0).CVar?
    ensures Same(nm, l, NewVar(l, v))
  {
    var l' := NewVar(l, v);
    NotGround(nm, l, open);
    OkLater(l);
    hide OkHeap, OkBind, Settled, Stands, Inst, AllGround;
    forall rho, sigma ensures Back(nm, l, l', rho, sigma) {
      if Good(nm, l', rho, sigma) { VarsHoldSame(nm, l', l, rho, sigma); }
    }
    forall rho, sigma ensures Forth(nm, l, l', rho, sigma) {
      if Good(nm, l, rho, sigma) {
        var x := Inst(nm, sigma, Var(v));
        var rho' := rho[l.next := x];
        GoodExtends(nm, l, rho, sigma, x);
        NewStands(nm, l.heap, rho, l.next, x);
        forall u | u in l'.env ensures VarHolds(nm, l', rho', sigma, u) { if u != v { assert VarHolds(nm, l, rho', sigma, u); } }
        assert Good(nm, l', rho', sigma);
      }
    }
  }

  lemma NewStands(nm: Names, h: seq<Cell>, rho: Solution, id: nat, x: Value)
    ensures Stands(nm, h, rho[id := x], CVar(id), x)
  {
  }

  /** Cells in order stay so when more variables are handed out. */
  lemma OkLater(l: Logic)
    requires Ok(l)
    ensures Ok(l.(next := l.next + 1))
  {
  }

  lemma NewKidSame(nm: Names, l: Logic, kid: Term, open: Equation)
    requires Ok(l) && !l.failed && open in l.pend && Deref(l.bind, open.0).CVar?
    ensures Same(nm, l, NewKid(l, kid))
  {
    var l' := NewKid(l, kid);
    var p := (CVar(l.next), kid);
    NotGround(nm, l, open);
    OkLater(l);
    hide OkHeap, OkBind, Settled, Stands, Inst, AllGround;
    assert l'.pend - multiset{p} == l.pend;
    forall rho, sigma ensures Back(nm, l, l', rho, sigma) {
      if Good(nm, l', rho, sigma) {
        VarsHoldSame(nm, l', l, rho, sigma);
        PendMinus(nm, l.heap, rho, sigma, l'.pend, p);
      }
    }
    forall rho, sigma ensures Forth(nm, l, l', rho, sigma) {
      if Good(nm, l, rho, sigma) {
        var x := Inst(nm, sigma, kid);
        var rho' := rho[l.next := x];
        GoodExtends(nm, l, rho, sigma, x);
        NewStands(nm, l.heap, rho, l.next, x);
        VarsHoldSame(nm, l, l', rho', sigma);
        PendMinus(nm, l.heap, rho', sigma, l'.pend, p);
        assert Good(nm, l', rho', sigma);
      }
    }
  }

  // ---- closing a structure that was built ----

  /** What was pushed for a slot stands for the subterm. */
  ghost predicate SlotDone(l: Logic, bind: Bindings, c: Cell, kid: Term) {
    if Built(kid) then (c, kid) in l.pend
    else if kid.Var? then kid.v in l.env && (c == l.env[kid.v] || c == Deref(bind, l.env[kid.v]))
    else c == ConstCell(kid)
  }

  /** The heap with the structure for `p` in it; its cell is `ptr`, and `id` is bound to it. */
  ghost predicate Closes(l: Logic, p: Equation, h: seq<Cell>, id: nat, ptr: Cell) {
    && Ok(l) && !l.failed && p in l.pend && Compound(p.1) && Deref(l.bind, p.0) == CVar(id)
    && l.heap <= h && HeadMatches(h, ptr, p.1) && ArgBase(ptr) + |Kids(p.1)| == |h| && ArgBase(ptr) >= |l.heap|
    && (forall i | |l.heap| <= i < ArgBase(ptr) :: h[i].CFun?)
    && (forall k | 0 <= k < |Kids(p.1)| ::
          SlotDone(Drop(l, p), l.bind[id := ptr], h[ArgBase(ptr) + k], Kids(p.1)[k]))
  }

  function Drop(l: Logic, p: Equation): Logic {
    l.(pend := l.pend - multiset{p})
  }

  function Closed(l: Logic, p: Equation, h: seq<Cell>, id: nat, ptr: Cell): Logic {
    Drop(l, p).(heap := h, bind := l.bind[id := ptr])
  }

  lemma OkCellLater(h: seq<Cell>, h': seq<Cell>, n: nat, c: Cell)
    requires OkCell(h, n, c) && h <= h'
    ensures OkCell(h', n, c)
  {
  }

  lemma SlotDoneOk(l: Logic, p: Equation, h: seq<Cell>, id: nat, ptr: Cell, k: nat)
    requires Closes(l, p, h, id, ptr) && k < |Kids(p.1)|
    ensures OkCell(h, l.next, h[ArgBase(ptr) + k])
  {
    hide OkHeap, Settled;
    var c := h[ArgBase(ptr) + k];
    var kid := Kids(p.1)[k];
    assert SlotDone(Drop(l, p), l.bind[id := ptr], c, kid);
    if Built(kid) {
      OkCellLater(l.heap, h, l.next, c);
    } else if kid.Var? {
      var e := l.env[kid.v];
      OkCellLater(l.heap, h, l.next, e);
      DerefOk(l.heap, l.next, l.bind, e);
      OkCellLater(l.heap, h, l.next, Deref(l.bind, e));
      DerefBoundTo(l, p, id, ptr, e);
    }
  }

  lemma DerefBoundTo(l: Logic, p: Equation, id: nat, ptr: Cell, c: Cell)
    requires Ok(l) && Deref(l.bind, p.0) == CVar(id) && !ptr.CVar?
    ensures id !in l.bind
    ensures Deref(l.bind[id := ptr], c) == if Deref(l.bind, c) == CVar(id) then ptr else Deref(l.bind, c)
  {
    assert Ends(l.bind, p.0);
    DerefBound(l.bind, id, ptr, c);
  }

  lemma ClosedOk(l: Logic, p: Equation, h: seq<Cell>, id: nat, ptr: Cell)
    requires Closes(l, p, h, id, ptr)
    ensures Ok(Closed(l, p, h, id, ptr)) && id < l.next && id !in l.bind
  {
    assert Ends(l.bind, p.0);
    BoundSettled(l.bind, id, ptr);
    DerefOk(l.heap, l.next, l.bind, p.0);
    hide Settled;
    forall i | 0 <= i < |h| ensures OkCell(h, l.next, h[i]) {
      if i < |l.heap| {
        OkCellLater(l.heap, h, l.next, l.heap[i]);
      } else if i >= ArgBase(ptr) {
        SlotDoneOk(l, p, h, id, ptr, i - ArgBase(ptr));
      }
    }
  }

  /** A good pair before gives the slots their values. */
  lemma SlotGetsValue(nm: Names, l: Logic, p: Equation, h: seq<Cell>, id: nat, ptr: Cell, rho: Solution, sigma: seq<Value>, k: nat)
    requires Closes(l, p, h, id, ptr) && Good(nm, l, rho, sigma) && k < |Kids(p.1)|
    ensures Holds(nm, h, rho, sigma, (h[ArgBase(ptr) + k], Kids(p.1)[k]))
  {
    var c := h[ArgBase(ptr) + k];
    var kid := Kids(p.1)[k];
    var x := Inst(nm, sigma, kid);
    assert SlotDone(Drop(l, p), l.bind[id := ptr], c, kid);
    hide OkHeap, Settled;
    if Built(kid) {
      assert Holds(nm, l.heap, rho, sigma, (c, kid));
      StandsSame(nm, l.heap, h, rho, rho, l.next, c, x);
    } else if kid.Var? {
      var e := l.env[kid.v];
      assert VarHolds(nm, l, rho, sigma, kid.v);
      DerefBoundTo(l, p, id, ptr, e);
      DerefSame(nm, l.heap, l.next, l.bind, rho, e, x);
      DerefOk(l.heap, l.next, l.bind, e);
      if Deref(l.bind, e) == CVar(id) { NoCycle(nm, l, p, id, rho, sigma, k); }
      StandsSame(nm, l.heap, h, rho, rho, l.next, e, x);
      StandsSame(nm, l.heap, h, rho, rho, l.next, Deref(l.bind, e), x);
    }
  }

  /** A variable does not stand for a part of itself. */
  lemma NoCycle(nm: Names, l: Logic, p: Equation, id: nat, rho: Solution, sigma: seq<Value>, k: nat)
    requires Good(nm, l, rho, sigma) && p in l.pend && Compound(p.1) && Deref(l.bind, p.0) == CVar(id) && k < |Kids(p.1)|
    ensures !Stands(nm, l.heap, rho, CVar(id), Inst(nm, sigma, Kids(p.1)[k]))
  {
    var x := Inst(nm, sigma, p.1);
    assert Holds(nm, l.heap, rho, sigma, p);
    DerefSame(nm, l.heap, l.next, l.bind, rho, p.0, x);
    PartsOfInst(nm, sigma, p.1);
    assert Parts(x)[k] < x;
  }

  /** A longer heap changes nothing about what is good. */
  lemma GoodLater(nm: Names, l: Logic, h: seq<Cell>, rho: Solution, sigma: seq<Value>)
    requires Ok(l) && l.heap <= h
    ensures Good(nm, l, rho, sigma) <==> Good(nm, l.(heap := h), rho, sigma)
  {
    hide OkHeap, Settled;
    var l' := l.(heap := h);
    if forall id: nat | id < l.next :: id in rho {
      assert Agree(rho, rho, l.next);
      forall id | id in l.bind && id in rho
        ensures Stands(nm, l.heap, rho, l.bind[id], rho[id]) <==> Stands(nm, h, rho, l.bind[id], rho[id])
      {
        StandsSame(nm, l.heap, h, rho, rho, l.next, l.bind[id], rho[id]);
      }
      forall v | v in l.env ensures VarHolds(nm, l, rho, sigma, v) <==> VarHolds(nm, l', rho, sigma, v) {
        StandsSame(nm, l.heap, h, rho, rho, l.next, l.env[v], Inst(nm, sigma, Var(v)));
      }
      forall p | p in l.pend ensures Holds(nm, l.heap, rho, sigma, p) <==> Holds(nm, h, rho, sigma, p) {
        StandsSame(nm, l.heap, h, rho, rho, l.next, p.0, Inst(nm, sigma, p.1));
      }
    }
  }

  /** A good pair afterwards gives them the same values. */
  lemma SlotHasValue(nm: Names, l: Logic, p: Equation, h: seq<Cell>, id: nat, ptr: Cell, rho: Solution, sigma: seq<Value>, k: nat)
    requires Closes(l, p, h, id, ptr) && Good(nm, Closed(l, p, h, id, ptr), rho, sigma) && k < |Kids(p.1)|
    ensures Holds(nm, h, rho, sigma, (h[ArgBase(ptr) + k], Kids(p.1)[k]))
  {
    var c := h[ArgBase(ptr) + k];
    var kid := Kids(p.1)[k];
    var l' := Closed(l, p, h, id, ptr);
    assert SlotDone(Drop(l, p), l'.bind, c, kid);
    if Built(kid) {
      assert Holds(nm, h, rho, sigma, (c, kid));
    } else if kid.Var? {
      assert VarHolds(nm, l', rho, sigma, kid.v);
      DerefSame(nm, h, l.next, l'.bind, rho, l.env[kid.v], Inst(nm, sigma, kid));
    }
  }

  /** The finished structure stands for the value of the variable it was built for. */
  lemma PointerStands(nm: Names, l: Logic, p: Equation, h: seq<Cell>, id: nat, ptr: Cell, rho: Solution, sigma: seq<Value>)
    requires Closes(l, p, h, id, ptr) && Good(nm, l, rho, sigma)
    ensures id in rho && Stands(nm, h, rho, ptr, rho[id])
  {
    var x := Inst(nm, sigma, p.1);
    var eqs := Slots(h, ArgBase(ptr), Kids(p.1));
    forall k | 0 <= k < |eqs| ensures Holds(nm, h, rho, sigma, eqs[k]) {
      SlotGetsValue(nm, l, p, h, id, ptr, rho, sigma, k);
    }
    hide Ok, Satisfies, VarsHold;
    StructureHolds(nm, h, rho, sigma, ptr, p.1);
    assert Holds(nm, l.heap, rho, sigma, p);
    DerefSame(nm, l.heap, l.next, l.bind, rho, p.0, x);
  }

  lemma ClosedForth(nm: Names, l: Logic, p: Equation, h: seq<Cell>, id: nat, ptr: Cell, rho: Solution, sigma: seq<Value>)
    requires Closes(l, p, h, id, ptr) && Good(nm, l, rho, sigma)
    ensures Good(nm, Closed(l, p, h, id, ptr), rho, sigma)
  {
    PointerStands(nm, l, p, h, id, ptr, rho, sigma);
    ClosedOk(l, p, h, id, ptr);
    OkDrop(l, p);
    hide Ok, Stands, Inst, Slots, Holds, SlotDone;
    BoundSatisfies(nm, h, l.next, l.bind, rho, id, ptr);
    PendMinus(nm, l.heap, rho, sigma, l.pend, p);
    VarsHoldSame(nm, l, Drop(l, p), rho, sigma);
    GoodLater(nm, Drop(l, p), h, rho, sigma);
    VarsHoldSame(nm, Drop(l, p).(heap := h), Closed(l, p, h, id, ptr), rho, sigma);
  }

  lemma OkDrop(l: Logic, p: Equation)
    requires Ok(l)
    ensures Ok(Drop(l, p))
  {
  }

  /** The variable a structure is built for gets its value. */
  lemma ClosedValue(nm: Names, l: Logic, p: Equation, h: seq<Cell>, id: nat, ptr: Cell, rho: Solution, sigma: seq<Value>)
    requires Closes(l, p, h, id, ptr) && Good(nm, Closed(l, p, h, id, ptr), rho, sigma)
    ensures id in rho && rho[id] == Inst(nm, sigma, p.1)
  {
    var l' := Closed(l, p, h, id, ptr);
    var eqs := Slots(h, ArgBase(ptr), Kids(p.1));
    forall k | 0 <= k < |eqs| ensures Holds(nm, h, rho, sigma, eqs[k]) {
      SlotHasValue(nm, l, p, h, id, ptr, rho, sigma, k);
    }
    StructureHolds(nm, h, rho, sigma, ptr, p.1);
    assert l'.bind[id] == ptr;
    StandsUnique(nm, h, rho, ptr, Inst(nm, sigma, p.1), rho[id]);
  }

  lemma ClosedBack(nm: Names, l: Logic, p: Equation, h: seq<Cell>, id: nat, ptr: Cell, rho: Solution, sigma: seq<Value>)
    requires Closes(l, p, h, id, ptr) && Good(nm, Closed(l, p, h, id, ptr), rho, sigma)
    ensures Good(nm, l, rho, sigma)
  {
    var x := Inst(nm, sigma, p.1);
    var l' := Closed(l, p, h, id, ptr);
    ClosedValue(nm, l, p, h, id, ptr, rho, sigma);
    ClosedOk(l, p, h, id, ptr);
    assert Stands(nm, l.heap, rho, Deref(l.bind, p.0), x);
    hide Ok, Stands, Inst;
    BoundSatisfies(nm, h, l.next, l.bind, rho, id, ptr);
    OkDrop(l, p);
    VarsHoldSame(nm, l', Drop(l, p).(heap := h), rho, sigma);
    GoodLater(nm, Drop(l, p), h, rho, sigma);
    DerefSame(nm, l.heap, l.next, l.bind, rho, p.0, x);
    PendMinus(nm, l.heap, rho, sigma, l.pend, p);
    VarsHoldSame(nm, Drop(l, p), l, rho, sigma);
  }

  /** A finished structure solves the equation it was built for. */
  lemma ClosedSame(nm: Names, l: Logic, p: Equation, h: seq<Cell>, id: nat, ptr: Cell)
    requires Closes(l, p, h, id, ptr)
    ensures Same(nm, l, Closed(l, p, h, id, ptr))
  {
    var l' := Closed(l, p, h, id, ptr);
    ClosedOk(l, p, h, id, ptr);
    NotGround(nm, l, p);
    hide Good, Ok, AllGround, IsGround;
    forall rho, sigma ensures Good(nm, l, rho, sigma) <==> Good(nm, l', rho, sigma) {
      if Good(nm, l, rho, sigma) { ClosedForth(nm, l, p, h, id, ptr, rho, sigma); }
      if Good(nm, l', rho, sigma) { ClosedBack(nm, l, p, h, id, ptr, rho, sigma); }
    }
    SamePairs(nm, l, l');
  }
}
