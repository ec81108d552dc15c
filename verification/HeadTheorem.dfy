/** What compiled heads do: they unify the arguments with the head. */
module HeadTheorem {
  import opened Wam
  import opened VarTable
  import opened HeadMachine
  import opened HeadLogic
  import opened HeadModel
  import opened HeadStart

  /** The argument cells stand for the instance of the head given by `sigma`. */
  ghost predicate ArgsMatch(nm: Names, m: Head, rho: Solution, sigma: seq<Value>, head: seq<Term>, cells: seq<Cell>)
    requires |cells| == |head|
  {
    forall j: nat | j < |head| :: ArgMatches(nm, m, rho, sigma, head, cells, j)
  }

  ghost predicate ArgMatches(nm: Names, m: Head, rho: Solution, sigma: seq<Value>, head: seq<Term>, cells: seq<Cell>, j: nat)
    requires j < |head| == |cells|
  {
    Stands(nm, m.w.heap, rho, cells[j], Inst(nm, sigma, head[j]))
  }

  /** The cells of the variables stand for what `sigma` gives them. */
  ghost predicate VarsMatch(nm: Names, m: Head, rho: Solution, sigma: seq<Value>, env: Env) {
    forall v | v in env :: VarMatches(nm, m, rho, sigma, env, v)
  }

  ghost predicate VarMatches(nm: Names, m: Head, rho: Solution, sigma: seq<Value>, env: Env, v: nat)
    requires v in env
  {
    Stands(nm, m.w.heap, rho, env[v], Inst(nm, sigma, Var(v)))
  }

  /** Every solution the machine ends with gives arguments that are the instance of the head
      that the variables' cells spell out. */
  ghost predicate Sound(nm: Names, start: Head, m: Head, env: Env, head: seq<Term>, cells: seq<Cell>)
    requires |cells| == |head|
  {
    forall rho, sigma | Solves(nm, m, rho) && VarsMatch(nm, m, rho, sigma, env) ::
      Solves(nm, start, rho) && ArgsMatch(nm, start, rho, sigma, head, cells)
  }

  ghost predicate Extended(nm: Names, start: Head, m: Head, env: Env, rho: Solution, sigma: seq<Value>) {
    exists rho' :: Agree(rho, rho', start.w.next) && Solves(nm, m, rho') && VarsMatch(nm, m, rho', sigma, env)
  }

  /** No way to make the arguments an instance of the head is lost. */
  ghost predicate Complete(nm: Names, start: Head, m: Head, env: Env, head: seq<Term>, cells: seq<Cell>)
    requires |cells| == |head|
  {
    forall rho, sigma | Solves(nm, start, rho) && ArgsMatch(nm, start, rho, sigma, head, cells) ::
      Extended(nm, start, m, env, rho, sigma)
  }

  /** The logic at the end has no equations left. */
  ghost predicate Ended(F: HeadFrame, nm: Names, start: Head, m: Head, l: Logic) {
    && |F.cells| == |F.head| && Same(nm, StartLogic(F, start), l) && l.failed == m.failed
    && (!m.failed ==> Mirrors(l, m) && l.pend == multiset{})
  }

  lemma GoodAtStart(F: HeadFrame, nm: Names, start: Head, rho: Solution, sigma: seq<Value>)
    requires |F.cells| == |F.head|
    ensures Good(nm, StartLogic(F, start), rho, sigma) <==>
            Solves(nm, start, rho) && ArgsMatch(nm, start, rho, sigma, F.head, F.cells)
  {
    var l := StartLogic(F, start);
    var eqs := AllEqs(F.head, F.cells);
    hide Satisfies, Stands, Inst;
    forall j: nat | j < |F.head|
      ensures Holds(nm, l.heap, rho, sigma, eqs[j]) <==> ArgMatches(nm, start, rho, sigma, F.head, F.cells, j)
    {
    }
    assert l.pend == multiset{} + multiset(eqs);
    PendPlus(nm, l.heap, rho, sigma, multiset{}, eqs);
    if AllHold(nm, l.heap, rho, sigma, eqs) {
      forall j: nat | j < |F.head| ensures ArgMatches(nm, start, rho, sigma, F.head, F.cells, j) {
        assert Holds(nm, l.heap, rho, sigma, eqs[j]);
      }
    }
    if ArgsMatch(nm, start, rho, sigma, F.head, F.cells) {
      forall k | 0 <= k < |eqs| ensures Holds(nm, l.heap, rho, sigma, eqs[k]) {
        assert ArgMatches(nm, start, rho, sigma, F.head, F.cells, k);
      }
    }
  }

  lemma GoodAtEnd(nm: Names, m: Head, l: Logic, rho: Solution, sigma: seq<Value>)
    requires l.failed == m.failed && (!m.failed ==> Mirrors(l, m) && l.pend == multiset{})
    ensures Good(nm, l, rho, sigma) <==> Solves(nm, m, rho) && VarsMatch(nm, m, rho, sigma, l.env)
  {
    hide Satisfies, Stands, Inst;
    if !m.failed && VarsHold(nm, l, rho, sigma) {
      forall v | v in l.env ensures VarMatches(nm, m, rho, sigma, l.env, v) { assert VarHolds(nm, l, rho, sigma, v); }
    }
    if !m.failed && VarsMatch(nm, m, rho, sigma, l.env) {
      forall v | v in l.env ensures VarHolds(nm, l, rho, sigma, v) { assert VarMatches(nm, m, rho, sigma, l.env, v); }
    }
  }

  /** The emitted code computes a most general unifier: soundness. */
  lemma HeadIsSound(F: HeadFrame, nm: Names, start: Head, m: Head, l: Logic)
    requires Ended(F, nm, start, m, l)
    ensures Sound(nm, start, m, l.env, F.head, F.cells)
  {
    var l0 := StartLogic(F, start);
    hide Good, Solves, ArgsMatch, VarsMatch;
    forall rho, sigma | Solves(nm, m, rho) && VarsMatch(nm, m, rho, sigma, l.env)
      ensures Solves(nm, start, rho) && ArgsMatch(nm, start, rho, sigma, F.head, F.cells)
    {
      GoodAtEnd(nm, m, l, rho, sigma);
      assert Back(nm, l0, l, rho, sigma);
      GoodAtStart(F, nm, start, rho, sigma);
    }
  }

  /** And completeness: in particular it does not fail when there is a solution. */
  lemma HeadIsComplete(F: HeadFrame, nm: Names, start: Head, m: Head, l: Logic)
    requires Ended(F, nm, start, m, l)
    ensures Complete(nm, start, m, l.env, F.head, F.cells)
  {
    var l0 := StartLogic(F, start);
    hide Good, Solves, ArgsMatch, VarsMatch, Agree;
    forall rho, sigma | Solves(nm, start, rho) && ArgsMatch(nm, start, rho, sigma, F.head, F.cells)
      ensures Extended(nm, start, m, l.env, rho, sigma)
    {
      GoodAtStart(F, nm, start, rho, sigma);
      assert Forth(nm, l0, l, rho, sigma);
      var rho' :| Agree(rho, rho', l0.next) && Good(nm, l, rho', sigma);
      GoodAtEnd(nm, m, l, rho', sigma);
    }
  }

  // ---- ground arguments ----

  ghost predicate GroundArgs(nm: Names, m: Head, cells: seq<Cell>, xs: seq<Value>) {
    |xs| == |cells| && forall j: nat | j < |cells| :: GroundArg(nm, m, cells, xs, j)
  }

  ghost predicate GroundArg(nm: Names, m: Head, cells: seq<Cell>, xs: seq<Value>, j: nat)
    requires j < |cells| == |xs|
  {
    Ground(nm, m.w.heap, m.bind, cells[j], xs[j])
  }

  /** The arguments `xs` are the instance of the head given by `sigma`. */
  ghost predicate IsInstance(nm: Names, head: seq<Term>, sigma: seq<Value>, xs: seq<Value>) {
    |xs| == |head| && forall j: nat | j < |head| :: Inst(nm, sigma, head[j]) == xs[j]
  }

  lemma InstanceMatches(nm: Names, m: Head, rho: Solution, sigma: seq<Value>, head: seq<Term>, cells: seq<Cell>, xs: seq<Value>)
    requires |cells| == |head| && GroundArgs(nm, m, cells, xs) && Solves(nm, m, rho)
    ensures ArgsMatch(nm, m, rho, sigma, head, cells) <==> IsInstance(nm, head, sigma, xs)
  {
    hide Satisfies, Ground, Inst;
    forall j: nat | j < |head|
      ensures ArgMatches(nm, m, rho, sigma, head, cells, j) <==> Inst(nm, sigma, head[j]) == xs[j]
    {
      assert GroundArg(nm, m, cells, xs, j);
      GroundStands(nm, m.w.heap, m.w.next, m.bind, rho, cells[j], xs[j]);
      if ArgMatches(nm, m, rho, sigma, head, cells, j) {
        StandsUnique(nm, m.w.heap, rho, cells[j], Inst(nm, sigma, head[j]), xs[j]);
      }
    }
    if ArgsMatch(nm, m, rho, sigma, head, cells) {
      forall j: nat | j < |head| ensures Inst(nm, sigma, head[j]) == xs[j] { assert ArgMatches(nm, m, rho, sigma, head, cells, j); }
    }
  }

  lemma StartGround(F: HeadFrame, nm: Names, start: Head, xs: seq<Value>)
    requires |F.cells| == |F.head| && GroundArgs(nm, start, F.cells, xs)
    ensures AllGround(nm, StartLogic(F, start))
  {
    var l := StartLogic(F, start);
    var eqs := AllEqs(F.head, F.cells);
    forall p | p in l.pend ensures IsGround(nm, l.heap, l.bind, p.0) {
      assert p in eqs;
      var j: nat :| j < |eqs| && p == eqs[j];
      assert GroundArg(nm, start, F.cells, xs, j);
    }
  }

  /** What the variables' cells spell out. */
  ghost function ValueOf(nm: Names, l: Logic, v: nat): Value {
    if v in l.env && IsGround(nm, l.heap, l.bind, l.env[v])
    then var x :| Ground(nm, l.heap, l.bind, l.env[v], x); x
    else VInt(0)
  }

  ghost function Values(nm: Names, l: Logic, n: nat): (sigma: seq<Value>)
    ensures |sigma| == n
  {
    seq(n, v requires 0 <= v < n => ValueOf(nm, l, v))
  }

  lemma ValuesMatch(nm: Names, m: Head, l: Logic, n: nat, rho: Solution)
    requires !m.failed && Mirrors(l, m) && AllGround(nm, l) && Solves(nm, m, rho) && forall v | v in l.env :: v < n
    ensures VarsMatch(nm, m, rho, Values(nm, l, n), l.env)
  {
    var sigma := Values(nm, l, n);
    forall v | v in l.env ensures VarMatches(nm, m, rho, sigma, l.env, v) {
      assert IsGround(nm, l.heap, l.bind, l.env[v]) && sigma[v] == ValueOf(nm, l, v);
      GroundStands(nm, l.heap, l.next, l.bind, rho, l.env[v], sigma[v]);
    }
  }

  /** Run on ground arguments, the code for the head succeeds exactly when the arguments are an
      instance of the head; it changes neither heap nor bindings. */
  lemma SucceedsOnInstances(F: HeadFrame, nm: Names, start: Head, m: Head, l: Logic, xs: seq<Value>, rho: Solution)
    requires Ended(F, nm, start, m, l) && GroundArgs(nm, start, F.cells, xs) && Solves(nm, start, rho)
    requires !m.failed ==> forall v | v in l.env :: v < |F.total|
    ensures !m.failed <==> exists sigma :: |sigma| == |F.total| && IsInstance(nm, F.head, sigma, xs)
    ensures !m.failed ==> m.w.heap == start.w.heap && m.bind == start.bind
  {
    StartGround(F, nm, start, xs);
    HeadIsSound(F, nm, start, m, l);
    HeadIsComplete(F, nm, start, m, l);
    hide Good, ArgsMatch, VarsMatch, Agree, IsInstance, Ground, AllGround, GroundArgs, Satisfies;
    if !m.failed {
      assert StaysGround(nm, StartLogic(F, start), l);
      var sigma := Values(nm, l, |F.total|);
      ValuesMatch(nm, m, l, |F.total|, rho);
      assert Solves(nm, m, rho);
      assert ArgsMatch(nm, start, rho, sigma, F.head, F.cells);
      InstanceMatches(nm, start, rho, sigma, F.head, F.cells, xs);
    }
    if sigma :| |sigma| == |F.total| && IsInstance(nm, F.head, sigma, xs) {
      InstanceMatches(nm, start, rho, sigma, F.head, F.cells, xs);
      assert Extended(nm, start, m, l.env, rho, sigma);
    }
  }

  /** On ground arguments the machine fails exactly when they are not an instance of the head. */
  ghost predicate Decides(F: HeadFrame, nm: Names, start: Head, m: Head) {
    forall xs, rho | GroundArgs(nm, start, F.cells, xs) && Solves(nm, start, rho) ::
      m.failed <==> !exists sigma :: |sigma| == |F.total| && IsInstance(nm, F.head, sigma, xs)
  }

  lemma DecidesInstances(F: HeadFrame, nm: Names, start: Head, m: Head, l: Logic)
    requires Ended(F, nm, start, m, l) && (!m.failed ==> forall v | v in l.env :: v < |F.total|)
    ensures Decides(F, nm, start, m)
  {
    hide Ended, GroundArgs, Solves, IsInstance;
    forall xs, rho | GroundArgs(nm, start, F.cells, xs) && Solves(nm, start, rho)
      ensures m.failed <==> !exists sigma :: |sigma| == |F.total| && IsInstance(nm, F.head, sigma, xs)
    {
      SucceedsOnInstances(F, nm, start, m, l, xs, rho);
    }
  }

  /** Each variable then stands for the subterm it matches. */
  lemma VariablesHoldSubterms(F: HeadFrame, nm: Names, start: Head, m: Head, l: Logic, xs: seq<Value>, rho: Solution, sigma: seq<Value>)
    requires Ended(F, nm, start, m, l) && GroundArgs(nm, start, F.cells, xs) && Solves(nm, start, rho)
    requires IsInstance(nm, F.head, sigma, xs)
    ensures forall v | v in l.env :: Ground(nm, start.w.heap, start.bind, l.env[v], Inst(nm, sigma, Var(v)))
  {
    StartGround(F, nm, start, xs);
    HeadIsComplete(F, nm, start, m, l);
    InstanceMatches(nm, start, rho, sigma, F.head, F.cells, xs);
    assert Extended(nm, start, m, l.env, rho, sigma);
    var rho' :| Agree(rho, rho', start.w.next) && Solves(nm, m, rho') && VarsMatch(nm, m, rho', sigma, l.env);
    assert StaysGround(nm, StartLogic(F, start), l);
    forall v | v in l.env ensures Ground(nm, start.w.heap, start.bind, l.env[v], Inst(nm, sigma, Var(v))) {
      assert IsGround(nm, l.heap, l.bind, l.env[v]) && VarMatches(nm, m, rho', sigma, l.env, v);
      var x :| Ground(nm, l.heap, l.bind, l.env[v], x);
      GroundStands(nm, l.heap, l.next, l.bind, rho', l.env[v], x);
      StandsUnique(nm, l.heap, rho', l.env[v], x, Inst(nm, sigma, Var(v)));
    }
  }
}
