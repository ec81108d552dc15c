/** What building one structure achieves, told apart from how the cells are managed.

    Subterms that are structures themselves are gathered first, in temporaries; then the
    slots of the structure are filled in order.  A permanent variable that is pushed to the
    heap while the slots are being filled displaces every later slot. */
module GoalBuild {
  import opened Wam
  import opened VarTable
  import opened GoalModel

  /** The separately built subterms from `i` on are ready in `cells`; `bad` is the one that
      a displacement has spoilt. */
  ghost predicate Gathered(s: State, kids: seq<Term>, cells: seq<Cell>, i: nat, before: bool, bad: int) {
    && i <= |kids| == |cells|
    && (!s.m.spilled ==> forall j | i <= j < |kids| && Built(kids[j]) :: Denotes(s.m.heap, cells[j], kids[j], s.env))
    && (s.m.spilled && !before ==>
          i <= bad < |kids| && Built(kids[bad]) && Refutes(s.m.heap, cells[bad], kids[bad], s.env))
  }

  /** The first `k` slots, from heap address `hb`, have been filled. */
  ghost predicate Filling(s: State, kids: seq<Term>, cells: seq<Cell>, hb: nat, k: nat, before: bool, bad: int) {
    && k <= |kids| == |cells| && hb + k <= |s.m.heap|
    && (!s.m.spilled ==>
          && |s.m.heap| == hb + k
          && (forall j | 0 <= j < k :: Denotes(s.m.heap, s.m.heap[hb + j], kids[j], s.env))
          && (forall j | k <= j < |kids| && Built(kids[j]) :: Denotes(s.m.heap, cells[j], kids[j], s.env)))
    && (s.m.spilled && !before ==>
          && 0 <= bad < |kids|
          && (if bad < k then Refutes(s.m.heap, s.m.heap[hb + bad], kids[bad], s.env)
              else |s.m.heap| == hb + k && Built(kids[bad]) && Refutes(s.m.heap, cells[bad], kids[bad], s.env)))
  }

  ghost predicate Grows(s: State, s': State) {
    s.m.heap <= s'.m.heap && Extends(s.env, s'.env) && (s.m.spilled ==> s'.m.spilled)
  }

  /** What setting up one term in cell `c` means. */
  ghost predicate Result(s': State, c: Cell, t: Term, before: bool) {
    && (!s'.m.spilled ==> Denotes(s'.m.heap, c, t, s'.env))
    && (s'.m.spilled && !before ==> Refutes(s'.m.heap, c, t, s'.env))
  }

  lemma GatherStart(s: State, kids: seq<Term>, cells: seq<Cell>)
    requires |kids| == |cells|
    ensures Gathered(s, kids, cells, |kids|, s.m.spilled, 0)
  {
  }

  lemma GatheredSizes(s: State, kids: seq<Term>, cells: seq<Cell>, i: nat, before: bool, bad: int)
    requires Gathered(s, kids, cells, i, before, bad)
    ensures |cells| == |kids|
  {
  }

  lemma KidStep(t: Term, k: nat)
    requires k < |Kids(t)|
    ensures forall w :: BuiltTally(w, t, k + 1) == BuiltTally(w, t, k) + if Built(Kids(t)[k]) then Tally(w, Kids(t)[k]) else 0
    ensures Kids(t)[k] < t
  {
  }

  lemma GatherSkip(s: State, kids: seq<Term>, cells: seq<Cell>, i: nat, before: bool, bad: int, c: Cell)
    requires i > 0 && Gathered(s, kids, cells, i, before, bad) && !Built(kids[i - 1])
    ensures Gathered(s, kids, cells[i - 1 := c], i - 1, before, bad)
  {
  }

  lemma GatherStep(s: State, s': State, kids: seq<Term>, cells: seq<Cell>, i: nat, before: bool, bad: int, c: Cell)
    returns (bad': int)
    requires i > 0 && Gathered(s, kids, cells, i, before, bad) && Built(kids[i - 1]) && Grows(s, s')
    requires before ==> s.m.spilled
    requires Result(s', c, kids[i - 1], s.m.spilled)
    ensures Gathered(s', kids, cells[i - 1 := c], i - 1, before, bad')
  {
    bad' := if s.m.spilled then bad else i - 1;
    forall j | i <= j < |kids|
      ensures Denotes(s.m.heap, cells[j], kids[j], s.env) ==> Denotes(s'.m.heap, cells[j], kids[j], s'.env)
      ensures Refutes(s.m.heap, cells[j], kids[j], s.env) ==> Refutes(s'.m.heap, cells[j], kids[j], s'.env)
    {
      DenotesGrows(s.m.heap, s'.m.heap, cells[j], kids[j], s.env, s'.env);
    }
  }

  /** Subterm `k` has been dealt with. */
  lemma KidAdded(F: Frame, s0: State, s: State, s': State, t: Term, stack: seq<int>, stack': seq<int>, tdbase: nat,
                 cells: seq<Cell>, k: nat, r: int, c: Cell, bad0: int) returns (bad: int)
    requires k < |Kids(t)| && KidsReady(F, s0, s, stack, tdbase, Kids(t), cells, k + 1)
    requires Builds(F, s0, s) && Builds(F, s, s') && KidReady(F, s, s', r, Kids(t)[k], c)
    requires tdbase + |Kids(t)| <= |stack| == |stack'|
    requires stack'[..tdbase + |Kids(t)|] == stack[..tdbase + |Kids(t)|][tdbase + k := r]
    requires forall v: nat :: Left(F, s, v) == Left(F, s0, v) - BuiltTally(v, t, |Kids(t)|) + BuiltTally(v, t, k + 1)
    requires if Built(Kids(t)[k]) then forall v: nat :: Left(F, s', v) == Left(F, s, v) - Tally(v, Kids(t)[k]) else s' == s
    requires Gathered(s, Kids(t), cells, k + 1, s0.m.spilled, bad0)
    requires Built(Kids(t)[k]) ==> Result(s', c, Kids(t)[k], s.m.spilled)
    ensures Builds(F, s0, s')
    ensures KidsReady(F, s0, s', stack', tdbase, Kids(t), cells[k := c], k)
    ensures forall v: nat :: Left(F, s', v) == Left(F, s0, v) - BuiltTally(v, t, |Kids(t)|) + BuiltTally(v, t, k)
    ensures Gathered(s', Kids(t), cells[k := c], k, s0.m.spilled, bad)
  {
    hide Inv, Left, Tally, KidsReady, KeepsBuilt, BuiltTally;
    forall j | tdbase <= j < tdbase + |Kids(t)| ensures stack'[j] == if j == tdbase + k then r else stack[j] {
      assert stack'[j] == stack'[..tdbase + |Kids(t)|][j];
    }
    KidGathered(F, s0, s, s', t, stack, stack', tdbase, cells, k + 1, r, c);
    if Built(Kids(t)[k]) {
      bad := GatherStep(s, s', Kids(t), cells, k + 1, s0.m.spilled, bad0, c);
    } else {
      GatherSkip(s, Kids(t), cells, k + 1, s0.m.spilled, bad0, c);
      bad := bad0;
    }
  }

  /** The head of the structure is put down. */
  lemma StartFilling(s: State, s': State, kids: seq<Term>, cells: seq<Cell>, before: bool, bad: int)
    requires Gathered(s, kids, cells, 0, before, bad) && Grows(s, s') && s'.m.spilled == s.m.spilled
    ensures Filling(s', kids, cells, |s'.m.heap|, 0, before, bad)
  {
    forall j | 0 <= j < |kids|
      ensures Denotes(s.m.heap, cells[j], kids[j], s.env) ==> Denotes(s'.m.heap, cells[j], kids[j], s'.env)
      ensures Refutes(s.m.heap, cells[j], kids[j], s.env) ==> Refutes(s'.m.heap, cells[j], kids[j], s'.env)
    {
      DenotesGrows(s.m.heap, s'.m.heap, cells[j], kids[j], s.env, s'.env);
    }
  }

  lemma FillingGrows(s: State, s': State, kids: seq<Term>, cells: seq<Cell>, hb: nat, k: nat)
    requires Grows(s, s') && k <= |kids| == |cells| && hb + k <= |s.m.heap|
    ensures forall j | 0 <= j < k ::
              && s'.m.heap[hb + j] == s.m.heap[hb + j]
              && (Denotes(s.m.heap, s.m.heap[hb + j], kids[j], s.env) ==>
                    Denotes(s'.m.heap, s'.m.heap[hb + j], kids[j], s'.env))
              && (Refutes(s.m.heap, s.m.heap[hb + j], kids[j], s.env) ==>
                    Refutes(s'.m.heap, s'.m.heap[hb + j], kids[j], s'.env))
    ensures forall j | k <= j < |kids| ::
              && (Denotes(s.m.heap, cells[j], kids[j], s.env) ==> Denotes(s'.m.heap, cells[j], kids[j], s'.env))
              && (Refutes(s.m.heap, cells[j], kids[j], s.env) ==> Refutes(s'.m.heap, cells[j], kids[j], s'.env))
  {
    forall j | 0 <= j < k
      ensures Denotes(s.m.heap, s.m.heap[hb + j], kids[j], s.env) ==>
                Denotes(s'.m.heap, s.m.heap[hb + j], kids[j], s'.env)
      ensures Refutes(s.m.heap, s.m.heap[hb + j], kids[j], s.env) ==>
                Refutes(s'.m.heap, s.m.heap[hb + j], kids[j], s'.env)
    {
      DenotesGrows(s.m.heap, s'.m.heap, s.m.heap[hb + j], kids[j], s.env, s'.env);
    }
    forall j | k <= j < |kids|
      ensures Denotes(s.m.heap, cells[j], kids[j], s.env) ==> Denotes(s'.m.heap, cells[j], kids[j], s'.env)
      ensures Refutes(s.m.heap, cells[j], kids[j], s.env) ==> Refutes(s'.m.heap, cells[j], kids[j], s'.env)
    {
      DenotesGrows(s.m.heap, s'.m.heap, cells[j], kids[j], s.env, s'.env);
    }
  }

  /** Slot `k` is filled with a subterm that was built before. */
  lemma FillBuilt(s: State, s': State, kids: seq<Term>, cells: seq<Cell>, hb: nat, k: nat, before: bool, bad: int)
    requires Filling(s, kids, cells, hb, k, before, bad) && k < |kids| && Built(kids[k])
    requires s'.m.heap == s.m.heap + [cells[k]] && s'.env == s.env && s'.m.spilled == s.m.spilled
    ensures Filling(s', kids, cells, hb, k + 1, before, bad)
  {
    FillingGrows(s, s', kids, cells, hb, k);
  }

  /** Slot `k` is filled with a variable or a constant. */
  lemma FillLeaf(s: State, s': State, kids: seq<Term>, cells: seq<Cell>, hb: nat, k: nat, before: bool, bad: int)
    returns (bad': int)
    requires Filling(s, kids, cells, hb, k, before, bad) && k < |kids| && !Built(kids[k]) && Grows(s, s')
    requires before ==> s.m.spilled
    requires Appended(s.m.heap, s'.m, kids[k], s'.env)
    requires |s'.m.heap| == |s.m.heap| + 1 ==> s'.m.spilled == s.m.spilled
    ensures Filling(s', kids, cells, hb, k + 1, before, bad')
  {
    bad' := if |s.m.heap| == hb + k && |s'.m.heap| > |s.m.heap| + 1 then k else bad;
    FillingGrows(s, s', kids, cells, hb, k);
  }

  /** All slots are filled. */
  lemma AllFilled(s: State, t: Term, c: Cell, cells: seq<Cell>, before: bool, bad: int)
    requires Compound(t) && HeadMatches(s.m.heap, c, t)
    requires Filling(s, Kids(t), cells, ArgBase(c), |Kids(t)|, before, bad)
    ensures Result(s, c, t, before)
  {
  }

  /** The cell written by the first instruction of a term; a structure's slots come next. */
  predicate HeadOk(h: seq<Cell>, c: Cell, t: Term) {
    if t.Uia? then c == CUia(t.name) else HeadMatches(h, c, t) && ArgBase(c) == |h|
  }

  lemma LeafDenotes(s: State, c: Cell, t: Term, before: bool)
    requires Built(t) && !Compound(t) && HeadOk(s.m.heap, c, t)
    requires s.m.spilled ==> before
    ensures Result(s, c, t, before)
  {
  }

  lemma HeadStays(h: seq<Cell>, h': seq<Cell>, c: Cell, t: Term)
    requires h <= h' && HeadMatches(h, c, t)
    ensures HeadMatches(h', c, t)
  {
  }

  lemma BuildsGrows(F: Frame, s: State, s': State)
    requires Builds(F, s, s')
    ensures Grows(s, s')
  {
  }

  /** The end of a structure changes nothing but the machine's mode. */
  lemma Ended(F: Frame, s0: State, s: State, s': State, t: Term, c: Cell, before: bool)
    requires Inv(F, s, -1) && Builds(F, s0, s) && s' == s.(m := s.m.(open := false)) && Result(s, c, t, before)
    ensures Inv(F, s', -1) && Builds(F, s0, s') && Room(s') == Room(s) && Result(s', c, t, before)
    ensures s0.m.spilled ==> s'.m.spilled
    ensures forall v: nat :: Left(F, s', v) == Left(F, s, v)
  {
    QuietInv(F, s, s'.m);
    BuildsQuiet(F, s0, s, s'.m);
  }

  lemma EndedReady(F: Frame, s0: State, s: State, s': State, t: Term, r: int, c: Cell)
    requires |s.model| == |s0.model| == F.N && KidReady(F, s0, s, r, t, c) && s' == s.(m := s.m.(open := false))
    ensures KidReady(F, s0, s', r, t, c)
  {
  }

  /** The slots can be filled, with the subterms' temporaries counted as given back. */
  lemma ReadyToFill(F: Frame, s0: State, s1: State, s2: State, stack: seq<int>, tdbase: nat, t: Term, cells: seq<Cell>,
                    bad0: int)
    requires Inv(F, s2, -1) && Builds(F, s0, s1) && Builds(F, s1, s2) && s2.m.spilled == s1.m.spilled
    requires KidsReady(F, s0, s1, stack, tdbase, Kids(t), cells, 0)
    requires Gathered(s1, Kids(t), cells, 0, s0.m.spilled, bad0)
    ensures tdbase + |Kids(t)| <= |stack|
    ensures var g := Given(F, s2, stack, tdbase, |Kids(t)|);
            && Builds(F, g, s2) && KidsReady(F, g, s2, stack, tdbase, Kids(t), cells, 0)
            && (Calm(F, s0, t) ==> Calm(F, g, t))
    ensures Filling(s2, Kids(t), cells, |s2.m.heap|, 0, s0.m.spilled, bad0) && (s0.m.spilled ==> s2.m.spilled)
  {
    BuildsGrows(F, s0, s1);
    hide Inv, Builds, Calm, Gathered, Filling, KidReady, Given;
    KidsStayReady(F, s0, s1, s2, stack, tdbase, Kids(t), cells, 0);
    BuildsTrans(F, s0, s1, s2);
    GivenReady(F, s0, s2, stack, tdbase, Kids(t), cells);
    if Calm(F, s0, t) { CalmGiven(F, s0, s2, stack, tdbase, t); }
    BuildsGrows(F, s1, s2);
    StartFilling(s1, s2, Kids(t), cells, s0.m.spilled, bad0);
  }

  /** The structure in `r` is finished. */
  lemma StructureEnded(F: Frame, s0: State, s1: State, s2: State, s3: State, s4: State, stack: seq<int>, tdbase: nat,
                       cells: seq<Cell>, r: int, t: Term, temp: bool, bad: int)
    requires Inv(F, s0, -1) && Inv(F, s3, -1) && Builds(F, s0, s1) && Builds(F, s1, s2)
    requires KidsReady(F, s0, s1, stack, tdbase, Kids(t), cells, 0) && s4 == s3.(m := s3.m.(open := false))
    requires Builds(F, Given(F, s2, stack, tdbase, |Kids(t)|), s3) && Compound(t) && s2.m.heap <= s3.m.heap
    requires var c := Get(s2.m.mem, r - F.gap);
             && HeadOk(s2.m.heap, c, t) && ArgBase(c) == |s2.m.heap|
             && Filling(s3, Kids(t), cells, ArgBase(c), |Kids(t)|, s0.m.spilled, bad)
             && if temp then KidReady(F, s1, s2, r, t, c) else r in s2.placed
    ensures Inv(F, s4, -1) && Builds(F, s0, s4) && Room(s4) == Room(s3)
    ensures temp ==> |s4.model| == |s0.model| == F.N && KidReady(F, s0, s4, r, t, Get(s4.m.mem, r - F.gap))
    ensures Result(s4, Get(s4.m.mem, r - F.gap), t, s0.m.spilled) && (s0.m.spilled ==> s4.m.spilled)
    ensures forall v: nat :: Left(F, s4, v) == Left(F, s3, v)
  {
    hide Inv, Builds, KidsReady, KidReady, Given, Filling, Result, Room, Left, Denotes, Refutes, Kids;
    var c := Get(s2.m.mem, r - F.gap);
    ShapeOf(F, s0, -1);
    ShapeOf(F, s3, -1);
    HeadStays(s2.m.heap, s3.m.heap, c, t);
    AllFilled(s3, t, c, cells, s0.m.spilled, bad);
    StructureDone(F, s0, s1, s2, s3, stack, tdbase, cells, r, t, c, temp);
    Ended(F, s0, s3, s4, t, c, s0.m.spilled);
    if temp { EndedReady(F, s0, s3, s4, t, r, c); }
  }

  // ---- whole goals ----

  /** Cells that the arguments of one kind may take from the stack: those set up first, the
      non-variables, or the variables. */
  function ArgSize(args: seq<Term>, i: nat, vars: bool): nat
    requires i <= |args|
  {
    if i == 0 then 0 else ArgSize(args, i - 1, vars) + if args[i - 1].Var? == vars then Size(args[i - 1]) else 0
  }

  lemma {:induction false} ArgSizeMonotone(args: seq<Term>, i: nat, j: nat, vars: bool)
    requires i <= j <= |args|
    ensures ArgSize(args, i, vars) <= ArgSize(args, j, vars)
    decreases j
  {
    if i < j { ArgSizeMonotone(args, i, j - 1, vars); }
  }

  lemma {:induction false} ArgSizes(t: Term, i: nat)
    requires i <= |Kids(t)|
    ensures ArgSize(Kids(t), i, false) + ArgSize(Kids(t), i, true)
              == BuiltTally(-1, t, i) + i - BuiltBelow(Kids(t), i)
  {
    if i > 0 {
      ArgSizes(t, i - 1);
      if !Built(Kids(t)[i - 1]) { SimpleTally(Kids(t)[i - 1]); }
    }
  }

  /** The goal has a node for every cell its arguments may take. */
  lemma ArgsFit(goal: Term)
    ensures ArgSize(Kids(goal), |Kids(goal)|, false) + ArgSize(Kids(goal), |Kids(goal)|, true) < Size(goal)
  {
    ArgSizes(goal, |Kids(goal)|);
    LeafShare(Kids(goal), 0);
  }

  /** What is left covers the next non-variable argument. */
  lemma ArgFits(goal: Term, i: nat, vars: bool)
    requires i < |Kids(goal)|
    ensures Built(Kids(goal)[i]) ==>
              forall v: nat :: Tally(v, Kids(goal)[i]) <= Tally(v, goal) - BuiltTally(v, goal, i)
    ensures Kids(goal)[i].Var? == vars ==>
              ArgSize(Kids(goal), i, vars) + Size(Kids(goal)[i]) == ArgSize(Kids(goal), i + 1, vars)
                <= ArgSize(Kids(goal), |Kids(goal)|, vars)
    ensures !Compound(Kids(goal)[i]) ==> Size(Kids(goal)[i]) == 1
  {
    ArgSizeMonotone(Kids(goal), i + 1, |Kids(goal)|, vars);
    if Built(Kids(goal)[i]) {
      forall v: nat ensures Tally(v, Kids(goal)[i]) <= Tally(v, goal) - BuiltTally(v, goal, i) {
        BuiltMonotone(v, goal, i + 1, |Kids(goal)|);
      }
    }
    if !Compound(Kids(goal)[i]) { SimpleTally(Kids(goal)[i]); }
  }

  lemma ArgSizeStart(args: seq<Term>)
    ensures ArgSize(args, 0, false) == ArgSize(args, 0, true) == 0
  {
  }

  lemma ArgSizeStep(args: seq<Term>, i: nat, vars: bool)
    requires i < |args|
    ensures args[i].Var? != vars ==> ArgSize(args, i + 1, vars) == ArgSize(args, i, vars)
  {
  }

  lemma GoalTallies(goal: Term)
    requires goal.Struct?
    ensures forall v: nat :: Tally(v, goal) == Tally(v, goal) - BuiltTally(v, goal, 0)
    ensures forall v: nat :: Tally(v, goal) - BuiltTally(v, goal, |goal.args|) == LeafTally(v, goal.args, 0)
  {
  }

  lemma BuiltStep(goal: Term, i: nat)
    requires goal.Struct? && i < |goal.args|
    ensures forall v: nat :: BuiltTally(v, goal, i + 1)
                               == BuiltTally(v, goal, i) + if Built(goal.args[i]) then Tally(v, goal.args[i]) else 0
  {
  }

  lemma LeafStep(args: seq<Term>, k: nat)
    requires k < |args|
    ensures forall v: nat :: LeafTally(v, args, k) == LeafTally(v, args, k + 1) + if args[k].Var? then Unit(v, args[k]) else 0
  {
  }

  lemma LeafEnd(args: seq<Term>)
    ensures forall v: nat :: LeafTally(v, args, |args|) == 0
  {
  }

  lemma VarPending(F: Frame, s: State, k: nat)
    requires Inv(F, s, -1) && k < |F.args| && F.args[k].Var? && F.Adst + k !in s.placed
    requires forall v: nat :: Left(F, s, v) == LeafTally(v, F.args, k)
    ensures Pending(F, s, F.args[k].v, F.Adst + k)
  {
    assert Left(F, s, F.args[k].v) >= 1;
  }

  /** Which argument cells are finished: the first `i` non-variables, then the first `k` variables. */
  ghost predicate Finished(F: Frame, s: State, i: nat, k: nat) {
    forall x :: x in s.placed <==>
      F.Adst <= x < F.Adst + |F.args| && (if ArgAt(F, x).Var? then x < F.Adst + k else x < F.Adst + i)
  }

  lemma NothingFinished(F: Frame, s: State)
    requires s.placed == {} && !s.m.spilled
    ensures Finished(F, s, 0, 0) && ArgsDone(F, s, 0)
  {
  }

  lemma NextUnfinished(F: Frame, s: State, i: nat, k: nat)
    requires Finished(F, s, i, k) && i <= |F.args| && k <= |F.args|
    ensures k == 0 ==> NoVarPlaced(F, s)
    ensures i < |F.args| && !F.args[i].Var? ==> F.Adst + i !in s.placed
    ensures k < |F.args| && F.args[k].Var? ==> F.Adst + k !in s.placed
  {
  }

  lemma OneMoreFinished(F: Frame, s: State, s': State, i: nat, k: nat)
    requires Finished(F, s, i, k)
    ensures i < |F.args| && s'.placed == (if F.args[i].Var? then s.placed else s.placed + {F.Adst + i}) ==>
              Finished(F, s', i + 1, k)
    ensures k < |F.args| && s'.placed == (if F.args[k].Var? then s.placed + {F.Adst + k} else s.placed) ==>
              Finished(F, s', i, k + 1)
  {
  }

  /** The finished non-variable arguments stand for their terms; after a displacement, `bad` does not. */
  ghost predicate ArgsDone(F: Frame, s: State, bad: int) {
    && (!s.m.spilled ==> forall x | x in s.placed && !ArgAt(F, x).Var? :: ArgDone(F, s, x))
    && (s.m.spilled ==> bad in s.placed && !ArgAt(F, bad).Var? &&
                        Refutes(s.m.heap, Get(s.m.mem, bad - F.gap), ArgAt(F, bad), s.env))
  }

  ghost predicate ArgDone(F: Frame, s: State, x: int) {
    Denotes(s.m.heap, Get(s.m.mem, x - F.gap), ArgAt(F, x), s.env)
  }

  lemma ArgsStayDone(F: Frame, s: State, s': State, bad: int)
    requires ArgsDone(F, s, bad) && Builds(F, s, s')
    ensures !s'.m.spilled ==> forall x | x in s.placed && !ArgAt(F, x).Var? :: ArgDone(F, s', x)
    ensures s.m.spilled ==> bad in s'.placed && Refutes(s'.m.heap, Get(s'.m.mem, bad - F.gap), ArgAt(F, bad), s'.env)
  {
    forall x | x in s.placed ensures ArgDone(F, s, x) ==> ArgDone(F, s', x)
                             ensures Refutes(s.m.heap, Get(s.m.mem, x - F.gap), ArgAt(F, x), s.env) ==>
                                       x in s'.placed && Refutes(s'.m.heap, Get(s'.m.mem, x - F.gap), ArgAt(F, x), s'.env)
    {
      assert SameArgument(F, s, s', x);
      DenotesGrows(s.m.heap, s'.m.heap, Get(s.m.mem, x - F.gap), ArgAt(F, x), s.env, s'.env);
    }
  }

  /** One more non-variable argument is finished. */
  lemma ArgAdded(F: Frame, s: State, s': State, bad: int, loc: int, t: Term) returns (bad': int)
    requires ArgsDone(F, s, bad) && Builds(F, s, s') && s'.placed == s.placed + {loc}
    requires ArgAt(F, loc) == t && !t.Var? && Result(s', Get(s'.m.mem, loc - F.gap), t, s.m.spilled)
    ensures ArgsDone(F, s', bad')
  {
    hide Denotes, Refutes, KeepsBuilt;
    ArgsStayDone(F, s, s', bad);
    bad' := if s.m.spilled then bad else loc;
  }

  lemma VarAdded(F: Frame, s: State, s': State, bad: int, loc: int)
    requires ArgsDone(F, s, bad) && Builds(F, s, s') && s'.placed == s.placed + {loc} && ArgAt(F, loc).Var?
    requires s'.m.spilled == s.m.spilled
    ensures ArgsDone(F, s', bad)
  {
    ArgsStayDone(F, s, s', bad);
  }

  /** When all arguments are finished, they are right exactly when nothing was displaced; the
      variables among them are right in any case. */
  lemma GoalResult(F: Frame, s: State, bad: int)
    requires Inv(F, s, -1) && ArgsDone(F, s, bad) && Finished(F, s, |F.args|, |F.args|)
    ensures (forall i | 0 <= i < |F.args| :: Denotes(s.m.heap, Get(s.m.mem, F.Adst + i - F.gap), F.args[i], s.env))
            <==> !s.m.spilled
    ensures forall i | 0 <= i < |F.args| && F.args[i].Var? ::
              Denotes(s.m.heap, Get(s.m.mem, F.Adst + i - F.gap), F.args[i], s.env)
    ensures s.m.spilled ==>
              exists i | 0 <= i < |F.args| && !F.args[i].Var? ::
                Refutes(s.m.heap, Get(s.m.mem, F.Adst + i - F.gap), F.args[i], s.env)
  {
    hide Refutes;
    forall i | 0 <= i < |F.args| && (F.args[i].Var? || !s.m.spilled)
      ensures Denotes(s.m.heap, Get(s.m.mem, F.Adst + i - F.gap), F.args[i], s.env)
    {
      var x := F.Adst + i;
      assert ArgAt(F, x) == F.args[i] && x in s.placed;
      if F.args[i].Var? { assert PlacedOk(F, s, x); } else { assert ArgDone(F, s, x); }
    }
    if s.m.spilled {
      assert PlacedOk(F, s, bad);
      var i := bad - F.Adst;
      assert F.Adst + i - F.gap == bad - F.gap;
      NotBoth(s.m.heap, Get(s.m.mem, F.Adst + i - F.gap), F.args[i], s.env);
    }
  }

  /** What is still needed after the goal is where it was, in the part of the environment that survives. */
  lemma Survives(F: Frame, s0: State, s: State, v: nat)
    requires Inv(F, s0, -1) && Inv(F, s, -1) && Builds(F, s0, s) && v < |s.vtbl| == |s0.vtbl|
    requires Left(F, s, v) == 0 && Live(s.vtbl[v])
    ensures Home(s, v) == Home(s0, v) >= F.Top && v in s.env && Get(s.m.mem, Home(s, v)) == s.env[v]
  {
    assert VarOk(F, s0, -1, v) && VarOk(F, s, -1, v) && SameVar(F, s0, s, v);
    assert Home(s, v) in s.placed ==> PlacedOk(F, s, Home(s, v));
    if F.Base() <= Home(s, v) < F.E { assert CellOk(F, s, Home(s, v)); }
  }

  lemma AllSurvive(F: Frame, s0: State, s: State)
    requires Inv(F, s0, -1) && Inv(F, s, -1) && Builds(F, s0, s)
    requires forall v: nat :: Left(F, s, v) == 0
    ensures |s.vtbl| == |s0.vtbl|
    ensures forall v: nat | v < |s.vtbl| && Live(s.vtbl[v]) ::
              Home(s, v) == Home(s0, v) >= F.Top && v in s.env && Get(s.m.mem, Home(s, v)) == s.env[v]
  {
    forall v: nat | v < |s.vtbl| && Live(s.vtbl[v])
      ensures Home(s, v) == Home(s0, v) >= F.Top && v in s.env && Get(s.m.mem, Home(s, v)) == s.env[v]
    {
      Survives(F, s0, s, v);
    }
  }
}
