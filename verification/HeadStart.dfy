/** Setting up the model before the head is compiled. */
module HeadStart {
  import opened Wam
  import opened VarTable
  import opened HeadMachine
  import opened HeadLogic
  import opened HeadFill
  import opened HeadModel

  /** How often `w` occurs in the arguments from `i` on. */
  function Occurrences(w: int, head: seq<Term>, i: nat): nat
    requires i <= |head|
    decreases |head| - i
  {
    if i == |head| then 0 else Tally(w, head[i]) + Occurrences(w, head, i + 1)
  }

  /** What `classify_vars` and `init_targets` leave in the table. */
  predicate Classified(F: HeadFrame, i: VarInf, v: nat)
    requires v < |F.total|
  {
    && i.usecnt == 0 && i.home == 0 && i.unsafe && F.total[v] <= i.noccurences
    && F.total[v] == Occurrences(v, F.head, 0)
    && (i.target != 0 ==> F.Adst <= i.target < F.Adst + |F.goal| && F.goal[i.target - F.Adst] == Var(v))
    && (i.pvnum != 0 ==> i.pvnum <= F.E - F.Eend && F.total[v] < i.noccurences && Var(v) !in F.head)
  }

  predicate SlotsDiffer(vtbl: seq<VarInf>, u: nat, v: nat)
    requires u < |vtbl| && v < |vtbl|
  {
    u != v && vtbl[u].pvnum != 0 ==> vtbl[u].pvnum != vtbl[v].pvnum
  }

  ghost predicate TableOk(F: HeadFrame, vtbl: seq<VarInf>) {
    && |vtbl| == |F.total|
    && (forall v: nat | v < |vtbl| :: Classified(F, vtbl[v], v))
    && (forall u: nat, v: nat | u < |vtbl| && v < |vtbl| :: SlotsDiffer(vtbl, u, v))
    && (forall v: nat | v >= |vtbl| :: Occurrences(v, F.head, 0) == 0)
  }

  ghost predicate StartOk(F: HeadFrame, nm: Names, m: Head) {
    && !m.failed && OkState(m) && Settled(m.bind) && Global(m) && FreshIds(m.w)
    && m.w.e == F.E && m.w.sp == F.SPstart && m.w.spb == F.spb && !m.w.open && !m.w.spilled
    && |F.cells| == |F.head|
    && (forall j: nat | j < |F.cells| :: CellGiven(F, m, j))
  }

  predicate CellGiven(F: HeadFrame, m: Head, j: nat)
    requires j < |F.cells|
  {
    Get(m.w.mem, ArgCell(F, j)) == F.cells[j] && OkCell(m.w.heap, m.w.next, F.cells[j])
  }

  function EntryOf(t: Term): Entry {
    match t
    case Var(v) => Vo(v)
    case _ => Other(t)
  }

  // ---- the arguments ----

  /** Argument `j` has been recorded. */
  predicate Recorded(F: HeadFrame, s: HeadState, j: nat)
    requires j < |F.head| && |F.head| == |F.cells| && |s.model| == ArgCell(F, |F.head|) && F.E >= 0
  {
    if FirstAt(F.head, j) then
      var v := F.head[j].v;
      && v < |s.vtbl| && s.vtbl[v].home == ArgCell(F, j) && s.vtbl[v].usecnt == 1
      && (s.vtbl[v].noccurences != 1 ==> s.model[ArgCell(F, j)] == Vo(v))
      && v in s.env && s.env[v] == F.cells[j]
    else s.model[ArgCell(F, j)] == EntryOf(F.head[j])
  }

  predicate VarPending(F: HeadFrame, vtbl0: seq<VarInf>, s: HeadState, i: nat, v: nat)
    requires i <= |F.head| && v < |s.vtbl| == |vtbl0|
  {
    && s.vtbl[v] == vtbl0[v].(home := s.vtbl[v].home, usecnt := s.vtbl[v].usecnt)
    && (Var(v) in F.head[..i] ==> v in s.env && s.vtbl[v].usecnt == 1)
    && (Var(v) !in F.head[..i] ==> v !in s.env && s.vtbl[v].usecnt == 0 && s.vtbl[v].home == 0)
  }

  ghost predicate Installed(F: HeadFrame, vtbl0: seq<VarInf>, s: HeadState, i: nat) {
    && F.Ok() && i <= |F.head| && |s.model| == F.N && |s.vtbl| == |vtbl0| && KnownVars(s.model, |s.vtbl|)
    && (forall v | v in s.env :: v < |s.vtbl|)
    && (forall j: nat | j < i :: Recorded(F, s, j))
    && (forall v: nat | v < |s.vtbl| :: VarPending(F, vtbl0, s, i, v))
  }

  /** What recording argument `i` does. */
  function Record(F: HeadFrame, s: HeadState, i: nat): HeadState
    requires F.Ok() && i < |F.head| && |s.model| == F.N && (F.head[i].Var? ==> F.head[i].v < |s.vtbl|)
  {
    var x := ArgCell(F, i);
    match F.head[i]
    case Var(v) =>
      if s.vtbl[v].pvnum == 0 && s.vtbl[v].home == 0 then
        var inf := s.vtbl[v].(home := x, usecnt := s.vtbl[v].usecnt + 1);
        s.(vtbl := s.vtbl[v := inf], model := s.model[x := if inf.usecnt == inf.noccurences then Nil else Vo(v)],
           env := s.env[v := F.cells[i]])
      else s.(model := s.model[x := Vo(v)])
    case t => s.(model := s.model[x := Other(t)])
  }

  lemma {:induction false} OccursAt(w: int, head: seq<Term>, i: nat, j: nat)
    requires i <= j < |head|
    ensures Tally(w, head[j]) <= Occurrences(w, head, i)
    decreases j - i
  {
    if i < j { OccursAt(w, head, i + 1, j); }
  }

  /** Variables of the head are in the table and are not permanent. */
  lemma VarInTable(F: HeadFrame, vtbl0: seq<VarInf>, j: nat)
    requires TableOk(F, vtbl0) && j < |F.head| && F.head[j].Var?
    ensures F.head[j].v < |vtbl0| && vtbl0[F.head[j].v].pvnum == 0
  {
    var v := F.head[j].v;
    OccursAt(v, F.head, 0, j);
    SimpleTally(F.head[j]);
    assert Tally(v, F.head[j]) == Unit(v, F.head[j]);
    if v < |vtbl0| { assert Classified(F, vtbl0[v], v); }
  }

  lemma FirstMeans(F: HeadFrame, vtbl0: seq<VarInf>, s: HeadState, i: nat)
    requires TableOk(F, vtbl0) && Installed(F, vtbl0, s, i) && i < |F.head| && F.head[i].Var?
    ensures var v := F.head[i].v; v < |s.vtbl| && (FirstAt(F.head, i) <==> s.vtbl[v].pvnum == 0 && s.vtbl[v].home == 0)
    ensures FirstAt(F.head, i) ==> F.head[i].v !in s.env && s.vtbl[F.head[i].v].usecnt == 0
  {
    var v := F.head[i].v;
    VarInTable(F, vtbl0, i);
    assert VarPending(F, vtbl0, s, i, v);
    if Var(v) in F.head[..i] {
      var j := FirstPlace(F.head, i, v);
      assert Recorded(F, s, j);
    }
  }

  lemma {:induction false} FirstPlace(head: seq<Term>, i: nat, v: nat) returns (j: nat)
    requires i <= |head| && Var(v) in head[..i]
    ensures j < i && head[j] == Var(v) && FirstAt(head, j)
    decreases i
  {
    if Var(v) in head[..i - 1] {
      j := FirstPlace(head, i - 1, v);
    } else {
      j := i - 1;
      assert head[..i][i - 1] == head[i - 1];
    }
  }

  lemma RecordInstalls(F: HeadFrame, vtbl0: seq<VarInf>, s: HeadState, i: nat)
    requires TableOk(F, vtbl0) && Installed(F, vtbl0, s, i) && i < |F.head| && F.E >= 0
    requires F.head[i].Var? ==> F.head[i].v < |s.vtbl|
    ensures Installed(F, vtbl0, Record(F, s, i), i + 1)
  {
    var s' := Record(F, s, i);
    var n := i + 1;
    assert F.head[..n] == F.head[..i] + [F.head[i]];
    if F.head[i].Var? { FirstMeans(F, vtbl0, s, i); }
    forall j: nat | j < n ensures Recorded(F, s', j) {
      if j < i {
        assert Recorded(F, s, j);
        if FirstAt(F.head, j) && F.head[i] == F.head[j] { assert F.head[..i][j] == F.head[j]; }
      }
    }
    forall v: nat | v < |s.vtbl| ensures VarPending(F, vtbl0, s', n, v) {
      assert VarPending(F, vtbl0, s, i, v);
    }
  }

  // ---- the equations ----

  function AllEqs(head: seq<Term>, cells: seq<Cell>): (eqs: seq<Equation>)
    requires |cells| == |head|
    ensures |eqs| == |head|
  {
    seq(|head|, j requires 0 <= j < |head| => (cells[j], head[j]))
  }

  /** The equations of the first `i` arguments that are not solved by giving a variable its home. */
  function Behind(head: seq<Term>, cells: seq<Cell>, i: nat): multiset<Equation>
    requires i <= |head| == |cells|
  {
    if i == 0 then multiset{} else Behind(head, cells, i - 1) + multiset(ArgEq(head, cells, i - 1))
  }

  lemma {:induction false} BehindAll(head: seq<Term>, cells: seq<Cell>, i: nat)
    requires i <= |head| == |cells|
    ensures Behind(head, cells, i) + multiset(RestEqs(head, cells, i)) == multiset(RestEqs(head, cells, 0))
  {
    if i > 0 {
      BehindAll(head, cells, i - 1);
      BehindMoves(Behind(head, cells, i - 1), ArgEq(head, cells, i - 1), RestEqs(head, cells, i));
    }
  }

  lemma BehindMoves(behind: multiset<Equation>, eq: seq<Equation>, rest: seq<Equation>)
    ensures behind + multiset(eq) + multiset(rest) == behind + multiset(eq + rest)
  {
  }

  function StartLogic(F: HeadFrame, m: Head): Logic
    requires |F.cells| == |F.head|
  {
    Logic(m.w.heap, m.w.next, m.bind, m.failed, map[], multiset(AllEqs(F.head, F.cells)))
  }

  lemma StartLogicOk(F: HeadFrame, nm: Names, m: Head)
    requires StartOk(F, nm, m)
    ensures Ok(StartLogic(F, m)) && Same(nm, StartLogic(F, m), StartLogic(F, m))
  {
    var l := StartLogic(F, m);
    var eqs := AllEqs(F.head, F.cells);
    forall p | p in l.pend ensures OkCell(l.heap, l.next, p.0) {
      assert p in eqs;
      var j: nat :| j < |eqs| && p == eqs[j];
      assert CellGiven(F, m, j);
    }
    SameRefl(nm, l);
  }

  /** The logic when argument `i` is recorded. */
  function RecordLogic(F: HeadFrame, l: Logic, i: nat): Logic
    requires i < |F.head| == |F.cells|
  {
    if FirstAt(F.head, i) then Named(l, F.head[i].v, (F.cells[i], F.head[i])) else l
  }

  lemma RecordFirst(F: HeadFrame, nm: Names, l0: Logic, l: Logic, i: nat, rest: multiset<Equation>, ahead: multiset<Equation>)
    requires i < |F.head| == |F.cells| && Same(nm, l0, l) && !l.failed && FirstAt(F.head, i) && F.head[i].v !in l.env
    requires l.pend == rest + (multiset{(F.cells[i], F.head[i])} + ahead)
    ensures Same(nm, l0, RecordLogic(F, l, i)) && RecordLogic(F, l, i).pend == rest + ahead
  {
    hide Same;
    var q := (F.cells[i], F.head[i]);
    SameOk(nm, l0, l);
    FirstSeen(nm, l, q);
    SameTrans(nm, l0, l, Named(l, F.head[i].v, q));
    OneLess(rest, ahead, q);
  }

  lemma BehindStep(head: seq<Term>, cells: seq<Cell>, i: nat, ahead: multiset<Equation>)
    requires i < |head| == |cells|
    ensures FirstAt(head, i) ==> Behind(head, cells, i + 1) == Behind(head, cells, i)
    ensures !FirstAt(head, i) ==>
              Behind(head, cells, i + 1) + ahead == Behind(head, cells, i) + (multiset{(cells[i], head[i])} + ahead)
  {
  }

  lemma RecordSame(F: HeadFrame, nm: Names, l0: Logic, l: Logic, i: nat)
    requires i < |F.head| == |F.cells| && Same(nm, l0, l) && !l.failed
    requires l.pend == Behind(F.head, F.cells, i) + Ahead(AllEqs(F.head, F.cells), i)
    requires FirstAt(F.head, i) ==> F.head[i].v !in l.env
    ensures Same(nm, l0, RecordLogic(F, l, i))
    ensures RecordLogic(F, l, i).pend == Behind(F.head, F.cells, i + 1) + Ahead(AllEqs(F.head, F.cells), i + 1)
  {
    hide Same, Ahead, AllEqs, Behind, FirstAt;
    var ahead := Ahead(AllEqs(F.head, F.cells), i + 1);
    EqAt(F.head, F.cells, i);
    AheadStep(AllEqs(F.head, F.cells), i);
    BehindStep(F.head, F.cells, i, ahead);
    if FirstAt(F.head, i) {
      RecordFirst(F, nm, l0, l, i, Behind(F.head, F.cells, i), ahead);
    }
  }

  lemma EqAt(head: seq<Term>, cells: seq<Cell>, i: nat)
    requires i < |head| == |cells|
    ensures AllEqs(head, cells)[i] == (cells[i], head[i])
  {
  }

  // ---- counting ----

  /** Occurrences are counted when they are met, except the first place of an argument. */
  lemma {:induction false} RestCounts(v: nat, head: seq<Term>, i: nat)
    requires i <= |head|
    ensures Occurrences(v, head, i) == RestTally(v, head, i) + if Var(v) in head && Var(v) !in head[..i] then 1 else 0
    decreases |head| - i
  {
    if i == |head| {
      assert head[..i] == head;
    } else {
      RestCounts(v, head, i + 1);
      assert head[..i + 1] == head[..i] + [head[i]];
      if head[i].Var? { SimpleTally(head[i]); }
    }
  }

  // ---- permanent variables and targets ----

  /** The model after `init_model`: arguments recorded, permanent variables at home in the
      environment, the cells for the first goal's arguments free. */
  ghost predicate Ready(F: HeadFrame, vtbl0: seq<VarInf>, s: HeadState, s': HeadState) {
    && F.Ok() && KnownVars(s'.model, |s'.vtbl|) && |s'.model| == |s.model| == F.N && |s'.vtbl| == |s.vtbl| == |vtbl0| && s'.env == s.env && s'.m == s.m && s'.sp == F.SPstart
    && (forall v: nat | v < |s.vtbl| :: PermPlaced(F, s, s', v))
    && (forall x | F.E + 2 <= x < F.N :: s'.model[x] == s.model[x])
    && (forall x | F.SPstart <= x < F.Eend :: s'.model[x] == Nil)
  }

  predicate PermPlaced(F: HeadFrame, s: HeadState, s': HeadState, v: nat)
    requires v < |s.vtbl| == |s'.vtbl| && |s'.model| == F.N
  {
    if s.vtbl[v].pvnum == 0 then s'.vtbl[v] == s.vtbl[v]
    else
      var x := F.E - s.vtbl[v].pvnum;
      0 <= x < F.N && s'.vtbl[v] == s.vtbl[v].(home := x) && s'.model[x] == Vo(v)
  }

  lemma FactsReady(F: HeadFrame, vtbl0: seq<VarInf>, s: HeadState, s': HeadState)
    requires Installed(F, vtbl0, s, |F.head|) && Ready(F, vtbl0, s, s')
    ensures SameFacts(vtbl0, s'.vtbl)
  {
    forall v: nat | v < |vtbl0| ensures SameFact(vtbl0[v], s'.vtbl[v]) {
      assert VarPending(F, vtbl0, s, |F.head|, v) && PermPlaced(F, s, s', v);
    }
  }

  lemma ReadyVar(F: HeadFrame, vtbl0: seq<VarInf>, s: HeadState, s': HeadState, v: nat)
    requires TableOk(F, vtbl0) && Installed(F, vtbl0, s, |F.head|) && Ready(F, vtbl0, s, s') && v < |s.vtbl|
    ensures VarOk(F, s', -1, v) && Left(F, s', v) == RestTally(v, F.head, 0)
    ensures v in s'.env <==> s'.vtbl[v].usecnt > 0
    ensures Var(v) in F.head ==> ArgCell(F, 0) <= s'.vtbl[v].home && s'.vtbl[v].usecnt == 1
  {
    assert Classified(F, vtbl0[v], v) && VarPending(F, vtbl0, s, |F.head|, v) && PermPlaced(F, s, s', v);
    RestCounts(v, F.head, 0);
    assert F.head[..|F.head|] == F.head;
    if Var(v) in F.head {
      var j := FirstPlace(F.head, |F.head|, v);
      assert Recorded(F, s, j);
    }
  }

  lemma ReadyArg(F: HeadFrame, vtbl0: seq<VarInf>, s: HeadState, s': HeadState, j: nat)
    requires TableOk(F, vtbl0) && Installed(F, vtbl0, s, |F.head|) && Ready(F, vtbl0, s, s') && j < |F.head|
    ensures ArgOk(F, s', 0, j)
  {
    assert Recorded(F, s, j);
    if F.head[j].Var? {
      var v := F.head[j].v;
      VarInTable(F, vtbl0, j);
      assert VarPending(F, vtbl0, s, |F.head|, v) && PermPlaced(F, s, s', v);
      assert F.head[..|F.head|] == F.head;
      if !FirstAt(F.head, j) {
        var i := FirstPlace(F.head, j, v);
        assert Recorded(F, s, i);
      }
    }
  }

  lemma ReadyHeld(F: HeadFrame, vtbl0: seq<VarInf>, nm: Names, s: HeadState, s': HeadState, v: nat)
    requires TableOk(F, vtbl0) && Installed(F, vtbl0, s, |F.head|) && Ready(F, vtbl0, s, s') && v < |s.vtbl|
    requires StartOk(F, nm, s.m)
    ensures |s'.model| == F.N && 0 < s'.sp && VarHeld(F, s', v)
  {
    ReadyVar(F, vtbl0, s, s', v);
    assert Classified(F, vtbl0[v], v) && VarPending(F, vtbl0, s, |F.head|, v) && PermPlaced(F, s, s', v);
    assert F.head[..|F.head|] == F.head;
    if Var(v) in F.head {
      var j := FirstPlace(F.head, |F.head|, v);
      assert Recorded(F, s, j) && CellGiven(F, s.m, j);
    }
  }

  lemma ReadyInv(F: HeadFrame, vtbl0: seq<VarInf>, nm: Names, s: HeadState, s': HeadState)
    requires TableOk(F, vtbl0) && Installed(F, vtbl0, s, |F.head|) && Ready(F, vtbl0, s, s') && StartOk(F, nm, s.m)
    ensures Inv(F, s', -1, 0)
    ensures forall v: nat :: RestTally(v, F.head, 0) == Left(F, s', v)
  {
    hide Installed, Ready, StartOk, VarOk, Left, ArgOk, TargetOk, VarHeld, Global;
    assert CompileOk(F, s', -1, 0) by {
      ReadyShape(F, vtbl0, s, s');
      forall v: nat | v < |s'.vtbl| ensures VarOk(F, s', -1, v) { ReadyVar(F, vtbl0, s, s', v); }
      forall j: nat | j < |F.head| ensures ArgOk(F, s', 0, j) { ReadyArg(F, vtbl0, s, s', j); }
    }
    assert RunOk(F, s') by {
      ReadyShape(F, vtbl0, s, s');
      ReadyRun(F, nm, s, s');
      forall v: nat | v < |s'.vtbl| ensures VarHeld(F, s', v) { ReadyHeld(F, vtbl0, nm, s, s', v); }
    }
    forall v: nat ensures RestTally(v, F.head, 0) == Left(F, s', v) {
      ReadyShape(F, vtbl0, s, s');
      if v < |s'.vtbl| { ReadyVar(F, vtbl0, s, s', v); } else { ReadyElse(F, vtbl0, s, s', v); }
    }
  }

  lemma ReadyElse(F: HeadFrame, vtbl0: seq<VarInf>, s: HeadState, s': HeadState, v: nat)
    requires TableOk(F, vtbl0) && Ready(F, vtbl0, s, s') && v >= |s'.vtbl|
    ensures RestTally(v, F.head, 0) == 0 == Left(F, s', v)
  {
    RestCounts(v, F.head, 0);
  }

  lemma ReadyShape(F: HeadFrame, vtbl0: seq<VarInf>, s: HeadState, s': HeadState)
    requires TableOk(F, vtbl0) && Installed(F, vtbl0, s, |F.head|) && Ready(F, vtbl0, s, s')
    ensures F.Ok() && |s'.model| == F.N && |s'.vtbl| == |s.vtbl| == |F.total| && s'.sp == F.SPstart && s'.m == s.m && KnownVars(s'.model, |s'.vtbl|)
    ensures forall v | v in s'.env :: v < |s'.vtbl|
    ensures forall x | F.SPstart <= x < F.Eend :: TargetOk(F, s', x)
  {
  }

  lemma ReadyRun(F: HeadFrame, nm: Names, s: HeadState, s': HeadState)
    requires StartOk(F, nm, s.m) && s'.m == s.m && s'.sp == F.SPstart
    ensures s'.m.w.e == F.E && s'.m.w.sp == s'.sp && s'.m.w.spb == F.spb && FreshIds(s'.m.w) && Global(s'.m) && !s'.m.w.open && !s'.m.w.spilled
    ensures forall j: nat | j < |F.cells| :: ArgHeld(F, s', j)
  {
    forall j: nat | j < |F.cells| ensures ArgHeld(F, s', j) { assert CellGiven(F, s.m, j); }
  }

  lemma InstalledShape(F: HeadFrame, vtbl0: seq<VarInf>, s: HeadState, i: nat)
    requires TableOk(F, vtbl0) && Installed(F, vtbl0, s, i) && i < |F.head|
    ensures F.Ok() && |s.model| == F.N && |s.vtbl| == |vtbl0|
    ensures F.head[i].Var? ==> F.head[i].v < |s.vtbl|
    ensures F.head[i].Var? ==> (FirstAt(F.head, i) <==> s.vtbl[F.head[i].v].pvnum == 0 && s.vtbl[F.head[i].v].home == 0)
    ensures FirstAt(F.head, i) ==> F.head[i].v !in s.env
  {
    if F.head[i].Var? { FirstMeans(F, vtbl0, s, i); }
  }
}
