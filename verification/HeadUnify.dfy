/** There is a unification that does what the head's instructions ask of it. */
module HeadUnify {
  import opened Wam
  import opened HeadMachine

  /** The bindings afterwards leave the solutions in which `a` and `b` have one value. */
  ghost predicate Joins(nm: Names, h: seq<Cell>, n: nat, locals: set<nat>, bind: Bindings, a: Cell, b: Cell, bind': Bindings) {
    && OkBind(h, n, bind') && Settled(bind')
    && (forall r :: JoinsAt(nm, h, n, bind, a, b, bind', r))
    && (IsGround(nm, h, bind, a) && IsGround(nm, h, bind, b) ==> bind' == bind)
    && (NoStackRefs(locals, bind) ==> NoStackRefs(locals, bind'))
  }

  ghost predicate JoinsAt(nm: Names, h: seq<Cell>, n: nat, bind: Bindings, a: Cell, b: Cell, bind': Bindings, r: Solution) {
    Satisfies(nm, h, n, bind', r) <==> Satisfies(nm, h, n, bind, r) && Meet(nm, h, r, a, b)
  }

  ghost predicate Start(nm: Names, h: seq<Cell>, n: nat, bind: Bindings, rho: Solution) {
    OkHeap(h, n) && OkBind(h, n, bind) && Settled(bind) && Satisfies(nm, h, n, bind, rho)
  }

  lemma MeetDeref(nm: Names, h: seq<Cell>, n: nat, bind: Bindings, r: Solution, a: Cell, b: Cell)
    requires Satisfies(nm, h, n, bind, r)
    ensures Meet(nm, h, r, a, b) <==> Meet(nm, h, r, Deref(bind, a), Deref(bind, b))
  {
    hide Satisfies, Stands;
    if Meet(nm, h, r, a, b) {
      var x :| Stands(nm, h, r, a, x) && Stands(nm, h, r, b, x);
      DerefSame(nm, h, n, bind, r, a, x);
      DerefSame(nm, h, n, bind, r, b, x);
    }
    if Meet(nm, h, r, Deref(bind, a), Deref(bind, b)) {
      var x :| Stands(nm, h, r, Deref(bind, a), x) && Stands(nm, h, r, Deref(bind, b), x);
      DerefSame(nm, h, n, bind, r, a, x);
      DerefSame(nm, h, n, bind, r, b, x);
    }
  }

  /** An unbound variable is bound to the other cell. */
  lemma JoinVar(nm: Names, h: seq<Cell>, n: nat, locals: set<nat>, bind: Bindings, id: nat, d: Cell) returns (bind': Bindings)
    requires OkBind(h, n, bind) && Settled(bind) && id !in bind && id < n && OkCell(h, n, d) && Unbound(bind, d)
    ensures Joins(nm, h, n, locals, bind, CVar(id), d, bind') && Joins(nm, h, n, locals, bind, d, CVar(id), bind')
  {
    var i, k := id, d;
    if d == CVar(id) {
      bind' := bind;
    } else if d.CVar? && id !in locals && d.id in locals {
      i, k := d.id, CVar(id);
      bind' := bind[i := k];
      BoundSettled(bind, i, k);
    } else {
      bind' := bind[i := k];
      BoundSettled(bind, i, k);
    }
    VarNotGround(nm, h, bind, CVar(id));
    hide Settled, Ground, OkCell;
    forall r ensures JoinsAt(nm, h, n, bind, CVar(id), d, bind', r) && JoinsAt(nm, h, n, bind, d, CVar(id), bind', r) {
      if d != CVar(id) { BoundSatisfies(nm, h, n, bind, r, i, k); }
      MeetVar(nm, h, n, bind, r, id, d);
    }
  }

  lemma VarNotGround(nm: Names, h: seq<Cell>, bind: Bindings, c: Cell)
    requires Deref(bind, c).CVar?
    ensures !IsGround(nm, h, bind, c)
  {
  }

  lemma MeetVar(nm: Names, h: seq<Cell>, n: nat, bind: Bindings, r: Solution, id: nat, d: Cell)
    requires id < n
    ensures Satisfies(nm, h, n, bind, r) ==> (Meet(nm, h, r, CVar(id), d) <==> Stands(nm, h, r, d, r[id]))
    ensures Satisfies(nm, h, n, bind, r) ==> (Meet(nm, h, r, d, CVar(id)) <==> Stands(nm, h, r, d, r[id]))
    ensures Satisfies(nm, h, n, bind, r) && d.CVar? && d.id < n ==>
              (Stands(nm, h, r, d, r[id]) <==> Stands(nm, h, r, CVar(id), r[d.id]))
    ensures Satisfies(nm, h, n, bind, r) ==> Stands(nm, h, r, CVar(id), r[id])
  {
    if Satisfies(nm, h, n, bind, r) && Stands(nm, h, r, d, r[id]) {
      assert Stands(nm, h, r, CVar(id), r[id]);
    }
  }

  // ---- structures ----

  ghost predicate MeetAt(nm: Names, h: seq<Cell>, r: Solution, da: Cell, db: Cell, j: nat)
    requires ArgBase(da) + j < |h| && ArgBase(db) + j < |h|
  {
    Meet(nm, h, r, PartCell(h, da, j), PartCell(h, db, j))
  }

  /** The first `k` parts have common values. */
  ghost predicate PartsMeet(nm: Names, h: seq<Cell>, r: Solution, da: Cell, db: Cell, k: nat)
    requires ArgBase(da) + k <= |h| && ArgBase(db) + k <= |h|
  {
    forall j: nat | j < k :: MeetAt(nm, h, r, da, db, j)
  }

  ghost predicate GroundAt(nm: Names, h: seq<Cell>, bind: Bindings, da: Cell, db: Cell, j: nat)
    requires ArgBase(da) + j < |h| && ArgBase(db) + j < |h|
  {
    IsGround(nm, h, bind, PartCell(h, da, j)) && IsGround(nm, h, bind, PartCell(h, db, j))
  }

  ghost predicate PartsGround(nm: Names, h: seq<Cell>, bind: Bindings, da: Cell, db: Cell, k: nat)
    requires ArgBase(da) + k <= |h| && ArgBase(db) + k <= |h|
  {
    forall j: nat | j < k :: GroundAt(nm, h, bind, da, db, j)
  }

  ghost predicate JoinsParts(nm: Names, h: seq<Cell>, n: nat, locals: set<nat>, bind: Bindings, da: Cell, db: Cell, k: nat, bind': Bindings)
    requires ArgBase(da) + k <= |h| && ArgBase(db) + k <= |h|
  {
    && OkBind(h, n, bind') && Settled(bind')
    && (forall r :: JoinsPartsAt(nm, h, n, bind, da, db, k, bind', r))
    && (PartsGround(nm, h, bind, da, db, k) ==> bind' == bind)
    && (NoStackRefs(locals, bind) ==> NoStackRefs(locals, bind'))
  }

  ghost predicate JoinsPartsAt(nm: Names, h: seq<Cell>, n: nat, bind: Bindings, da: Cell, db: Cell, k: nat, bind': Bindings, r: Solution)
    requires ArgBase(da) + k <= |h| && ArgBase(db) + k <= |h|
  {
    Satisfies(nm, h, n, bind', r) <==> Satisfies(nm, h, n, bind, r) && PartsMeet(nm, h, r, da, db, k)
  }

  ghost function CommonValue(nm: Names, h: seq<Cell>, r: Solution, a: Cell, b: Cell): Value
    requires Meet(nm, h, r, a, b)
    ensures Stands(nm, h, r, a, CommonValue(nm, h, r, a, b)) && Stands(nm, h, r, b, CommonValue(nm, h, r, a, b))
  {
    var x :| Stands(nm, h, r, a, x) && Stands(nm, h, r, b, x);
    x
  }

  /** Both cells are structures with the same name and number of parts. */
  ghost predicate Alike(h: seq<Cell>, da: Cell, db: Cell, n: nat) {
    && ArgBase(da) + n <= |h| && ArgBase(db) + n <= |h|
    && ((da.CList? && db.CList? && n == 2)
        || (da.CStr? && db.CStr? && da.a < |h| && db.a < |h| && h[da.a].CFun? && h[da.a] == h[db.a] && h[da.a].arity == n))
  }

  lemma MeetToParts(nm: Names, h: seq<Cell>, r: Solution, da: Cell, db: Cell, n: nat)
    requires Alike(h, da, db, n) && Meet(nm, h, r, da, db)
    ensures PartsMeet(nm, h, r, da, db, n)
  {
    var x := CommonValue(nm, h, r, da, db);
    forall j: nat | j < n ensures MeetAt(nm, h, r, da, db, j) {
      assert Stands(nm, h, r, PartCell(h, da, j), Parts(x)[j]) && Stands(nm, h, r, PartCell(h, db, j), Parts(x)[j]);
    }
  }

  lemma PartsToMeet(nm: Names, h: seq<Cell>, r: Solution, da: Cell, db: Cell, n: nat)
    requires Alike(h, da, db, n) && PartsMeet(nm, h, r, da, db, n)
    ensures Meet(nm, h, r, da, db)
  {
    assert forall j: nat | j < n :: MeetAt(nm, h, r, da, db, j);
    var xs := seq(n, j requires 0 <= j < n => assert MeetAt(nm, h, r, da, db, j); CommonValue(nm, h, r, PartCell(h, da, j), PartCell(h, db, j)));
    var x := if da.CList? then VList(xs[0], xs[1]) else VStruct(h[da.a].functor, xs);
    assert Parts(x) == xs;
    forall k: nat | k < n
      ensures Stands(nm, h, r, PartCell(h, da, k), Parts(x)[k]) && Stands(nm, h, r, PartCell(h, db, k), Parts(x)[k])
    {
      assert MeetAt(nm, h, r, da, db, k);
    }
    assert Stands(nm, h, r, da, x) && Stands(nm, h, r, db, x);
  }

  lemma GroundParts(nm: Names, h: seq<Cell>, bind: Bindings, da: Cell, db: Cell, n: nat)
    requires Alike(h, da, db, n) && IsGround(nm, h, bind, da) && IsGround(nm, h, bind, db)
    ensures PartsGround(nm, h, bind, da, db, n)
  {
    var x :| Ground(nm, h, bind, da, x);
    var y :| Ground(nm, h, bind, db, y);
    forall j: nat | j < n ensures GroundAt(nm, h, bind, da, db, j) {
      assert Ground(nm, h, bind, PartCell(h, da, j), Parts(x)[j]) && Ground(nm, h, bind, PartCell(h, db, j), Parts(y)[j]);
    }
  }

  // ---- all terms ----

  /** Two constants with one value have it in every solution. */
  lemma ConstsMeet(nm: Names, h: seq<Cell>, rho: Solution, r: Solution, da: Cell, db: Cell, x: Value)
    requires Stands(nm, h, rho, da, x) && Stands(nm, h, rho, db, x) && !da.CVar? && !db.CVar? && !da.CStr? && !da.CList?
    ensures Meet(nm, h, r, da, db)
  {
    assert Stands(nm, h, r, da, x) && Stands(nm, h, r, db, x);
  }

  lemma AlikeCells(nm: Names, h: seq<Cell>, rho: Solution, da: Cell, db: Cell, x: Value)
    requires Stands(nm, h, rho, da, x) && Stands(nm, h, rho, db, x) && !da.CVar? && !db.CVar? && (da.CStr? || da.CList?)
    ensures Alike(h, da, db, |Parts(x)|)
  {
  }

  /** Joining what two cells refer to joins the cells. */
  lemma JoinsDeref(nm: Names, h: seq<Cell>, n: nat, locals: set<nat>, bind: Bindings, a: Cell, b: Cell, bind': Bindings)
    requires Joins(nm, h, n, locals, bind, Deref(bind, a), Deref(bind, b), bind') && Settled(bind)
    ensures Joins(nm, h, n, locals, bind, a, b, bind')
  {
    hide Meet, Satisfies, OkBind, NoStackRefs;
    GroundDeref(nm, h, bind, a);
    GroundDeref(nm, h, bind, b);
    forall r ensures JoinsAt(nm, h, n, bind, a, b, bind', r) {
      assert JoinsAt(nm, h, n, bind, Deref(bind, a), Deref(bind, b), bind', r);
      if Satisfies(nm, h, n, bind, r) { MeetDeref(nm, h, n, bind, r, a, b); }
    }
  }

  lemma GroundDeref(nm: Names, h: seq<Cell>, bind: Bindings, c: Cell)
    requires Settled(bind)
    ensures IsGround(nm, h, bind, c) ==> IsGround(nm, h, bind, Deref(bind, c))
  {
    assert Ends(bind, c);
    if x :| Ground(nm, h, bind, c, x) { assert Ground(nm, h, bind, Deref(bind, c), x); }
  }

  /** Cells with a common value can be joined. */
  lemma {:induction false} JoinCells(nm: Names, h: seq<Cell>, n: nat, locals: set<nat>, bind: Bindings, rho: Solution, a: Cell, b: Cell, x: Value)
    returns (bind': Bindings)
    requires Start(nm, h, n, bind, rho) && OkCell(h, n, a) && OkCell(h, n, b)
    requires Stands(nm, h, rho, a, x) && Stands(nm, h, rho, b, x)
    ensures Joins(nm, h, n, locals, bind, a, b, bind') && Start(nm, h, n, bind', rho)
    decreases x, |Parts(x)| + 1
  {
    hide Settled, OkHeap, NoStackRefs, Ground, Meet;
    var da, db := Deref(bind, a), Deref(bind, b);
    DerefOk(h, n, bind, a);
    DerefOk(h, n, bind, b);
    DerefSame(nm, h, n, bind, rho, a, x);
    DerefSame(nm, h, n, bind, rho, b, x);
    DerefEnds(bind, a);
    DerefEnds(bind, b);
    if da.CVar? {
      bind' := JoinVar(nm, h, n, locals, bind, da.id, db);
    } else if db.CVar? {
      bind' := JoinVar(nm, h, n, locals, bind, db.id, da);
    } else if da.CStr? || da.CList? {
      AlikeCells(nm, h, rho, da, db, x);
      bind' := JoinParts(nm, h, n, locals, bind, rho, da, db, x, |Parts(x)|);
      PartsJoin(nm, h, n, locals, bind, da, db, |Parts(x)|, bind');
    } else {
      bind' := bind;
      forall r ensures JoinsAt(nm, h, n, bind, da, db, bind', r) { ConstsMeet(nm, h, rho, r, da, db, x); }
    }
    JoinsDeref(nm, h, n, locals, bind, a, b, bind');
    StartKept(nm, h, n, locals, bind, rho, a, b, bind', x);
  }

  lemma DerefEnds(bind: Bindings, c: Cell)
    requires Settled(bind)
    ensures Unbound(bind, Deref(bind, c))
  {
    assert Ends(bind, c);
  }

  lemma StartKept(nm: Names, h: seq<Cell>, n: nat, locals: set<nat>, bind: Bindings, rho: Solution, a: Cell, b: Cell, bind': Bindings, x: Value)
    requires Start(nm, h, n, bind, rho) && Joins(nm, h, n, locals, bind, a, b, bind')
    requires Stands(nm, h, rho, a, x) && Stands(nm, h, rho, b, x)
    ensures Start(nm, h, n, bind', rho)
  {
    assert JoinsAt(nm, h, n, bind, a, b, bind', rho);
  }

  lemma MeetsByParts(nm: Names, h: seq<Cell>, r: Solution, da: Cell, db: Cell, k: nat)
    requires Alike(h, da, db, k)
    ensures Meet(nm, h, r, da, db) <==> PartsMeet(nm, h, r, da, db, k)
  {
    hide PartsMeet, Meet;
    if Meet(nm, h, r, da, db) { MeetToParts(nm, h, r, da, db, k); }
    if PartsMeet(nm, h, r, da, db, k) { PartsToMeet(nm, h, r, da, db, k); }
  }

  lemma PartsJoin(nm: Names, h: seq<Cell>, n: nat, locals: set<nat>, bind: Bindings, da: Cell, db: Cell, k: nat, bind': Bindings)
    requires Alike(h, da, db, k)
    requires JoinsParts(nm, h, n, locals, bind, da, db, k, bind')
    ensures Joins(nm, h, n, locals, bind, da, db, bind')
  {
    hide PartsMeet, Satisfies, Meet, PartsGround, NoStackRefs, IsGround, OkBind, Settled;
    if IsGround(nm, h, bind, da) && IsGround(nm, h, bind, db) { GroundParts(nm, h, bind, da, db, k); }
    forall r ensures JoinsAt(nm, h, n, bind, da, db, bind', r) {
      assert JoinsPartsAt(nm, h, n, bind, da, db, k, bind', r);
      MeetsByParts(nm, h, r, da, db, k);
    }
  }

  lemma {:induction false} JoinParts(nm: Names, h: seq<Cell>, n: nat, locals: set<nat>, bind: Bindings, rho: Solution, da: Cell, db: Cell, x: Value, k: nat)
    returns (bind': Bindings)
    requires Start(nm, h, n, bind, rho) && Alike(h, da, db, |Parts(x)|) && k <= |Parts(x)|
    requires Stands(nm, h, rho, da, x) && Stands(nm, h, rho, db, x)
    ensures JoinsParts(nm, h, n, locals, bind, da, db, k, bind') && Start(nm, h, n, bind', rho)
    decreases x, k
  {
    hide Settled, NoStackRefs, Meet, IsGround, Satisfies;
    if k == 0 {
      bind' := bind;
    } else {
      var bind1 := JoinParts(nm, h, n, locals, bind, rho, da, db, x, k - 1);
      bind' := JoinCells(nm, h, n, locals, bind1, rho, PartCell(h, da, k - 1), PartCell(h, db, k - 1), Parts(x)[k - 1]);
      PartsNext(nm, h, n, locals, bind, da, db, k, bind1, bind');
    }
  }

  lemma PartsMeetNext(nm: Names, h: seq<Cell>, r: Solution, da: Cell, db: Cell, k: nat)
    requires 0 < k && ArgBase(da) + k <= |h| && ArgBase(db) + k <= |h|
    ensures PartsMeet(nm, h, r, da, db, k) <==>
            PartsMeet(nm, h, r, da, db, k - 1) && Meet(nm, h, r, PartCell(h, da, k - 1), PartCell(h, db, k - 1))
  {
    hide Meet;
    assert PartsMeet(nm, h, r, da, db, k) ==> MeetAt(nm, h, r, da, db, k - 1);
  }

  lemma PartsGroundNext(nm: Names, h: seq<Cell>, bind: Bindings, da: Cell, db: Cell, k: nat)
    requires 0 < k && ArgBase(da) + k <= |h| && ArgBase(db) + k <= |h| && PartsGround(nm, h, bind, da, db, k)
    ensures PartsGround(nm, h, bind, da, db, k - 1)
    ensures IsGround(nm, h, bind, PartCell(h, da, k - 1)) && IsGround(nm, h, bind, PartCell(h, db, k - 1))
  {
    hide IsGround;
    assert GroundAt(nm, h, bind, da, db, k - 1);
  }

  lemma PartsNext(nm: Names, h: seq<Cell>, n: nat, locals: set<nat>, bind: Bindings, da: Cell, db: Cell, k: nat, bind1: Bindings, bind': Bindings)
    requires 0 < k && ArgBase(da) + k <= |h| && ArgBase(db) + k <= |h|
    requires JoinsParts(nm, h, n, locals, bind, da, db, k - 1, bind1)
    requires Joins(nm, h, n, locals, bind1, PartCell(h, da, k - 1), PartCell(h, db, k - 1), bind')
    ensures JoinsParts(nm, h, n, locals, bind, da, db, k, bind')
  {
    hide Settled, NoStackRefs, Meet, IsGround, Satisfies, OkBind, PartsMeet, PartsGround, ArgBase, PartCell;
    forall r ensures JoinsPartsAt(nm, h, n, bind, da, db, k, bind', r) {
      assert JoinsPartsAt(nm, h, n, bind, da, db, k - 1, bind1, r);
      assert JoinsAt(nm, h, n, bind1, PartCell(h, da, k - 1), PartCell(h, db, k - 1), bind', r);
      PartsMeetNext(nm, h, r, da, db, k);
    }
    if PartsGround(nm, h, bind, da, db, k) { PartsGroundNext(nm, h, bind, da, db, k); }
  }

  // ---- a unification for every state ----

  lemma UnifyExists(nm: Names, m: Head, a: Cell, b: Cell)
    requires !m.failed && OkState(m) && Settled(m.bind) && OkCell(m.w.heap, m.w.next, a) && OkCell(m.w.heap, m.w.next, b)
    ensures exists m' :: Unified(nm, m, a, b, m')
  {
    if rho :| Solves(nm, m, rho) && Meet(nm, m.w.heap, rho, a, b) {
      var x := CommonValue(nm, m.w.heap, rho, a, b);
      var bind' := JoinCells(nm, m.w.heap, m.w.next, m.w.locals, m.bind, rho, a, b, x);
      UnifiedBy(nm, m, a, b, bind');
    } else {
      assert Unified(nm, m, a, b, m.(failed := true));
    }
  }

  lemma UnifiedBy(nm: Names, m: Head, a: Cell, b: Cell, bind': Bindings)
    requires !m.failed && OkState(m) && Joins(nm, m.w.heap, m.w.next, m.w.locals, m.bind, a, b, bind')
    ensures Unified(nm, m, a, b, m.(bind := bind'))
  {
    hide Settled, NoStackRefs, Meet, IsGround, Satisfies, OkBind;
    var m' := m.(bind := bind');
    forall rho ensures Solves(nm, m', rho) <==> Solves(nm, m, rho) && Meet(nm, m.w.heap, rho, a, b) {
      assert JoinsAt(nm, m.w.heap, m.w.next, m.bind, a, b, bind', rho);
    }
  }

  ghost function SomeUnifier(nm: Names, m: Head, a: Cell, b: Cell): Head {
    if exists m' :: Unified(nm, m, a, b, m') then var m' :| Unified(nm, m, a, b, m'); m' else m
  }

  /** What the machine demands of unification can be had. */
  lemma UnifierExists(nm: Names)
    ensures exists unify :: IsUnifier(nm, unify)
  {
    ghost var unify := (m, a, b) => SomeUnifier(nm, m, a, b);
    forall m: Head, a: Cell, b: Cell
      | !m.failed && OkState(m) && Settled(m.bind) && OkCell(m.w.heap, m.w.next, a) && OkCell(m.w.heap, m.w.next, b)
      ensures Unified(nm, m, a, b, unify(m, a, b))
    {
      UnifyExists(nm, m, a, b);
    }
    assert IsUnifier(nm, unify);
  }
}
