/** Compilation of the head of a clause whose arguments do not overlap those of its first goal. */
module HeadCompiler {
  import opened Wam
  import opened VarTable
  import opened HeadMachine
  import opened HeadLogic
  import opened HeadFill
  import opened HeadModel
  import opened HeadStart
  import opened HeadTheorem

  class Compiler {
    const model: array<Entry>
    const vtbl: array<VarInf>
    const toDo: array<int>

    const head: seq<Term>
    const modelE: int
    const modelEend: int
    const modelAdst: int
    const modelSPstart: int

    var modelSP: int
    var toDoTop: nat
    var code: seq<HeadInstr>

    // The machine that has run `code`, and what the proof knows about it.
    ghost const names: Names
    ghost const unify: Unifier
    ghost const start: Head
    ghost const goal: seq<Term>
    ghost const total: seq<nat>
    ghost const cells: seq<Cell>
    ghost const spb: int
    ghost var m: Head
    ghost var l: Logic

    /** The compiler about to start on a head, with the machine that will run the code. */
    constructor (model: array<Entry>, vtbl: array<VarInf>, toDo: array<int>, head: seq<Term>, e: int, eend: int, adst: int,
                 ghost f: HeadFrame, ghost nm: Names, ghost u: Unifier, ghost m0: Head)
      requires f.N == model.Length && f.head == head && f.E == e && f.Eend == eend && f.Adst == adst
      requires f.SPstart == adst - 2 && |f.cells| == |f.head|
      ensures F() == f && names == nm && unify == u && start == m == m0 && l == StartLogic(f, m0)
      ensures code == [] && toDoTop == 0 && modelSP == f.SPstart
      ensures this.model == model && this.vtbl == vtbl && this.toDo == toDo
    {
      this.model, this.vtbl, this.toDo := model, vtbl, toDo;
      this.head, modelE, modelEend, modelAdst, modelSPstart := head, e, eend, adst, adst - 2;
      modelSP, toDoTop, code := adst - 2, 0, [];
      names, unify, start, goal, total, cells, spb := nm, u, m0, f.goal, f.total, f.cells, f.spb;
      m, l := m0, StartLogic(f, m0);
    }

    ghost function F(): HeadFrame {
      HeadFrame(model.Length, modelE, modelEend, modelAdst, modelSPstart, head, goal, total, cells, spb)
    }

    ghost function S(): HeadState
      reads this, model, vtbl
    {
      HeadState(model[..], vtbl[..], modelSP, m, l.env)
    }

    ghost predicate Valid(exc: int, from: nat)
      reads this, model, vtbl
    {
      && m == HeadRun(names, unify, start, code) && Inv(F(), S(), exc, from) && toDoTop <= toDo.Length
      && Injective(names) && IsUnifier(names, unify)
    }

    /** Between structures: no equation is hidden in a structure that is being filled. */
    ghost predicate Between()
      reads this
    {
      l.failed == m.failed && (!m.failed ==> Ok(l) && Mirrors(l, m))
    }

    function Operand(n: int): Loc
      requires 0 <= n < model.Length
      requires model[n].Vo? ==> model[n].v < vtbl.Length
      reads this, model, vtbl
    {
      OperandOf(modelE, modelEend, modelSP, model[n].Vo? && vtbl[model[n].v].pvnum != 0, n)
    }

    /** The register and displacement chosen for a model cell address its run-time cell. */
    lemma OperandAt(m1: Head, n: int)
      requires m1.w.e == modelE && m1.w.sp == modelSP && 0 < n < model.Length
      requires model[n].Vo? ==> model[n].v < vtbl.Length
      ensures Addr(m1.w, Operand(n)) == n
    {
    }

    method Icode(i: HeadInstr)
      requires m == HeadRun(names, unify, start, code)
      modifies this`code, this`m
      ensures code == old(code) + [i] && m == HeadStep(names, unify, old(m), i) && m == HeadRun(names, unify, start, code)
    {
      hide HeadRun, HeadStep;
      HeadRunSnoc(names, unify, start, code, i);
      code := code + [i];
      m := HeadStep(names, unify, m, i);
    }

    /** A free stack cell between SP and where it started, or a new one below SP. */
    method FindTemp(ghost from: nat) returns (t: int)
      requires Valid(-1, from) && modelSP >= 2
      modifies this`modelSP, this`code, this`m, model
      ensures Valid(-1, from) && modelSP <= t < modelSPstart && model[t] == Nil
      ensures Spares(old(S()), S(), -1) && modelSP >= old(modelSP) - 1
      ensures m == old(m).(w := m.w) && m.w == old(m.w).(sp := m.w.sp)
    {
      hide HeadRun;
      ghost var s := S();
      for i := modelSP to modelSPstart {
        if model[i] == Nil {
          return i;
        }
      }
      Icode(Body(AddToSp(-1)));
      modelSP := modelSP - 1;
      model[modelSP] := Nil;
      assert S() == HeadModel.Shrunk(s, m);
      ShrunkInv(F(), s, from, m);
      return modelSP;
    }

    /** A cell meant for an argument of the first goal is free as long as its variable has no home. */
    method FreeTarget(loc: int, ghost from: nat, ghost v: nat) returns (ok: bool)
      requires Valid(-1, from) && v < vtbl.Length && vtbl[v].target == loc != 0 && vtbl[v].home == 0
      ensures ok && 0 <= loc < model.Length && model[loc] == Nil && HeadModel.Free(F(), S(), v, loc)
    {
      assert HeadModel.VarOk(F(), S(), -1, v) && S().vtbl[v] == vtbl[v];
      assert TargetOk(F(), S(), loc) && S().model[loc] == model[loc];
      return model[loc] == Nil;
    }

    /** The home of a variable; one that has none gets its target or a temporary. */
    method FindHome(v: nat, ghost from: nat) returns (home: int)
      requires Valid(-1, from) && v < vtbl.Length && vtbl[v].usecnt < total[v] && modelSP >= 2 && |total| == vtbl.Length
      modifies this`modelSP, this`code, this`m, model, vtbl
      ensures Valid(if old(vtbl[v].usecnt) == 0 then v else -1, from)
      ensures home == vtbl[v].home && AtHome(F(), S(), v)
      ensures Spares(old(S()), S(), -1) && modelSP >= old(modelSP) - 1
      ensures m == old(m).(w := m.w) && m.w == old(m.w).(sp := m.w.sp)
      ensures vtbl[..] == old(vtbl[..])[v := old(vtbl[v]).(home := home)]
    {
      hide HeadRun, Inv, HeadModel.Spares, HeadModel.VarOk, IsUnifier;
      ghost var s := S();
      assert s.vtbl[v] == vtbl[v];
      HomeKnown(F(), s, from, v);
      if vtbl[v].home != 0 {
        home := vtbl[v].home;
        return;
      }
      var ok := false;
      if vtbl[v].target != 0 {
        ok := FreeTarget(vtbl[v].target, from, v);
      }
      if ok {
        home := vtbl[v].target;
      } else {
        home := FindTemp(from);
      }
      ghost var s1 := S();
      model[home] := Vo(v);
      vtbl[v] := vtbl[v].(home := home);
      assert S() == HeadModel.Homed(s1, v, home);
      HomedInv(F(), s1, from, v, home);
      HeadModel.SparesTrans(s, s1, S(), -1);
    }
  
    /** Inside a structure: `k` slots are filled, `todo` are the subterms put aside. */
    ghost predicate InStructure(l0: Logic, p: Equation, k: nat, todo: seq<Equation>, tdbase: nat)
      reads this, model, vtbl, toDo
    {
      Fills(names, l0, l, m, p, k, todo) && toDoTop == tdbase + |todo| && Stacked(F(), S(), toDo[..], tdbase, todo)
    }

    /** A constant in a slot. */
    method SlotConst(arg: Term, ghost from: nat, ghost l0: Logic, ghost p: Equation, ghost k: nat, ghost todo: seq<Equation>, ghost tdbase: nat)
      requires Valid(-1, from) && InStructure(l0, p, k, todo, tdbase) && k < |Kids(p.1)| && arg == Kids(p.1)[k]
      requires arg.Int? || arg.Sym?
      modifies this`code, this`m, this`l
      ensures Valid(-1, from) && InStructure(l0, p, k + 1, todo, tdbase)
      ensures Spares(old(S()), S(), -1)
    {
      hide HeadRun, HeadStep, Inv, HeadModel.Spares, IsUnifier, Injective, Fills, Stacked, Keeps;
      ghost var s := S();
      Icode(Body(ConstInstr(arg)));
      ghost var l1 := FillConst(names, unify, l0, l, old(m), p, k, todo, m);
      l := l1;
      assert S() == s.(m := m);
      QuietInv(F(), s, from, m);
      StackedStays(F(), s, S(), toDo[..], tdbase, todo);
    }
  
    /** A subterm that needs an instruction of its own is put aside in a temporary. */
    method SlotKid(arg: Term, ghost from: nat, ghost l0: Logic, ghost p: Equation, ghost k: nat, ghost todo: seq<Equation>, ghost tdbase: nat)
      returns (ghost q: Equation)
      requires Valid(-1, from) && InStructure(l0, p, k, todo, tdbase) && k < |Kids(p.1)| && arg == Kids(p.1)[k]
      requires Built(arg) && modelSP >= 2 && toDoTop < toDo.Length
      modifies this`modelSP, this`code, this`m, this`l, this`toDoTop, model, toDo
      ensures Valid(-1, from) && InStructure(l0, p, k + 1, todo + [q], tdbase) && q.1 == arg
      ensures Spares(old(S()), S(), -1) && modelSP >= old(modelSP) - 1
      ensures toDo[..old(toDoTop)] == old(toDo[..toDoTop]) && NewTemp(old(S()), -1, toDo[old(toDoTop)])
    {
      hide HeadRun, HeadStep, Inv, HeadModel.Spares, IsUnifier, Injective, Fills, Stacked, Global;
      ghost var s0 := S();
      var t := FindTemp(from);
      ghost var s, m1 := S(), m;
      FillsMoved(names, l0, l, old(m), p, k, todo, m1);
      StackedStays(F(), s0, s, toDo[..], tdbase, todo);
      InvShape(F(), s, -1, from);
      assert s.model[t] == model[t];
      NewSooner(s0, s, -1, t);
      model[t] := Other(arg);
      toDo[toDoTop] := t;
      toDoTop := toDoTop + 1;
      Icode(Body(UVar(Operand(t))));
      q := (NameCell(m1), arg);
      ghost var l1 := FillKid(names, unify, l0, l, m1, p, k, todo, Operand(t), m);
      l := l1;
      assert S() == HeadModel.Parked(s, t, arg, m);
      if !m1.failed { OperandAt(m1, t); }
      ParkedInv(F(), s, from, t, arg, q.0, m);
      StackedGrows(F(), s, S(), old(toDo[..]), toDo[..], tdbase, todo, t, q);
      HeadModel.SparesTrans(s0, s, S(), -1);
    }

    /** A variable that occurs nowhere else. */
    method SlotVoid(v: nat, ghost from: nat, ghost l0: Logic, ghost p: Equation, ghost k: nat, ghost todo: seq<Equation>, ghost tdbase: nat)
      requires Valid(-1, from) && InStructure(l0, p, k, todo, tdbase) && k < |Kids(p.1)| && Kids(p.1)[k] == Var(v)
      requires v < vtbl.Length && vtbl[v].noccurences == 1 && Left(F(), S(), v) > 0
      modifies this`code, this`m, this`l, vtbl
      ensures Valid(-1, from) && InStructure(l0, p, k + 1, todo, tdbase)
      ensures Spares(old(S()), S(), -1) && vtbl[..] == old(vtbl[..])[v := old(vtbl[v]).(usecnt := old(vtbl[v].usecnt) + 1)]
    {
      hide HeadRun, HeadStep, Inv, HeadModel.Spares, IsUnifier, Injective, Fills, Stacked, Global;
      ghost var s, m1 := S(), m;
      InvShape(F(), s, -1, from);
      VarUnused(F(), s, -1, from, v);
      Icode(Body(UVoid));
      vtbl[v] := vtbl[v].(usecnt := vtbl[v].usecnt + 1);
      ghost var l1 := FillFirst(names, unify, l0, l, m1, p, k, todo, UVoid, m);
      if !m1.failed {
        GlobalOf(F(), s, -1, from);
        NameGlobal(names, l0, l, m1, p, k, todo, m);
      }
      l := l1;
      FirstUsedInv(F(), s, -1, from, v, NameCell(m1), l.env, m, 0);
      StackedStays(F(), s, S(), toDo[..], tdbase, todo);
    }
  
    /** The first occurrence of a variable: its home gets what the slot holds. */
    method SlotFirst(v: nat, t: int, ghost from: nat, ghost l0: Logic, ghost p: Equation, ghost k: nat, ghost todo: seq<Equation>, ghost tdbase: nat)
      requires Valid(v, from) && InStructure(l0, p, k, todo, tdbase) && k < |Kids(p.1)| && Kids(p.1)[k] == Var(v)
      requires v < vtbl.Length && vtbl[v].noccurences != 1 && vtbl[v].usecnt == 0 && Left(F(), S(), v) > 0
      requires t == vtbl[v].home && AtHome(F(), S(), v)
      modifies this`code, this`m, this`l, vtbl
      ensures Valid(-1, from) && InStructure(l0, p, k + 1, todo, tdbase)
      ensures Spares(old(S()), S(), -1)
      ensures vtbl[..] == old(vtbl[..])[v := old(vtbl[v]).(usecnt := 1, unsafe := false)]
    {
      hide HeadRun, HeadStep, Inv, HeadModel.Spares, IsUnifier, Injective, Fills, Stacked, Global;
      ghost var s, m1 := S(), m;
      InvShape(F(), s, v, from);
      VarUnused(F(), s, v, from, v);
      UnusedHome(F(), s, v, from, v);
      assert s.model[t] == model[t];
      ghost var u := UVar(Operand(t));
      Icode(Body(UVar(Operand(t))));
      if !m1.failed { OperandAt(m1, t); }
      vtbl[v] := vtbl[v].(usecnt := vtbl[v].usecnt + 1, unsafe := false);
      ghost var l1 := FillFirst(names, unify, l0, l, m1, p, k, todo, u, m);
      if !m1.failed {
        GlobalOf(F(), s, v, from);
        NameGlobal(names, l0, l, m1, p, k, todo, m);
      }
      l := l1;
      FirstUsedInv(F(), s, v, from, v, NameCell(m1), l.env, m, t);
      assert S() == HeadModel.FirstUsed(s, v, l.env, m);
      StackedStays(F(), s, S(), toDo[..], tdbase, todo);
    }

    /** A later occurrence; one that may live on the stack only is moved to the heap first. */
    method SlotLater(v: nat, t: int, ghost from: nat, ghost l0: Logic, ghost p: Equation, ghost k: nat, ghost todo: seq<Equation>, ghost tdbase: nat)
      requires Valid(-1, from) && InStructure(l0, p, k, todo, tdbase) && k < |Kids(p.1)| && Kids(p.1)[k] == Var(v)
      requires v < vtbl.Length && vtbl[v].usecnt > 0 && Left(F(), S(), v) > 0 && t == vtbl[v].home
      modifies this`code, this`m, this`l, vtbl, model
      ensures Valid(-1, from) && InStructure(l0, p, k + 1, todo, tdbase)
      ensures Spares(old(S()), S(), -1)
      ensures vtbl[..] == old(vtbl[..])[v := old(vtbl[v]).(usecnt := old(vtbl[v].usecnt) + 1)]
    {
      hide HeadRun, HeadStep, Inv, HeadModel.Spares, IsUnifier, Injective, Fills, Stacked, Global;
      ghost var s, m1 := S(), m;
      InvShape(F(), s, -1, from);
      VarUnused(F(), s, -1, from, v);
      assert s.model[t] == model[t];
      if !m1.failed { OperandAt(m1, t); }
      ghost var u := if vtbl[v].unsafe then ULval(Operand(t)) else UVal(Operand(t));
      if vtbl[v].unsafe {
        Icode(Body(ULval(Operand(t))));
      } else {
        Icode(Body(UVal(Operand(t))));
      }
      ghost var l1 := FillLater(names, unify, l0, l, m1, p, k, todo, u, m);
      l := l1;
      vtbl[v] := vtbl[v].(usecnt := vtbl[v].usecnt + 1);
      if vtbl[v].usecnt == vtbl[v].noccurences { model[t] := Nil; }
      assert S() == HeadModel.LaterUsed(s, v, m);
      LaterUsedInv(F(), s, from, v, m);
      StackedStays(F(), s, S(), toDo[..], tdbase, todo);
    }
  
    /** A variable in a slot. */
    method SlotVar(v: nat, ghost from: nat, ghost l0: Logic, ghost p: Equation, ghost k: nat, ghost todo: seq<Equation>, ghost tdbase: nat)
      requires Valid(-1, from) && InStructure(l0, p, k, todo, tdbase) && k < |Kids(p.1)| && Kids(p.1)[k] == Var(v)
      requires v < vtbl.Length && Left(F(), S(), v) > 0 && modelSP >= 2
      modifies this`modelSP, this`code, this`m, this`l, vtbl, model
      ensures Valid(-1, from) && InStructure(l0, p, k + 1, todo, tdbase)
      ensures Spares(old(S()), S(), -1) && modelSP >= old(modelSP) - 1
      ensures forall u: nat :: Left(F(), S(), u) == Left(F(), old(S()), u) - Unit(u, Var(v))
    {
      hide HeadRun, Inv, HeadModel.Spares, IsUnifier, Injective, Fills, Stacked;
      ghost var s := S();
      InvShape(F(), s, -1, from);
      if vtbl[v].noccurences == 1 {
        SlotVoid(v, from, l0, p, k, todo, tdbase);
      } else {
        var t := FindHome(v, from);
        ghost var s1 := S();
        InvShape(F(), s1, if vtbl[v].usecnt == 0 then v else -1, from);
        FillsMoved(names, l0, l, old(m), p, k, todo, m);
        StackedStays(F(), s, s1, toDo[..], tdbase, todo);
        if vtbl[v].usecnt == 0 {
          SlotFirst(v, t, from, l0, p, k, todo, tdbase);
        } else {
          SlotLater(v, t, from, l0, p, k, todo, tdbase);
        }
        HeadModel.SparesTrans(s, s1, S(), -1);
      }
    }

    /** One slot of a structure or list.  Subterms with slots of their own are left for later. */
    method CompHstructArgument(arg: Term, ghost from: nat, ghost l0: Logic, ghost p: Equation, ghost k: nat, ghost todo: seq<Equation>, ghost tdbase: nat)
      returns (ghost todo': seq<Equation>)
      requires Valid(-1, from) && InStructure(l0, p, k, todo, tdbase) && k < |Kids(p.1)| && arg == Kids(p.1)[k]
      requires modelSP >= 2 && toDoTop < toDo.Length
      requires arg.Var? ==> Left(F(), S(), arg.v) > 0
      modifies this`modelSP, this`code, this`m, this`l, this`toDoTop, vtbl, model, toDo
      ensures Valid(-1, from) && InStructure(l0, p, k + 1, todo', tdbase)
      ensures Spares(old(S()), S(), -1) && modelSP >= old(modelSP) - 1
      ensures toDo[..old(toDoTop)] == old(toDo[..toDoTop]) && (Built(arg) ==> NewTemp(old(S()), -1, toDo[old(toDoTop)]))
      ensures if Built(arg) then |todo'| == |todo| + 1 && todo'[..|todo|] == todo && todo'[|todo|].1 == arg else todo' == todo
      ensures forall u: nat :: Left(F(), S(), u) == Left(F(), old(S()), u) - if Built(arg) then 0 else Unit(u, arg)
    {
      hide HeadRun, Inv, HeadModel.Spares, IsUnifier, Injective, Fills, Stacked;
      InvShape(F(), S(), -1, from);
      todo' := todo;
      match arg {
        case Int(_) =>
          SlotConst(arg, from, l0, p, k, todo, tdbase);
        case Sym(_) =>
          SlotConst(arg, from, l0, p, k, todo, tdbase);
        case Var(v) =>
          SlotVar(v, from, l0, p, k, todo, tdbase);
        case _ =>
          ghost var q := SlotKid(arg, from, l0, p, k, todo, tdbase);
          todo' := todo + [q];
      }
    }
  
    /** A structure up to its subterms: its first instruction, then one for each slot. */
    method FillSlots(t: Term, loc: int, ghost p: Equation, ghost from: nat) returns (ghost todo: seq<Equation>)
      requires Valid(-1, from) && Between() && MayTake(F(), S(), from, loc) && model[loc] == Other(t) && Compound(t)
      requires p.1 == t && (!m.failed ==> p in l.pend && p.0 == Get(m.w.mem, loc))
      requires forall v: nat :: LeafTally(v, Kids(t), 0) <= Left(F(), S(), v)
      requires modelSP >= |Kids(t)| + 2 && toDoTop + |Kids(t)| <= toDo.Length
      modifies this`modelSP, this`code, this`m, this`l, this`toDoTop, vtbl, model, toDo
      ensures Valid(-1, from) && Between() && Same(names, old(l), l)
      ensures !m.failed ==> l.pend == old(l.pend) - multiset{p} + multiset(todo)
      ensures toDoTop == old(toDoTop) + |todo| && Stacked(F(), S(), toDo[..], old(toDoTop), todo)
      ensures toDo[..old(toDoTop)] == old(toDo[..toDoTop])
      ensures Spares(old(S()), S(), loc) && modelSP >= old(modelSP) - |Kids(t)|
      ensures LeavesUsed(F(), old(S()), S(), t, |Kids(t)|) && Tallied(t, |Kids(t)|, todo)
      ensures AllNew(old(S()), loc, toDo[..], old(toDoTop), |todo|)
    {
      hide HeadRun, HeadStep, Inv, HeadModel.Spares, IsUnifier, Injective, Fills, Stacked, Same, LeavesUsed,
           Tallied, LeafTally, AllNew, NewTemp;
      ghost var s0, l0, tdbase := S(), l, toDoTop;
      StartStructure(t, loc, p, from);
      todo := [];
      TalliesStart(F(), s0, S(), t);
      AllNewNone(s0, loc, toDo[..], tdbase);
      for k := 0 to |Kids(t)|
        invariant Valid(-1, from) && InStructure(l0, p, k, todo, tdbase) && tdbase <= toDoTop <= tdbase + k
        invariant Spares(s0, S(), loc) && modelSP >= old(modelSP) - k && toDo[..tdbase] == old(toDo[..toDoTop])
        invariant LeavesUsed(F(), s0, S(), t, k) && Tallied(t, k, todo)
        invariant AllNew(s0, loc, toDo[..], tdbase, |todo|)
      {
        ghost var s, before, stack := S(), todo, toDo[..];
        LeafNext(F(), s0, s, t, k);
        todo := CompHstructArgument(Kids(t)[k], from, l0, p, k, todo, tdbase);
        HeadModel.SparesTrans(s0, s, S(), loc);
        TalliesNext(F(), s0, s, S(), t, k, before, todo);
        AllNewGrows(s0, s, loc, stack, toDo[..], tdbase, |before|, |todo|);
      }
      ghost var l1 := FinishFilling(names, l0, l, m, p, todo);
      l := l1;
      BetweenAgain(l0);
    }

    lemma BetweenAgain(l0: Logic)
      requires Same(names, l0, l) && l.failed == m.failed && (!m.failed ==> Mirrors(l, m))
      ensures Between()
    {
    }

    /** The structure's first instruction. */
    method StartStructure(t: Term, loc: int, ghost p: Equation, ghost from: nat)
      requires Valid(-1, from) && Between() && MayTake(F(), S(), from, loc) && model[loc] == Other(t) && Compound(t)
      requires p.1 == t && (!m.failed ==> p in l.pend && p.0 == Get(m.w.mem, loc))
      modifies this`code, this`m, this`l, model
      ensures Valid(-1, from) && InStructure(old(l), p, 0, [], toDoTop)
      ensures Spares(old(S()), S(), loc) && S().vtbl == old(S().vtbl)
    {
      hide HeadRun, Inv, HeadModel.Spares, IsUnifier, Injective, Fills, Keeps, GetStructure, GetList;
      ghost var s, m1, l0 := S(), m, l;
      InvShape(F(), s, -1, from);
      assert s.model[loc] == model[loc];
      if !m1.failed {
        OperandAt(m1, loc);
        GetKeeps(m1, p.0, t);
      } else {
        KeepsRefl(m1);
      }
      if t.List? {
        Icode(GList(Operand(loc)));
      } else {
        Icode(GStructure(t.functor, |t.args|, Operand(loc)));
      }
      model[loc] := Nil;
      ghost var l1 := StartFilling(names, l0, m1, p);
      l := l1;
      assert m == if m1.failed then m1 else GetCompound(m1, p.0, p.1);
      assert S() == HeadModel.Taken(s, loc, m);
      FreshStays(F(), s, -1, from, m);
      TakenInv(F(), s, from, loc, m);
    }
  
    /** A string: the whole term in one instruction. */
    method StructureUia(t: Term, loc: int, ghost p: Equation, ghost from: nat)
      requires Valid(-1, from) && Between() && MayTake(F(), S(), from, loc) && model[loc] == Other(t) && t.Uia?
      requires p.1 == t && (!m.failed ==> p in l.pend && p.0 == Get(m.w.mem, loc))
      modifies this`code, this`m, this`l, model
      ensures Valid(-1, from) && Between() && Same(names, old(l), l)
      ensures !m.failed ==> l.pend == old(l.pend) - multiset{p}
      ensures Spares(old(S()), S(), loc) && S().vtbl == old(S().vtbl)
    {
      hide HeadRun, Inv, HeadModel.Spares, IsUnifier, Keeps, GetConst, Same, Ok;
      ghost var s, m1, l0 := S(), m, l;
      InvShape(F(), s, -1, from);
      assert s.model[loc] == model[loc];
      if m1.failed { KeepsRefl(m1); SameRefl(names, l0); } else { OperandAt(m1, loc); ConstKeeps(names, m1, p.0, ConstCell(t)); }
      Icode(GUia(t.name, Operand(loc)));
      model[loc] := Nil;
      if !m1.failed {
        ConstSolved(names, l0, m1, p);
        l := Solved(l0, m, p);
        SolvedOk(l0);
      }
      assert S() == HeadModel.Taken(s, loc, m);
      FreshStays(F(), s, -1, from, m);
      TakenInv(F(), s, from, loc, m);
    }

    lemma SolvedOk(l0: Logic)
      requires Same(names, l0, l)
      ensures !l.failed ==> Ok(l)
    {
    }

    /** The term of the head recorded in the cell `loc` is matched with what the cell holds. */
    method CompHeadStructure(loc: int, ghost from: nat)
      requires Valid(-1, from) && Between() && MayTake(F(), S(), from, loc) && model[loc].Other? && Built(model[loc].t)
      requires !m.failed ==> (Get(m.w.mem, loc), model[loc].t) in l.pend
      requires forall v: nat :: Tally(v, model[loc].t) <= Left(F(), S(), v)
      requires modelSP >= Size(model[loc].t) + 1 && toDoTop + Size(model[loc].t) <= toDo.Length
      modifies this`modelSP, this`code, this`m, this`l, this`toDoTop, vtbl, model, toDo
      decreases model[loc].t, 1
      ensures Valid(-1, from) && Between() && Same(names, old(l), l)
      ensures !m.failed ==> l.pend == old(l.pend) - multiset{(old(Get(m.w.mem, loc)), old(model[loc].t))}
      ensures toDoTop == old(toDoTop) && toDo[..toDoTop] == old(toDo[..toDoTop])
      ensures Spares(old(S()), S(), loc) && modelSP >= old(modelSP) - (Size(old(model[loc].t)) - 1)
      ensures forall v: nat :: Left(F(), S(), v) == Left(F(), old(S()), v) - Tally(v, old(model[loc].t))
    {
      hide HeadRun, Inv, HeadModel.Spares, IsUnifier, Stacked, Same, Ok, LeavesUsed, Tallied, Tally, LeafTally,
           AllNew, NewTemp, SumTally, WaitsAt, KidsUsed, StackedFrom;
      ghost var s0, l0, base := S(), l, toDo[..toDoTop];
      var tdbase := toDoTop;
      var t := model[loc].t;
      ghost var p := (Get(m.w.mem, loc), t);
      if t.Uia? {
        StructureUia(t, loc, p, from);
        SimpleTally(t);
        return;
      }
      LeavesFit(F(), s0, t);
      ghost var todo := FillSlots(t, loc, p, from);
      KidsStart(F(), s0, S(), t, todo);
      StackedAll(F(), S(), toDo[..], tdbase, todo);
      ghost var s1, l1 := S(), l;
      MatchKids(t, tdbase, todo, l0.pend - multiset{p}, s0, loc, from);
      SameTrans(names, l0, l1, l);
      KidsDone(F(), s0, S(), t, todo);
      assert todo[..|todo|] == todo;
      toDoTop := tdbase;
    }

    /** The subterms on the to-do stack from `tdbase` on are matched, first one first. */
    method MatchKids(t: Term, tdbase: int, ghost todo: seq<Equation>, ghost rest: multiset<Equation>, ghost s0: HeadState, ghost loc: int, ghost from: nat)
      requires Valid(-1, from) && Between() && 0 <= tdbase && toDoTop == tdbase + |todo|
      requires Compound(t) && Tallied(t, |Kids(t)|, todo) && (!m.failed ==> l.pend == rest + multiset(todo))
      requires Spares(s0, S(), loc) && AllNew(s0, loc, toDo[..], tdbase, |todo|)
      requires StackedFrom(F(), S(), toDo[..], tdbase, todo, 0) && KidsUsed(F(), s0, S(), t, todo, 0)
      requires forall v: nat :: Tally(v, t) <= Left(F(), s0, v)
      requires modelSP >= Size(t) + 1 - |Kids(t)| && tdbase + Size(t) <= toDo.Length
      modifies this`modelSP, this`code, this`m, this`l, this`toDoTop, vtbl, model, toDo
      decreases t, 0
      ensures Valid(-1, from) && Between() && Same(names, old(l), l)
      ensures !m.failed ==> l.pend == rest
      ensures toDoTop == old(toDoTop) && toDo[..tdbase] == old(toDo[..tdbase])
      ensures Spares(s0, S(), loc) && KidsUsed(F(), s0, S(), t, todo, |todo|)
      ensures modelSP >= old(modelSP) - SumTally(-1, todo) + |todo|
    {
      hide HeadRun, Inv, HeadModel.Spares, IsUnifier, Stacked, Same, Ok, Tallied, Tally, LeafTally, AllNew, NewTemp,
           SumTally, WaitsAt, KidsUsed, StackedFrom, Ahead;
      ghost var l0, base := l, toDo[..tdbase];
      BetweenSame();
      AheadEnds(todo);
      for i := tdbase to toDoTop
        invariant toDoTop == tdbase + |todo| <= toDo.Length && toDo[..tdbase] == base
        invariant Valid(-1, from) && Between() && Same(names, l0, l)
        invariant !m.failed ==> l.pend == rest + Ahead(todo, i - tdbase)
        invariant Spares(s0, S(), loc) && AllNew(s0, loc, toDo[..], tdbase, |todo|)
        invariant StackedFrom(F(), S(), toDo[..], tdbase, todo, i - tdbase) && KidsUsed(F(), s0, S(), t, todo, i - tdbase)
        invariant modelSP >= old(modelSP) - SumTally(-1, todo[..i - tdbase]) + (i - tdbase)
      {
        ghost var s, l1, stack, j := S(), l, toDo[..], i - tdbase;
        NextWaits(F(), s, stack, tdbase, todo, j, t);
        KidFits(F(), s0, s, t, todo, j);
        AheadStep(todo, j);
        OneLess(rest, Ahead(todo, j + 1), todo[j]);
        assert s.model[toDo[i]] == model[toDo[i]];
        assert !m.failed ==> (Get(m.w.mem, toDo[i]), model[toDo[i]].t) == todo[j];
        CompHeadStructure(toDo[i], from);
        SparesFailed(s, S(), stack[tdbase + j]);
        SameTrans(names, l0, l1, l);
        SparesNewAt(s0, s, S(), loc, stack, tdbase, |todo|, j);
        StackedNext(F(), s, S(), stack, toDo[..], tdbase, todo, j);
        AllNewStays(s0, loc, stack, toDo[..], tdbase, |todo|);
        KidsNext(F(), s0, s, S(), t, todo, j);
      }
      assert todo[..|todo|] == todo;
    }

    lemma BetweenSame()
      requires Between()
      ensures Same(names, l, l)
    {
      SameRefl(names, l);
    }
  
    /** A constant argument. */
    method ArgConst(arg: Term, ti: int, ghost p: Equation, ghost from: nat)
      requires Valid(-1, from) && Between() && MayTake(F(), S(), from, ti) && model[ti] == Other(arg) && (arg.Int? || arg.Sym?)
      requires p.1 == arg && (!m.failed ==> p in l.pend && p.0 == Get(m.w.mem, ti))
      modifies this`code, this`m, this`l, model
      ensures Valid(-1, from) && Between() && Same(names, old(l), l) && (old(m.failed) ==> m.failed)
      ensures !m.failed ==> l.pend == old(l.pend) - multiset{p}
      ensures S().vtbl == old(S().vtbl)
    {
      hide HeadRun, Inv, HeadModel.Spares, IsUnifier, GetConst, Same, Ok, Global;
      ghost var s, m1, l0 := S(), m, l;
      InvShape(F(), s, -1, from);
      assert s.model[ti] == model[ti];
      if m1.failed { KeepsRefl(m1); SameRefl(names, l0); } else { OperandAt(m1, ti); ConstKeeps(names, m1, p.0, ConstCell(arg)); }
      if arg.Sym? {
        Icode(GSym(arg.tok, Operand(ti)));
      } else {
        Icode(GInt(arg.i, Operand(ti)));
      }
      model[ti] := Nil;
      if !m1.failed {
        ConstSolved(names, l0, m1, p);
        l := Solved(l0, m, p);
        SolvedOk(l0);
      }
      assert S() == HeadModel.Taken(s, ti, m);
      FreshStays(F(), s, -1, from, m);
      TakenInv(F(), s, from, ti, m);
    }

    /** A variable that occurred as an argument before: both arguments are unified. */
    method ArgAgain(v: nat, ti: int, ghost p: Equation, ghost from: nat)
      requires Valid(-1, from) && Between() && 0 < modelSP <= ti < model.Length
      requires v < vtbl.Length && vtbl[v].usecnt > 0 && Left(F(), S(), v) > 0 && vtbl[v].home != ti && model[ti] == Vo(v)
      requires vtbl[v].pvnum == 0
      requires p.1 == Var(v) && (!m.failed ==> p in l.pend && p.0 == Get(m.w.mem, ti))
      modifies this`code, this`m, this`l, model, vtbl
      ensures Valid(-1, from) && Between() && Same(names, old(l), l) && (old(m.failed) ==> m.failed)
      ensures !m.failed ==> l.pend == old(l.pend) - multiset{p}
      ensures vtbl[..] == old(vtbl[..])[v := old(vtbl[v]).(usecnt := old(vtbl[v].usecnt) + 1)] && model[ti] == Vo(v)
    {
      hide HeadRun, Inv, HeadModel.Spares, IsUnifier, Same, Ok, Global, Unified, Keeps;
      ghost var s, m1 := S(), m;
      InvShape(F(), s, -1, from);
      VarUnused(F(), s, -1, from, v);
      assert s.model[ti] == model[ti] && s.model[vtbl[v].home] == model[vtbl[v].home];
      UnifyHome(v, ti, p, from);
      vtbl[v] := vtbl[v].(usecnt := vtbl[v].usecnt + 1);
      if vtbl[v].usecnt == vtbl[v].noccurences { model[vtbl[v].home] := Nil; }
      assert S() == HeadModel.LaterUsed(s, v, m);
      FreshStays(F(), s, -1, from, m);
      KeptWrites(m1, m);
      LaterUsedInv(F(), s, from, v, m);
    }

    lemma KeptWrites(m1: Head, m2: Head)
      requires Keeps(m1, m2) && (!m2.failed ==> m2.w.mem == m1.w.mem)
      ensures Wrote(m1, m2, 0, Junk)
    {
    }

    /** The instruction for it. */
    method UnifyHome(v: nat, ti: int, ghost p: Equation, ghost from: nat)
      requires Valid(-1, from) && Between() && 0 < modelSP <= ti < model.Length
      requires v < vtbl.Length && vtbl[v].usecnt > 0 && Left(F(), S(), v) > 0 && model[ti] == Vo(v)
      requires p.1 == Var(v) && (!m.failed ==> p in l.pend && p.0 == Get(m.w.mem, ti))
      modifies this`code, this`m, this`l
      ensures m == HeadRun(names, unify, start, code) && Keeps(old(m), m) && (!m.failed ==> m.w.mem == old(m.w.mem))
      ensures Between() && Same(names, old(l), l) && l.env == old(l.env)
      ensures !m.failed ==> l.pend == old(l.pend) - multiset{p}
    {
      hide HeadRun, Inv, HeadModel.Spares, IsUnifier, Same, Ok, Global, Unified;
      ghost var s, m1, l0 := S(), m, l;
      InvShape(F(), s, -1, from);
      VarUnused(F(), s, -1, from, v);
      var home := vtbl[v].home;
      assert s.model[ti] == model[ti] && s.model[home] == model[home];
      if m1.failed { KeepsRefl(m1); SameRefl(names, l0); } else { OperandAt(m1, ti); OperandAt(m1, home); }
      Icode(GValue(Operand(ti), Operand(home)));
      if !m1.failed {
        UnifyArg(l0, m1, v, p);
        l := Solved(l0, m, p);
        SolvedOk(l0);
      }
    }

    lemma UnifyArg(l0: Logic, m1: Head, v: nat, p: Equation)
      requires IsUnifier(names, unify) && !m1.failed && Ok(l0) && Mirrors(l0, m1) && v in l0.env && p in l0.pend && p.1 == Var(v)
      ensures var m2 := unify(m1, p.0, l0.env[v]); Same(names, l0, Solved(l0, m2, p)) && Keeps(m1, m2) && m2.w == m1.w
    {
      hide IsUnifier, Same, Ok, Unified, Keeps;
      EnvOk(l0, m1, v, p);
      UnifyKeeps(m1, p.0, l0.env[v]);
      UnifySolved(names, l0, m1, p, p.0, l0.env[v], unify(m1, p.0, l0.env[v]));
    }

    lemma UnifyKeeps(m1: Head, a: Cell, b: Cell)
      requires IsUnifier(names, unify) && !m1.failed && OkState(m1) && Settled(m1.bind)
      requires OkCell(m1.w.heap, m1.w.next, a) && OkCell(m1.w.heap, m1.w.next, b)
      ensures var m2 := unify(m1, a, b); Unified(names, m1, a, b, m2) && Keeps(m1, m2) && m2.w == m1.w
    {
      var m2 := unify(m1, a, b);
      assert Unified(names, m1, a, b, m2);
    }

    /** A variable argument: nothing to do in its first place, which is its home. */
    method ArgVar(v: nat, ti: int, ghost p: Equation, ghost i: nat)
      requires Valid(-1, i + 1) && Between() && i < |head| && head[i] == Var(v) && ti == modelE + 2 + i
      requires ArgOk(F(), S(), i, i) && ti < model.Length && 0 < modelSP <= ti
      requires p.1 == Var(v) && (!m.failed && !FirstAt(head, i) ==> p in l.pend && p.0 == Get(m.w.mem, ti))
      requires !FirstAt(head, i) ==> Left(F(), S(), v) > 0
      modifies this`code, this`m, this`l, model, vtbl
      ensures Valid(-1, i + 1) && Between() && Same(names, old(l), l) && (old(m.failed) ==> m.failed)
      ensures !m.failed ==> l.pend == if FirstAt(head, i) then old(l.pend) else old(l.pend) - multiset{p}
      ensures forall u: nat :: Left(F(), S(), u) == Left(F(), old(S()), u) - if FirstAt(head, i) then 0 else Unit(u, Var(v))
      ensures SameFacts(old(vtbl[..]), vtbl[..])
    {
      hide HeadRun, Inv, HeadModel.Spares, IsUnifier, Same, Ok;
      ghost var s := S();
      InvShape(F(), s, -1, i + 1);
      BetweenSame();
      assert s.model[ti] == model[ti];
      if model[ti] == Vo(v) {
        if vtbl[v].home != ti {
          ArgAgain(v, ti, p, i + 1);
        }
        if vtbl[v].usecnt == vtbl[v].noccurences {
          ClearedInv(F(), S(), i + 1, ti);
          model[ti] := Nil;
        }
      }
    }

    /** One argument of the head. */
    method CompHeadArg(i: nat)
      requires Valid(-1, i) && Between() && i < |head|
      requires !m.failed ==> l.pend == multiset(RestEqs(head, cells, i))
      requires forall v: nat :: RestTally(v, head, i) <= Left(F(), S(), v)
      requires modelSP >= RestTally(-1, head, i) + 1 && toDoTop + RestTally(-1, head, i) <= toDo.Length
      modifies this`modelSP, this`code, this`m, this`l, this`toDoTop, vtbl, model, toDo
      ensures Valid(-1, i + 1) && Between() && Same(names, old(l), l) && (old(m.failed) ==> m.failed)
      ensures !m.failed ==> l.pend == multiset(RestEqs(head, cells, i + 1))
      ensures forall v: nat :: Left(F(), S(), v) == Left(F(), old(S()), v) - Weight(v, head, i)
      ensures toDoTop == old(toDoTop) && modelSP >= old(modelSP) - Weight(-1, head, i)
      ensures SameFacts(old(vtbl[..]), vtbl[..])
    {
      hide HeadRun, Inv, HeadModel.Spares, IsUnifier, Same, Ok, RestTally, RestEqs, Weight, Tally, FirstAt;
      ghost var s, l0 := S(), l;
      InvShape(F(), s, -1, i);
      FromNext(F(), s, i);
      ghost var p, first := (cells[i], head[i]), FirstAt(head, i);
      RestNext(F(), s, head, cells, i);
      OneLess(multiset{}, multiset(RestEqs(head, cells, i + 1)), p);
      BetweenSame();
      var arg, ti := head[i], modelE + 2 + i;
      assert s.model[ti] == model[ti];
      LeftEnough(F(), s, head, i);
      if arg.Var? {
        ArgVar(arg.v, ti, p, i);
      } else if arg.Sym? || arg.Int? {
        ArgConst(arg, ti, p, i + 1);
      } else {
        CompHeadStructure(ti, i + 1);
        SparesFailed(s, S(), ti);
        SparesFacts(s, S(), ti);
      }
      assert !m.failed ==> l.pend == if first then l0.pend else l0.pend - multiset{p};
    }
  
    /** All arguments of the head, first one first. */
    method CompHead()
      requires Valid(-1, 0) && Between() && modelE + 2 + |head| == model.Length && |cells| == |head|
      requires !m.failed ==> l.pend == multiset(RestEqs(head, cells, 0))
      requires forall v: nat :: RestTally(v, head, 0) == Left(F(), S(), v)
      requires modelSP >= RestTally(-1, head, 0) + 1 && toDoTop + RestTally(-1, head, 0) <= toDo.Length
      modifies this`modelSP, this`code, this`m, this`l, this`toDoTop, vtbl, model, toDo
      ensures Valid(-1, |head|) && Between() && Same(names, old(l), l)
      ensures !m.failed ==> l.pend == multiset{}
      ensures SameFacts(old(vtbl[..]), vtbl[..]) && forall v: nat :: Left(F(), S(), v) == 0
      ensures modelSP >= old(modelSP) - RestTally(-1, head, 0)
    {
      hide HeadRun, Inv, IsUnifier, Same, Ok, RestTally, RestEqs, Weight, Tally, SameFacts;
      ghost var l0 := l;
      BetweenSame();
      FactsRefl(vtbl[..]);
      for i := 0 to |head|
        invariant Valid(-1, i) && Between() && Same(names, l0, l) && SameFacts(old(vtbl[..]), vtbl[..])
        invariant !m.failed ==> l.pend == multiset(RestEqs(head, cells, i))
        invariant forall v: nat :: RestTally(v, head, i) == Left(F(), S(), v)
        invariant modelSP >= old(modelSP) - RestTally(-1, head, 0) + RestTally(-1, head, i)
        invariant modelSP >= RestTally(-1, head, i) + 1 && toDoTop + RestTally(-1, head, i) <= toDo.Length
      {
        ghost var l1, vtbl1 := l, vtbl[..];
        RestNext(F(), S(), head, cells, i);
        CompHeadArg(i);
        SameTrans(names, l0, l1, l);
        FactsTrans(old(vtbl[..]), vtbl1, vtbl[..]);
      }
      RestEnds(head, cells);
    }
  
    /** The part of the model that the head starts from: a variable argument is at home in its
        first place, permanent variables are at home in the environment. */
    method InitModel()
      requires TableOk(F(), vtbl[..]) && F().Ok() && StartOk(F(), names, m) && KnownVars(model[..], vtbl.Length) && modelAdst >= 2
      requires m == start && code == [] && l == StartLogic(F(), m)
      requires Injective(names) && IsUnifier(names, unify) && toDoTop <= toDo.Length
      modifies this`modelSP, this`l, model, vtbl
      ensures Valid(-1, 0) && Between() && Same(names, old(l), l) && modelSP == modelSPstart
      ensures l.pend == multiset(RestEqs(head, cells, 0)) && SameFacts(old(vtbl[..]), vtbl[..])
      ensures forall v: nat :: RestTally(v, head, 0) == Left(F(), S(), v)
    {
      hide Inv, IsUnifier, Same, RestEqs, RestTally, Installed, Ready, TableOk, StartOk, Behind, Ahead, KnownVars;
      ghost var vtbl0 := vtbl[..];
      modelSP := modelSPstart;
      RecordArguments();
      ghost var s := S();
      SlotsKept(vtbl0);
      KnownStill(vtbl0);
      PlacePermanents(s);
      ghost var s1 := S();
      FreeArgumentCells();
      ReadyNow(vtbl0, s, s1);
      FactsReady(F(), vtbl0, s, S());
      ReadyInv(F(), vtbl0, names, s, S());
      BehindAll(head, cells, |head|);
      RestEnds(head, cells);
      AheadEnds(AllEqs(head, cells));
      LogicReady();
    }

    /** The cells below the environment are free for the arguments of the first goal. */
    method FreeArgumentCells()
      requires 2 <= modelAdst <= modelEend <= model.Length
      requires KnownVars(model[..], vtbl.Length)
      modifies model
      ensures KnownVars(model[..], vtbl.Length)
      ensures forall x | modelAdst - 2 <= x < modelEend :: model[x] == Nil
      ensures forall x | modelEend <= x < model.Length :: model[x] == old(model[x])
    {
      for i := modelAdst - 2 to modelEend
        invariant KnownVars(model[..], vtbl.Length)
        invariant forall x | modelAdst - 2 <= x < i :: model[x] == Nil
        invariant forall x | modelEend <= x < model.Length :: model[x] == old(model[x])
      {
        model[i] := Nil;
      }
    }

    lemma LogicReady()
      requires |cells| == |head| && Same(names, StartLogic(F(), start), l) && StartOk(F(), names, m) && Mirrors(l, m)
      ensures Between()
    {
    }

    lemma ReadyNow(vtbl0: seq<VarInf>, s: HeadState, s1: HeadState)
      requires F().Ok() && |vtbl0| == |s.vtbl| == vtbl.Length && |s.model| == model.Length == |s1.model| && S().vtbl == s1.vtbl
      requires S().env == s.env && m == s.m && modelSP == modelSPstart && modelAdst >= 2 && KnownVars(model[..], vtbl.Length)
      requires forall v: nat | v < |s.vtbl| :: PermPlaced(F(), s, s1, v)
      requires forall v: nat | v < |s.vtbl| :: s.vtbl[v].pvnum <= modelE - modelEend
      requires forall x | modelE + 2 <= x < model.Length :: s1.model[x] == s.model[x]
      requires forall x | modelAdst - 2 <= x < modelEend :: model[x] == Nil
      requires forall x | modelEend <= x < model.Length :: model[x] == s1.model[x]
      ensures Ready(F(), vtbl0, s, S())
    {
      forall v: nat | v < |s.vtbl| ensures PermPlaced(F(), s, S(), v) { assert PermPlaced(F(), s, s1, v); }
    }

    /** The arguments are recorded; a variable is at home in its first place. */
    method RecordArguments()
      requires TableOk(F(), vtbl[..]) && F().Ok() && StartOk(F(), names, m) && KnownVars(model[..], vtbl.Length)
      requires m == start && l == StartLogic(F(), m)
      modifies this`l, model, vtbl
      ensures Installed(F(), old(vtbl[..]), S(), |head|) && Same(names, old(l), l) && Mirrors(l, m) && |cells| == |head|
      ensures l.pend == Behind(head, cells, |head|) + Ahead(AllEqs(head, cells), |head|)
    {
      hide Same, TableOk, StartOk, Installed, Ahead, Behind, AllEqs, HeadStart.Record, RecordLogic;
      ghost var vtbl0, l0 := vtbl[..], l;
      InstallStart(vtbl0);
      AheadEnds(AllEqs(head, cells));
      for i := 0 to |head|
        invariant Installed(F(), vtbl0, S(), i) && Same(names, l0, l) && Mirrors(l, m)
        invariant l.pend == Behind(head, cells, i) + Ahead(AllEqs(head, cells), i)
      {
        ghost var s, l1 := S(), l;
        InstalledShape(F(), vtbl0, s, i);
        RecordSame(F(), names, l0, l1, i) by { NotFailed(); }
        RecordInstalls(F(), vtbl0, s, i);
        RecordArgument(i);
      }
    }

    method RecordArgument(i: nat)
      requires F().Ok() && i < |head| && |cells| == |head| && Mirrors(l, m)
      requires head[i].Var? ==> head[i].v < vtbl.Length
      requires head[i].Var? ==> (FirstAt(head, i) <==> vtbl[head[i].v].pvnum == 0 && vtbl[head[i].v].home == 0)
      modifies this`l, model, vtbl
      ensures S() == HeadStart.Record(F(), old(S()), i) && l == RecordLogic(F(), old(l), i) && Mirrors(l, m)
    {
      ghost var s := S();
      var ti := modelE + 2 + i;
      l := RecordLogic(F(), l, i);
      if head[i].Var? && vtbl[head[i].v].pvnum == 0 && vtbl[head[i].v].home == 0 {
        var v := head[i].v;
        vtbl[v] := vtbl[v].(home := ti);
        model[ti] := Vo(v);
        vtbl[v] := vtbl[v].(usecnt := vtbl[v].usecnt + 1);
        if vtbl[v].usecnt == vtbl[v].noccurences { model[vtbl[v].home] := Nil; }
      } else {
        model[ti] := EntryOf(head[i]);
      }
      assert S() == HeadStart.Record(F(), s, i);
    }

    lemma NotFailed()
      requires StartOk(F(), names, m) && Mirrors(l, m)
      ensures !l.failed
    {
    }

    lemma InstallStart(vtbl0: seq<VarInf>)
      requires TableOk(F(), vtbl0) && vtbl0 == vtbl[..] && F().Ok() && KnownVars(model[..], vtbl.Length) && StartOk(F(), names, m) && l == StartLogic(F(), m)
      ensures Installed(F(), vtbl0, S(), 0) && Same(names, l, l) && Mirrors(l, m) && |cells| == |head|
      ensures l.pend == Behind(head, cells, 0) + multiset(AllEqs(head, cells))
    {
      StartLogicOk(F(), names, m);
      forall v: nat | v < |vtbl0| ensures VarPending(F(), vtbl0, S(), 0, v) { assert Classified(F(), vtbl0[v], v); }
    }

    lemma SlotsKept(vtbl0: seq<VarInf>)
      requires Installed(F(), vtbl0, S(), |head|) && TableOk(F(), vtbl0)
      ensures |vtbl0| == vtbl.Length
      ensures forall v: nat | v < vtbl.Length :: S().vtbl[v].pvnum <= modelE - modelEend
      ensures forall u: nat, v: nat | u < vtbl.Length && v < vtbl.Length :: SlotsDiffer(S().vtbl, u, v)
    {
      var s := S();
      forall v: nat | v < vtbl.Length ensures s.vtbl[v].pvnum == vtbl0[v].pvnum <= modelE - modelEend {
        assert VarPending(F(), vtbl0, s, |head|, v) && Classified(F(), vtbl0[v], v);
      }
      forall u: nat, v: nat | u < vtbl.Length && v < vtbl.Length ensures SlotsDiffer(s.vtbl, u, v) {
        assert SlotsDiffer(vtbl0, u, v);
      }
    }

    lemma KnownStill(vtbl0: seq<VarInf>)
      requires Installed(F(), vtbl0, S(), |head|)
      ensures KnownVars(model[..], vtbl.Length)
    {
    }

    /** Permanent variables are at home in the environment. */
    method PlacePermanents(ghost s: HeadState)
      requires s == S() && F().Ok() && KnownVars(s.model, |s.vtbl|)
      requires forall v: nat | v < |s.vtbl| :: s.vtbl[v].pvnum <= modelE - modelEend
      requires forall u: nat, v: nat | u < |s.vtbl| && v < |s.vtbl| :: SlotsDiffer(s.vtbl, u, v)
      modifies model, vtbl
      ensures forall v: nat | v < |s.vtbl| :: PermPlaced(F(), s, S(), v)
      ensures KnownVars(model[..], vtbl.Length)
      ensures forall x | modelE + 2 <= x < model.Length :: model[x] == s.model[x]
    {
      for v := 0 to vtbl.Length
        invariant KnownVars(model[..], vtbl.Length) && forall u: nat | u < v :: PermPlaced(F(), s, S(), u)
        invariant forall u: nat | v <= u < vtbl.Length :: vtbl[u] == s.vtbl[u]
        invariant forall x | modelE + 2 <= x < model.Length :: model[x] == s.model[x]
      {
        ghost var s1 := S();
        if vtbl[v].pvnum != 0 {
          vtbl[v] := vtbl[v].(home := modelE - vtbl[v].pvnum);
          model[vtbl[v].home] := Vo(v);
        }
        forall u: nat | u < v + 1 ensures PermPlaced(F(), s, S(), u) {
          if u < v { assert PermPlaced(F(), s, s1, u); assert SlotsDiffer(s.vtbl, u, v); }
        }
      }
    }
  
    /** All occurrences in the head are used up, and a variable that is still needed is at home. */
    ghost predicate VarSettled(v: nat)
      requires v < vtbl.Length && |total| == vtbl.Length
      reads this, vtbl
    {
      && vtbl[v].usecnt == total[v]
      && (!m.failed ==> (v in l.env <==> total[v] > 0))
      && (!m.failed && Live(vtbl[v]) ==>
            v in l.env && modelSP <= vtbl[v].home < model.Length && Get(m.w.mem, vtbl[v].home) == l.env[v])
    }

    /** The head of a clause.  The code unifies the arguments with the head: what the machine
        ends with are exactly the solutions in which the arguments are an instance of the head,
        and each variable that is still needed is at its home. */
    method CompileHead()
      requires TableOk(F(), vtbl[..]) && F().Ok() && StartOk(F(), names, m) && KnownVars(model[..], vtbl.Length) && modelAdst >= 2
      requires m == start && code == [] && l == StartLogic(F(), m)
      requires Injective(names) && IsUnifier(names, unify)
      requires modelSPstart >= RestTally(-1, head, 0) + 1 && toDoTop + RestTally(-1, head, 0) <= toDo.Length
      modifies this`modelSP, this`code, this`m, this`l, this`toDoTop, vtbl, model, toDo
      ensures Valid(-1, |head|) && Ended(F(), names, start, m, l)
      ensures SameFacts(old(vtbl[..]), vtbl[..]) && (forall v: nat :: Left(F(), S(), v) == 0)
      ensures modelSP >= modelSPstart - RestTally(-1, head, 0)
      ensures Sound(names, start, m, l.env, head, cells) && Complete(names, start, m, l.env, head, cells)
      ensures Decides(F(), names, start, m)
      ensures |total| == vtbl.Length && forall v: nat | v < vtbl.Length :: VarSettled(v)
      ensures !m.failed ==> Global(m)
    {
      hide HeadRun, Inv, IsUnifier, Same, Ok, RestTally, RestEqs, TableOk, StartOk, Sound, Complete, StartLogic,
           Decides;
      ghost var l0 := l;
      InitModel();
      ghost var l1, vtbl1 := l, vtbl[..];
      CompHead();
      FactsTrans(old(vtbl[..]), vtbl1, vtbl[..]);
      SameTrans(names, l0, l1, l);
      HeadIsSound(F(), names, start, m, l);
      HeadIsComplete(F(), names, start, m, l);
      InvShape(F(), S(), -1, |head|);
      forall v: nat | v < vtbl.Length ensures VarSettled(v) {
        AllUsed(F(), S(), |head|, v);
      }
      if !m.failed { GlobalOf(F(), S(), -1, |head|); }
      DecidesInstances(F(), names, start, m, l);
    }
  }
}
