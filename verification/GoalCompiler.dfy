/** Argument set-up for one goal that is not the last of its clause.  There are no
    argument or temporary registers, so every model index denotes a stack cell. */
module GoalCompiler {
  import opened Wam
  import opened VarTable
  import opened GoalModel
  import opened GoalBuild
  import opened GoalDanger
  import opened GoalSpill
  import opened GoalUnsafe

  class Compiler {
    const model: array<Entry>
    const vtbl: array<VarInf>
    const toDo: array<int>

    const modelE: int
    const modelEend: int
    const modelAdst: int
    const modelSPstart: int
    const goalnumber: int

    var modelSP: int
    var toDoTop: nat
    var code: seq<Instr>

    // The machine that has run `code`, and what the proof knows about it.
    ghost const start: Machine
    ghost const top: int
    ghost const gap: int
    ghost const args: seq<Term>
    ghost const total: seq<nat>
    ghost const entry: Env
    ghost var m: Machine
    ghost var env: Env
    ghost var placed: set<int>

    /** The compiler about to set up a goal, with the machine that will run the code. */
    constructor (model: array<Entry>, vtbl: array<VarInf>, toDo: array<int>, e: int, eend: int, adst: int, spstart: int,
                 goalnumber: int, sp: int, ghost f: Frame,
                 ghost m0: Machine, ghost env0: Env)
      requires f.N == model.Length && f.E == e && f.Eend == eend && f.Adst == adst && f.SPstart == spstart
      requires f.goalnumber == goalnumber
      ensures F() == f && S() == State(model[..], vtbl[..], sp, m0, env0, {})
      ensures code == [] && start == m0 && entry == env0 && toDoTop == 0
      ensures this.model == model && this.vtbl == vtbl && this.toDo == toDo
    {
      this.model, this.vtbl, this.toDo := model, vtbl, toDo;
      modelE, modelEend, modelAdst, modelSPstart, this.goalnumber := e, eend, adst, spstart, goalnumber;
      modelSP, toDoTop, code := sp, 0, [];
      start, top, gap, args, total, entry := m0, f.Top, f.gap, f.args, f.total, env0;
      m, env, placed := m0, env0, {};
    }

    ghost function F(): Frame {
      Frame(model.Length, modelE, modelEend, modelAdst, modelSPstart, top, goalnumber, gap, args, total)
    }

    ghost function S(): State
      reads this, model, vtbl
    {
      State(model[..], vtbl[..], modelSP, m, env, placed)
    }

    ghost predicate Valid(exc: int)
      reads this, model, vtbl
    {
      && m == Run(start, code) && Inv(F(), S(), exc) && toDoTop <= toDo.Length
      && FreshBindings(entry, start.next, env, m.next)
    }

    function Operand(n: int): Loc
      requires 0 <= n < model.Length
      requires model[n].Vo? ==> model[n].v < vtbl.Length
      reads this, model, vtbl
    {
      OperandOf(modelE, modelEend, modelSP, model[n].Vo? && vtbl[model[n].v].pvnum != 0, n)
    }

    /** The register and displacement chosen for a model cell address its run-time cell. */
    lemma OperandAddress(n: int)
      requires Shape(F(), S()) && modelSP <= n < model.Length
      ensures Addr(m, Operand(n)) == Phys(F(), S(), n)
    {
      assert model[n] == S().model[n];
    }

    method Icode(i: Instr)
      requires m == Run(start, code)
      modifies this`code, this`m
      ensures code == old(code) + [i] && m == Step(old(m), i) && m == Run(start, code)
    {
      hide Run, Step;
      RunSnoc(start, code, i);
      code := code + [i];
      m := Step(m, i);
    }

    /** A free stack cell between SP and where it started, or a new one below SP. */
    method FindTemp() returns (t: int)
      requires Valid(-1) && modelSP >= 2
      modifies this`modelSP, this`code, this`m, model
      ensures Valid(-1) && MaybeShrunk(old(S()), S())
      ensures modelSP <= t < modelSPstart && model[t] == Nil && Vacant(F(), S(), t)
    {
      ghost var s := S();
      for i := modelSP to modelSPstart {
        if model[i] == Nil {
          VacantTemp(F(), s, i);
          return i;
        }
      }
      ShrinkInv(F(), s);
      Icode(AddToSp(-1));
      modelSP := modelSP - 1;
      model[modelSP] := Nil;
      assert S() == Shrunk(s);
      VacantTemp(F(), S(), modelSP);
      return modelSP;
    }

    /** What a model cell holds at run time is copied to another, unless they are the same
        cell and no change of frame is needed. */
    method MoveCell(n: int, k: int)
      requires m == Run(start, code) && Shape(F(), S()) && modelSP <= n < model.Length && modelSP <= k < model.Length
      modifies this`code, this`m
      ensures m == Run(start, code)
      ensures m == if n == k && model[k].Vo? && vtbl[model[k].v].pvnum == 0 then old(m)
                   else old(m).(mem := old(m).mem[Phys(F(), S(), k) := old(At(F(), S(), n))])
    {
      assert model[k] == S().model[k] && model[n] == S().model[n];
      if n == k && model[k].Vo? && vtbl[model[k].v].pvnum == 0 { return; }
      OperandAddress(n);
      OperandAddress(k);
      Icode(Move(Operand(n), Operand(k)));
    }

    /** As MoveCell, but a variable that would be left in a dying environment gets a heap cell. */
    method PutUnsafeValue(n: int, k: int)
      requires m == Run(start, code) && Shape(F(), S()) && modelSP <= n < model.Length && modelSP <= k < model.Length
      modifies this`code, this`m
      ensures m == Run(start, code)
      ensures m == Copied(old(m), Phys(F(), S(), k), old(At(F(), S(), n)), true)
    {
      assert model[k] == S().model[k] && model[n] == S().model[n];
      OperandAddress(n);
      OperandAddress(k);
      Icode(PUnsafe(Operand(n), Operand(k)));
    }

    ghost predicate AtHome(i: int)
      reads this, model, vtbl
    {
      && 0 <= i && F().Base() <= i < top < model.Length && i !in placed && model[i].Vo?
      && model[i].v < vtbl.Length && vtbl[model[i].v].home == i
    }

    /** The variable at home in `loc` moves to a temporary. */
    method MoveToTemp(loc: int)
      requires Valid(-1) && Room(S()) >= 2 && AtHome(loc) && vtbl[model[loc].v].pvnum == 0
      modifies this`modelSP, this`code, this`m, model, vtbl
      ensures Valid(-1) && Shuffles(F(), old(S()), S()) && Room(S()) >= old(Room(S())) - 1
      ensures Freed(F(), S(), loc) && StayHome(F(), old(S()), S(), old(model[loc].v))
      ensures Clears(F(), old(S()), S(), -1, -1)
    {
      hide Clears;
      ghost var s := S();
      var v := model[loc].v;
      var t := FindTemp();
      ghost var s1 := S();
      assert s1.model[loc] == s.model[loc];
      MoveHome(loc, t);
      MoveToTempKeeps(F(), s, s1, S(), v, t);
      MoveClears(F(), s, s1, S(), v, t);
    }

    /** The second half of MoveToTemp: the temporary `t` becomes the home. */
    method MoveHome(loc: int, t: int)
      requires Valid(-1) && AtHome(loc) && vtbl[model[loc].v].pvnum == 0 && Vacant(F(), S(), t)
      modifies this`code, this`m, model, vtbl
      ensures m == Run(start, code) && Relocates(F(), old(S()), S(), old(model[loc].v), t)
    {
      hide FreshBindings, Run;
      ghost var s1 := S();
      var v := model[loc].v;
      assert s1.model[loc] == Vo(v) && s1.vtbl[v] == vtbl[v] && s1.model[t] == model[t];
      ResidentHasValue(F(), s1, v);
      model[t] := model[loc];
      vtbl[v] := vtbl[v].(home := t);
      assert Shape(F(), S());
      MoveCell(loc, t);
      model[loc] := Nil;
      assert Relocates(F(), s1, S(), v, t);
    }

    /** The permanent variable at home in `i` becomes a temporary: it goes to its argument
        position when that is free, otherwise to a temporary cell. */
    method EvictPerm(i: int, ghost first: int)
      requires Valid(-1) && Room(S()) >= 1 && AtHome(i) && vtbl[model[i].v].pvnum != 0
      requires F().Base() <= first < top && first !in placed && (i == first || Freed(F(), S(), first))
      modifies this`modelSP, this`code, this`m, model, vtbl
      ensures Valid(-1) && Shuffles(F(), old(S()), S()) && Room(S()) >= old(Room(S()))
      ensures StayHome(F(), old(S()), S(), -1) && Freed(F(), S(), first)
      ensures Clears(F(), old(S()), S(), i - 1, i)
      ensures |m.heap| > old(|m.heap|) <==> Danger(Watched(old(S())), i - 1, i)
    {
      hide Inv, Shuffles, StayHome, Freed, FreshBindings, Run, Room, Vacant, Relocates, Clears, Danger, Watched;
      ghost var s := S();
      ghost var v := model[i].v;
      ShapeOf(F(), s, -1);
      assert s.model[i] == Vo(v) && s.vtbl[v] == vtbl[v];
      RoomBelow(s, v);
      var t := PermTarget(i);
      ghost var s1 := S();
      PermToCell(i, t);
      Evicted(F(), s, s1, S(), v, t, first);
    }

    /** The target of the permanent variable at home in `i`, when it is free, or a temporary. */
    method PermTarget(i: int) returns (t: int)
      requires Valid(-1) && modelSP >= 2 && AtHome(i) && vtbl[model[i].v].pvnum != 0
      modifies this`modelSP, this`code, this`m, model
      ensures Valid(-1) && MaybeShrunk(old(S()), S()) && Vacant(F(), S(), t) && AtHome(i) && model[i] == old(model[i])
      ensures t < modelSPstart || (t == vtbl[model[i].v].target && S() == old(S()))
    {
      hide Inv, FreshBindings, Run, Vacant;
      ghost var s := S();
      var v := model[i].v;
      ShapeOf(F(), s, -1);
      assert s.model[i] == Vo(v) && s.vtbl[v] == vtbl[v];
      t := vtbl[v].target;
      if t != 0 { TargetOpen(F(), s, v); assert model[t] == s.model[t]; }
      if t != 0 && model[t] == Nil {
        NilTarget(F(), s, t);
      } else {
        t := FindTemp();
        assert S().model[i] == model[i];
      }
    }

    method PermToCell(i: int, t: int)
      requires Valid(-1) && AtHome(i) && vtbl[model[i].v].pvnum != 0 && Vacant(F(), S(), t)
      modifies this`code, this`m, model, vtbl
      ensures m == Run(start, code) && Relocates(F(), old(S()), S(), old(model[i].v), t)
    {
      hide Inv, FreshBindings, Run, Vacant;
      ghost var s1 := S();
      var v := model[i].v;
      assert s1.model[i] == Vo(v) && s1.vtbl[v] == vtbl[v];
      ShapeOf(F(), s1, -1);
      ResidentHasValue(F(), s1, v);
      NotInPlace(F(), s1, v, t);
      VacantPhys(F(), s1, t);
      if vtbl[v].unsafe && vtbl[v].firstocc != 0 {
        PutUnsafeValue(i, t);
        vtbl[v] := vtbl[v].(unsafe := false);
      } else {
        MoveCell(i, t);
      }
      model[t] := model[i];
      vtbl[v] := vtbl[v].(home := t, pvnum := 0);
      if i != t { model[i] := Nil; }
      assert Relocates(F(), s1, S(), v, t);
    }

    /** Every permanent variable at home from `first` down to the end of the environment
        becomes a temporary. */
    method MovePerms(first: int)
      requires Valid(-1) && Room(S()) >= 1 && AtHome(first) && vtbl[model[first].v].pvnum != 0 && modelEend <= first
      modifies this`modelSP, this`code, this`m, model, vtbl
      ensures Valid(-1) && Shuffles(F(), old(S()), S()) && Room(S()) >= old(Room(S()))
      ensures Freed(F(), S(), first) && StayHome(F(), old(S()), S(), -1)
      ensures Clears(F(), old(S()), S(), -1, first)
      ensures |m.heap| > old(|m.heap|) <==> Danger(Watched(old(S())), -1, first)
    {
      hide Inv, Shuffles, StayHome, Freed, FreshBindings, Run, Room, EvictedDown, Clears, Danger, Watched;
      ghost var s0 := S();
      ShapeOf(F(), s0, -1);
      NoneEvicted(F(), s0, first);
      var i := first;
      while i >= modelEend
        invariant modelEend - 1 <= i <= first && Valid(-1) && Shape(F(), S())
        invariant EvictedDown(F(), s0, S(), i, first)
      {
        ghost var s1 := S();
        EvictedSoFar(F(), s0, s1, i, first);
        assert model[i] == s1.model[i];
        if model[i].Vo? && vtbl[model[i].v].pvnum != 0 && vtbl[model[i].v].home == i {
          PermNotPlaced(F(), s1, i);
          EvictPerm(i, first);
          ShapeOf(F(), S(), -1);
          OneEvicted(F(), s0, s1, S(), i, first);
        } else {
          PassedOver(F(), s0, s1, i, first);
        }
        i := i - 1;
      }
      AllEvicted(F(), s0, S(), first);
    }

    /** Follows the chain of temporaries displaced by `loc` to a cell that is or can be made
        free, leaving the cells passed on the to-do stack. */
    method FollowChain(loc: int) returns (cur: int, ghost chain: seq<nat>)
      requires Valid(-1) && Room(S()) >= 2 && F().Base() <= loc < top && loc !in placed
      requires toDoTop + 2 * vtbl.Length <= toDo.Length
      modifies this`modelSP, this`code, this`m, this`toDoTop, model, vtbl, toDo
      ensures Valid(-1) && Shuffles(F(), old(S()), S()) && Room(S()) >= old(Room(S())) - 1
      ensures toDoTop == old(toDoTop) + 2 * |chain| && toDo[..old(toDoTop)] == old(toDo[..toDoTop])
      ensures ChainOk(F(), S(), chain, loc) && cur == LinkCell(S(), chain, |chain|, loc)
      ensures 0 <= cur < model.Length && Freed(F(), S(), cur)
      ensures Stacked(S(), toDo[..], old(toDoTop), chain, loc)
      ensures Clears(F(), old(S()), S(), -1, Stop(old(S()), loc, loc, vtbl.Length))
    {
      hide Inv, Shuffles, StayHome, ChainOk, Stacked, Freed, FreshBindings, Run, Room, Clears, Danger, Watched,
           Follows;
      ghost var s0 := S();
      var tdbase := toDoTop;
      ghost var base := toDo[..tdbase];
      cur, chain := loc, [];
      ShapeOf(F(), s0, -1);
      FollowsFirst(F(), s0, toDo[..], tdbase, loc);
      while true
        invariant Valid(-1) && S() == s0 && toDoTop == tdbase + 2 * |chain| && toDo[..tdbase] == base
        invariant Follows(F(), s0, toDo[..], tdbase, chain, cur, loc)
        decreases vtbl.Length - |chain|
      {
        FollowsTo(F(), s0, toDo[..], tdbase, chain, cur, loc);
        assert model[cur] == s0.model[cur];
        if model[cur] == Nil {
          return;
        } else if model[cur].Vo? && vtbl[model[cur].v].home == cur {
          var v := model[cur].v;
          ChainFresh(F(), s0, chain, loc, v);
          if vtbl[v].pvnum != 0 {
            PermHome(F(), s0, v);
            MovePerms(cur);
            ChainStays(F(), s0, S(), chain, loc, -1);
            return;
          } else if vtbl[v].home == vtbl[v].target {
            return;
          } else if vtbl[v].target != 0 && vtbl[v].target != loc {
            FollowsOn(F(), s0, toDo[..], tdbase, chain, v, cur, loc);
            toDo[toDoTop] := cur;
            toDo[toDoTop + 1] := cur;
            toDoTop := toDoTop + 2;
            cur := vtbl[v].target;
            chain := chain + [v];
          } else {
            MoveToTemp(cur);
            ChainStays(F(), s0, S(), chain, loc, v);
            return;
          }
        } else {
          return;
        }
      }
    }

    /** One step back along the chain: the variable at home in `cur` goes on to `dst`. */
    method Settle(cur: int, loc2: int, dst: int)
      requires Valid(-1) && AtHome(cur) && vtbl[model[cur].v].pvnum == 0 && loc2 == cur
      requires Vacant(F(), S(), dst)
      modifies this`code, this`m, model, vtbl
      ensures m == Run(start, code) && Relocates(F(), old(S()), S(), old(model[cur].v), dst)
    {
      hide FreshBindings, Run;
      ghost var s1 := S();
      var v := model[cur].v;
      assert s1.model[cur] == Vo(v) && s1.vtbl[v] == vtbl[v] && s1.model[dst] == model[dst];
      VacantPhys(F(), s1, dst);
      NotInPlace(F(), s1, v, dst);
      if cur == loc2 && model[dst].Vo? && v == model[dst].v {
        // the variable is already in place
      } else {
        MoveCell(loc2, dst);
        model[dst] := model[loc2];
        model[loc2] := Nil;
      }
      vtbl[model[dst].v] := vtbl[model[dst].v].(home := dst);
      assert Relocates(F(), s1, S(), v, dst);
    }

    /** Frees the cell `loc` for an argument.  Temporaries in the way go to their targets,
        chain by chain; a cycle back to `loc` is broken through a temporary cell. */
    method FreeTarget(loc: int) returns (ok: bool)
      requires Valid(-1) && Room(S()) >= 2 && F().Base() <= loc < top && loc !in placed
      requires toDoTop + 2 * vtbl.Length <= toDo.Length
      modifies this`modelSP, this`code, this`m, this`toDoTop, model, vtbl, toDo
      ensures ok && Valid(-1) && Shuffles(F(), old(S()), S()) && Room(S()) >= old(Room(S())) - 1
      ensures Freed(F(), S(), loc)
      ensures Clears(F(), old(S()), S(), -1, Stop(old(S()), loc, loc, vtbl.Length))
      ensures |m.heap| > old(|m.heap|) <==> Danger(Watched(old(S())), -1, Stop(old(S()), loc, loc, vtbl.Length))
      ensures toDoTop == old(toDoTop) && toDo[..toDoTop] == old(toDo[..toDoTop])
    {
      hide Inv, Shuffles, StayHome, ChainOk, Stacked, Freed, FreshBindings, Run, Room, Vacant, Relocates, Clears,
           Danger, Watched, Unwinds;
      ghost var s0 := S();
      var tdbase := toDoTop;
      ghost var base := toDo[..tdbase];
      var cur; ghost var chain;
      cur, chain := FollowChain(loc);
      ghost var stop := Stop(s0, loc, loc, vtbl.Length);
      ShapeOf(F(), s0, -1);
      ShapeOf(F(), S(), -1);
      UnwindsFirst(F(), s0, S(), chain, cur, loc, stop);
      while toDoTop > tdbase
        invariant toDoTop == tdbase + 2 * |chain| && toDo[..tdbase] == base && Shape(F(), S()) && Valid(-1)
        invariant 0 <= cur < model.Length && Unwinds(F(), s0, S(), chain, cur, loc, stop)
        invariant Stacked(S(), toDo[..], tdbase, chain, loc)
      {
        ghost var s1 := S();
        LastLink(F(), s0, s1, chain, cur, loc, stop);
        StackTop(s1, toDo[..], tdbase, chain, loc);
        var dst := cur;
        toDoTop := toDoTop - 2;
        var loc2 := toDo[toDoTop + 1];
        cur := toDo[toDoTop];
        assert model[cur] == s1.model[cur] && S() == s1;
        Settle(cur, loc2, dst);
        Unwound(F(), s0, s1, S(), chain, dst, loc, stop, toDo[..], tdbase);
        chain := chain[..|chain| - 1];
        ShapeOf(F(), S(), -1);
      }
      UnwindsLast(F(), s0, S(), cur, loc, stop);
      return true;
    }

    /** A home for a variable that is about to be used in a structure. */
    method FindHome(v: nat) returns (home: int)
      requires Valid(-1) && NoVarPlaced(F(), S()) && v < vtbl.Length && Used(S(), v) < total[v] && Room(S()) >= 2
      requires toDoTop + 2 * vtbl.Length <= toDo.Length
      modifies this`modelSP, this`code, this`m, this`toDoTop, model, vtbl, toDo
      ensures Valid(v) && Resident(F(), S(), v) && home == Home(S(), v)
      ensures Shuffles(F(), old(S()), S()) && Room(S()) >= old(Room(S())) - 1
      ensures old(Used(S(), v)) > 0 ==> S() == old(S()) && Valid(-1)
      ensures CalmVar(F(), old(S()), v) ==> m.heap == old(m.heap)
      ensures |m.heap| > old(|m.heap|) <==> PushedFor(old(S()), v)
      ensures old(m.open) && Settled(F(), old(S())) ==> WatchedWith(F(), old(S()), S(), HomeFound(Watched(old(S())), v))
      ensures toDoTop == old(toDoTop) && toDo[..toDoTop] == old(toDo[..toDoTop])
    {
      hide Inv, Shuffles, FreshBindings, Run, Room, Freed, Vacant, NoVarPlaced, NoUnsafe, Clears, Danger, Watched,
           Settled, WatchedWith, HomeFound;
      ghost var s := S();
      ShapeOf(F(), s, -1);
      assert s.vtbl[v] == vtbl[v];
      NeededIsHome(F(), s, v);
      if vtbl[v].home != 0 {
        ShufflesRefl(F(), s);
        AllowOne(F(), s, v);
        HasHome(F(), s, v);
        return vtbl[v].home;
      }
      home := FreeHome(v);
      ghost var s1 := S();
      ShapeOf(F(), s1, -1);
      assert s1.vtbl[v] == vtbl[v];
      VacantPhys(F(), s1, home);
      model[home] := Vo(v);
      vtbl[v] := vtbl[v].(home := home);
      assert S() == Homed(s1, v, home);
      HomedInv(F(), s1, v, home);
      HomedShuffles(F(), s1, v, home);
      if s.m.open { HouseWatched(F(), s, s1, v, home); }
      ShufflesTrans(F(), s, s1, S());
    }

    /** The target, once it is freed, or a temporary cell. */
    method FreeHome(v: nat) returns (home: int)
      requires Valid(-1) && NoVarPlaced(F(), S()) && v < vtbl.Length && Used(S(), v) < total[v] && Room(S()) >= 2
      requires Home(S(), v) == 0 && toDoTop + 2 * vtbl.Length <= toDo.Length
      modifies this`modelSP, this`code, this`m, this`toDoTop, model, vtbl, toDo
      ensures Valid(-1) && Vacant(F(), S(), home) && Shuffles(F(), old(S()), S())
      ensures Room(S()) >= old(Room(S())) - 1
      ensures Home(S(), v) == 0 && Used(S(), v) == old(Used(S(), v)) == 0
      ensures old(vtbl[v].target) == 0 || NoUnsafe(F(), old(S())) ==> m.heap == old(m.heap)
      ensures |m.heap| > old(|m.heap|) <==> PushedFor(old(S()), v)
      ensures vtbl[v].pvnum == 0 && vtbl[v].target == old(vtbl[v].target)
      ensures if vtbl[v].target == 0 then home < modelSPstart && Clears(F(), old(S()), S(), -1, -1)
              else home == vtbl[v].target && Clears(F(), old(S()), S(), -1, Stop(old(S()), home, home, vtbl.Length))
      ensures toDoTop == old(toDoTop) && toDo[..toDoTop] == old(toDo[..toDoTop])
    {
      hide Inv, Shuffles, FreshBindings, Run, Room, Freed, Vacant, NoVarPlaced, NoUnsafe, Clears, Danger, Watched,
           Settled;
      ghost var s := S();
      assert s.vtbl[v] == vtbl[v];
      HomelessIsUnused(F(), s, v);
      RoomBelow(s, v);
      var freed := false;
      if vtbl[v].target != 0 {
        TargetVacant(F(), s, v);
        freed := FreeTarget(vtbl[v].target);
      }
      if freed {
        home := vtbl[v].target;
      } else {
        home := FindTemp();
        MaybeShrunkKeeps(F(), s, S());
        ShrunkClears(F(), s, S());
      }
      ghost var s1 := S();
      SamePlaced(F(), s, s1);
      assert SameVar(F(), s, s1, v) && SameUse(s, s1, v) && s1.vtbl[v] == vtbl[v];
      UnusedIsHomeless(F(), s1, v);
      if freed { TargetVacant(F(), s1, v); }
    }

    /** The first use of a variable writes a new variable to the structure and to the home. */
    method UseFirst(v: nat, t: int)
      requires Valid(v) && v < vtbl.Length && Resident(F(), S(), v) && t == Home(S(), v)
      requires Used(S(), v) == 0 < total[v] && vtbl[v].noccurences != 1
      modifies this`code, this`m, this`env, vtbl
      ensures Valid(-1) && Builds(F(), old(S()), S()) && Room(S()) == old(Room(S())) && m.open == old(m.open)
      ensures m.spilled == old(m.spilled)
      ensures m.heap == old(m.heap) + [CVar(old(m.next))] && env == old(env)[v := CVar(old(m.next))]
      ensures vtbl[..] == old(vtbl[..])[v := old(vtbl[v]).(unsafe := false, usecnt := 1)]
      ensures WatchedWith(F(), old(S()), S(), Used1(Watched(old(S())), v))
    {
      hide Inv, Builds, FreshBindings, Run, Room, WatchedWith, Used1, Watched;
      ghost var s := S();
      ShapeOf(F(), s, v);
      assert s.vtbl[v] == vtbl[v] && s.model[t] == model[t];
      ghost var c := CVar(m.next);
      UnusedIsUnbound(F(), s, v);
      OperandAddress(t);
      Icode(UVar(Operand(t)));
      vtbl[v] := vtbl[v].(unsafe := false, usecnt := vtbl[v].usecnt + 1);
      env := env[v := c];
      assert S() == FirstUsed(s, v, c, m);
      BindFresh(entry, start.next, s.env, s.m.next, v);
      FirstUsedInv(F(), s, v, c, m);
      FirstUsedBuilds(F(), s, v, c, m);
      FirstUsedWatched(F(), s, v, c, m);
    }

    /** A later use copies the value from the home into the structure. */
    method UseLater(v: nat, t: int)
      requires Valid(-1) && v < vtbl.Length && Resident(F(), S(), v) && t == Home(S(), v)
      requires 0 < Used(S(), v) < total[v] && vtbl[v].noccurences != 1
      modifies this`code, this`m, model, vtbl
      ensures Valid(-1) && Builds(F(), old(S()), S()) && Room(S()) == old(Room(S())) && m.open == old(m.open)
      ensures m.spilled == old(m.spilled)
      ensures m.heap == old(m.heap) + [old(At(F(), S(), t))]
      ensures vtbl[..] == old(vtbl[..])[v := old(vtbl[v]).(usecnt := old(vtbl[v]).usecnt + 1)]
      ensures WatchedWith(F(), old(S()), S(), Used1(Watched(old(S())), v))
    {
      hide Inv, Builds, FreshBindings, Run, Room, WatchedWith, Used1, Watched, Quiet, At;
      ghost var s := S();
      ShapeOf(F(), s, -1);
      assert s.vtbl[v] == vtbl[v] && s.model[t] == model[t];
      EmitUse(v, t);
      vtbl[v] := vtbl[v].(usecnt := vtbl[v].usecnt + 1);
      if vtbl[v].usecnt == vtbl[v].noccurences { model[t] := Nil; }
      assert S() == LaterUsed(s, v, m);
      LaterUsedKeeps(F(), s, v, m);
    }

    /** The value at home in `t` is pushed; a variable that may still be local gets a heap cell. */
    method EmitUse(v: nat, t: int)
      requires m == Run(start, code) && Shape(F(), S()) && v < vtbl.Length && modelSP <= t < model.Length
      modifies this`code, this`m
      ensures m == Run(start, code) && Quiet(old(m), m) && m.heap == old(m.heap) + [old(At(F(), S(), t))]
      ensures m.next == old(m.next) && m.open == old(m.open) && m.spilled == old(m.spilled)
      ensures m.locals == if vtbl[v].unsafe then Globalized(old(m), old(At(F(), S(), t))) else old(m.locals)
      ensures m.guarded == old(m.guarded)
    {
      hide Run;
      assert S().model[t] == model[t];
      OperandAddress(t);
      if vtbl[v].unsafe {
        Icode(ULval(Operand(t)));
      } else {
        Icode(UVal(Operand(t)));
      }
    }

    method UseVoid(v: nat)
      requires Valid(-1) && v < vtbl.Length && vtbl[v].noccurences == 1 && Used(S(), v) < total[v]
      modifies this`code, this`m, this`env, vtbl
      ensures Valid(-1) && Builds(F(), old(S()), S()) && Room(S()) == old(Room(S())) && m.open == old(m.open)
      ensures m.spilled == old(m.spilled)
      ensures m.heap == old(m.heap) + [CVar(old(m.next))] && env == old(env)[v := CVar(old(m.next))]
      ensures vtbl[..] == old(vtbl[..])[v := old(vtbl[v]).(usecnt := old(vtbl[v]).usecnt + 1)]
      ensures WatchedWith(F(), old(S()), S(), Used1(Watched(old(S())), v))
    {
      hide WatchedWith, Used1, Watched;
      ghost var s := S();
      assert s.vtbl[v] == vtbl[v];
      ghost var c := CVar(m.next);
      assert VarOk(F(), s, -1, v);
      Icode(UVoid);
      vtbl[v] := vtbl[v].(usecnt := vtbl[v].usecnt + 1);
      env := env[v := c];
      assert S() == VoidUsed(s, v, c, m);
      BindFresh(entry, start.next, s.env, s.m.next, v);
      VoidUsedInv(F(), s, v, c, m);
      VoidUsedBuilds(F(), s, v, c, m);
      VoidUsedWatched(F(), s, v, c, m);
    }

    /** A variable occurring in a structure. */
    method StructVar(v: nat)
      requires Valid(-1) && m.open && NoVarPlaced(F(), S()) && v < vtbl.Length && Used(S(), v) < total[v]
      requires Room(S()) >= 2 && toDoTop + 2 * vtbl.Length <= toDo.Length
      modifies this`modelSP, this`code, this`m, this`env, this`toDoTop, model, vtbl, toDo
      ensures Valid(-1) && m.open && Builds(F(), old(S()), S()) && placed == old(placed)
      ensures Room(S()) >= old(Room(S())) - 1
      ensures Appended(old(m.heap), m, Var(v), env)
      ensures CalmVar(F(), old(S()), v) ==> m.spilled == old(m.spilled)
      ensures |m.heap| == |old(m.heap)| + 1 ==> m.spilled == old(m.spilled)
      ensures |m.heap| > |old(m.heap)| + 1 <==> vtbl[v].noccurences != 1 && PushedFor(old(S()), v)
      ensures Watches(F(), old(S()), S(), [Use(v)])
      ensures forall u: nat :: Left(F(), S(), u) == old(Left(F(), S(), u)) - Unit(u, Var(v))
      ensures toDoTop == old(toDoTop) && toDo[..toDoTop] == old(toDo[..toDoTop])
    {
      hide Inv, Builds, FreshBindings, Run, Room, Shuffles, NoVarPlaced, Left, Watches, WatchedWith, Used1, Watched,
           HomeFound, PushedFor, Settled;
      ghost var s := S();
      ShapeOf(F(), s, -1);
      assert s.vtbl[v] == vtbl[v];
      NeededIsHome(F(), s, v);
      if vtbl[v].noccurences == 1 {
        UseVoid(v);
        OneUsed(F(), s, S(), v);
        UseWatched(F(), s, s, S(), v);
      } else {
        var t := FindHome(v);
        ghost var s1 := S();
        SamePlaced(F(), s, s1);
        ShufflesBuilds(F(), s, s1);
        assert SameUse(s, s1, v) && SameVar(F(), s, s1, v) && s1.vtbl[v] == vtbl[v];
        if vtbl[v].usecnt == 0 {
          UseFirst(v, t);
        } else {
          UseLater(v, t);
        }
        BuildsTrans(F(), s, s1, S());
        SameLeft(F(), s, s1);
        OneUsed(F(), s1, S(), v);
        UseWatched(F(), s, s1, S(), v);
      }
    }

    /** A cell for a term: the argument cell `loc`, or a temporary when `loc` is 0. */
    method CellFor(loc: int) returns (r: int)
      requires Valid(-1) && !m.open && Room(S()) >= 2 && toDoTop + 2 * vtbl.Length <= toDo.Length
      requires loc == 0 || (modelAdst <= loc < modelAdst + |args| && loc !in placed && !ArgAt(F(), loc).Var?)
      modifies this`modelSP, this`code, this`m, this`toDoTop, model, vtbl, toDo
      ensures Valid(-1) && Shuffles(F(), old(S()), S()) && Room(S()) >= old(Room(S())) - 1
      ensures Vacant(F(), S(), r) && (if loc == 0 then r < modelSPstart && model[r] == Nil else r == loc)
      ensures Watches(F(), old(S()), S(), FreeEvents(loc))
      ensures toDoTop == old(toDoTop) && toDo[..toDoTop] == old(toDo[..toDoTop])
    {
      hide Watches, Clears, Danger, Watched, Settled;
      ghost var s := S();
      if loc == 0 {
        r := FindTemp();
        MaybeShrunkKeeps(F(), s, S());
        ShrunkWatched(F(), s, S());
      } else {
        var _ := FreeTarget(loc);
        ArgumentVacant(F(), S(), loc);
        FreeWatched(F(), s, S(), loc);
        r := loc;
      }
    }

    /** The first instruction of a term. */
    method EmitHead(t: Term, l: Loc)
      requires m == Run(start, code) && Built(t)
      modifies this`code, this`m
      ensures m == Run(start, code) && m.e == old(m.e) && m.sp == old(m.sp) && m.next == old(m.next)
      ensures m.locals == old(m.locals) && m.guarded == old(m.guarded)
      ensures m.spilled == old(m.spilled) && m.open == (old(m.open) || Compound(t))
      ensures old(m.heap) <= m.heap
      ensures var a := old(Addr(m, l));
              m.mem == old(m.mem)[a := Get(m.mem, a)] && HeadOk(m.heap, Get(m.mem, a), t)
    {
      if t.Uia? {
        Icode(PUia(t.name, l));
      } else if t.List? {
        Icode(PList(l));
      } else {
        Icode(PStructure(t.functor, |t.args|, l));
      }
    }

    /** A term is started in the vacant cell `loc`. */
    method PutHead(t: Term, loc: int)
      requires Valid(-1) && Built(t) && !m.open && Vacant(F(), S(), loc)
      requires if loc < modelSPstart then model[loc] == Nil
               else modelAdst <= loc < modelAdst + |args| && !ArgAt(F(), loc).Var?
      modifies this`code, this`m, this`placed, model
      ensures Valid(-1) && Builds(F(), old(S()), S()) && Room(S()) == old(Room(S()))
      ensures m.open == Compound(t) && m.spilled == old(m.spilled)
      ensures model[..] == old(model[..])[loc := Other(t)]
      ensures placed == if loc < modelSPstart then old(placed) else old(placed) + {loc}
      ensures HeadOk(m.heap, Get(m.mem, loc - gap), t)
      ensures Unwatched(F(), old(S()), S())
    {
      hide FreshBindings, Run, Unwatched;
      ghost var s := S();
      model[loc] := Other(t);
      assert S().model[loc] == Other(t);
      OperandAddress(loc);
      EmitHead(t, Operand(loc));
      placed := if loc < modelSPstart then placed else placed + {loc};
      assert S() == Filled(F(), s, loc, t, m);
      FilledInv(F(), s, loc, t, m, Get(m.mem, loc - gap));
      FilledBuilds(F(), s, loc, t, m, Get(m.mem, loc - gap));
      FilledUnwatched(F(), s, loc, t, m);
    }

    /** Builds the subterms that need a structure of their own, last one first. */
    method GatherKids(t: Term, tdbase: nat) returns (ghost cells: seq<Cell>, ghost bad: int)
      requires Compound(t) && Valid(-1) && !m.open && NoVarPlaced(F(), S())
      requires forall v: nat :: Tally(v, t) <= Left(F(), S(), v)
      requires Room(S()) >= Size(t) + 1 && toDoTop == tdbase + |Kids(t)|
      requires tdbase + Size(t) + 2 * vtbl.Length <= toDo.Length
      modifies this`modelSP, this`code, this`m, this`env, this`placed, this`toDoTop, model, vtbl, toDo
      decreases t, |Kids(t)| + 1
      ensures Valid(-1) && !m.open && Builds(F(), old(S()), S()) && placed == old(placed)
      ensures Gathered(S(), Kids(t), cells, 0, old(m.spilled), bad)
      ensures Calm(F(), old(S()), t) ==> m.spilled == old(m.spilled)
      ensures KidsReady(F(), old(S()), S(), toDo[..], tdbase, Kids(t), cells, 0)
      ensures Watches(F(), old(S()), S(), GatherEvents(t, 0))
      ensures forall v: nat :: Left(F(), S(), v) == old(Left(F(), S(), v)) - BuiltTally(v, t, |Kids(t)|)
      ensures Room(S()) >= old(Room(S())) - BuiltTally(-1, t, |Kids(t)|)
      ensures toDoTop == old(toDoTop) && toDo[..tdbase] == old(toDo[..tdbase])
    {
      hide Calm, Inv, Builds, KidsReady, Gathered, Result, Tally, Left, Room, KidReady, FreshBindings, Run, Watches,
           GatherEvents;
      ghost var s0 := S();
      ghost var base := toDo[..tdbase];
      WatchesNothing(F(), s0);
      GatherEventsEnd(t);
      var kids := Kids(t);
      cells := seq(|kids|, _ => Junk);
      bad := 0;
      var i := |kids|;
      BuildsRefl(F(), s0);
      GatherStart(s0, kids, cells);
      NoneReadyYet(F(), s0, toDo[..], tdbase, kids, cells);
      while i > 0
        invariant |cells| == |kids| && (s0.m.spilled ==> m.spilled)
        invariant 0 <= i <= |kids| && Valid(-1) && !m.open && Builds(F(), s0, S()) && placed == s0.placed
        invariant Gathered(S(), kids, cells, i, s0.m.spilled, bad)
        invariant KidsReady(F(), s0, S(), toDo[..], tdbase, kids, cells, i)
        invariant forall v: nat :: Left(F(), S(), v) == Left(F(), s0, v) - BuiltTally(v, t, |kids|) + BuiltTally(v, t, i)
        invariant Room(S()) >= Room(s0) - BuiltTally(-1, t, |kids|) + BuiltTally(-1, t, i)
        invariant toDoTop == tdbase + |kids| && toDo[..tdbase] == base
        invariant Calm(F(), s0, t) ==> m.spilled == s0.m.spilled
        invariant Watches(F(), s0, S(), GatherEvents(t, i))
      {
        cells, bad := GatherKid(t, tdbase, i - 1, s0, cells, bad);
        i := i - 1;
      }
    }

    /** Builds subterm `k`, when it needs a structure of its own, and notes its temporary. */
    method GatherKid(t: Term, tdbase: nat, k: nat, ghost s0: State, ghost cells0: seq<Cell>, ghost bad0: int)
      returns (ghost cells: seq<Cell>, ghost bad: int)
      requires Compound(t) && k < |Kids(t)| && Valid(-1) && !m.open && NoVarPlaced(F(), S()) && Builds(F(), s0, S())
      requires forall v: nat :: Tally(v, t) <= Left(F(), s0, v)
      requires forall v: nat ::
                 Left(F(), S(), v) == Left(F(), s0, v) - BuiltTally(v, t, |Kids(t)|) + BuiltTally(v, t, k + 1)
      requires Room(S()) >= Size(t) + 1 - BuiltTally(-1, t, |Kids(t)|) + BuiltTally(-1, t, k + 1)
      requires toDoTop == tdbase + |Kids(t)| && tdbase + Size(t) + 2 * vtbl.Length <= toDo.Length
      requires s0.m.spilled ==> m.spilled
      requires Gathered(S(), Kids(t), cells0, k + 1, s0.m.spilled, bad0)
      requires KidsReady(F(), s0, S(), toDo[..], tdbase, Kids(t), cells0, k + 1)
      requires Calm(F(), s0, t) ==> m.spilled == s0.m.spilled
      requires Watches(F(), s0, S(), GatherEvents(t, k + 1))
      modifies this`modelSP, this`code, this`m, this`env, this`placed, this`toDoTop, model, vtbl, toDo
      decreases t, k + 1
      ensures Valid(-1) && !m.open && Builds(F(), s0, S()) && placed == old(placed)
      ensures Gathered(S(), Kids(t), cells, k, s0.m.spilled, bad) && (s0.m.spilled ==> m.spilled)
      ensures |cells| == |Kids(t)|
      ensures Calm(F(), s0, t) ==> m.spilled == s0.m.spilled
      ensures KidsReady(F(), s0, S(), toDo[..], tdbase, Kids(t), cells, k)
      ensures Watches(F(), s0, S(), GatherEvents(t, k))
      ensures forall v: nat ::
                Left(F(), S(), v) == Left(F(), s0, v) - BuiltTally(v, t, |Kids(t)|) + BuiltTally(v, t, k)
      ensures Room(S()) >= old(Room(S())) - BuiltTally(-1, t, k + 1) + BuiltTally(-1, t, k)
      ensures toDoTop == old(toDoTop) && toDo[..tdbase] == old(toDo[..tdbase])
    {
      hide Calm, Inv, Builds, KidsReady, Gathered, Result, Tally, BuiltTally, Left, Room, KidReady, FreshBindings,
           Run, NoVarPlaced, Kids, Compound, Watches, GatherEvents, KidEvents;
      ghost var s := S();
      ghost var stack := toDo[..];
      var kid := Kids(t)[k];
      if Calm(F(), s0, t) { CalmKid(F(), s0, s, t, k); }
      KidFits(F(), s, s0, t, k + 1);
      KidStep(t, k);
      GatheredSizes(s, Kids(t), cells0, k + 1, s0.m.spilled, bad0);
      var r := CompStructArg1(kid);
      ghost var c := Get(m.mem, r - gap);
      ghost var s' := S();
      assert toDo[..tdbase] == toDo[..toDoTop][..tdbase];
      toDo[tdbase + k] := r;
      assert S() == s';
      bad := KidAdded(F(), s0, s, s', t, stack, toDo[..], tdbase, cells0, k, r, c, bad0);
      cells := cells0[k := c];
      GatherEventsStep(t, k);
      WatchesTrans(F(), s0, s, s', GatherEvents(t, k + 1), KidEvents(kid));
    }

    method CompStructArg1(arg: Term) returns (loc: int)
      requires Valid(-1) && !m.open && NoVarPlaced(F(), S())
      requires Built(arg) ==> forall v: nat :: Tally(v, arg) <= Left(F(), S(), v)
      requires Built(arg) ==> Room(S()) >= Size(arg) + 1 && toDoTop + Size(arg) + 2 * vtbl.Length <= toDo.Length
      modifies this`modelSP, this`code, this`m, this`env, this`placed, this`toDoTop, model, vtbl, toDo
      decreases arg, |Kids(arg)| + 3
      ensures Valid(-1) && !m.open && Builds(F(), old(S()), S()) && placed == old(placed)
      ensures old(m.spilled) ==> m.spilled
      ensures !Built(arg) ==> S() == old(S())
      ensures Calm(F(), old(S()), arg) ==> m.spilled == old(m.spilled)
      ensures KidReady(F(), old(S()), S(), loc, arg, Get(m.mem, loc - gap))
      ensures Built(arg) ==> Result(S(), Get(m.mem, loc - gap), arg, old(m.spilled))
      ensures Built(arg) ==> forall v: nat :: Left(F(), S(), v) == old(Left(F(), S(), v)) - Tally(v, arg)
      ensures Built(arg) ==> Room(S()) >= old(Room(S())) - Size(arg)
      ensures Watches(F(), old(S()), S(), KidEvents(arg))
      ensures toDoTop == old(toDoTop) && toDo[..toDoTop] == old(toDo[..toDoTop])
    {
      hide Inv, Builds, FreshBindings, Left, Run, Room, Tally, Calm, Result, Size, Watches, BuildEvents;
      if Built(arg) {
        loc := CompGoalStructure(arg, 0);
      } else {
        BuildsRefl(F(), S());
        WatchesNothing(F(), S());
        loc := 0;
      }
    }

    method CompGoalStructure(strct: Term, loc: int) returns (r: int)
      requires Built(strct) && Valid(-1) && !m.open && NoVarPlaced(F(), S())
      requires loc == 0 || (modelAdst <= loc < modelAdst + |args| && loc !in placed && !ArgAt(F(), loc).Var?)
      requires forall v: nat :: Tally(v, strct) <= Left(F(), S(), v)
      requires Room(S()) >= Size(strct) + 1 && toDoTop + Size(strct) + 2 * vtbl.Length <= toDo.Length
      modifies this`modelSP, this`code, this`m, this`env, this`placed, this`toDoTop, model, vtbl, toDo
      decreases strct, |Kids(strct)| + 2
      ensures Valid(-1) && !m.open && Builds(F(), old(S()), S())
      ensures placed == if loc == 0 then old(placed) else old(placed) + {loc}
      ensures if loc == 0 then KidReady(F(), old(S()), S(), r, strct, Get(m.mem, r - gap)) else r == loc
      ensures Calm(F(), old(S()), strct) ==> m.spilled == old(m.spilled)
      ensures Result(S(), Get(m.mem, r - gap), strct, old(m.spilled)) && (old(m.spilled) ==> m.spilled)
      ensures forall v: nat :: Left(F(), S(), v) == old(Left(F(), S(), v)) - Tally(v, strct)
      ensures Room(S()) >= old(Room(S())) - Size(strct)
      ensures Watches(F(), old(S()), S(), BuildEvents(strct, loc))
      ensures toDoTop == old(toDoTop) && toDo[..toDoTop] == old(toDo[..toDoTop])
    {
      hide Calm, Inv, Builds, KidsReady, Gathered, Result, BuiltTally, LeafTally, Left, Room, KidReady,
           FreshBindings, Run, HeadOk, Watches, BuildEvents, GatherEvents, FreeEvents, LeafEvents;
      var tdbase := toDoTop;
      ghost var s0 := S();
      if !Compound(strct) {
        r := PutTerm(strct, loc);
        SimpleTally(strct);
        LeafDenotes(S(), Get(m.mem, r - gap), strct, s0.m.spilled);
        SimpleEvents(strct, loc);
      } else {
        toDoTop := toDoTop + |Kids(strct)|;
        SizeOfKids(strct);
        assert S() == s0;
        ghost var cells, bad := GatherKids(strct, tdbase);
        ghost var s1 := S();
        ghost var stack := toDo[..];
        GatheredFits(F(), s0, s1, strct);
        r := PutTerm(strct, loc);
        ghost var s2 := S();
        KidsReadyAt(F(), s0, s1, stack, toDo[..], toDoTop, tdbase, Kids(strct), cells);
        FillStructure(strct, tdbase, r, loc == 0, cells, s0, s1, bad);
        ghost var s3 := S();
        toDoTop := tdbase;
        assert S() == s3;
        BuiltWatched(F(), s0, s1, s2, s3, strct, loc);
      }
    }

    /** Chooses the cell of a term and emits its first instruction. */
    method PutTerm(t: Term, loc: int) returns (r: int)
      requires Valid(-1) && Built(t) && !m.open && Room(S()) >= 2 && toDoTop + 2 * vtbl.Length <= toDo.Length
      requires loc == 0 || (modelAdst <= loc < modelAdst + |args| && loc !in placed && !ArgAt(F(), loc).Var?)
      modifies this`modelSP, this`code, this`m, this`placed, this`toDoTop, model, vtbl, toDo
      ensures Valid(-1) && Builds(F(), old(S()), S()) && Room(S()) >= old(Room(S())) - 1
      ensures m.open == Compound(t) && m.spilled == old(m.spilled)
      ensures placed == if loc == 0 then old(placed) else old(placed) + {loc}
      ensures if loc == 0 then KidReady(F(), old(S()), S(), r, t, Get(m.mem, r - gap)) else r == loc
      ensures HeadOk(m.heap, Get(m.mem, r - gap), t)
      ensures forall v: nat :: Left(F(), S(), v) == old(Left(F(), S(), v))
      ensures Watches(F(), old(S()), S(), FreeEvents(loc))
      ensures toDoTop == old(toDoTop) && toDo[..toDoTop] == old(toDo[..toDoTop])
    {
      hide Inv, Builds, Shuffles, FreshBindings, Run, Room, Left, HeadOk, Vacant, Watches, Unwatched, FreeEvents;
      ghost var s := S();
      r := CellFor(loc);
      ghost var s1 := S();
      ShapeOf(F(), s, -1);
      SamePlaced(F(), s, s1);
      ShufflesBuilds(F(), s, s1);
      SameLeft(F(), s, s1);
      TempIsNew(F(), s, s1, r);
      VacantAbove(F(), s1, r);
      PutHead(t, r);
      SameLeft(F(), s1, S());
      BuildsTrans(F(), s, s1, S());
      WatchesQuiet(F(), s, s1, S(), FreeEvents(loc));
    }

    /** Fills the slots of the structure that has been started in `r`, and ends it. */
    method FillStructure(t: Term, tdbase: nat, ghost r: int, ghost temp: bool, ghost cells: seq<Cell>, ghost s0: State, ghost s1: State, ghost bad0: int)
      requires Compound(t) && Valid(-1) && m.open && NoVarPlaced(F(), S()) && Inv(F(), s0, -1)
      requires Builds(F(), s0, s1) && Builds(F(), s1, S()) && m.spilled == s1.m.spilled
      requires KidsReady(F(), s0, s1, toDo[..], tdbase, Kids(t), cells, 0) && toDoTop == tdbase + |Kids(t)|
      requires Gathered(s1, Kids(t), cells, 0, s0.m.spilled, bad0) && HeadOk(m.heap, Get(m.mem, r - gap), t)
      requires if temp then KidReady(F(), s1, S(), r, t, Get(m.mem, r - gap)) else r in placed
      requires forall v: nat :: LeafTally(v, Kids(t), 0) <= Left(F(), S(), v)
      requires Room(S()) >= LeafTally(-1, Kids(t), 0) + 1 && toDoTop + 2 * vtbl.Length <= toDo.Length
      modifies this`modelSP, this`code, this`m, this`env, this`toDoTop, model, vtbl, toDo
      ensures Valid(-1) && !m.open && Builds(F(), s0, S()) && placed == old(placed)
      ensures temp ==> KidReady(F(), s0, S(), r, t, Get(m.mem, r - gap))
      ensures Calm(F(), s0, t) ==> m.spilled == old(m.spilled)
      ensures Result(S(), Get(m.mem, r - gap), t, s0.m.spilled) && (s0.m.spilled ==> m.spilled)
      ensures forall v: nat :: Left(F(), S(), v) == old(Left(F(), S(), v)) - LeafTally(v, Kids(t), 0)
      ensures Room(S()) >= old(Room(S())) - LeafTally(-1, Kids(t), 0)
      ensures Watches(F(), old(S()), S(), LeafEvents(Kids(t), |Kids(t)|))
      ensures toDoTop == old(toDoTop) && toDo[..toDoTop] == old(toDo[..toDoTop])
    {
      hide Calm, Inv, Builds, KidsReady, Gathered, Filling, Result, LeafTally, Left, Room, KidReady, FreshBindings,
           Run, Given, Kids, HeadMatches, NoVarPlaced, Tally, Watches, LeafEvents, Unwatched;
      ghost var s2 := S();
      ghost var stack := toDo[..];
      ghost var c := Get(m.mem, r - gap);
      ghost var g := Given(F(), s2, stack, tdbase, |Kids(t)|);
      ReadyToFill(F(), s0, s1, s2, stack, tdbase, t, cells, bad0);
      ghost var bad := FillKids(Kids(t), tdbase, t, cells, ArgBase(c), g, s0.m.spilled, bad0);
      ghost var s3 := S();
      Icode(EndStruct);
      StructureEnded(F(), s0, s1, s2, s3, S(), stack, tdbase, cells, r, t, temp, bad);
      QuietUnwatched(F(), s3, m);
      WatchesQuiet(F(), s2, s3, S(), LeafEvents(Kids(t), |Kids(t)|));
    }

    method FillKids(kids: seq<Term>, tdbase: nat, ghost t: Term, ghost cells: seq<Cell>, ghost hb: nat, ghost s0: State, ghost before: bool, ghost bad0: int)
      returns (ghost bad: int)
      requires Valid(-1) && m.open && NoVarPlaced(F(), S()) && Builds(F(), s0, S()) && (before ==> m.spilled)
      requires KidsReady(F(), s0, S(), toDo[..], tdbase, kids, cells, 0) && toDoTop == tdbase + |kids|
      requires Compound(t) && kids == Kids(t) && Filling(S(), kids, cells, hb, 0, before, bad0)
      requires forall v: nat :: LeafTally(v, kids, 0) <= Left(F(), S(), v)
      requires Room(S()) >= LeafTally(-1, kids, 0) + 1 && toDoTop + 2 * vtbl.Length <= toDo.Length
      modifies this`modelSP, this`code, this`m, this`env, this`toDoTop, model, vtbl, toDo
      ensures Valid(-1) && m.open && Builds(F(), s0, S()) && old(m.heap) <= m.heap && placed == old(placed)
      ensures Filling(S(), kids, cells, hb, |kids|, before, bad)
      ensures Calm(F(), s0, t) ==> m.spilled == old(m.spilled)
      ensures forall v: nat :: Left(F(), S(), v) == old(Left(F(), S(), v)) - LeafTally(v, kids, 0)
      ensures Room(S()) >= old(Room(S())) - LeafTally(-1, kids, 0)
      ensures Watches(F(), old(S()), S(), LeafEvents(kids, |kids|))
      ensures toDoTop == old(toDoTop) && toDo[..toDoTop] == old(toDo[..toDoTop])
    {
      hide Calm, Inv, Builds, KidsReady, Filling, LeafTally, Left, Room, CalmVar, FreshBindings, Run, Watches,
           LeafEvents, LeafEvent;
      ghost var s1 := S();
      ghost var stack := toDo[..toDoTop];
      LeafEnd(kids);
      WatchesNothing(F(), s1);
      NoEvents(kids, 0);
      bad := bad0;
      for k := 0 to |kids|
        invariant Valid(-1) && m.open && Builds(F(), s0, S()) && s1.m.heap <= m.heap && placed == s1.placed
        invariant (before ==> m.spilled) && Filling(S(), kids, cells, hb, k, before, bad)
        invariant KidsReady(F(), s0, S(), toDo[..], tdbase, kids, cells, k)
        invariant forall v: nat :: Left(F(), S(), v) == Left(F(), s1, v) - LeafTally(v, kids, 0) + LeafTally(v, kids, k)
        invariant Room(S()) >= Room(s1) - LeafTally(-1, kids, 0) + LeafTally(-1, kids, k)
        invariant toDoTop == tdbase + |kids| && toDo[..toDoTop] == stack
        invariant Calm(F(), s0, t) ==> m.spilled == s1.m.spilled
        invariant Watches(F(), s1, S(), LeafEvents(kids, k))
      {
        if Calm(F(), s0, t) { CalmKid(F(), s0, S(), t, k); }
        ghost var s := S();
        bad := CompStructArg2(kids[k], toDo[tdbase + k], kids, k, tdbase, cells, hb, s0, s1, before, bad);
        LeafEventsStep(kids, k);
        WatchesTrans(F(), s1, s, S(), LeafEvents(kids, k), LeafEvent(kids[k]));
      }
    }

    /** Fills slot `k`, from the temporary `loc` or, when `loc` is 0, with a variable or constant. */
    method CompStructArg2(arg: Term, loc: int, ghost kids: seq<Term>, ghost k: nat, ghost tdbase: nat,
                          ghost cells: seq<Cell>, ghost hb: nat, ghost s0: State, ghost s1: State,
                          ghost before: bool, ghost bad0: int)
      returns (ghost bad: int)
      requires Valid(-1) && m.open && NoVarPlaced(F(), S()) && Builds(F(), s0, S()) && (before ==> m.spilled)
      requires k < |kids| && KidsReady(F(), s0, S(), toDo[..], tdbase, kids, cells, k) && toDoTop == tdbase + |kids|
      requires arg == kids[k] && loc == toDo[tdbase + k]
      requires Filling(S(), kids, cells, hb, k, before, bad0)
      requires forall v: nat :: LeafTally(v, kids, 0) <= Left(F(), s1, v)
      requires forall v: nat :: Left(F(), S(), v) == Left(F(), s1, v) - LeafTally(v, kids, 0) + LeafTally(v, kids, k)
      requires Room(S()) >= LeafTally(-1, kids, k) + 1 && toDoTop + 2 * vtbl.Length <= toDo.Length
      ensures (kids[k].Var? ==> CalmVar(F(), old(S()), kids[k].v)) ==> m.spilled == old(m.spilled)
      modifies this`modelSP, this`code, this`m, this`env, this`toDoTop, model, vtbl, toDo
      ensures Valid(-1) && m.open && Builds(F(), s0, S()) && old(m.heap) <= m.heap && placed == old(placed)
      ensures (before ==> m.spilled) && Filling(S(), kids, cells, hb, k + 1, before, bad)
      ensures KidsReady(F(), s0, S(), toDo[..], tdbase, kids, cells, k + 1)
      ensures forall v: nat :: Left(F(), S(), v) == Left(F(), s1, v) - LeafTally(v, kids, 0) + LeafTally(v, kids, k + 1)
      ensures Room(S()) >= old(Room(S())) - LeafTally(-1, kids, k) + LeafTally(-1, kids, k + 1)
      ensures Watches(F(), old(S()), S(), LeafEvent(arg))
      ensures toDoTop == old(toDoTop) && toDo[..toDoTop] == old(toDo[..toDoTop])
    {
      hide Inv, Builds, FreshBindings, Run, Room, Left, Filling, KidsReady, LeafTally, NoVarPlaced, CalmVar,
           Appended, Watches, Unwatched;
      ghost var s := S();
      ghost var stack := toDo[..];
      ShapeOf(F(), s, -1);
      KidAt(F(), s0, s, stack, tdbase, kids, cells, k);
      SlotShare(kids, k);
      if loc != 0 {
        UseBuilt(loc);
        KidReleased(F(), s0, s, m, stack, tdbase, kids, cells, k);
        ReleasedUnwatched(F(), s, loc, m);
        UnwatchedWatches(F(), s, S());
        FillBuilt(s, S(), kids, cells, hb, k, before, bad0);
        bad := bad0;
      } else {
        LeafFits(F(), s, s1, kids, k);
        StructLeaf(arg);
        BuildsGrows(F(), s, S());
        bad := FillLeaf(s, S(), kids, cells, hb, k, before, bad0);
        LeafFilled(F(), s0, s1, s, S(), stack, toDo[..], tdbase, kids, cells, k);
      }
    }

    method UseBuilt(loc: int)
      requires m == Run(start, code) && Shape(F(), S()) && modelSP <= loc < modelSPstart
      modifies this`code, this`m, model
      ensures m == Run(start, code) && m == Push(old(m), old(At(F(), S(), loc)))
      ensures model[..] == old(model[..])[loc := Nil]
    {
      assert S().model[loc] == model[loc];
      OperandAddress(loc);
      Icode(UVal(Operand(loc)));
      model[loc] := Nil;
    }

    method StructLeaf(arg: Term)
      requires Valid(-1) && m.open && NoVarPlaced(F(), S()) && !Built(arg)
      requires arg.Var? ==> arg.v < vtbl.Length && arg.v < |total| && Used(S(), arg.v) < total[arg.v]
      requires Room(S()) >= 2 && toDoTop + 2 * vtbl.Length <= toDo.Length
      modifies this`modelSP, this`code, this`m, this`env, this`toDoTop, model, vtbl, toDo
      ensures Valid(-1) && m.open && Builds(F(), old(S()), S()) && placed == old(placed)
      ensures Room(S()) >= old(Room(S())) - 1
      ensures Appended(old(m.heap), m, arg, env)
      ensures (arg.Var? ==> CalmVar(F(), old(S()), arg.v)) ==> m.spilled == old(m.spilled)
      ensures |m.heap| == |old(m.heap)| + 1 ==> m.spilled == old(m.spilled)
      ensures forall u: nat :: Left(F(), S(), u) == old(Left(F(), S(), u)) - Unit(u, arg)
      ensures Watches(F(), old(S()), S(), LeafEvent(arg))
      ensures toDoTop == old(toDoTop) && toDo[..toDoTop] == old(toDo[..toDoTop])
    {
      hide Watches, Unwatched, PushedFor;
      if arg.Var? {
        StructVar(arg.v);
      } else {
        ghost var s := S();
        if arg.Int? {
          Icode(UInt(arg.i));
        } else {
          Icode(USym(arg.tok));
        }
        QuietInv(F(), s, m);
        QuietBuilds(F(), s, m);
        QuietUnwatched(F(), s, m);
        UnwatchedWatches(F(), s, S());
      }
    }

    // ---- variable arguments ----

    ghost predicate Awaiting(v: nat, loc: int)
      reads this, model, vtbl
    {
      Valid(-1) && Pending(F(), S(), v, loc)
    }

    /** What every way of setting up the variable argument `loc` achieves. */
    twostate predicate SetUp(v: nat, loc: int)
      reads this, model, vtbl
    {
      && Valid(-1) && Builds(F(), old(S()), S()) && Room(S()) >= old(Room(S()))
      && placed == old(placed) + {loc} && v in env && m.open == old(m.open) && m.spilled == old(m.spilled)
      && Notes(entry, start.next, old(S()), S())
      && forall u: nat :: Left(F(), S(), u) == Left(F(), old(S()), u) - Unit(u, Var(v))
    }

    /** The first occurrence of a variable, as an argument: a new variable. */
    method PutFirst(v: nat, loc: int)
      requires Awaiting(v, loc) && Freed(F(), S(), loc) && vtbl[v].usecnt == 0
      modifies this`code, this`m, this`env, this`placed, vtbl
      ensures SetUp(v, loc)
    {
      if vtbl[v].pvnum != 0 {
        PutFirstPermanent(v, loc);
      } else {
        PutFirstTemporary(v, loc);
      }
    }

    method PutFirstPermanent(v: nat, loc: int)
      requires Awaiting(v, loc) && Freed(F(), S(), loc) && vtbl[v].usecnt == 0 && vtbl[v].pvnum != 0
      modifies this`code, this`m, this`env, this`placed, vtbl
      ensures SetUp(v, loc)
    {
      hide Inv, Builds, FreshBindings, Left, Run, Room, Freed, Vacant, Notes, Exposed;
      ghost var s := S();
      ghost var c := CVar(m.next);
      ArgumentFreed(F(), s, v, loc);
      ShapeOf(F(), s, -1);
      assert s.vtbl[v] == vtbl[v];
      BindFresh(entry, start.next, s.env, s.m.next, v);
      EmitYVar(vtbl[v].home, loc);
      vtbl[v] := vtbl[v].(usecnt := vtbl[v].usecnt + 1);
      env, placed := env[v := c], placed + {loc};
      assert S() == PutY(s, v, loc, c, m);
      PutYInv(F(), s, v, loc, c, m);
      PutYBuilds(F(), s, v, loc, c, m);
      PutYNotes(F(), entry, start.next, s, v, loc, m);
    }

    method EmitYVar(home: int, loc: int)
      requires m == Run(start, code) && Shape(F(), S()) && modelSP <= home < model.Length && modelSP <= loc < model.Length
      requires Phys(F(), S(), home) == home && Phys(F(), S(), loc) == loc - gap
      modifies this`code, this`m
      ensures m == Run(start, code) && FreshIds(m)
      ensures var c := CVar(old(m.next));
              m.mem == old(m.mem)[home := c][loc - gap := c] && m.next == old(m.next) + 1
      ensures m.e == old(m.e) && m.sp == old(m.sp) && m.heap == old(m.heap) && m.spb == old(m.spb)
      ensures m.open == old(m.open) && m.spilled == old(m.spilled)
      ensures Exposed(m) == if home < m.spb then old(Exposed(m)) + {old(m.next)} else old(Exposed(m))
    {
      hide Run;
      assert S().model[home] == model[home] && S().model[loc] == model[loc];
      OperandAddress(home);
      OperandAddress(loc);
      Icode(PYVar(Operand(home), Operand(loc)));
    }

    method PutFirstTemporary(v: nat, loc: int)
      requires Awaiting(v, loc) && Freed(F(), S(), loc) && vtbl[v].usecnt == 0 && vtbl[v].pvnum == 0
      modifies this`code, this`m, this`env, this`placed, vtbl
      ensures SetUp(v, loc)
    {
      hide Inv, Builds, FreshBindings, Left, Run, Room, Freed, Vacant, Notes, Exposed;
      ghost var s := S();
      ghost var c := CVar(m.next);
      ShapeOf(F(), s, -1);
      ArgumentFreed(F(), s, v, loc);
      assert s.vtbl[v] == vtbl[v] && s.model[loc] == model[loc];
      BindFresh(entry, start.next, s.env, s.m.next, v);
      EmitXVar(loc);
      vtbl[v] := vtbl[v].(home := loc, unsafe := false, usecnt := vtbl[v].usecnt + 1);
      env, placed := env[v := c], placed + {loc};
      assert S() == PutX(s, v, loc, c, m);
      PutXInv(F(), s, v, loc, c, m);
      PutXBuilds(F(), s, v, loc, c, m);
      PutXNotes(F(), entry, start.next, s, v, loc, m);
    }

    method EmitXVar(loc: int)
      requires m == Run(start, code) && Shape(F(), S()) && modelSP <= loc < model.Length && Phys(F(), S(), loc) == loc - gap
      modifies this`code, this`m
      ensures m == Run(start, code) && Wrote(old(m), m, loc - gap, CVar(old(m.next))) && m.next == old(m.next) + 1
      ensures old(m.heap) <= m.heap && m.spb == old(m.spb) && Exposed(m) == old(Exposed(m))
      ensures m.open == old(m.open) && m.spilled == old(m.spilled)
    {
      hide Run;
      assert S().model[loc] == model[loc];
      OperandAddress(loc);
      Icode(PXVar(Operand(loc)));
    }

    /** A variable that has a value is copied from its home. */
    method PutCopy(v: nat, loc: int)
      requires Awaiting(v, loc) && Freed(F(), S(), loc) && vtbl[v].usecnt > 0 && !m.open
      modifies this`code, this`m, this`placed, model, vtbl
      ensures SetUp(v, loc)
    {
      hide Inv, Builds, FreshBindings, Left, Run, Room, Vacant, Freed, Notes, CopyHides;
      ghost var s := S();
      ShapeOf(F(), s, -1);
      CopyValue(v, loc);
      placed := placed + {loc};
      assert S() == PutValueHere(F(), s, v, loc, m);
      PutValueInv(F(), s, v, loc, m);
      PutValueBuilds(F(), s, v, loc, m);
      PutValueNotes(F(), entry, start.next, s, v, loc, m);
    }

    method CopyValue(v: nat, loc: int)
      requires Awaiting(v, loc) && Freed(F(), S(), loc) && vtbl[v].usecnt > 0 && !m.open
      modifies this`code, this`m, model, vtbl
      ensures m == Run(start, code) && PutValueReady(F(), old(S()), v, loc, m)
      ensures m.next == old(m.next) && old(m.heap) <= m.heap && !m.open && m.spilled == old(m.spilled)
      ensures CopyHides(F(), old(S()), v, m)
      ensures vtbl[..] == PutValueHere(F(), old(S()), v, loc, m).vtbl
      ensures model[..] == PutValueHere(F(), old(S()), v, loc, m).model
    {
      hide Inv, Builds, FreshBindings, Left, Run, Room, Vacant, Freed, Copied, PutValueHere, CopyHides;
      ghost var s := S();
      ShapeOf(F(), s, -1);
      assert s.vtbl[v] == vtbl[v] && s.model[loc] == model[loc];
      ArgumentFreed(F(), s, v, loc);
      var src := vtbl[v].home;
      if vtbl[v].pvnum != 0 && vtbl[v].lastocc == goalnumber && vtbl[v].firstocc != 0 && vtbl[v].unsafe {
        PermIsResident(F(), s, v);
        CopyUnsafe(v, src, loc);
      } else {
        CopyToArgument(v, src, loc);
      }
      CopiedReady(F(), s, v, loc, m);
      PutValueShape(F(), s, v, loc, m);
      CopiedHides(F(), s, v, loc - gap, m);
    }

    /** The last use of a permanent variable that may still be local. */
    method CopyUnsafe(v: nat, src: int, loc: int)
      requires m == Run(start, code) && Shape(F(), S()) && v < vtbl.Length && vtbl[v].home == src
      requires modelSP <= src < model.Length && modelSP <= loc < model.Length
      requires model[src] == Vo(v) && vtbl[v].lastocc == goalnumber && vtbl[v].pvnum != 0
      modifies this`code, this`m, model, vtbl
      ensures m == Run(start, code)
      ensures m == Copied(old(m), old(Phys(F(), S(), loc)), old(At(F(), S(), src)), true)
      ensures vtbl[..] == PutValueHere(F(), old(S()), v, loc, m).vtbl
      ensures model[..] == PutValueHere(F(), old(S()), v, loc, m).model
    {
      hide Run, Copied;
      assert S().model[src] == model[src] && S().model[loc] == model[loc];
      PutUnsafeValue(src, loc);
      vtbl[v] := vtbl[v].(pvnum := 0, home := loc, usecnt := vtbl[v].usecnt + 1);
      model[loc] := Vo(v);
      if loc != src { model[src] := Nil; }
    }

    method CopyToArgument(v: nat, src: int, loc: int)
      requires m == Run(start, code) && Shape(F(), S()) && v < vtbl.Length && vtbl[v].home == src
      requires modelSP <= src < model.Length && modelSP <= loc < model.Length
      modifies this`code, this`m, model, vtbl
      ensures m == Run(start, code)
      ensures m == if src == loc && old(model[loc]).Vo? && old(vtbl[model[loc].v]).pvnum == 0 then old(m)
                   else old(m).(mem := old(m).mem[old(Phys(F(), S(), loc)) := old(At(F(), S(), src))])
      ensures vtbl[..] == PutValueHere(F(), old(S()), v, loc, m).vtbl
      ensures model[..] == PutValueHere(F(), old(S()), v, loc, m).model
    {
      hide Run;
      assert S().model[loc] == model[loc] && S().model[src] == model[src];
      MoveCell(src, loc);
      model[loc] := model[src];
      vtbl[v] := vtbl[v].(usecnt := vtbl[v].usecnt + 1);
      if vtbl[v].lastocc == goalnumber {
        vtbl[v] := vtbl[v].(home := loc);
        if src != loc && vtbl[v].pvnum != 0 { model[src] := Nil; }
        vtbl[v] := vtbl[v].(pvnum := 0);
      }
    }

    /** The value is in its place already; only the use is counted. */
    method PutInPlace(v: nat, loc: int)
      requires Awaiting(v, loc) && model[loc] == Vo(v) && vtbl[v].pvnum == 0
      modifies this`placed, vtbl
      ensures SetUp(v, loc)
    {
      hide Inv, Builds, FreshBindings, Left, Run, Room, Notes;
      ghost var s := S();
      ShapeOf(F(), s, -1);
      assert s.vtbl[v] == vtbl[v] && s.model[loc] == model[loc];
      vtbl[v] := vtbl[v].(usecnt := vtbl[v].usecnt + 1);
      placed := placed + {loc};
      assert S() == InPlace(s, v, loc);
      InPlaceInv(F(), s, v, loc);
      InPlaceBuilds(F(), s, v, loc);
      InPlaceNotes(entry, start.next, s, v, loc);
    }

    /** Sets up the variable `v` as the argument in `loc`. */
    method CompVarArg(v: nat, loc: int)
      requires Awaiting(v, loc) && !m.open && Room(S()) >= 2 && toDoTop + 2 * vtbl.Length <= toDo.Length
      modifies this`modelSP, this`code, this`m, this`env, this`placed, this`toDoTop, model, vtbl, toDo
      ensures Valid(-1) && Builds(F(), old(S()), S()) && Room(S()) >= old(Room(S())) - 1
      ensures placed == old(placed) + {loc} && !m.open && m.spilled == old(m.spilled)
      ensures forall u: nat :: Left(F(), S(), u) == old(Left(F(), S(), u)) - Unit(u, Var(v))
      ensures Notes(entry, start.next, old(S()), S()) && toDoTop == old(toDoTop)
    {
      hide Inv, Builds, FreshBindings, Left, Run, Room, Freed, Notes, Clears, Danger, Watched;
      ghost var s := S();
      ShapeOf(F(), s, -1);
      assert s.vtbl[v] == vtbl[v] && s.model[loc] == model[loc];
      if model[loc] != Vo(v) || vtbl[v].pvnum != 0 {
        var _ := FreeTarget(loc);
        ghost var s1 := S();
        ShufflesBuilds(F(), s, s1);
        SameLeft(F(), s, s1);
        StillPending(F(), s, s1, v, loc);
        RunKeepsChoice(start, old(code));
        RunKeepsChoice(start, code);
        ShuffledNotes(F(), entry, start.next, s, s1, Stop(s, loc, loc, vtbl.Length));
        if vtbl[v].usecnt == 0 {
          PutFirst(v, loc);
        } else {
          PutCopy(v, loc);
        }
        BuildsTrans(F(), s, s1, S());
        NotesTrans(F(), entry, start.next, s, s1, S());
      } else {
        PutInPlace(v, loc);
      }
    }

    /** Sets up an integer or a symbol as the argument in `loc`. */
    method CompConstant(arg: Term, loc: int)
      requires Valid(-1) && !m.open && Room(S()) >= 2 && toDoTop + 2 * vtbl.Length <= toDo.Length
      requires arg.Int? || arg.Sym?
      requires modelAdst <= loc < modelAdst + |args| && loc !in placed && ArgAt(F(), loc) == arg
      modifies this`modelSP, this`code, this`m, this`placed, this`toDoTop, model, vtbl, toDo
      ensures Valid(-1) && Builds(F(), old(S()), S()) && Room(S()) >= old(Room(S())) - 1
      ensures placed == old(placed) + {loc} && !m.open && m.spilled == old(m.spilled)
      ensures Result(S(), Get(m.mem, loc - gap), arg, old(m.spilled))
      ensures forall v: nat :: Left(F(), S(), v) == old(Left(F(), S(), v))
      ensures Watches(F(), old(S()), S(), [Free(loc)])
      ensures toDoTop == old(toDoTop)
    {
      hide Watches, Unwatched, Clears, Danger, Watched, Settled;
      ghost var s := S();
      var _ := FreeTarget(loc);
      ghost var s1 := S();
      ShufflesBuilds(F(), s, s1);
      SameLeft(F(), s, s1);
      ArgumentVacant(F(), s1, loc);
      FreeWatched(F(), s, s1, loc);
      PutConstant(arg, loc);
      BuildsTrans(F(), s, s1, S());
      WatchesQuiet(F(), s, s1, S(), [Free(loc)]);
    }

    method PutConstant(arg: Term, loc: int)
      requires Valid(-1) && Vacant(F(), S(), loc) && (arg.Int? || arg.Sym?)
      requires modelAdst <= loc < modelAdst + |args| && ArgAt(F(), loc) == arg
      modifies this`code, this`m, this`placed, model
      ensures Valid(-1) && Builds(F(), old(S()), S()) && Room(S()) == old(Room(S()))
      ensures placed == old(placed) + {loc} && m.open == old(m.open) && m.spilled == old(m.spilled)
      ensures Result(S(), Get(m.mem, loc - gap), arg, old(m.spilled))
      ensures Unwatched(F(), old(S()), S())
    {
      hide Inv, Builds, FreshBindings, Run, Room, Unwatched;
      ghost var s := S();
      ShapeOf(F(), s, -1);
      assert s.model[loc] == model[loc];
      VacantPhys(F(), s, loc);
      OperandAddress(loc);
      if arg.Int? {
        Icode(PInt(arg.i, Operand(loc)));
      } else {
        Icode(PSym(arg.tok, Operand(loc)));
      }
      model[loc] := Other(arg);
      placed := placed + {loc};
      assert S() == Filled(F(), s, loc, arg, m);
      FilledInv(F(), s, loc, arg, m, Get(m.mem, loc - gap));
      FilledBuilds(F(), s, loc, arg, m, Get(m.mem, loc - gap));
      FilledUnwatched(F(), s, loc, arg, m);
    }

    /** Sets up the arguments that are not variables, in order. */
    method PutNonVariables(goal: Term) returns (ghost bad: int)
      requires goal.Struct? && args == goal.args && Valid(-1) && !m.open && !m.spilled && placed == {}
      requires forall v: nat :: Left(F(), S(), v) == Tally(v, goal)
      requires Room(S()) > ArgSize(args, |args|, false)
      requires toDoTop + ArgSize(args, |args|, false) + 2 * vtbl.Length <= toDo.Length
      modifies this`modelSP, this`code, this`m, this`env, this`placed, this`toDoTop, model, vtbl, toDo
      ensures Valid(-1) && !m.open && Builds(F(), old(S()), S()) && toDoTop == old(toDoTop)
      ensures Finished(F(), S(), |args|, 0) && ArgsDone(F(), S(), bad)
      ensures Room(S()) >= old(Room(S())) - ArgSize(args, |args|, false)
      ensures forall v: nat :: Left(F(), S(), v) == LeafTally(v, args, 0)
      ensures Calm(F(), old(S()), goal) ==> !m.spilled
      ensures Watches(F(), old(S()), S(), GoalEvents(args, modelAdst, |args|))
    {
      hide Inv, Builds, FreshBindings, Left, Run, Room, Tally, BuiltTally, LeafTally, ArgSize, Finished, ArgsDone,
           Calm, Result, Watches, GoalEvents;
      ghost var s0 := S();
      WatchesNothing(F(), s0);
      NoEvents(args, modelAdst);
      BuildsRefl(F(), s0);
      NothingFinished(F(), s0);
      GoalTallies(goal);
      ArgSizeStart(args);
      bad := 0;
      for i := 0 to |goal.args|
        invariant Valid(-1) && !m.open && Builds(F(), s0, S()) && toDoTop == old(toDoTop)
        invariant Finished(F(), S(), i, 0) && ArgsDone(F(), S(), bad)
        invariant Room(S()) >= Room(s0) - ArgSize(args, i, false)
        invariant forall v: nat :: Left(F(), S(), v) == Tally(v, goal) - BuiltTally(v, goal, i)
        invariant Calm(F(), s0, goal) ==> !m.spilled
        invariant Watches(F(), s0, S(), GoalEvents(args, modelAdst, i))
      {
        bad := PutNonVariable(goal, i, s0, bad);
      }
    }

    method PutNonVariable(goal: Term, i: nat, ghost s0: State, ghost bad0: int) returns (ghost bad: int)
      requires goal.Struct? && args == goal.args && i < |args|
      requires Valid(-1) && !m.open && Builds(F(), s0, S())
      requires Finished(F(), S(), i, 0) && ArgsDone(F(), S(), bad0)
      requires Room(S()) > ArgSize(args, |args|, false) - ArgSize(args, i, false)
      requires toDoTop + ArgSize(args, |args|, false) + 2 * vtbl.Length <= toDo.Length
      requires forall v: nat :: Left(F(), S(), v) == Tally(v, goal) - BuiltTally(v, goal, i)
      requires Calm(F(), s0, goal) ==> !m.spilled
      requires Watches(F(), s0, S(), GoalEvents(args, modelAdst, i))
      modifies this`modelSP, this`code, this`m, this`env, this`placed, this`toDoTop, model, vtbl, toDo
      ensures Valid(-1) && !m.open && Builds(F(), s0, S()) && toDoTop == old(toDoTop)
      ensures Finished(F(), S(), i + 1, 0) && ArgsDone(F(), S(), bad)
      ensures Room(S()) >= old(Room(S())) + ArgSize(args, i, false) - ArgSize(args, i + 1, false)
      ensures forall v: nat :: Left(F(), S(), v) == Tally(v, goal) - BuiltTally(v, goal, i + 1)
      ensures Calm(F(), s0, goal) ==> !m.spilled
      ensures Watches(F(), s0, S(), GoalEvents(args, modelAdst, i + 1))
    {
      hide Inv, Builds, FreshBindings, Left, Run, Room, Tally, BuiltTally, LeafTally, ArgSize, Finished, ArgsDone,
           Calm, Result, Size, Watches, BuildEvents, GoalEvents;
      ghost var s := S();
      var arg, loc := goal.args[i], modelAdst + i;
      ShapeOf(F(), s, -1);
      ArgFits(goal, i, false);
      NextUnfinished(F(), s, i, 0);
      if Calm(F(), s0, goal) { CalmKid(F(), s0, s, goal, i); }
      BuiltStep(goal, i);
      ArgSizeStep(args, i, false);
      bad := bad0;
      if arg.Int? || arg.Sym? {
        CompConstant(arg, loc);
        bad := ArgAdded(F(), s, S(), bad0, loc, arg);
        BuildsTrans(F(), s0, s, S());
      } else if Built(arg) {
        var _ := CompGoalStructure(arg, loc);
        bad := ArgAdded(F(), s, S(), bad0, loc, arg);
        BuildsTrans(F(), s0, s, S());
      } else {
        WatchesNothing(F(), s);
      }
      GoalEventsStep(args, modelAdst, i);
      WatchesTrans(F(), s0, s, S(), GoalEvents(args, modelAdst, i), ArgEvents(arg, loc));
      OneMoreFinished(F(), s, S(), i, 0);
    }

    /** Sets up the variable arguments, in order, around the finished ones. */
    method PutVariables(goal: Term, ghost s0: State, ghost bad: int)
      requires goal.Struct? && args == goal.args && Valid(-1) && !m.open && Builds(F(), s0, S())
      requires Finished(F(), S(), |args|, 0) && ArgsDone(F(), S(), bad)
      requires Room(S()) > ArgSize(args, |args|, true) && toDoTop + 2 * vtbl.Length <= toDo.Length
      requires forall v: nat :: Left(F(), S(), v) == LeafTally(v, args, 0)
      modifies this`modelSP, this`code, this`m, this`env, this`placed, this`toDoTop, model, vtbl, toDo
      ensures Valid(-1) && Builds(F(), s0, S()) && m.spilled == old(m.spilled)
      ensures Finished(F(), S(), |args|, |args|) && ArgsDone(F(), S(), bad)
      ensures forall v: nat :: Left(F(), S(), v) == 0
      ensures Notes(entry, start.next, old(S()), S()) && Builds(F(), old(S()), S())
    {
      hide Inv, Builds, FreshBindings, Left, Run, Room, LeafTally, ArgSize, Finished, ArgsDone, Notes;
      ghost var r0, s1 := Room(S()), S();
      BuildsRefl(F(), s1);
      NotesRefl(entry, start.next, s1);
      ArgSizeStart(args);
      for k := 0 to |goal.args|
        invariant Valid(-1) && !m.open && Builds(F(), s0, S()) && toDoTop == old(toDoTop)
        invariant Finished(F(), S(), |args|, k) && ArgsDone(F(), S(), bad) && m.spilled == old(m.spilled)
        invariant Room(S()) >= r0 - ArgSize(args, k, true)
        invariant forall v: nat :: Left(F(), S(), v) == LeafTally(v, args, k)
        invariant Notes(entry, start.next, s1, S()) && Builds(F(), s1, S())
      {
        ghost var s := S();
        PutVariable(goal, k, s0, bad);
        NotesTrans(F(), entry, start.next, s1, s, S());
        BuildsTrans(F(), s1, s, S());
      }
      LeafEnd(args);
    }

    method PutVariable(goal: Term, k: nat, ghost s0: State, ghost bad: int)
      requires goal.Struct? && args == goal.args && k < |args|
      requires Valid(-1) && !m.open && Builds(F(), s0, S())
      requires Finished(F(), S(), |args|, k) && ArgsDone(F(), S(), bad)
      requires Room(S()) > ArgSize(args, |args|, true) - ArgSize(args, k, true)
      requires toDoTop + 2 * vtbl.Length <= toDo.Length
      requires forall v: nat :: Left(F(), S(), v) == LeafTally(v, args, k)
      modifies this`modelSP, this`code, this`m, this`env, this`placed, this`toDoTop, model, vtbl, toDo
      ensures Valid(-1) && !m.open && Builds(F(), s0, S()) && toDoTop == old(toDoTop)
      ensures Finished(F(), S(), |args|, k + 1) && ArgsDone(F(), S(), bad) && m.spilled == old(m.spilled)
      ensures Room(S()) >= old(Room(S())) + ArgSize(args, k, true) - ArgSize(args, k + 1, true)
      ensures forall v: nat :: Left(F(), S(), v) == LeafTally(v, args, k + 1)
      ensures Notes(entry, start.next, old(S()), S()) && Builds(F(), old(S()), S())
    {
      hide Inv, Builds, FreshBindings, Left, Run, Room, LeafTally, ArgSize, Finished, ArgsDone, Size, Notes;
      ghost var s := S();
      BuildsRefl(F(), s);
      NotesRefl(entry, start.next, s);
      var arg, loc := goal.args[k], modelAdst + k;
      ArgFits(goal, k, true);
      NextUnfinished(F(), s, |args|, k);
      LeafStep(args, k);
      ArgSizeStep(args, k, true);
      if arg.Var? {
        VarPending(F(), s, k);
        CompVarArg(arg.v, loc);
        VarAdded(F(), s, S(), bad, loc);
        BuildsTrans(F(), s0, s, S());
      }
      OneMoreFinished(F(), s, S(), |args|, k);
    }

    /** Sets up all arguments of a goal.  Afterwards every argument cell stands for its
        argument, unless a permanent variable had to be pushed to the heap in the middle of a
        structure; and every variable needed later is still where it was. */
    method CompGoal(goal: Term)
      requires goal.Struct? && args == goal.args
      requires code == [] && m == start && env == entry && placed == {} && !m.open && !m.spilled && Valid(-1)
      requires forall v: nat :: Left(F(), S(), v) == Tally(v, goal)
      requires Room(S()) >= Size(goal) && toDoTop + Size(goal) + 2 * vtbl.Length <= toDo.Length
      modifies this`modelSP, this`code, this`m, this`env, this`placed, this`toDoTop, model, vtbl, toDo
      ensures m == Run(start, code) && FreshBindings(entry, start.next, env, m.next)
      ensures (forall i | 0 <= i < |goal.args| ::
                 Denotes(m.heap, Get(m.mem, modelAdst + i - gap), goal.args[i], env)) <==> !m.spilled
      ensures Calm(F(), old(S()), goal) ==> !m.spilled
      ensures Settled(F(), old(S())) ==>
                (m.spilled <==> GoalCollides(F(), old(S())))
      ensures forall i | 0 <= i < |goal.args| && goal.args[i].Var? ::
                Denotes(m.heap, Get(m.mem, modelAdst + i - gap), goal.args[i], env)
      ensures m.spilled ==>
                exists i | 0 <= i < |goal.args| && !goal.args[i].Var? ::
                  Refutes(m.heap, Get(m.mem, modelAdst + i - gap), goal.args[i], env)
      ensures Valid(-1) && Builds(F(), old(S()), S())
      ensures forall v: nat | v < vtbl.Length && Live(vtbl[v]) ::
                vtbl[v].home == old(vtbl[v].home) >= top && v in env && Get(m.mem, vtbl[v].home) == env[v]
      ensures forall v: nat :: Left(F(), S(), v) == 0
      ensures Settled(F(), old(S())) ==>
                forall v: nat | v < vtbl.Length :: FlagTold(old(vtbl[v]), vtbl[v], v, goal)
      ensures Settled(F(), old(S())) && Older(entry, start.next) ==> Marked(entry, S())
    {
      hide Inv, Builds, FreshBindings, Left, Run, Room, BuiltTally, LeafTally, Tally, ArgsDone, Calm, Finished,
           Size, ArgSize, Denotes, Refutes, Watches, GoalCollides, Settled, Notes, Marked, FlagTold, Older, Halfway,
           GoalEvents;
      ghost var s0 := S();
      ArgsFit(goal);
      ghost var bad := PutNonVariables(goal);
      ghost var s1 := S();
      CollisionSpills(F(), s0, s1, goal);
      HalfwayThere(F(), s0, s1, start.next, goal);
      PutVariables(goal, s0, bad);
      ghost var s := S();
      if Settled(F(), s0) { GoalTold(F(), s0, s1, s, start.next, goal); }
      GoalResult(F(), s, bad);
      AllSurvive(F(), s0, s);
    }
  }
}
