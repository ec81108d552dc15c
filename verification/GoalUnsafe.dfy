/** Which variables still have to be made safe after a goal, and which of the goal's new machine
    variables are exposed when it is called. */
module GoalUnsafe {
  import opened Wam
  import opened VarTable
  import opened GoalModel
  import opened GoalBuild
  import opened GoalDanger

  lemma {:induction false} RunKeepsChoice(m: Machine, code: seq<Instr>)
    ensures Run(m, code).spb == m.spb
    decreases |code|
  {
    if code != [] { RunKeepsChoice(m, code[..|code| - 1]); }
  }

  // ---- arguments that are not variables ----

  /** A variable that needs not be made safe never comes to need it. */
  lemma {:induction false} JunkStays(w: Watch, evs: seq<Event>, v: nat)
    requires v < |w.info| && w.info[v].id == Junk
    ensures |After(w, evs).info| == |w.info| && After(w, evs).info[v].id == Junk
    decreases |evs|
  {
    if evs != [] {
      JunkStays(w, evs[..|evs| - 1], v);
      JunkStaysNext(After(w, evs[..|evs| - 1]), evs[|evs| - 1], v);
    }
  }

  lemma JunkStaysNext(w: Watch, e: Event, v: nat)
    requires v < |w.info| && w.info[v].id == Junk
    ensures |Next(w, e).info| == |w.info| && Next(w, e).info[v].id == Junk
  {
  }

  /** A variable first used in a structure is safe from then on. */
  lemma FirstUseIsSafe(F: Frame, s0: State, s1: State, n0: nat, evs: seq<Event>, v: nat)
    requires Inv(F, s0, -1) && Inv(F, s1, -1) && Watched(s1) == After(Watched(s0), evs) && v < |s1.vtbl| == |s0.vtbl|
    requires FreshBindings(s0.env, n0, s1.env, s1.m.next) && s0.vtbl[v].usecnt == 0
    ensures s1.vtbl[v].unsafe && s1.vtbl[v].usecnt < s1.vtbl[v].noccurences ==> v !in s1.env && s1.vtbl[v].usecnt == 0
  {
    assert VarOk(F, s0, -1, v) && VarOk(F, s1, -1, v);
    assert Watched(s0).info[v] == InfoOf(s0, v) && Watched(s1).info[v] == InfoOf(s1, v);
    JunkStays(Watched(s0), evs, v);
  }

  // ---- variable arguments ----

  predicate FlagAt(s: State, s': State, v: nat)
    requires v < |s.vtbl| == |s'.vtbl|
  {
    s.vtbl[v].unsafe && !s'.vtbl[v].unsafe ==> s'.vtbl[v].pvnum == 0
  }

  /** A permanent variable that has to be made safe still has to. */
  ghost predicate KeepsFlags(s: State, s': State) {
    |s'.vtbl| == |s.vtbl| && forall v: nat | v < |s.vtbl| :: FlagAt(s, s', v)
  }

  /** No value is newer than `n`. */
  ghost predicate Older(env: Env, n: nat) {
    forall v | v in env && env[v].CVar? :: env[v].id < n
  }

  /** A permanent variable that has to be made safe and has got its value since entry is exposed
      exactly when its cell lies below the newest choice point. */
  predicate MarkedVar(s: State, v: nat)
    requires v < |s.vtbl|
  {
    var i := s.vtbl[v];
    v in s.env && i.pvnum != 0 && i.unsafe && i.usecnt < i.noccurences ==>
      s.env[v].CVar? && (s.env[v].id in Exposed(s.m) <==> i.home < s.m.spb)
  }

  ghost predicate Marked(entry: Env, s: State) {
    forall v: nat | v < |s.vtbl| && v !in entry :: MarkedVar(s, v)
  }

  /** What setting up a variable argument leaves as it is. */
  ghost predicate Notes(entry: Env, n0: nat, s: State, s': State) {
    KeepsFlags(s, s') && (Older(entry, n0) && Marked(entry, s) ==> Marked(entry, s'))
  }

  lemma NotesRefl(entry: Env, n0: nat, s: State)
    ensures Notes(entry, n0, s, s)
  {
  }

  lemma NotesTrans(F: Frame, entry: Env, n0: nat, s: State, s1: State, s2: State)
    requires Notes(entry, n0, s, s1) && Notes(entry, n0, s1, s2) && Builds(F, s1, s2)
    ensures Notes(entry, n0, s, s2)
  {
    forall v: nat | v < |s.vtbl| ensures FlagAt(s, s2, v) {
      assert FlagAt(s, s1, v) && FlagAt(s1, s2, v) && SameVar(F, s1, s2, v);
    }
  }

  /** New variables are told apart from all others. */
  lemma ValuesDiffer(entry: Env, n0: nat, env: Env, n: nat, u: nat, v: nat)
    requires FreshBindings(entry, n0, env, n) && Older(entry, n0) && v in env && v !in entry && u in env && env[u] == env[v]
    ensures u == v && env[v].CVar? && n0 <= env[v].id < n
  {
  }

  /** Freeing a cell changes homes only, and makes only those variables safe that it evicts. */
  lemma ShuffledMark(F: Frame, entry: Env, n0: nat, s: State, s': State, stop: int, v: nat)
    requires Inv(F, s, -1) && Inv(F, s', -1) && Shuffles(F, s, s') && Clears(F, s, s', -1, stop)
    requires FreshBindings(entry, n0, s.env, s.m.next) && Older(entry, n0) && s'.m.spb == s.m.spb
    requires v < |s.vtbl| && v !in entry && MarkedVar(s, v)
    ensures MarkedVar(s', v)
  {
    var i' := s'.vtbl[v];
    assert SameVar(F, s, s', v) && SameUse(s, s', v);
    if v in s'.env && i'.pvnum != 0 && i'.unsafe && i'.usecnt < i'.noccurences {
      assert VarOk(F, s', -1, v);
      var w := Watched(s);
      assert w.info[v] == InfoOf(s, v) && Watched(s').info[v] == InfoOf(s', v);
      if s.env[v].id in Risky(w, -1, stop) {
        var u: nat :| u < |w.info| && Risks(w.info[u], -1, stop) && w.info[u].id.id == s.env[v].id;
        assert w.info[u] == InfoOf(s, u);
        ValuesDiffer(entry, n0, s.env, s.m.next, u, v);
      }
    }
  }

  lemma ShuffledNotes(F: Frame, entry: Env, n0: nat, s: State, s': State, stop: int)
    requires Inv(F, s, -1) && Inv(F, s', -1) && Shuffles(F, s, s') && Clears(F, s, s', -1, stop)
    requires FreshBindings(entry, n0, s.env, s.m.next) && s'.m.spb == s.m.spb
    ensures Notes(entry, n0, s, s')
  {
    hide Inv, Clears, FreshBindings, Older, MarkedVar;
    forall v: nat | v < |s.vtbl| ensures FlagAt(s, s', v) { assert SameVar(F, s, s', v) && SameUse(s, s', v); }
    if Older(entry, n0) && Marked(entry, s) {
      forall v: nat | v < |s'.vtbl| && v !in entry ensures MarkedVar(s', v) {
        ShuffledMark(F, entry, n0, s, s', stop, v);
      }
    }
  }

  /** The exposed variables are the same but for the one that `c` is. */
  ghost predicate ExposedBut(m: Machine, m': Machine, c: Cell) {
    forall id: nat | id < m.next && c != CVar(id) :: id in Exposed(m') <==> id in Exposed(m)
  }

  lemma OthersMarked(entry: Env, n0: nat, s: State, s': State, v: nat, u: nat)
    requires v < |s.vtbl| == |s'.vtbl| && u < |s.vtbl| && u != v && s'.vtbl == s.vtbl[v := s'.vtbl[v]] && s'.m.spb == s.m.spb
    requires forall x | x != v :: x in s'.env <==> x in s.env
    requires forall x | x in s.env :: x in s'.env && s'.env[x] == s.env[x]
    requires FreshBindings(entry, n0, s.env, s.m.next) && Older(entry, n0) && u !in entry && MarkedVar(s, u)
    requires ExposedBut(s.m, s'.m, if v in s.env then s.env[v] else Junk)
    ensures MarkedVar(s', u)
  {
    if u in s.env && v in s.env && s.env[v] == s.env[u] { ValuesDiffer(entry, n0, s.env, s.m.next, v, u); }
  }

  lemma OneNoted(entry: Env, n0: nat, s: State, s': State, v: nat)
    requires v < |s.vtbl| == |s'.vtbl| && s'.vtbl == s.vtbl[v := s'.vtbl[v]] && s'.m.spb == s.m.spb && FlagAt(s, s', v)
    requires forall x | x != v :: x in s'.env <==> x in s.env
    requires forall x | x in s.env :: x in s'.env && s'.env[x] == s.env[x]
    requires FreshBindings(entry, n0, s.env, s.m.next)
    requires ExposedBut(s.m, s'.m, if v in s.env then s.env[v] else Junk)
    requires v !in entry && Older(entry, n0) && MarkedVar(s, v) ==> MarkedVar(s', v)
    ensures Notes(entry, n0, s, s')
  {
    hide FreshBindings, Older, MarkedVar, ExposedBut;
    forall u: nat | u < |s.vtbl| ensures FlagAt(s, s', u) { }
    if Older(entry, n0) && Marked(entry, s) {
      forall u: nat | u < |s'.vtbl| && u !in entry ensures MarkedVar(s', u) {
        if u != v { OthersMarked(entry, n0, s, s', v, u); }
      }
    }
  }

  /** The first occurrence of a permanent variable. */
  lemma PutYNotes(F: Frame, entry: Env, n0: nat, s: State, v: nat, loc: int, m': Machine)
    requires v < |s.vtbl| && v !in s.env && FreshBindings(entry, n0, s.env, s.m.next) && m'.spb == s.m.spb
    requires FreshIds(s.m)
    requires Exposed(m') == if Home(s, v) < s.m.spb then Exposed(s.m) + {s.m.next} else Exposed(s.m)
    ensures Notes(entry, n0, s, PutY(s, v, loc, CVar(s.m.next), m'))
  {
    OneNoted(entry, n0, s, PutY(s, v, loc, CVar(s.m.next), m'), v);
  }

  /** The first occurrence of a temporary. */
  lemma PutXNotes(F: Frame, entry: Env, n0: nat, s: State, v: nat, loc: int, m': Machine)
    requires v < |s.vtbl| && v !in s.env && s.vtbl[v].pvnum == 0 && FreshBindings(entry, n0, s.env, s.m.next)
    requires Exposed(m') == Exposed(s.m) && m'.spb == s.m.spb
    ensures Notes(entry, n0, s, PutX(s, v, loc, CVar(s.m.next), m'))
  {
    OneNoted(entry, n0, s, PutX(s, v, loc, CVar(s.m.next), m'), v);
  }

  /** Copying a value exposes nothing, and hides at most a variable that leaves the environment. */
  ghost predicate CopyHides(F: Frame, s: State, v: nat, m': Machine)
    requires v < |s.vtbl|
  {
    m'.spb == s.m.spb &&
    (Exposed(m') == Exposed(s.m) ||
     (s.vtbl[v].lastocc == F.goalnumber && v in s.env && s.env[v].CVar? && Exposed(m') == Exposed(s.m) - {s.env[v].id}))
  }

  lemma CopiedHides(F: Frame, s: State, v: nat, a: int, m': Machine)
    requires v < |s.vtbl| && v in s.env && 0 <= Home(s, v) < |s.model| && At(F, s, Home(s, v)) == s.env[v]
    requires (m' == Copied(s.m, a, s.env[v], true) && s.vtbl[v].lastocc == F.goalnumber) || m' == s.m
             || m' == s.m.(mem := s.m.mem[a := s.env[v]])
    ensures CopyHides(F, s, v, m')
  {
    if m' == Copied(s.m, a, s.env[v], true) && s.env[v].CVar? {
      var id := s.env[v].id;
      if id in Exposed(s.m) {
        assert Exposed(m') == Exposed(s.m) - {id};
      } else {
        assert Exposed(m') == Exposed(s.m);
      }
    }
  }

  lemma PutValueNotes(F: Frame, entry: Env, n0: nat, s: State, v: nat, loc: int, m': Machine)
    requires v < |s.vtbl| && v in s.env && 0 <= loc < |s.model| && 0 <= Home(s, v) < |s.model|
    requires FreshBindings(entry, n0, s.env, s.m.next) && CopyHides(F, s, v, m')
    ensures Notes(entry, n0, s, PutValueHere(F, s, v, loc, m'))
  {
    OneNoted(entry, n0, s, PutValueHere(F, s, v, loc, m'), v);
  }

  lemma InPlaceNotes(entry: Env, n0: nat, s: State, v: nat, loc: int)
    requires v < |s.vtbl| && FreshBindings(entry, n0, s.env, s.m.next)
    ensures Notes(entry, n0, s, InPlace(s, v, loc))
  {
    OneNoted(entry, n0, s, InPlace(s, v, loc), v);
  }

  // ---- a whole goal ----

  /** A variable still needed after the goal has to be made safe exactly if it had to be before,
      and has not been met first in a structure. */
  predicate FlagTold(i: VarInf, i': VarInf, v: nat, goal: Term) {
    i'.usecnt < i'.noccurences && (i.usecnt == 0 ==> i.unsafe) ==>
      (i'.unsafe <==> i.unsafe && (i.usecnt > 0 || BuiltTally(v, goal, |Kids(goal)|) == 0))
  }

  /** Between the two passes, `s1`, the variables met first are the ones met in structures. */
  ghost predicate Halfway(F: Frame, s0: State, s1: State, n0: nat, goal: Term) {
    && Inv(F, s0, -1) && Inv(F, s1, -1) && Builds(F, s0, s1) && goal.Struct? && goal.args == F.args
    && (forall v: nat :: Left(F, s0, v) == Tally(v, goal)) && (forall v: nat :: Left(F, s1, v) == LeafTally(v, F.args, 0))
    && FreshBindings(s0.env, n0, s1.env, s1.m.next)
    && Watched(s1) == After(Watched(s0), GoalEvents(F.args, F.Adst, |F.args|))
  }

  lemma HalfwayThere(F: Frame, s0: State, s1: State, n0: nat, goal: Term)
    requires Inv(F, s0, -1) && Inv(F, s1, -1) && Builds(F, s0, s1) && goal.Struct? && goal.args == F.args
    requires forall v: nat :: Left(F, s0, v) == Tally(v, goal)
    requires forall v: nat :: Left(F, s1, v) == LeafTally(v, F.args, 0)
    requires FreshBindings(s0.env, n0, s1.env, s1.m.next)
    requires Watches(F, s0, s1, GoalEvents(F.args, F.Adst, |F.args|))
    ensures Settled(F, s0) ==> Halfway(F, s0, s1, n0, goal)
  {
    hide Inv, Builds, Left, Tally, LeafTally, FreshBindings, Settled, GoalEvents;
  }

  lemma StillPermanent(F: Frame, s0: State, s: State, v: nat)
    requires Inv(F, s0, -1) && Inv(F, s, -1) && Builds(F, s0, s) && v < |s0.vtbl| == |s.vtbl|
    requires s.vtbl[v].usecnt == 0 && s0.vtbl[v].pvnum != 0 && s0.vtbl[v].noccurences > 0
    ensures s.vtbl[v].pvnum != 0
  {
    assert VarOk(F, s0, -1, v) && VarOk(F, s, -1, v) && SameVar(F, s0, s, v);
  }

  /** What is needed after the goal and was or became permanent still is. */
  lemma NeededIsPermanent(F: Frame, s0: State, s: State, v: nat)
    requires Inv(F, s0, -1) && Inv(F, s, -1) && Builds(F, s0, s) && v < |s0.vtbl| == |s.vtbl| && Left(F, s, v) == 0
    requires s.vtbl[v].usecnt < s.vtbl[v].noccurences && s0.vtbl[v].pvnum != 0
    ensures s.vtbl[v].pvnum != 0
  {
    assert VarOk(F, s0, -1, v) && VarOk(F, s, -1, v) && SameVar(F, s0, s, v);
    if s.vtbl[v].usecnt == 0 {
      StillPermanent(F, s0, s, v);
    } else {
      Survives(F, s0, s, v);
      assert CellOk(F, s, Home(s, v));
    }
  }

  lemma UsedSoFar(F: Frame, s0: State, s1: State, s: State, n0: nat, goal: Term, v: nat)
    requires Halfway(F, s0, s1, n0, goal) && Inv(F, s, -1) && Builds(F, s1, s) && v < |s0.vtbl| == |s1.vtbl| == |s.vtbl|
    requires Left(F, s, v) == 0
    ensures s1.vtbl[v].usecnt == s0.vtbl[v].usecnt + BuiltTally(v, goal, |goal.args|)
    ensures s.vtbl[v].usecnt == s0.vtbl[v].usecnt + Tally(v, goal) >= s1.vtbl[v].usecnt
    ensures s.vtbl[v].noccurences == s1.vtbl[v].noccurences == s0.vtbl[v].noccurences
  {
    hide VarOk, CellOk, PlacedOk;
    assert Left(F, s0, v) == Tally(v, goal) && Left(F, s1, v) == LeafTally(v, F.args, 0);
    assert SameVar(F, s0, s1, v) && SameVar(F, s1, s, v);
  }

  lemma FlagIsTold(F: Frame, s0: State, s1: State, s: State, n0: nat, goal: Term, v: nat)
    requires Halfway(F, s0, s1, n0, goal) && Inv(F, s, -1) && Builds(F, s1, s) && v < |s0.vtbl| == |s1.vtbl| == |s.vtbl|
    requires KeepsFlags(s1, s) && Left(F, s, v) == 0
    ensures FlagTold(s0.vtbl[v], s.vtbl[v], v, goal)
  {
    var i0, i1, i := s0.vtbl[v], s1.vtbl[v], s.vtbl[v];
    hide Inv, Builds, Left, Tally, BuiltTally, LeafTally, Halfway, FreshBindings, GoalEvents, After, Watched;
    UsedSoFar(F, s0, s1, s, n0, goal, v);
    assert Inv(F, s0, -1) && Inv(F, s1, -1) && Builds(F, s0, s1) by { HalfwayMeans(F, s0, s1, n0, goal); }
    BuildsTrans(F, s0, s1, s);
    SameVarOf(F, s0, s1, v);
    SameVarOf(F, s1, s, v);
    assert FlagAt(s1, s, v);
    if i.usecnt < i.noccurences && (i0.usecnt == 0 ==> i0.unsafe) {
      if i0.pvnum != 0 { NeededIsPermanent(F, s0, s, v); } else { NotLost(F, s0, s, v); }
      if i0.usecnt == 0 && i1.usecnt > 0 {
        HalfwayMeans(F, s0, s1, n0, goal);
        FirstUseIsSafe(F, s0, s1, n0, GoalEvents(F.args, F.Adst, |F.args|), v);
      }
    }
  }

  lemma HalfwayMeans(F: Frame, s0: State, s1: State, n0: nat, goal: Term)
    requires Halfway(F, s0, s1, n0, goal)
    ensures Inv(F, s0, -1) && Inv(F, s1, -1) && Builds(F, s0, s1) && FreshBindings(s0.env, n0, s1.env, s1.m.next)
    ensures Watched(s1) == After(Watched(s0), GoalEvents(F.args, F.Adst, |F.args|))
  {
  }

  lemma SameVarOf(F: Frame, s: State, s': State, v: nat)
    requires Builds(F, s, s') && v < |s.vtbl| == |s'.vtbl|
    ensures SameVar(F, s, s', v)
  {
  }

  /** A temporary still needed after the goal has been used before it. */
  lemma NotLost(F: Frame, s0: State, s: State, v: nat)
    requires Inv(F, s0, -1) && Inv(F, s, -1) && Builds(F, s0, s) && v < |s0.vtbl| == |s.vtbl| && Left(F, s, v) == 0
    requires s.vtbl[v].usecnt < s.vtbl[v].noccurences && s0.vtbl[v].pvnum == 0
    ensures s0.vtbl[v].usecnt == 0 ==> s.vtbl[v].usecnt == 0
  {
    assert VarOk(F, s0, -1, v) && VarOk(F, s, -1, v);
    if s.vtbl[v].usecnt > 0 { Survives(F, s0, s, v); }
  }

  lemma MarkedHalfway(F: Frame, s0: State, s1: State, n0: nat, goal: Term)
    requires Halfway(F, s0, s1, n0, goal)
    ensures Marked(s0.env, s1)
  {
    hide Tally, LeafTally, Left, GoalEvents, After, CellOk, PlacedOk;
    forall v: nat | v < |s1.vtbl| && v !in s0.env ensures MarkedVar(s1, v) {
      assert VarOk(F, s0, -1, v);
      FirstUseIsSafe(F, s0, s1, n0, GoalEvents(F.args, F.Adst, |F.args|), v);
    }
  }

  /** What a whole goal does to the flags and to the exposed variables. */
  lemma GoalTold(F: Frame, s0: State, s1: State, s: State, n0: nat, goal: Term)
    requires Halfway(F, s0, s1, n0, goal) && Inv(F, s, -1) && Builds(F, s1, s) && Notes(s0.env, n0, s1, s)
    requires forall v: nat :: Left(F, s, v) == 0
    ensures |s.vtbl| == |s1.vtbl| == |s0.vtbl|
    ensures forall v: nat | v < |s.vtbl| :: FlagTold(s0.vtbl[v], s.vtbl[v], v, goal)
    ensures Older(s0.env, n0) ==> Marked(s0.env, s)
  {
    hide FlagTold, Older, Marked, Inv;
    assert |s1.vtbl| == |s0.vtbl|;
    MarkedHalfway(F, s0, s1, n0, goal);
    forall v: nat | v < |s.vtbl| ensures FlagTold(s0.vtbl[v], s.vtbl[v], v, goal) {
      assert Left(F, s, v) == 0;
      FlagIsTold(F, s0, s1, s, n0, goal, v);
    }
  }
}
