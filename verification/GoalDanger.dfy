/** When argument set-up pushes a permanent variable to the heap.

    Of a whole compile-time state only a little decides this: which permanent variables are
    at home in the environment, which of them still have to be made safe, and which variables
    have found a home.  `Watched` takes that part out of a state; `After` says how it changes
    while the events of a goal pass. */
module GoalDanger {
  import opened Wam
  import opened VarTable
  import opened GoalModel

  /** `spot` is the environment cell of a permanent variable at home, otherwise -1; `homed` says
      that a variable has a home or needs none any more; `id` is the value of one that is still
      needed and has to be made safe, otherwise Junk. */
  datatype Info = Info(spot: int, homed: bool, uses: nat, times: nat, target: int, first: int, id: Cell)

  datatype Watch = Watch(info: seq<Info>, exposed: set<nat>, spilled: bool)

  function InfoOf(s: State, v: nat): Info
    requires v < |s.vtbl|
  {
    var i := s.vtbl[v];
    Info(if IsPerm(s, v) then i.home else -1, i.home != 0 || i.usecnt >= i.noccurences, i.usecnt, i.noccurences,
         i.target, i.firstocc,
         if i.unsafe && i.usecnt < i.noccurences && v in s.env then s.env[v] else Junk)
  }

  function Watched(s: State): Watch {
    Watch(seq(|s.vtbl|, v requires 0 <= v < |s.vtbl| => InfoOf(s, v)), Exposed(s.m), s.m.spilled)
  }

  /** Pointwise description of what is watched. */
  predicate Shows(s: State, w: Watch) {
    && |w.info| == |s.vtbl| && w.exposed == Exposed(s.m) && w.spilled == s.m.spilled
    && forall v: nat | v < |s.vtbl| :: ShowsAt(s, w, v)
  }

  predicate ShowsAt(s: State, w: Watch, v: nat)
    requires v < |s.vtbl| == |w.info|
  {
    w.info[v] == InfoOf(s, v)
  }

  lemma ShowsWatched(s: State, w: Watch)
    requires Shows(s, w)
    ensures w == Watched(s)
  {
    forall v: nat | v < |s.vtbl| ensures w.info[v] == Watched(s).info[v] {
      assert ShowsAt(s, w, v);
    }
  }

  // ---- permanent variables leave the environment ----

  predicate Between(i: Info, lo: int, hi: int) {
    lo < i.spot <= hi && i.spot >= 0
  }

  function ClearInfo(i: Info, lo: int, hi: int): Info {
    if Between(i, lo, hi) then i.(spot := -1, id := if i.first != 0 then Junk else i.id) else i
  }

  predicate Risks(i: Info, lo: int, hi: int) {
    Between(i, lo, hi) && i.first != 0 && i.id.CVar?
  }

  /** The identities of the variables that have to be made safe between two cells. */
  function Risky(w: Watch, lo: int, hi: int): set<nat> {
    set v: nat | v < |w.info| && Risks(w.info[v], lo, hi) :: w.info[v].id.id
  }

  /** A variable that has to be made safe is at home between two cells, has no heap cell yet
      and is not protected by a choice point. */
  ghost predicate Danger(w: Watch, lo: int, hi: int) {
    exists v: nat :: v < |w.info| && Dangerous(w, v, lo, hi)
  }

  predicate Dangerous(w: Watch, v: nat, lo: int, hi: int)
    requires v < |w.info|
  {
    Risks(w.info[v], lo, hi) && w.info[v].id.id in w.exposed
  }

  /** The permanent variables above `lo`, up to `hi`, have become temporaries. */
  ghost function Cleared(w: Watch, lo: int, hi: int, open: bool): Watch {
    Watch(seq(|w.info|, v requires 0 <= v < |w.info| => ClearInfo(w.info[v], lo, hi)),
          w.exposed - Risky(w, lo, hi), w.spilled || (open && Danger(w, lo, hi)))
  }

  /** Something is pushed exactly when an exposed variable gets a heap cell. */
  lemma DangerShrinks(w: Watch, lo: int, hi: int, open: bool)
    ensures Danger(w, lo, hi) <==> Cleared(w, lo, hi, open).exposed != w.exposed
    ensures Danger(w, lo, hi) <==> Risky(w, lo, hi) * w.exposed != {}
  {
    if Danger(w, lo, hi) {
      var v: nat :| v < |w.info| && Dangerous(w, v, lo, hi);
      assert w.info[v].id.id in Risky(w, lo, hi) * w.exposed;
    }
    Meets(Risky(w, lo, hi), w.exposed);
    if Risky(w, lo, hi) * w.exposed != {} {
      var id :| id in Risky(w, lo, hi) * w.exposed;
      var v: nat :| v < |w.info| && Risks(w.info[v], lo, hi) && w.info[v].id.id == id;
      assert Dangerous(w, v, lo, hi);
    }
  }

  lemma Meets(a: set<nat>, l: set<nat>)
    ensures a * l != {} <==> l - a != l
  {
    if a * l != {} { var x :| x in a * l; assert x in l && x !in l - a; }
    if a * l == {} { assert forall x | x in l :: x !in a * l; assert l - a == l; }
  }

  lemma ClearedNothing(w: Watch, lo: int, hi: int, open: bool)
    requires forall v: nat | v < |w.info| :: !Between(w.info[v], lo, hi)
    ensures Cleared(w, lo, hi, open) == w
  {
    assert Risky(w, lo, hi) == {};
    assert Cleared(w, lo, hi, open).info == w.info;
  }

  /** Cells are cleared from the top down. */
  lemma ClearedTwice(w: Watch, lo: int, mid: int, hi: int, open: bool)
    requires lo <= mid <= hi
    ensures Cleared(Cleared(w, mid, hi, open), lo, mid, open) == Cleared(w, lo, hi, open)
  {
    var w1 := Cleared(w, mid, hi, open);
    forall id ensures id in Risky(w, lo, hi) <==> id in Risky(w, mid, hi) + Risky(w1, lo, mid) {
      RiskyTwice(w, lo, mid, hi, open, id);
    }
    assert Cleared(w1, lo, mid, open).exposed == Cleared(w, lo, hi, open).exposed;
    assert Cleared(w1, lo, mid, open).info == Cleared(w, lo, hi, open).info;
    DangerShrinks(w, mid, hi, open);
    DangerShrinks(w1, lo, mid, open);
    DangerShrinks(w, lo, hi, open);
    EitherMeets(Risky(w, mid, hi), Risky(w1, lo, mid), w.exposed);
    assert Risky(w, lo, hi) == Risky(w, mid, hi) + Risky(w1, lo, mid);
  }

  lemma RiskyTwice(w: Watch, lo: int, mid: int, hi: int, open: bool, id: nat)
    requires lo <= mid <= hi
    ensures id in Risky(w, lo, hi) <==> id in Risky(w, mid, hi) || id in Risky(Cleared(w, mid, hi, open), lo, mid)
  {
    var w1 := Cleared(w, mid, hi, open);
    if id in Risky(w, lo, hi) {
      var v: nat :| v < |w.info| && Risks(w.info[v], lo, hi) && w.info[v].id.id == id;
      assert Risks(w.info[v], mid, hi) || Risks(w1.info[v], lo, mid);
    }
    if id in Risky(w, mid, hi) {
      var v: nat :| v < |w.info| && Risks(w.info[v], mid, hi) && w.info[v].id.id == id;
      assert Risks(w.info[v], lo, hi);
    }
    if id in Risky(w1, lo, mid) {
      var v: nat :| v < |w1.info| && Risks(w1.info[v], lo, mid) && w1.info[v].id.id == id;
      assert Risks(w.info[v], lo, hi);
    }
  }

  lemma EitherMeets(a: set<nat>, b: set<nat>, l: set<nat>)
    ensures (a + b) * l != {} <==> a * l != {} || b * (l - a) != {}
  {
    if (a + b) * l != {} {
      var x :| x in (a + b) * l;
      if a * l == {} { assert x !in a * l; assert x in b * (l - a); } 
    }
    if a * l != {} { var x :| x in a * l; assert x in (a + b) * l; }
    if b * (l - a) != {} { var x :| x in b * (l - a); assert x in (a + b) * l; }
  }

  // ---- what the steps of argument set-up clear ----

  /** A temporary that occupies an argument or environment cell is where it is meant to be. */
  ghost predicate Settled(F: Frame, s: State) {
    forall v: nat | v < |s.vtbl| :: SettledVar(F, s, v)
  }

  predicate SettledVar(F: Frame, s: State, v: nat)
    requires v < |s.vtbl|
  {
    var i := s.vtbl[v];
    i.pvnum == 0 && 0 <= i.home < |s.model| && F.Base() <= i.home < F.Top && s.model[i.home] == Vo(v) ==> i.home == i.target
  }

  /** From `s` to `s'` exactly the permanent variables above `lo`, up to `hi`, were evicted. */
  ghost predicate Clears(F: Frame, s: State, s': State, lo: int, hi: int) {
    && (Settled(F, s) ==> Settled(F, s'))
    && s'.m.open == s.m.open
    && Watched(s') == Cleared(Watched(s), lo, hi, s.m.open)
  }

  lemma ClearsShown(F: Frame, s: State, s': State, lo: int, hi: int)
    requires Settled(F, s) ==> Settled(F, s')
    requires s'.m.open == s.m.open && Shows(s', Cleared(Watched(s), lo, hi, s.m.open))
    ensures Clears(F, s, s', lo, hi)
  {
    ShowsWatched(s', Cleared(Watched(s), lo, hi, s.m.open));
  }

  lemma ClearsNone(F: Frame, s: State, s': State)
    requires (Settled(F, s) ==> Settled(F, s')) && s'.m.open == s.m.open && Watched(s') == Watched(s)
    ensures forall c :: Clears(F, s, s', c, c)
  {
    forall c ensures Clears(F, s, s', c, c) { ClearedNothing(Watched(s), c, c, s.m.open); }
  }

  lemma ClearsTwice(F: Frame, s: State, s1: State, s2: State, lo: int, mid: int, hi: int)
    requires Clears(F, s, s1, mid, hi) && Clears(F, s1, s2, lo, mid) && lo <= mid <= hi
    ensures Clears(F, s, s2, lo, hi)
  {
    ClearedTwice(Watched(s), lo, mid, hi, s.m.open);
  }

  /** A cell without a permanent variable at home need not be cleared. */
  lemma ClearsMore(F: Frame, s: State, s': State, i: int, hi: int)
    requires Clears(F, s, s', i, hi) && i <= hi && i >= 0
    requires forall v: nat | v < |s'.vtbl| && IsPerm(s', v) :: Home(s', v) != i
    ensures Clears(F, s, s', i - 1, hi)
  {
    var w' := Watched(s');
    forall v: nat | v < |w'.info| ensures !Between(w'.info[v], i - 1, i) {
      assert w'.info[v] == InfoOf(s', v);
    }
    ClearedNothing(w', i - 1, i, s.m.open);
    ClearedTwice(Watched(s), i - 1, i, hi, s.m.open);
  }

  lemma ShrunkClears(F: Frame, s: State, s1: State)
    requires Inv(F, s, -1) && MaybeShrunk(s, s1)
    ensures forall c :: Clears(F, s, s1, c, c)
  {
    if s1 != s {
      forall v: nat | v < |s.vtbl| ensures InfoOf(s1, v) == InfoOf(s, v) && (SettledVar(F, s, v) ==> SettledVar(F, s1, v)) {
        assert VarOk(F, s, -1, v);
      }
      SameInfo(s, s1);
      SettledStays(F, s, s1);
    }
    ClearsNone(F, s, s1);
  }

  lemma SameInfo(s: State, s': State)
    requires |s.vtbl| == |s'.vtbl| && Exposed(s'.m) == Exposed(s.m) && s'.m.spilled == s.m.spilled
    requires forall v: nat | v < |s.vtbl| :: InfoOf(s', v) == InfoOf(s, v)
    ensures Watched(s') == Watched(s)
  {
    assert Watched(s').info == Watched(s).info;
  }

  lemma SettledStays(F: Frame, s: State, s': State)
    requires |s.vtbl| == |s'.vtbl| && forall v: nat | v < |s.vtbl| :: SettledVar(F, s, v) ==> SettledVar(F, s', v)
    ensures Settled(F, s) ==> Settled(F, s')
  {
  }

  lemma RelocateSettled(F: Frame, s: State, s': State, v: nat, t: int)
    requires Inv(F, s, -1) && Relocates(F, s, s', v, t) && Vacant(F, s, t)
    requires t < F.SPstart || t == s.vtbl[v].target
    ensures Settled(F, s) ==> Settled(F, s')
  {
    forall u: nat | u < |s.vtbl| ensures SettledVar(F, s, u) ==> SettledVar(F, s', u) { }
    SettledStays(F, s, s');
  }

  /** Moving a temporary clears nothing. */
  lemma TempClears(F: Frame, s: State, s': State, v: nat, t: int)
    requires Inv(F, s, -1) && Relocates(F, s, s', v, t) && Vacant(F, s, t) && s.vtbl[v].pvnum == 0
    requires t < F.SPstart || t == s.vtbl[v].target
    ensures forall c :: Clears(F, s, s', c, c)
  {
    forall u: nat | u < |s.vtbl| ensures InfoOf(s', u) == InfoOf(s, u) { TempInfo(F, s, s', v, t, u); }
    SameInfo(s, s');
    RelocateSettled(F, s, s', v, t);
    ClearsNone(F, s, s');
  }

  lemma TempInfo(F: Frame, s: State, s': State, v: nat, t: int, u: nat)
    requires Inv(F, s, -1) && Relocates(F, s, s', v, t) && Vacant(F, s, t) && s.vtbl[v].pvnum == 0 && u < |s.vtbl|
    ensures InfoOf(s', u) == InfoOf(s, u)
  {
  }

  /** Moving a permanent variable clears its cell and no other. */
  lemma PermClears(F: Frame, s: State, s': State, v: nat, t: int)
    requires Inv(F, s, -1) && Relocates(F, s, s', v, t) && Vacant(F, s, t) && s.vtbl[v].pvnum != 0 && Home(s, v) < F.Top
    requires t < F.SPstart || t == s.vtbl[v].target
    ensures Clears(F, s, s', Home(s, v) - 1, Home(s, v))
  {
    hide Inv, Relocates, Vacant, VarOk, Settled, Risky, Danger, Resident, SettledVar, InfoOf, ClearInfo, Get, At;
    ShapeOf(F, s, -1);
    RelocatesHome(F, s, s', v, t);
    var h := Home(s, v);
    var w := Watched(s);
    RelocateSettled(F, s, s', v, t);
    PermRisk(F, s, v);
    DangerShrinks(w, h - 1, h, s.m.open);
    PermLocals(F, s, s', v, t);
    var w' := Cleared(w, h - 1, h, s.m.open);
    forall u: nat | u < |s.vtbl| ensures ShowsAt(s', w', u) { PermInfo(F, s, s', v, t, u); }
    ClearsShown(F, s, s', h - 1, h);
  }

  lemma RelocatesHome(F: Frame, s: State, s': State, v: nat, t: int)
    requires Shape(F, s) && Relocates(F, s, s', v, t)
    ensures Resident(F, s, v) && 0 <= Home(s, v) < |s.model| && |s'.vtbl| == |s.vtbl|
  {
  }

  lemma PermInfo(F: Frame, s: State, s': State, v: nat, t: int, u: nat)
    requires Inv(F, s, -1) && Relocates(F, s, s', v, t) && Vacant(F, s, t) && s.vtbl[v].pvnum != 0 && u < |s.vtbl|
    ensures InfoOf(s', u) == ClearInfo(InfoOf(s, u), Home(s, v) - 1, Home(s, v))
  {
    assert VarOk(F, s, -1, v) && VarOk(F, s, -1, u);
  }

  lemma PermRisk(F: Frame, s: State, v: nat)
    requires Inv(F, s, -1) && v < |s.vtbl| && Resident(F, s, v) && s.vtbl[v].pvnum != 0 && Home(s, v) < F.Top
    ensures v in s.env && At(F, s, Home(s, v)) == s.env[v] && Home(s, v) >= 0 && s.vtbl[v].noccurences != 1
    ensures Risky(Watched(s), Home(s, v) - 1, Home(s, v))
              == if Unsafe(s.vtbl[v]) && s.env[v].CVar? then {s.env[v].id} else {}
  {
    assert VarOk(F, s, -1, v);
    var h := Home(s, v);
    var w := Watched(s);
    forall u: nat | u < |w.info| && Risks(w.info[u], h - 1, h) ensures u == v {
      assert w.info[u] == InfoOf(s, u);
    }
    var ids := if Unsafe(s.vtbl[v]) && s.env[v].CVar? then {s.env[v].id} else {};
    assert w.info[v] == InfoOf(s, v);
    forall id: nat ensures id in Risky(w, h - 1, h) <==> id in ids {
      if id in ids { assert Risks(w.info[v], h - 1, h); }
    }
  }

  lemma PermLocals(F: Frame, s: State, s': State, v: nat, t: int)
    requires Shape(F, s) && Relocates(F, s, s', v, t)
    ensures var c := At(F, s, Home(s, v));
            var ids := if Unsafe(s.vtbl[v]) && c.CVar? then {c.id} else {};
            && Exposed(s'.m) == Exposed(s.m) - ids && s'.m.open == s.m.open
            && s'.m.spilled == (s.m.spilled || (s.m.open && ids * Exposed(s.m) != {}))
  {
    var c := At(F, s, Home(s, v));
    if Unsafe(s.vtbl[v]) && c.CVar? && c.id in Exposed(s.m) { assert c.id in {c.id} * Exposed(s.m); }
  }

  /** No permanent variable lives below the end of the environment. */
  lemma ClearsAll(F: Frame, s: State, s': State, hi: int)
    requires Inv(F, s, -1) && Clears(F, s, s', F.Eend - 1, hi) && F.Eend <= hi
    ensures Clears(F, s, s', -1, hi)
  {
    var w' := Cleared(Watched(s), F.Eend - 1, hi, s.m.open);
    forall v: nat | v < |w'.info| ensures !Between(w'.info[v], -1, F.Eend - 1) {
      assert VarOk(F, s, -1, v);
      assert Watched(s).info[v] == InfoOf(s, v);
    }
    ClearedNothing(w', -1, F.Eend - 1, s.m.open);
    ClearedTwice(Watched(s), -1, F.Eend - 1, hi, s.m.open);
  }

  /** A temporary is set aside. */
  lemma MoveClears(F: Frame, s: State, s1: State, s2: State, v: nat, t: int)
    requires Inv(F, s, -1) && MaybeShrunk(s, s1) && Shape(F, s1)
    requires Relocates(F, s1, s2, v, t) && Vacant(F, s1, t) && s.vtbl[v].pvnum == 0 && t < F.SPstart
    ensures Clears(F, s, s2, -1, -1)
  {
    hide Inv, Relocates, Vacant, Clears, Shape, Watched, Settled;
    MaybeShrunkKeeps(F, s, s1);
    ShrunkClears(F, s, s1);
    TempClears(F, s1, s2, v, t);
    ClearsTwice(F, s, s1, s2, -1, -1, -1);
  }

  /** A permanent variable is set aside. */
  lemma EvictClears(F: Frame, s: State, s1: State, s2: State, v: nat, t: int)
    requires Inv(F, s, -1) && MaybeShrunk(s, s1) && Shape(F, s1)
    requires Relocates(F, s1, s2, v, t) && Vacant(F, s1, t) && s.vtbl[v].pvnum != 0 && Home(s, v) < F.Top
    requires t < F.SPstart || t == s.vtbl[v].target
    ensures Clears(F, s, s2, Home(s, v) - 1, Home(s, v))
  {
    hide Inv, Vacant, Clears, Shape, Watched, Settled, Resident, Copied;
    MaybeShrunkKeeps(F, s, s1);
    ShrunkClears(F, s, s1);
    PermClears(F, s1, s2, v, t);
    ClearsTwice(F, s, s1, s2, Home(s, v) - 1, Home(s, v), Home(s, v));
  }

  /** The last variable of a chain takes its target. */
  lemma SettleClears(F: Frame, s: State, s': State, chain: seq<nat>, start: int)
    requires Inv(F, s, -1) && ChainOk(F, s, chain, start) && |chain| > 0
    requires var u := chain[|chain| - 1];
             u < |s.vtbl| && Relocates(F, s, s', u, s.vtbl[u].target) && Vacant(F, s, s.vtbl[u].target)
    ensures Clears(F, s, s', -1, -1)
  {
    assert LinkOk(F, s, chain, |chain| - 1, start);
    TempClears(F, s, s', chain[|chain| - 1], s.vtbl[chain[|chain| - 1]].target);
  }

  /** The heap grows exactly when a variable in danger is among those evicted. */
  lemma PushedExactly(F: Frame, s: State, s': State, lo: int, hi: int)
    requires Shuffles(F, s, s') && Clears(F, s, s', lo, hi)
    ensures |s'.m.heap| > |s.m.heap| <==> Danger(Watched(s), lo, hi)
  {
    DangerShrinks(Watched(s), lo, hi, s.m.open);
    assert |s'.m.heap| <= |s.m.heap| ==> s'.m.heap == s.m.heap;
  }

  /** One permanent variable is set aside, and nothing else happens. */
  lemma Evicted(F: Frame, s: State, s1: State, s2: State, v: nat, t: int, first: int)
    requires Inv(F, s, -1) && MaybeShrunk(s, s1) && v < |s.vtbl| && s.vtbl[v].pvnum != 0
    requires t < F.SPstart || (t == s.vtbl[v].target && s1 == s)
    requires Shape(F, s1) && Relocates(F, s1, s2, v, t) && Vacant(F, s1, t) && Home(s, v) < F.Top
    requires F.Base() <= first < F.Top && first !in s.placed && (Home(s, v) == first || Freed(F, s, first))
    ensures Inv(F, s2, -1) && Shuffles(F, s, s2) && Room(s2) >= Room(s)
    ensures StayHome(F, s, s2, -1) && Freed(F, s2, first) && s2.m.next == s.m.next && s2.env == s.env
    ensures Clears(F, s, s2, Home(s, v) - 1, Home(s, v))
    ensures |s2.m.heap| > |s.m.heap| <==> Danger(Watched(s), Home(s, v) - 1, Home(s, v))
  {
    EvictKeeps(F, s, s1, s2, v, t, first);
    EvictClears(F, s, s1, s2, v, t);
    hide *;
    PushedExactly(F, s, s2, Home(s, v) - 1, Home(s, v));
  }

  /** The cells from `first` down to `i`, which is excluded, have been looked at. */
  ghost predicate EvictedDown(F: Frame, s0: State, s: State, i: int, first: int)
    requires Shape(F, s0) && Shape(F, s)
  {
    && 0 <= first < F.N && Shuffles(F, s0, s) && Room(s) >= Room(s0) && StayHome(F, s0, s, -1)
    && (if i == first then s == s0 else Freed(F, s, first))
    && Clears(F, s0, s, i, first)
  }

  lemma NoneEvicted(F: Frame, s: State, first: int)
    requires Shape(F, s) && 0 <= first < F.N
    ensures EvictedDown(F, s, s, first, first)
  {
    ShufflesRefl(F, s);
    ClearsNone(F, s, s);
  }

  lemma EvictedSoFar(F: Frame, s0: State, s: State, i: int, first: int)
    requires Shape(F, s0) && Shape(F, s) && EvictedDown(F, s0, s, i, first)
    ensures 0 <= first < F.N && Room(s) >= Room(s0) && s.placed == s0.placed
    ensures if i == first then s == s0 else Freed(F, s, first)
  {
  }

  lemma OneEvicted(F: Frame, s0: State, s1: State, s2: State, i: int, first: int)
    requires Shape(F, s0) && Shape(F, s1) && Shape(F, s2) && EvictedDown(F, s0, s1, i, first) && i <= first
    requires Shuffles(F, s1, s2) && Room(s2) >= Room(s1) && StayHome(F, s1, s2, -1) && 0 <= first < F.N && Freed(F, s2, first)
    requires Clears(F, s1, s2, i - 1, i)
    ensures EvictedDown(F, s0, s2, i - 1, first)
  {
    hide KeepsBuilt, Room, Clears, Stays;
    ShufflesTrans(F, s0, s1, s2);
    StayHomeTrans(F, s0, s1, s2);
    ClearsTwice(F, s0, s1, s2, i - 1, i, first);
  }

  lemma PassedOver(F: Frame, s0: State, s: State, i: int, first: int)
    requires Shape(F, s0) && Inv(F, s, -1) && EvictedDown(F, s0, s, i, first) && 0 <= i <= first
    requires !(s.model[i].Vo? && s.vtbl[s.model[i].v].pvnum != 0 && Home(s, s.model[i].v) == i)
    requires i < first
    ensures EvictedDown(F, s0, s, i - 1, first)
  {
    hide Shuffles, Room, Clears, StayHome;
    ClearsMore(F, s0, s, i, first);
  }

  lemma AllEvicted(F: Frame, s0: State, s: State, first: int)
    requires Inv(F, s0, -1) && Shape(F, s) && EvictedDown(F, s0, s, F.Eend - 1, first) && F.Eend <= first
    ensures Shuffles(F, s0, s) && Room(s) >= Room(s0) && StayHome(F, s0, s, -1) && Freed(F, s, first)
    ensures Clears(F, s0, s, -1, first)
    ensures |s.m.heap| > |s0.m.heap| <==> Danger(Watched(s0), -1, first)
  {
    hide Shuffles, Room, StayHome, Clears, Danger, Watched;
    ClearsAll(F, s0, s, first);
    PushedExactly(F, s0, s, -1, first);
  }

  // ---- where a chain of displaced variables ends ----

  /** The environment cell that freeing `start` comes to, by way of the targets of the
      temporaries passed; -1 when it ends elsewhere. */
  function Stop(s: State, start: int, cur: int, fuel: nat): (x: int)
    ensures x >= -1
    decreases fuel
  {
    if !(0 <= cur < |s.model| && s.model[cur].Vo? && s.model[cur].v < |s.vtbl|) then -1
    else
      var i := s.vtbl[s.model[cur].v];
      if i.home != cur then -1
      else if i.pvnum != 0 then cur
      else if i.target != cur && i.target != 0 && i.target != start && fuel > 0 then Stop(s, start, i.target, fuel - 1)
      else -1
  }

  /** The chain has been followed from `start` to `cur`. */
  ghost predicate Follows(F: Frame, s: State, stack: seq<int>, tdbase: nat, chain: seq<nat>, cur: int, start: int)
    requires Shape(F, s)
  {
    && ChainOk(F, s, chain, start) && cur == LinkCell(s, chain, |chain|, start)
    && F.Base() <= cur < F.Top && cur !in s.placed
    && Stacked(s, stack, tdbase, chain, start) && |chain| <= |s.vtbl|
    && Stop(s, start, cur, |s.vtbl| - |chain|) == Stop(s, start, start, |s.vtbl|)
  }

  lemma FollowsFirst(F: Frame, s: State, stack: seq<int>, tdbase: nat, start: int)
    requires Shape(F, s) && F.Base() <= start < F.Top && start !in s.placed && tdbase <= |stack|
    ensures Follows(F, s, stack, tdbase, [], start, start)
  {
    ChainStarts(F, s, stack, tdbase, start);
  }

  /** Where the chain has come to, and what it clears if it ends there without an eviction. */
  lemma FollowsTo(F: Frame, s: State, stack: seq<int>, tdbase: nat, chain: seq<nat>, cur: int, start: int)
    requires Inv(F, s, -1) && Follows(F, s, stack, tdbase, chain, cur, start)
    ensures F.Base() <= cur < F.Top && cur !in s.placed && |chain| <= |s.vtbl| && !s.model[cur].Other?
    ensures ChainOk(F, s, chain, start) && cur == LinkCell(s, chain, |chain|, start)
    ensures Stacked(s, stack, tdbase, chain, start)
    ensures s.model[cur].Vo? && Home(s, s.model[cur].v) == cur ==> Resident(F, s, s.model[cur].v)
    ensures Ends(s, cur) ==> Freed(F, s, cur) && Clears(F, s, s, -1, Stop(s, start, start, |s.vtbl|))
    ensures Shuffles(F, s, s)
    ensures s.model[cur].Vo? && Home(s, s.model[cur].v) == cur ==>
              var i := s.vtbl[s.model[cur].v];
              && (i.pvnum != 0 ==> Stop(s, start, start, |s.vtbl|) == cur)
              && (i.pvnum == 0 && (i.target == 0 || i.target == start) ==> Stop(s, start, start, |s.vtbl|) == -1)
  {
    CellAt(F, s, cur);
    ShufflesRefl(F, s);
    ClearsNone(F, s, s);
  }

  /** Nothing has to leave the cell. */
  predicate Ends(s: State, cur: int)
    requires 0 <= cur < |s.model| && (s.model[cur].Vo? ==> s.model[cur].v < |s.vtbl|)
  {
    || s.model[cur].Nil?
    || (s.model[cur].Vo? &&
        var i := s.vtbl[s.model[cur].v];
        i.home != cur || (i.target == cur && i.pvnum == 0))
  }

  lemma FollowsOn(F: Frame, s: State, stack: seq<int>, tdbase: nat, chain: seq<nat>, v: nat, cur: int, start: int)
    requires Inv(F, s, -1) && Follows(F, s, stack, tdbase, chain, cur, start) && v !in chain
    requires s.model[cur] == Vo(v) && Home(s, v) == cur && s.vtbl[v].pvnum == 0
    requires s.vtbl[v].target != 0 && s.vtbl[v].target != start && s.vtbl[v].target != cur
    requires tdbase + 2 * |s.vtbl| <= |stack|
    ensures |chain| < |s.vtbl|
    ensures var top := tdbase + 2 * |chain|;
            Follows(F, s, stack[top := cur][top + 1 := cur], tdbase, chain + [v], s.vtbl[v].target, start)
  {
    CellAt(F, s, cur);
    ChainGrows(F, s, chain, start, v);
    ChainShort(F, s, chain + [v], start);
    ChainEnd(F, s, chain + [v], start);
    StackGrows(s, stack, tdbase, chain, v, cur, start);
  }

  /** The chain has been followed from `s0`, and its last variables have been settled. */
  ghost predicate Unwinds(F: Frame, s0: State, s: State, chain: seq<nat>, cur: int, start: int, stop: int)
    requires Shape(F, s)
  {
    && Shuffles(F, s0, s) && Room(s) >= Room(s0) - 1 && Clears(F, s0, s, -1, stop) && stop >= -1
    && ChainOk(F, s, chain, start) && cur == LinkCell(s, chain, |chain|, start)
    && 0 <= cur < F.N && Freed(F, s, cur)
  }

  lemma UnwindsFirst(F: Frame, s0: State, s: State, chain: seq<nat>, cur: int, start: int, stop: int)
    requires Shape(F, s) && Shuffles(F, s0, s) && Room(s) >= Room(s0) - 1 && Clears(F, s0, s, -1, stop) && stop >= -1
    requires ChainOk(F, s, chain, start) && cur == LinkCell(s, chain, |chain|, start)
    requires 0 <= cur < F.N && Freed(F, s, cur)
    ensures Unwinds(F, s0, s, chain, cur, start, stop)
  {
  }

  lemma LastLink(F: Frame, s0: State, s: State, chain: seq<nat>, cur: int, start: int, stop: int)
    requires Inv(F, s, -1) && Unwinds(F, s0, s, chain, cur, start, stop) && |chain| > 0
    ensures LinkOk(F, s, chain, |chain| - 1, start) && Vacant(F, s, cur) && s.placed == s0.placed
    ensures F.Adst <= cur < F.Top && cur !in s.placed && cur == s.vtbl[chain[|chain| - 1]].target
  {
    ChainEnd(F, s, chain, start);
  }

  lemma Unwound(F: Frame, s0: State, s1: State, s2: State, chain: seq<nat>, dst: int, start: int, stop: int,
                stack: seq<int>, tdbase: nat)
    requires Inv(F, s1, -1) && Unwinds(F, s0, s1, chain, dst, start, stop) && |chain| > 0
    requires var u := chain[|chain| - 1]; u < |s1.vtbl| && Relocates(F, s1, s2, u, dst)
    requires Stacked(s1, stack, tdbase, chain, start)
    ensures Inv(F, s2, -1) && s2.m.next == s1.m.next && s2.env == s1.env
    ensures Unwinds(F, s0, s2, chain[..|chain| - 1], LinkCell(s1, chain, |chain| - 1, start), start, stop)
    ensures Stacked(s2, stack, tdbase, chain[..|chain| - 1], start)
  {
    LastLink(F, s0, s1, chain, dst, start, stop);
    SettleKeeps(F, s1, s2, chain, start);
    SettleClears(F, s1, s2, chain, start);
    StackShrinks(s1, s2, stack, tdbase, chain, start);
    hide Shuffles, Clears, Room, Stacked, ChainOk, Relocates;
    ClearsTwice(F, s0, s1, s2, -1, -1, stop);
    ShufflesTrans(F, s0, s1, s2);
    VacantIsFreed(F, s2, LinkCell(s1, chain, |chain| - 1, start));
  }

  lemma UnwindsLast(F: Frame, s0: State, s: State, cur: int, start: int, stop: int)
    requires Shape(F, s) && Unwinds(F, s0, s, [], cur, start, stop)
    ensures cur == start && Shuffles(F, s0, s) && Room(s) >= Room(s0) - 1 && Freed(F, s, cur)
    ensures Clears(F, s0, s, -1, stop) && (|s.m.heap| > |s0.m.heap| <==> Danger(Watched(s0), -1, stop))
  {
    PushedExactly(F, s0, s, -1, stop);
  }

  ghost predicate PermAt(w: Watch, loc: int) {
    exists v: nat :: v < |w.info| && AtSpot(w, v, loc)
  }

  predicate AtSpot(w: Watch, v: nat, loc: int)
    requires v < |w.info|
  {
    w.info[v].spot == loc >= 0
  }

  /** The cell `loc` is freed. */
  ghost function CellFreed(w: Watch, loc: int, open: bool): Watch {
    if PermAt(w, loc) then Cleared(w, -1, loc, open) else w
  }

  /** In a settled state there are no chains. */
  lemma StopSettled(F: Frame, s: State, loc: int, open: bool)
    requires Inv(F, s, -1) && Settled(F, s) && F.Base() <= loc < F.Top && loc !in s.placed
    ensures Cleared(Watched(s), -1, Stop(s, loc, loc, |s.vtbl|), open) == CellFreed(Watched(s), loc, open)
  {
    var w := Watched(s);
    ClearedNothing(w, -1, -1, open);
    CellAt(F, s, loc);
    if s.model[loc].Vo? && Home(s, s.model[loc].v) == loc {
      var v := s.model[loc].v;
      assert SettledVar(F, s, v);
      assert w.info[v] == InfoOf(s, v);
      if s.vtbl[v].pvnum != 0 { assert AtSpot(w, v, loc); } else { NoPermAt(s, loc); }
    } else {
      NoPermAt(s, loc);
    }
  }

  ghost predicate PushedFor(s: State, v: nat)
    requires v < |s.vtbl|
  {
    var t := s.vtbl[v].target;
    Home(s, v) == 0 && t != 0 && Danger(Watched(s), -1, Stop(s, t, t, |s.vtbl|))
  }

  lemma NoPermAt(s: State, loc: int)
    requires forall v: nat | v < |s.vtbl| && IsPerm(s, v) :: Home(s, v) != loc
    ensures !PermAt(Watched(s), loc)
  {
    forall v: nat | v < |s.vtbl| ensures !AtSpot(Watched(s), v, loc) { assert Watched(s).info[v] == InfoOf(s, v); }
  }

  // ---- events ----

  /** `Free`: a cell is freed for an argument, with no structure open.  `Use`: a variable is
      put into a slot of a structure. */
  datatype Event = Free(loc: int) | Use(v: nat)

  function With(w: Watch, v: nat, i: Info): Watch
    requires v < |w.info|
  {
    w.(info := w.info[v := i])
  }

  /** The target of a variable without a home is freed. */
  ghost function TargetFreed(w: Watch, v: nat): Watch
    requires v < |w.info|
  {
    if w.info[v].homed || w.info[v].target == 0 then w else CellFreed(w, w.info[v].target, true)
  }

  /** A variable without a home gets one, at its target if it has one. */
  ghost function HomeFound(w: Watch, v: nat): Watch
    requires v < |w.info|
  {
    if w.info[v].homed then w
    else With(TargetFreed(w, v), v, TargetFreed(w, v).info[v].(homed := true))
  }

  /** The last use gives up home and value. */
  function LaterInfo(i: Info): Info {
    var n := i.uses + 1;
    if n == i.times then i.(uses := n, spot := -1, id := Junk) else i.(uses := n)
  }

  function Used1(w: Watch, v: nat): Watch
    requires v < |w.info|
  {
    var i := w.info[v];
    if i.times == 1 then With(w, v, i.(uses := i.uses + 1, homed := true))
    else if i.uses == 0 then With(w, v, i.(uses := 1, id := Junk))
    else With(w, v, LaterInfo(i))
         .(exposed := w.exposed - if i.id.CVar? then {i.id.id} else {})
  }

  ghost function Next(w: Watch, e: Event): Watch {
    match e
    case Free(loc) => CellFreed(w, loc, false)
    case Use(v) =>
      if v >= |w.info| then w
      else if w.info[v].times == 1 then Used1(w, v)
      else Used1(HomeFound(w, v), v)
  }

  ghost function After(w: Watch, evs: seq<Event>): Watch {
    if evs == [] then w else Next(After(w, evs[..|evs| - 1]), evs[|evs| - 1])
  }

  lemma {:induction false} AfterBoth(w: Watch, evs: seq<Event>, evs': seq<Event>)
    ensures After(w, evs + evs') == After(After(w, evs), evs')
  {
    if evs' == [] {
      assert evs + evs' == evs;
    } else {
      var n := |evs'| - 1;
      assert (evs + evs')[..|evs + evs'| - 1] == evs + evs'[..n];
      AfterBoth(w, evs, evs'[..n]);
    }
  }

  /** From `s` to `s'` what is watched changes as `evs` say. */
  ghost predicate Watches(F: Frame, s: State, s': State, evs: seq<Event>) {
    Settled(F, s) ==> Settled(F, s') && Watched(s') == After(Watched(s), evs)
  }

  lemma WatchesNothing(F: Frame, s: State)
    ensures Watches(F, s, s, [])
  {
  }

  lemma WatchesTrans(F: Frame, s: State, s1: State, s2: State, evs: seq<Event>, evs': seq<Event>)
    requires Watches(F, s, s1, evs) && Watches(F, s1, s2, evs')
    ensures Watches(F, s, s2, evs + evs')
  {
    AfterBoth(Watched(s), evs, evs');
  }

  /** A cell is freed with no structure open. */
  lemma FreeWatched(F: Frame, s: State, s': State, loc: int)
    requires Inv(F, s, -1) && !s.m.open && F.Base() <= loc < F.Top && loc !in s.placed
    requires Clears(F, s, s', -1, Stop(s, loc, loc, |s.vtbl|))
    ensures Watches(F, s, s', [Free(loc)])
  {
    if Settled(F, s) {
      StopSettled(F, s, loc, false);
      OneEvent(Watched(s), Free(loc));
    }
  }

  lemma OneEvent(w: Watch, e: Event)
    ensures After(w, [e]) == Next(w, e)
  {
    assert [e][..0] == [];
  }

  // ---- the single steps ----

  /** Nothing that is watched changes. */
  ghost predicate Unwatched(F: Frame, s: State, s': State) {
    (Settled(F, s) ==> Settled(F, s')) && Watched(s') == Watched(s)
  }

  lemma UnwatchedShown(F: Frame, s: State, s': State)
    requires |s.vtbl| == |s'.vtbl| && Exposed(s'.m) == Exposed(s.m) && s'.m.spilled == s.m.spilled
    requires forall v: nat | v < |s.vtbl| :: UnwatchedAt(F, s, s', v)
    ensures Unwatched(F, s, s')
  {
    forall v: nat | v < |s.vtbl|
      ensures InfoOf(s', v) == InfoOf(s, v) && (SettledVar(F, s, v) ==> SettledVar(F, s', v))
    {
      assert UnwatchedAt(F, s, s', v);
    }
    SameInfo(s, s');
    SettledStays(F, s, s');
  }

  predicate UnwatchedAt(F: Frame, s: State, s': State, v: nat)
    requires v < |s.vtbl| == |s'.vtbl|
  {
    InfoOf(s', v) == InfoOf(s, v) && (SettledVar(F, s, v) ==> SettledVar(F, s', v))
  }

  lemma QuietUnwatched(F: Frame, s: State, m': Machine)
    requires Exposed(m') == Exposed(s.m) && m'.spilled == s.m.spilled
    ensures Unwatched(F, s, s.(m := m'))
  {
    var s' := s.(m := m');
    forall v: nat | v < |s.vtbl| ensures UnwatchedAt(F, s, s', v) { }
    UnwatchedShown(F, s, s');
  }

  lemma FilledUnwatched(F: Frame, s: State, t: int, term: Term, m': Machine)
    requires Shape(F, s) && Vacant(F, s, t) && Exposed(m') == Exposed(s.m) && m'.spilled == s.m.spilled
    ensures Unwatched(F, s, Filled(F, s, t, term, m'))
  {
    var s' := Filled(F, s, t, term, m');
    forall v: nat | v < |s.vtbl| ensures UnwatchedAt(F, s, s', v) { }
    UnwatchedShown(F, s, s');
  }

  lemma ReleasedUnwatched(F: Frame, s: State, t: int, m': Machine)
    requires 0 <= t < |s.model| && s.model[t].Other? && Exposed(m') == Exposed(s.m) && m'.spilled == s.m.spilled
    ensures Unwatched(F, s, s.(model := s.model[t := Nil], m := m'))
  {
    var s' := s.(model := s.model[t := Nil], m := m');
    forall v: nat | v < |s.vtbl| ensures UnwatchedAt(F, s, s', v) { }
    UnwatchedShown(F, s, s');
  }

  /** The change that `i` says for variable `v`, and no other. */
  ghost predicate WatchedWith(F: Frame, s: State, s': State, w': Watch) {
    (Settled(F, s) ==> Settled(F, s')) && Watched(s') == w'
  }

  lemma WatchedWithShown(F: Frame, s: State, s': State, v: nat, i: Info, exposed: set<nat>)
    requires v < |s.vtbl| == |s'.vtbl| && InfoOf(s', v) == i && (SettledVar(F, s, v) ==> SettledVar(F, s', v))
    requires forall u: nat | u < |s.vtbl| && u != v :: UnwatchedAt(F, s, s', u)
    requires Exposed(s'.m) == exposed && s'.m.spilled == s.m.spilled
    ensures WatchedWith(F, s, s', With(Watched(s), v, i).(exposed := exposed))
  {
    forall u: nat | u < |s.vtbl| ensures SettledVar(F, s, u) ==> SettledVar(F, s', u) {
      if u != v { assert UnwatchedAt(F, s, s', u); }
    }
    SettledStays(F, s, s');
    var w' := With(Watched(s), v, i).(exposed := exposed);
    forall u: nat | u < |s.vtbl| ensures ShowsAt(s', w', u) {
      if u != v { assert UnwatchedAt(F, s, s', u); assert Watched(s).info[u] == InfoOf(s, u); }
    }
    ShowsWatched(s', w');
  }

  lemma HomedWatched(F: Frame, s: State, v: nat, t: int)
    requires Inv(F, s, -1) && v < |s.vtbl| && Home(s, v) == 0 && s.vtbl[v].pvnum == 0 && Vacant(F, s, t)
    requires t < F.SPstart || t == s.vtbl[v].target
    ensures WatchedWith(F, s, Homed(s, v, t), With(Watched(s), v, Watched(s).info[v].(homed := true)))
  {
    var s' := Homed(s, v, t);
    forall u: nat | u < |s.vtbl| && u != v ensures UnwatchedAt(F, s, s', u) { }
    assert Watched(s).info[v] == InfoOf(s, v);
    WatchedWithShown(F, s, s', v, InfoOf(s, v).(homed := true), Exposed(s.m));
  }

  lemma FirstUsedWatched(F: Frame, s: State, v: nat, c: Cell, m': Machine)
    requires v < |s.vtbl| && s.vtbl[v].usecnt == 0 && s.vtbl[v].noccurences > 1
    requires Exposed(m') == Exposed(s.m) && m'.spilled == s.m.spilled
    ensures WatchedWith(F, s, FirstUsed(s, v, c, m'), Used1(Watched(s), v))
  {
    var s' := FirstUsed(s, v, c, m');
    forall u: nat | u < |s.vtbl| && u != v ensures UnwatchedAt(F, s, s', u) { }
    assert Watched(s).info[v] == InfoOf(s, v);
    WatchedWithShown(F, s, s', v, InfoOf(s, v).(uses := 1, id := Junk), Exposed(s.m));
  }

  lemma VoidUsedWatched(F: Frame, s: State, v: nat, c: Cell, m': Machine)
    requires v < |s.vtbl| && s.vtbl[v].noccurences == 1 && v !in s.env
    requires Exposed(m') == Exposed(s.m) && m'.spilled == s.m.spilled
    ensures WatchedWith(F, s, VoidUsed(s, v, c, m'), Used1(Watched(s), v))
  {
    var s' := VoidUsed(s, v, c, m');
    forall u: nat | u < |s.vtbl| && u != v ensures UnwatchedAt(F, s, s', u) { }
    assert Watched(s).info[v] == InfoOf(s, v);
    WatchedWithShown(F, s, s', v, InfoOf(s, v).(uses := s.vtbl[v].usecnt + 1, homed := true), Exposed(s.m));
  }

  lemma LaterUsedWatched(F: Frame, s: State, v: nat, m': Machine)
    requires Inv(F, s, -1) && v < |s.vtbl| && Resident(F, s, v) && 0 < s.vtbl[v].usecnt < s.vtbl[v].noccurences
    requires m'.locals == (if s.vtbl[v].unsafe then Globalized(s.m, At(F, s, Home(s, v))) else s.m.locals)
    requires m'.guarded == s.m.guarded
    requires m'.spilled == s.m.spilled
    ensures WatchedWith(F, s, LaterUsed(s, v, m'), Used1(Watched(s), v))
  {
    assert VarOk(F, s, -1, v);
    var s' := LaterUsed(s, v, m');
    forall u: nat | u < |s.vtbl| && u != v ensures UnwatchedAt(F, s, s', u) { }
    var i := InfoOf(s, v);
    assert Watched(s).info[v] == i;
    WatchedWithShown(F, s, s', v, LaterInfo(i),
                     Exposed(s.m) - if i.id.CVar? then {i.id.id} else {});
  }

  /** All that a later use keeps. */
  lemma LaterUsedKeeps(F: Frame, s: State, v: nat, m': Machine)
    requires Inv(F, s, -1) && v < |s.vtbl| && Resident(F, s, v) && s.vtbl[v].noccurences != 1
    requires 0 < s.vtbl[v].usecnt < F.total[v]
    requires m'.locals == (if s.vtbl[v].unsafe then Globalized(s.m, At(F, s, Home(s, v))) else s.m.locals)
    requires m'.guarded == s.m.guarded
    requires m'.spilled == s.m.spilled && Quiet(s.m, m') && s.m.heap <= m'.heap
    ensures Inv(F, LaterUsed(s, v, m'), -1) && Builds(F, s, LaterUsed(s, v, m'))
    ensures Room(LaterUsed(s, v, m')) == Room(s)
    ensures WatchedWith(F, s, LaterUsed(s, v, m'), Used1(Watched(s), v))
  {
    assert VarOk(F, s, -1, v);
    LaterUsedInv(F, s, v, m');
    LaterUsedBuilds(F, s, v, m');
    hide Inv, Builds, Room;
    LaterUsedWatched(F, s, v, m');
  }

  lemma HasHome(F: Frame, s: State, v: nat)
    requires v < |s.vtbl| && Home(s, v) != 0
    ensures WatchedWith(F, s, s, HomeFound(Watched(s), v)) && !PushedFor(s, v)
  {
    assert Watched(s).info[v] == InfoOf(s, v);
  }

  /** A home was found while a structure is open. */
  lemma HouseWatched(F: Frame, s: State, s1: State, v: nat, t: int)
    requires Inv(F, s, -1) && Inv(F, s1, -1) && s.m.open && NoVarPlaced(F, s) && v < |s.vtbl| == |s1.vtbl|
    requires Home(s, v) == 0 && Used(s, v) < F.total[v] && Home(s1, v) == 0 && s1.vtbl[v].pvnum == 0
    requires Vacant(F, s1, t) && s1.vtbl[v].target == s.vtbl[v].target
    requires if s.vtbl[v].target == 0 then t < F.SPstart && Clears(F, s, s1, -1, -1)
             else t == s.vtbl[v].target && Clears(F, s, s1, -1, Stop(s, t, t, |s.vtbl|))
    ensures Settled(F, s) ==> WatchedWith(F, s, Homed(s1, v, t), HomeFound(Watched(s), v))
  {
    if Settled(F, s) {
      var w := Watched(s);
      assert w.info[v] == InfoOf(s, v) && VarOk(F, s, -1, v);
      if s.vtbl[v].target == 0 {
        ClearedNothing(w, -1, -1, true);
      } else {
        TargetVacant(F, s, v);
        StopSettled(F, s, t, true);
      }
      HomedWatched(F, s1, v, t);
    }
  }

  /** Finding a home and using it are one event. */
  lemma UseWatched(F: Frame, s: State, s1: State, s2: State, v: nat)
    requires v < |s.vtbl|
    requires if s.vtbl[v].noccurences == 1 then s1 == s
             else Settled(F, s) ==> v < |s1.vtbl| && WatchedWith(F, s, s1, HomeFound(Watched(s), v))
    requires v < |s1.vtbl| && WatchedWith(F, s1, s2, Used1(Watched(s1), v))
    ensures Watches(F, s, s2, [Use(v)])
  {
    assert Watched(s).info[v] == InfoOf(s, v);
    OneEvent(Watched(s), Use(v));
  }

  // ---- the events of a goal ----

  function FreeEvents(loc: int): seq<Event> {
    if loc == 0 then [] else [Free(loc)]
  }

  function LeafEvent(t: Term): seq<Event> {
    if t.Var? then [Use(t.v)] else []
  }

  /** The first `k` slots are filled. */
  function LeafEvents(kids: seq<Term>, k: nat): seq<Event>
    requires k <= |kids|
  {
    if k == 0 then [] else LeafEvents(kids, k - 1) + LeafEvent(kids[k - 1])
  }

  /** A term is built in `loc`, or in a temporary when `loc` is 0. */
  function BuildEvents(t: Term, loc: int): seq<Event>
    decreases t, |Kids(t)| + 1
  {
    GatherEvents(t, 0) + FreeEvents(loc) + LeafEvents(Kids(t), |Kids(t)|)
  }

  /** The subterms from position `i` on that need a structure of their own, last one first. */
  function GatherEvents(t: Term, i: nat): seq<Event>
    requires i <= |Kids(t)|
    decreases t, |Kids(t)| - i
  {
    if i == |Kids(t)| then [] else GatherEvents(t, i + 1) + KidEvents(Kids(t)[i])
  }

  function KidEvents(t: Term): seq<Event>
    decreases t, |Kids(t)| + 2
  {
    if Built(t) then BuildEvents(t, 0) else []
  }

  function ArgEvents(t: Term, loc: int): seq<Event> {
    if t.Var? then [] else if Built(t) then BuildEvents(t, loc) else [Free(loc)]
  }

  /** The first `i` arguments that are not variables are set up, from cell `adst` on. */
  function GoalEvents(args: seq<Term>, adst: int, i: nat): seq<Event>
    requires i <= |args|
  {
    if i == 0 then [] else GoalEvents(args, adst, i - 1) + ArgEvents(args[i - 1], adst + i - 1)
  }

  lemma NoEvents(kids: seq<Term>, adst: int)
    ensures LeafEvents(kids, 0) == [] && GoalEvents(kids, adst, 0) == []
  {
  }

  lemma GatherEventsEnd(t: Term)
    ensures GatherEvents(t, |Kids(t)|) == []
  {
  }

  lemma GatherEventsStep(t: Term, i: nat)
    requires i < |Kids(t)|
    ensures GatherEvents(t, i) == GatherEvents(t, i + 1) + KidEvents(Kids(t)[i])
  {
  }

  lemma LeafEventsStep(kids: seq<Term>, k: nat)
    requires k < |kids|
    ensures LeafEvents(kids, k + 1) == LeafEvents(kids, k) + LeafEvent(kids[k])
  {
  }

  lemma GoalEventsStep(args: seq<Term>, adst: int, i: nat)
    requires i < |args|
    ensures GoalEvents(args, adst, i + 1) == GoalEvents(args, adst, i) + ArgEvents(args[i], adst + i)
  {
  }

  lemma SimpleEvents(t: Term, loc: int)
    requires t.Uia?
    ensures BuildEvents(t, loc) == FreeEvents(loc)
  {
    assert [] + FreeEvents(loc) == FreeEvents(loc);
  }

  lemma BuiltWatched(F: Frame, s: State, s1: State, s2: State, s3: State, t: Term, loc: int)
    requires Watches(F, s, s1, GatherEvents(t, 0)) && Watches(F, s1, s2, FreeEvents(loc))
    requires Watches(F, s2, s3, LeafEvents(Kids(t), |Kids(t)|))
    ensures Watches(F, s, s3, BuildEvents(t, loc))
  {
    WatchesTrans(F, s, s1, s2, GatherEvents(t, 0), FreeEvents(loc));
    WatchesTrans(F, s, s2, s3, GatherEvents(t, 0) + FreeEvents(loc), LeafEvents(Kids(t), |Kids(t)|));
  }

  lemma WatchesQuiet(F: Frame, s: State, s1: State, s2: State, evs: seq<Event>)
    requires Watches(F, s, s1, evs) && Unwatched(F, s1, s2)
    ensures Watches(F, s, s2, evs)
  {
  }

  lemma UnwatchedWatches(F: Frame, s: State, s': State)
    requires Unwatched(F, s, s')
    ensures Watches(F, s, s', [])
  {
  }

  lemma ShrunkWatched(F: Frame, s: State, s1: State)
    requires Inv(F, s, -1) && MaybeShrunk(s, s1)
    ensures Watches(F, s, s1, [])
  {
    ShrunkClears(F, s, s1);
    assert Clears(F, s, s1, 0, 0);
    ClearedNothing(Watched(s), 0, 0, s.m.open);
  }
}
