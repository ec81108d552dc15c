/** The condition on entry under which a goal pushes a variable into an open structure. */
module GoalSpill {
  import opened Wam
  import opened VarTable
  import opened GoalModel
  import opened GoalDanger

  /** Uses of `v` among the first `n` events. */
  function Count(evs: seq<Event>, n: nat, v: nat): nat
    requires n <= |evs|
  {
    if n == 0 then 0 else Count(evs, n - 1, v) + if evs[n - 1] == Use(v) then 1 else 0
  }

  /** The last use of `v` is among the first `n` events. */
  predicate UsedUp(w: Watch, evs: seq<Event>, n: nat, v: nat)
    requires n <= |evs| && v < |w.info|
  {
    Count(evs, n, v) > 0 && w.info[v].uses + Count(evs, n, v) == w.info[v].times
  }

  predicate StandsAt(w: Watch, evs: seq<Event>, n: nat, v: nat, x: int)
    requires n <= |evs| && v < |w.info|
  {
    AtSpot(w, v, x) && !UsedUp(w, evs, n, v)
  }

  /** The permanent variable of cell `x` is still needed after `n` events. */
  ghost predicate Standing(w: Watch, evs: seq<Event>, n: nat, x: int)
    requires n <= |evs|
  {
    exists v: nat :: v < |w.info| && StandsAt(w, evs, n, v, x)
  }

  /** Event `q` gives the exposed variable `id` a heap cell without harm: it is used in a
      structure, or evicted before one is started. */
  ghost predicate Rescues(w: Watch, evs: seq<Event>, q: nat, id: nat)
    requires q < |evs|
  {
    match evs[q]
    case Free(loc) => Standing(w, evs, q, loc) && id in Risky(w, -1, loc)
    case Use(v) => v < |w.info| && w.info[v].times != 1 && w.info[v].id == CVar(id)
  }

  ghost predicate StillExposed(w: Watch, evs: seq<Event>, n: nat, id: nat)
    requires n <= |evs|
  {
    id in w.exposed && forall q: nat | q < n :: !Rescues(w, evs, q, id)
  }

  /** At event `p` a variable is first used in a structure; it is meant for a cell that a
      permanent variable still occupies, and at or below that cell is one that has to be made
      safe and is still exposed. */
  ghost predicate Collides(w: Watch, evs: seq<Event>, p: nat)
    requires p < |evs|
  {
    && evs[p].Use? && evs[p].v < |w.info| && Count(evs, p, evs[p].v) == 0
    && var i := w.info[evs[p].v];
    && !i.homed && i.times != 1 && i.target != 0 && Standing(w, evs, p, i.target)
    && exists id :: id in Risky(w, -1, i.target) && StillExposed(w, evs, p, id)
  }

  ghost predicate Collision(w: Watch, evs: seq<Event>) {
    exists p: nat :: p < |evs| && Collides(w, evs, p)
  }

  /** What holds on entry of every goal. */
  predicate ProperVar(w: Watch, evs: seq<Event>, v: nat)
    requires v < |w.info|
  {
    var i := w.info[v];
    && i.spot >= -1 && (i.spot >= 0 ==> i.times != 1 && i.homed)
    && (i.id != Junk ==> i.uses > 0)
    && i.uses + Count(evs, |evs|, v) <= i.times
    && (Count(evs, |evs|, v) > 0 && !i.homed ==> i.uses == 0)
  }

  ghost predicate Proper(w: Watch, evs: seq<Event>) {
    && !w.spilled
    && (forall v: nat | v < |w.info| :: ProperVar(w, evs, v))
    && (forall u: nat, v: nat | u < |w.info| && v < |w.info| && w.info[u].spot == w.info[v].spot >= 0 :: u == v)
  }

  // ---- the state after n events, as long as nothing has been pushed ----

  /** A variable that has left its cell was used up, or nothing at or below its cell is in danger. */
  ghost predicate GoneSafely(w: Watch, evs: seq<Event>, n: nat, w': Watch, v: nat)
    requires n <= |evs| && v < |w.info|
  {
    UsedUp(w, evs, n, v) || Risky(w, -1, w.info[v].spot) !! w'.exposed
  }

  ghost predicate TracksVar(w: Watch, evs: seq<Event>, n: nat, w': Watch, v: nat)
    requires n <= |evs| && v < |w.info| == |w'.info|
  {
    var i, i' := w.info[v], w'.info[v];
    && i'.times == i.times && i'.target == i.target && i'.first == i.first
    && i'.uses == i.uses + Count(evs, n, v)
    && (i'.homed <==> i.homed || Count(evs, n, v) > 0)
    && (i'.spot == i.spot || (i'.spot == -1 && i.spot >= 0 && GoneSafely(w, evs, n, w', v)))
    && (i'.spot >= 0 ==> !UsedUp(w, evs, n, v) && i'.id == i.id)
    && (i'.id == i.id || (i'.id == Junk && (i.id.CVar? ==> i.id.id !in w'.exposed)))
  }

  ghost predicate Tracks(w: Watch, evs: seq<Event>, n: nat, w': Watch)
    requires n <= |evs|
  {
    && |w'.info| == |w.info| && !w'.spilled
    && (forall v: nat | v < |w.info| :: TracksVar(w, evs, n, w', v))
    && (forall id: nat :: id in w'.exposed <==> StillExposed(w, evs, n, id))
  }

  lemma {:induction false} Counted(evs: seq<Event>, n: nat, v: nat) returns (q: nat)
    requires n <= |evs| && Count(evs, n, v) > 0
    ensures q < n && evs[q] == Use(v)
  {
    if evs[n - 1] == Use(v) { q := n - 1; } else { q := Counted(evs, n - 1, v); }
  }

  lemma {:induction false} CountMonotone(evs: seq<Event>, n: nat, n': nat, v: nat)
    requires n <= n' <= |evs|
    ensures Count(evs, n, v) <= Count(evs, n', v)
    decreases n'
  {
    if n < n' { CountMonotone(evs, n, n' - 1, v); }
  }

  /** A variable in danger that is still exposed is still at home. */
  lemma {:induction false} StillThere(w: Watch, evs: seq<Event>, n: nat, w': Watch, x: int, id: nat)
    requires n <= |evs| && Proper(w, evs) && Tracks(w, evs, n, w')
    requires id in Risky(w, -1, x) && id in w'.exposed
    ensures id in Risky(w', -1, x)
  {
    var u: nat :| u < |w.info| && Risks(w.info[u], -1, x) && w.info[u].id.id == id;
    assert TracksVar(w, evs, n, w', u) && StillExposed(w, evs, n, id);
    assert Risks(w.info[u], -1, w.info[u].spot);
    assert id in Risky(w, -1, w.info[u].spot);
    if UsedUp(w, evs, n, u) { UsedUpRescued(w, evs, n, u, id); }
    assert Risks(w'.info[u], -1, x);
  }

  /** A variable in danger is rescued by its own last use. */
  lemma {:induction false} UsedUpRescued(w: Watch, evs: seq<Event>, n: nat, u: nat, id: nat)
    requires n <= |evs| && Proper(w, evs) && u < |w.info| && UsedUp(w, evs, n, u)
    requires w.info[u].id == CVar(id) && w.info[u].spot >= 0
    ensures !StillExposed(w, evs, n, id)
  {
    assert ProperVar(w, evs, u);
    var q := Counted(evs, n, u);
    assert Rescues(w, evs, q, id);
  }

  lemma {:induction false} RiskyBefore(w: Watch, evs: seq<Event>, n: nat, w': Watch, x: int)
    requires n <= |evs| && Tracks(w, evs, n, w')
    ensures Risky(w', -1, x) <= Risky(w, -1, x)
  {
    forall id | id in Risky(w', -1, x) ensures id in Risky(w, -1, x) {
      var u: nat :| u < |w'.info| && Risks(w'.info[u], -1, x) && w'.info[u].id.id == id;
      assert TracksVar(w, evs, n, w', u);
      assert Risks(w.info[u], -1, x);
    }
  }

  lemma {:induction false} PermStands(w: Watch, evs: seq<Event>, n: nat, w': Watch, x: int)
    requires n <= |evs| && Tracks(w, evs, n, w')
    ensures PermAt(w', x) ==> Standing(w, evs, n, x)
    ensures Standing(w, evs, n, x) && !PermAt(w', x) ==> Risky(w, -1, x) !! w'.exposed
  {
    if PermAt(w', x) {
      var v: nat :| v < |w'.info| && AtSpot(w', v, x);
      assert TracksVar(w, evs, n, w', v);
      assert StandsAt(w, evs, n, v, x);
    } else if Standing(w, evs, n, x) {
      var v: nat :| v < |w.info| && StandsAt(w, evs, n, v, x);
      assert TracksVar(w, evs, n, w', v) && !AtSpot(w', v, x);
    }
  }

  /** Freeing a cell clears what its permanent variable and those below it can clear, and if
      nothing is pushed into an open structure, every variable is still accounted for. */
  lemma {:induction false} CellTracks(w: Watch, evs: seq<Event>, n: nat, w': Watch, x: int, open: bool, v: nat)
    requires n <= |evs| && Proper(w, evs) && Tracks(w, evs, n, w') && v < |w.info|
    ensures TracksVar(w, evs, n, CellFreed(w', x, open), v)
  {
    var w1 := CellFreed(w', x, open);
    assert TracksVar(w, evs, n, w', v);
    if PermAt(w', x) && Between(w'.info[v], -1, x) {
      forall id | id in Risky(w, -1, w.info[v].spot) ensures id !in w1.exposed {
        if id in w'.exposed {
          StillThere(w, evs, n, w', w.info[v].spot, id);
          RiskyGrows(w', w.info[v].spot, x, id);
        }
      }
      if w.info[v].first != 0 && w.info[v].id.CVar? { assert Risks(w'.info[v], -1, x); }
    }
  }

  lemma {:induction false} RiskyGrows(w: Watch, x: int, y: int, id: nat)
    requires x <= y && id in Risky(w, -1, x)
    ensures id in Risky(w, -1, y)
  {
    var u: nat :| u < |w.info| && Risks(w.info[u], -1, x) && w.info[u].id.id == id;
    assert Risks(w.info[u], -1, y);
  }

  lemma {:induction false} CellLocals(w: Watch, evs: seq<Event>, n: nat, w': Watch, x: int, open: bool, id: nat)
    requires n <= |evs| && Proper(w, evs) && Tracks(w, evs, n, w')
    ensures id in CellFreed(w', x, open).exposed <==>
              id in w'.exposed && !(Standing(w, evs, n, x) && id in Risky(w, -1, x))
  {
    PermStands(w, evs, n, w', x);
    RiskyBefore(w, evs, n, w', x);
    if id in w'.exposed && id in Risky(w, -1, x) { StillThere(w, evs, n, w', x, id); }
  }

  /** Pushing into an open structure is the collision of the definition. */
  lemma {:induction false} CellSpills(w: Watch, evs: seq<Event>, n: nat, w': Watch, x: int)
    requires n <= |evs| && Proper(w, evs) && Tracks(w, evs, n, w')
    ensures CellFreed(w', x, true).spilled <==>
              Standing(w, evs, n, x) && exists id :: id in Risky(w, -1, x) && StillExposed(w, evs, n, id)
  {
    PermStands(w, evs, n, w', x);
    RiskyBefore(w, evs, n, w', x);
    DangerShrinks(w', -1, x, true);
    if Standing(w, evs, n, x) && exists id :: id in Risky(w, -1, x) && StillExposed(w, evs, n, id) {
      var id :| id in Risky(w, -1, x) && StillExposed(w, evs, n, id);
      StillThere(w, evs, n, w', x, id);
      assert id in Risky(w', -1, x) * w'.exposed;
    }
    if CellFreed(w', x, true).spilled {
      var id :| id in Risky(w', -1, x) * w'.exposed;
      assert id in Risky(w, -1, x) && StillExposed(w, evs, n, id);
    }
  }

  lemma {:induction false} FreeTracks(w: Watch, evs: seq<Event>, n: nat, w': Watch)
    requires n < |evs| && evs[n].Free? && Proper(w, evs) && Tracks(w, evs, n, w')
    ensures Tracks(w, evs, n + 1, Next(w', evs[n]))
  {
    var w1, n1 := Next(w', evs[n]), n + 1;
    forall v: nat | v < |w.info| ensures TracksVar(w, evs, n1, w1, v) {
      assert Count(evs, n1, v) == Count(evs, n, v);
      CellTracks(w, evs, n, w', evs[n].loc, false, v);
    }
    forall id: nat ensures id in w1.exposed <==> StillExposed(w, evs, n1, id) {
      CellLocals(w, evs, n, w', evs[n].loc, false, id);
      assert id in w'.exposed <==> StillExposed(w, evs, n, id);
      StillExposedStep(w, evs, n, id);
    }
  }

  lemma {:induction false} StillExposedStep(w: Watch, evs: seq<Event>, n: nat, id: nat)
    requires n < |evs|
    ensures StillExposed(w, evs, n + 1, id) <==> StillExposed(w, evs, n, id) && !Rescues(w, evs, n, id)
  {
  }

  /** Looking for a home leaves the exposed variables as they are while nothing is pushed. */
  lemma {:induction false} HomeTracks(w: Watch, evs: seq<Event>, n: nat, w': Watch, v: nat, u: nat)
    requires n <= |evs| && Proper(w, evs) && Tracks(w, evs, n, w') && v < |w.info| && u < |w.info|
    requires !HomeFound(w', v).spilled
    ensures HomeFound(w', v).exposed == TargetFreed(w', v).exposed == w'.exposed
    ensures TracksVar(w, evs, n, TargetFreed(w', v), u)
    ensures HomeFound(w', v).info[u] == if u == v then TargetFreed(w', v).info[u].(homed := true) else TargetFreed(w', v).info[u]
  {
    assert TracksVar(w, evs, n, w', u) && TracksVar(w, evs, n, w', v);
    if !w'.info[v].homed && w'.info[v].target != 0 {
      var t := w'.info[v].target;
      CellTracks(w, evs, n, w', t, true, u);
      if PermAt(w', t) { DangerShrinks(w', -1, t, true); }
    }
  }

  lemma {:induction false} UseTracksOther(w: Watch, evs: seq<Event>, n: nat, w': Watch, u: nat)
    requires n < |evs| && evs[n].Use? && Proper(w, evs) && Tracks(w, evs, n, w') && u < |w.info| && u != evs[n].v
    requires !Next(w', evs[n]).spilled && |Next(w', evs[n]).info| == |w.info|
    ensures TracksVar(w, evs, n + 1, Next(w', evs[n]), u)
  {
    var v := evs[n].v;
    assert TracksVar(w, evs, n, w', u);
    if v < |w.info| {
      assert TracksVar(w, evs, n, w', v);
      if w.info[v].times != 1 {
        HomeTracks(w, evs, n, w', v, u);
        FewerLocals(w, evs, n, TargetFreed(w', v), Next(w', evs[n]), u);
      }
    }
  }

  lemma {:induction false} FewerLocals(w: Watch, evs: seq<Event>, n: nat, w1: Watch, w2: Watch, u: nat)
    requires n < |evs| && evs[n].Use? && u < |w.info| == |w1.info| == |w2.info| && u != evs[n].v
    requires TracksVar(w, evs, n, w1, u) && w2.info[u] == w1.info[u] && w2.exposed <= w1.exposed
    ensures TracksVar(w, evs, n + 1, w2, u)
  {
  }

  lemma {:induction false} UseTracksSelf(w: Watch, evs: seq<Event>, n: nat, w': Watch)
    requires n < |evs| && evs[n].Use? && Proper(w, evs) && Tracks(w, evs, n, w') && evs[n].v < |w.info|
    requires !Next(w', evs[n]).spilled && |Next(w', evs[n]).info| == |w.info|
    ensures TracksVar(w, evs, n + 1, Next(w', evs[n]), evs[n].v)
  {
    var v := evs[n].v;
    assert ProperVar(w, evs, v) && TracksVar(w, evs, n, w', v);
    CountMonotone(evs, n + 1, |evs|, v);
    if w.info[v].times != 1 {
      HomeTracks(w, evs, n, w', v, v);
      SelfTracks(w, evs, n, TargetFreed(w', v), HomeFound(w', v), v);
    }
  }

  lemma {:induction false} SelfTracks(w: Watch, evs: seq<Event>, n: nat, w1: Watch, w2: Watch, v: nat)
    requires n < |evs| && evs[n] == Use(v) && v < |w.info| == |w1.info| == |w2.info| && w.info[v].times != 1
    requires ProperVar(w, evs, v) && w.info[v].uses + Count(evs, n + 1, v) <= w.info[v].times
    requires TracksVar(w, evs, n, w1, v) && w2.exposed == w1.exposed
    requires w2.info[v] == w1.info[v].(homed := true)
    ensures TracksVar(w, evs, n + 1, Used1(w2, v), v)
  {
    if w1.info[v].uses == 0 { FirstTracks(w, evs, n, w1, w2, v); } else { LaterTracks(w, evs, n, w1, w2, v); }
  }

  lemma {:induction false} FirstTracks(w: Watch, evs: seq<Event>, n: nat, w1: Watch, w2: Watch, v: nat)
    requires n < |evs| && evs[n] == Use(v) && v < |w.info| == |w1.info| == |w2.info| && w.info[v].times != 1
    requires ProperVar(w, evs, v) && w.info[v].uses + Count(evs, n + 1, v) <= w.info[v].times
    requires TracksVar(w, evs, n, w1, v) && w2.exposed == w1.exposed && w1.info[v].uses == 0
    requires w2.info[v] == w1.info[v].(homed := true)
    ensures TracksVar(w, evs, n + 1, Used1(w2, v), v)
  {
    var i, i' := w.info[v], Used1(w2, v).info[v];
    assert Count(evs, n, v) == 0 && Count(evs, n + 1, v) == 1 && i.id == Junk && i'.id == Junk;
    assert !UsedUp(w, evs, n, v) && !UsedUp(w, evs, n + 1, v);
  }

  lemma {:induction false} LaterTracks(w: Watch, evs: seq<Event>, n: nat, w1: Watch, w2: Watch, v: nat)
    requires n < |evs| && evs[n] == Use(v) && v < |w.info| == |w1.info| == |w2.info| && w.info[v].times != 1
    requires ProperVar(w, evs, v) && w.info[v].uses + Count(evs, n + 1, v) <= w.info[v].times
    requires TracksVar(w, evs, n, w1, v) && w2.exposed == w1.exposed && w1.info[v].uses > 0
    requires w2.info[v] == w1.info[v].(homed := true)
    ensures TracksVar(w, evs, n + 1, Used1(w2, v), v)
  {
    assert !UsedUp(w, evs, n, v);
    assert UsedUp(w, evs, n + 1, v) <==> w1.info[v].uses + 1 == w.info[v].times;
  }

  lemma {:induction false} UseTracksLocal(w: Watch, evs: seq<Event>, n: nat, w': Watch, id: nat)
    requires n < |evs| && evs[n].Use? && Proper(w, evs) && Tracks(w, evs, n, w')
    requires !Next(w', evs[n]).spilled
    ensures id in Next(w', evs[n]).exposed <==> StillExposed(w, evs, n + 1, id)
  {
    var v := evs[n].v;
    assert id in w'.exposed <==> StillExposed(w, evs, n, id);
    StillExposedStep(w, evs, n, id);
    if v < |w.info| {
      assert ProperVar(w, evs, v) && TracksVar(w, evs, n, w', v);
      if w.info[v].times != 1 { HomeTracks(w, evs, n, w', v, v); }
    }
  }

  lemma {:induction false} UseSpills(w: Watch, evs: seq<Event>, n: nat, w': Watch)
    requires n < |evs| && Proper(w, evs) && Tracks(w, evs, n, w')
    ensures Next(w', evs[n]).spilled <==> Collides(w, evs, n)
  {
    if evs[n].Use? && evs[n].v < |w.info| {
      var v := evs[n].v;
      assert TracksVar(w, evs, n, w', v);
      CellSpills(w, evs, n, w', w.info[v].target);
    }
  }

  lemma {:induction false} SpilledStays(w: Watch, e: Event)
    requires w.spilled
    ensures Next(w, e).spilled
  {
  }

  lemma {:induction false} TracksStart(w: Watch, evs: seq<Event>)
    requires Proper(w, evs)
    ensures Tracks(w, evs, 0, w)
  {
  }

  lemma {:induction false} SpillsWithin(w: Watch, evs: seq<Event>, n: nat)
    requires n <= |evs| && Proper(w, evs)
    ensures After(w, evs[..n]).spilled <==> exists p: nat :: p < n && Collides(w, evs, p)
    ensures !After(w, evs[..n]).spilled ==> Tracks(w, evs, n, After(w, evs[..n]))
  {
    if n == 0 {
      TracksStart(w, evs);
    } else {
      var w' := After(w, evs[..n - 1]);
      SpillsWithin(w, evs, n - 1);
      assert evs[..n][..n - 1] == evs[..n - 1];
      assert After(w, evs[..n]) == Next(w', evs[n - 1]);
      if w'.spilled {
        SpilledStays(w', evs[n - 1]);
      } else {
        OneMore(w, evs, n - 1, w');
      }
    }
  }

  lemma {:induction false} OneMore(w: Watch, evs: seq<Event>, n: nat, w': Watch)
    requires n < |evs| && Proper(w, evs) && Tracks(w, evs, n, w')
    ensures Next(w', evs[n]).spilled <==> Collides(w, evs, n)
    ensures !Next(w', evs[n]).spilled ==> Tracks(w, evs, n + 1, Next(w', evs[n]))
  {
    UseSpills(w, evs, n, w');
    if evs[n].Free? {
      FreeTracks(w, evs, n, w');
    } else if !Next(w', evs[n]).spilled {
      var w2, n1 := Next(w', evs[n]), n + 1;
      UseKeepsSize(w', evs[n]);
      forall u: nat | u < |w.info| ensures TracksVar(w, evs, n1, w2, u) {
        if u == evs[n].v { UseTracksSelf(w, evs, n, w'); } else { UseTracksOther(w, evs, n, w', u); }
      }
      forall id: nat ensures id in w2.exposed <==> StillExposed(w, evs, n1, id) {
        UseTracksLocal(w, evs, n, w', id);
      }
    }
  }

  lemma {:induction false} UseKeepsSize(w: Watch, e: Event)
    ensures |Next(w, e).info| == |w.info|
  {
  }

  /** Something is pushed into an open structure exactly when two variables collide. */
  lemma {:induction false} SpillsExactly(w: Watch, evs: seq<Event>)
    requires Proper(w, evs)
    ensures After(w, evs).spilled <==> Collision(w, evs)
  {
    SpillsWithin(w, evs, |evs|);
    assert evs[..|evs|] == evs;
  }

  // ---- every goal is entered in a proper state ----

  lemma {:induction false} CountLeft(evs: seq<Event>, evs': seq<Event>, n: nat, v: nat)
    requires n <= |evs|
    ensures Count(evs + evs', n, v) == Count(evs, n, v)
  {
    if n > 0 { CountLeft(evs, evs', n - 1, v); }
  }

  lemma {:induction false} CountBoth(evs: seq<Event>, evs': seq<Event>, n: nat, v: nat)
    requires n <= |evs'|
    ensures Count(evs + evs', |evs| + n, v) == Count(evs, |evs|, v) + Count(evs', n, v)
  {
    if n == 0 { CountLeft(evs, evs', |evs|, v); } else { CountBoth(evs, evs', n - 1, v); }
  }

  function CountAll(evs: seq<Event>, v: nat): nat {
    Count(evs, |evs|, v)
  }

  lemma {:induction false} CountSum(evs: seq<Event>, evs': seq<Event>, v: nat)
    ensures CountAll(evs + evs', v) == CountAll(evs, v) + CountAll(evs', v)
  {
    CountBoth(evs, evs', |evs'|, v);
  }

  lemma {:induction false} LeafCount(kids: seq<Term>, k: nat, v: nat)
    requires k <= |kids|
    ensures CountAll(LeafEvents(kids, k), v) == LeafTally(v, kids, 0) - LeafTally(v, kids, k)
  {
    if k > 0 {
      LeafCount(kids, k - 1, v);
      CountSum(LeafEvents(kids, k - 1), LeafEvent(kids[k - 1]), v);
      LeafCountOne(kids[k - 1], v);
    }
  }

  lemma {:induction false} LeafCountOne(t: Term, v: nat)
    ensures CountAll(LeafEvent(t), v) == if Built(t) then 0 else Unit(v, t)
  {
    if t.Var? { assert Count([Use(t.v)], 1, v) == Count([Use(t.v)], 0, v) + if t.v == v then 1 else 0; }
  }

  /** The events of a term use each variable as often as it occurs. */
  lemma {:induction false} BuildCount(t: Term, loc: int, v: nat)
    requires Built(t)
    ensures CountAll(BuildEvents(t, loc), v) == Tally(v, t)
    decreases t, |Kids(t)| + 1
  {
    GatherCount(t, 0, v);
    LeafCount(Kids(t), |Kids(t)|, v);
    CountSum(GatherEvents(t, 0), FreeEvents(loc), v);
    CountSum(GatherEvents(t, 0) + FreeEvents(loc), LeafEvents(Kids(t), |Kids(t)|), v);
    assert CountAll([], v) == 0 && Count([Free(loc)], 1, v) == Count([Free(loc)], 0, v);
  }

  lemma {:induction false} GatherCount(t: Term, i: nat, v: nat)
    requires i <= |Kids(t)|
    ensures CountAll(GatherEvents(t, i), v) == BuiltTally(v, t, |Kids(t)|) - BuiltTally(v, t, i)
    decreases t, |Kids(t)| - i, 1
  {
    hide Count, Tally, BuildEvents, KidEvents, Kids;
    if i < |Kids(t)| {
      var kid := Kids(t)[i];
      GatherCount(t, i + 1, v);
      CountSum(GatherEvents(t, i + 1), KidEvents(kid), v);
      KidCount(t, i, v);
    } else {
      NoneCounted(v);
    }
  }

  lemma {:induction false} KidCount(t: Term, i: nat, v: nat)
    requires i < |Kids(t)|
    ensures CountAll(KidEvents(Kids(t)[i]), v) == BuiltTally(v, t, i + 1) - BuiltTally(v, t, i)
    decreases t, |Kids(t)| - i, 0
  {
    hide Count, Tally, BuildEvents, BuiltTally;
    KidShare(t, i, v);
    var kid := Kids(t)[i];
    if Built(kid) { BuildCount(kid, 0, v); } else { NoneCounted(v); }
  }

  lemma {:induction false} KidShare(t: Term, i: nat, v: nat)
    requires i < |Kids(t)|
    ensures BuiltTally(v, t, i + 1) == BuiltTally(v, t, i) + if Built(Kids(t)[i]) then Tally(v, Kids(t)[i]) else 0
    ensures Kids(t)[i] < t
  {
  }

  lemma {:induction false} GoalCount(goal: Term, adst: int, i: nat, v: nat)
    requires goal.Struct? && i <= |goal.args|
    ensures CountAll(GoalEvents(goal.args, adst, i), v) == BuiltTally(v, goal, i)
  {
    hide Tally, ArgEvents, Count;
    if i > 0 {
      var t, loc := goal.args[i - 1], adst + i - 1;
      GoalCount(goal, adst, i - 1, v);
      CountSum(GoalEvents(goal.args, adst, i - 1), ArgEvents(t, loc), v);
      ArgCount(t, loc, v);
    } else {
      NoneCounted(v);
    }
  }

  lemma {:induction false} NoneCounted(v: nat)
    ensures CountAll([], v) == 0
  {
  }

  lemma {:induction false} ArgCount(t: Term, loc: int, v: nat)
    ensures CountAll(ArgEvents(t, loc), v) == if Built(t) then Tally(v, t) else 0
  {
    hide Tally, BuildEvents;
    if Built(t) { BuildCount(t, loc, v); }
    assert Count([Free(loc)], 1, v) == Count([Free(loc)], 0, v);
  }

  /** The goal pushes a variable into an open structure: what a caller can read off the tables
      and the machine before the goal is set up. */
  ghost predicate GoalCollides(F: Frame, s: State) {
    Collision(Watched(s), GoalEvents(F.args, F.Adst, |F.args|))
  }

  /** What was watched over the whole goal, told on entry. */
  lemma {:induction false} CollisionSpills(F: Frame, s: State, s': State, goal: Term)
    requires Inv(F, s, -1) && goal.Struct? && F.args == goal.args && !s.m.spilled
    requires forall v: nat :: Left(F, s, v) == Tally(v, goal)
    requires Watches(F, s, s', GoalEvents(F.args, F.Adst, |F.args|))
    ensures Settled(F, s) ==> (s'.m.spilled <==> GoalCollides(F, s))
  {
    EntryIsProper(F, s, goal);
    SpillsExactly(Watched(s), GoalEvents(F.args, F.Adst, |F.args|));
  }

  lemma {:induction false} EntryIsProper(F: Frame, s: State, goal: Term)
    requires Inv(F, s, -1) && goal.Struct? && F.args == goal.args && !s.m.spilled
    requires forall v: nat :: Left(F, s, v) == Tally(v, goal)
    ensures Proper(Watched(s), GoalEvents(F.args, F.Adst, |F.args|))
  {
    var w, evs := Watched(s), GoalEvents(F.args, F.Adst, |F.args|);
    forall v: nat | v < |w.info| ensures ProperVar(w, evs, v) {
      assert w.info[v] == InfoOf(s, v) && VarOk(F, s, -1, v);
      GoalCount(goal, F.Adst, |F.args|, v);
      assert Left(F, s, v) == Tally(v, goal);
    }
    forall u: nat, v: nat | u < |w.info| && v < |w.info| && w.info[u].spot == w.info[v].spot >= 0 ensures u == v {
      assert w.info[u] == InfoOf(s, u) && w.info[v] == InfoOf(s, v);
    }
  }
}
