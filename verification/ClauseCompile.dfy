/** Compiling any clause of two or more goals: what is found out about its variables is what the
    compilation of head and goals builds on. */
module ClauseCompile {
  import opened Wam
  import opened VarTable
  import opened HeadMachine
  import opened VarProc
  import opened ClauseEntry
  import opened ClauseBody
  import opened ClauseRule
  import opened ClauseTest
  import H = HeadModel
  import HS = HeadStart
  import HC = HeadCompiler
  import HL = HeadLogic
  import HF = HeadFill
  import HT = HeadTheorem
  import G = GoalModel
  import D = GoalDanger
  import P = GoalSpill
  import N = NextGoal
  import FG = FirstGoal
  import opened GoalTargets

  /** How far the two frames of the machine are apart while goal `k` is set up, when the
      environment had `before` variables and `kept` of them are still needed. */
  type Gap = (nat, nat, nat) -> int

  ghost predicate GapOk(gap: Gap) {
    && (forall before: nat, kept: nat :: gap(0, before, kept) == 0)
    && (forall k: nat, before: nat, kept: nat :: GapAt(gap, k, before, kept))
  }

  predicate GapAt(gap: Gap, k: nat, before: nat, kept: nat) {
    var g := gap(k, before, kept);
    g >= 0 && (g == 0 || g >= before - kept)
  }

  function Sizes(npv: nat, sizes: seq<nat>, n: nat): (r: seq<nat>)
    requires 0 < n < |sizes|
    ensures |r| == n && r[0] == npv && forall k | 0 < k < n :: r[k] == sizes[k]
  {
    [npv] + sizes[1..n]
  }

  function Totals(r: Rule, nvars: nat, n: nat): (t: seq<seq<nat>>)
    requires n <= |r.goals|
    ensures |t| == n && forall k | 0 <= k < n :: t[k] == Row(r, nvars, k + 1)
  {
    seq(n, k requires 0 <= k < n => Row(r, nvars, k + 1))
  }

  /** How often each variable occurs up to part `k`. */
  function Row(r: Rule, nvars: nat, k: nat): (t: seq<nat>)
    requires k <= |r.goals|
    ensures |t| == nvars && forall v | 0 <= v < nvars :: t[v] == r.Upto(v, k)
  {
    seq(nvars, v requires 0 <= v < nvars => r.Upto(v, k))
  }

  function Gaps(gap: Gap, sizes: seq<nat>, n: nat): (g: seq<int>)
    requires n + 1 == |sizes|
    ensures |g| == n && forall k | 0 <= k < n :: g[k] == gap(k, sizes[k], sizes[k + 1])
  {
    seq(n, k requires 0 <= k < n => gap(k, sizes[k], sizes[k + 1]))
  }

  /** The goals but the last, in a model of `size` cells. */
  function PlanOf(r: Rule, size: int, npv: nat, sizes: seq<nat>): (b: Plan)
    requires r.Structs() && |r.goals| >= 2 && |sizes| == |r.goals| + 1
    ensures b.Shaped() && |b.goals| == |r.goals| - 1 && b.N == size && b.E == size - 2 - |r.head.args|
  {
    var n := |r.goals| - 1;
    Plan.Plan(size, size - 2 - |r.head.args|, 1, r.goals[..n], Sizes(npv, sizes, n + 1))
  }

  function BodyOf(r: Rule, size: int, nvars: nat, npv: nat, sizes: seq<nat>, gap: Gap): (b: Body)
    requires r.Structs() && |r.goals| >= 2 && |sizes| == |r.goals| + 1
    ensures b.Shaped() && |b.goals| == |r.goals| - 1 && b.N == size && b.E == size - 2 - |r.head.args|
    ensures b.firstgoalnumber == 1 && b.plan == PlanOf(r, size, npv, sizes)
    ensures forall k | 0 <= k < |b.totals| :: |b.totals[k]| == nvars
  {
    var n := |r.goals| - 1;
    Body.Body(PlanOf(r, size, npv, sizes), Totals(r, nvars, n), Gaps(gap, Sizes(npv, sizes, n + 1), n))
  }

  function FrameOf(r: Rule, size: int, nvars: nat, npv: nat, cells: seq<Cell>, spb: int): H.HeadFrame
    requires r.Structs() && |r.goals| >= 2
  {
    var e := size - 2 - |r.head.args|;
    var adst := e - npv - |r.goals[0].args|;
    H.HeadFrame(size, e, e - npv, adst, adst - 2, r.head.args, r.goals[0].args,
                Row(r, nvars, 0), cells, spb)
  }

  /** The model and the to-do stack are large enough. */
  ghost predicate Spacious(r: Rule, size: int, nvars: nat, stack: int)
    requires r.Structs()
  {
    && H.RestTally(-1, r.head.args, 0) <= stack
    && forall k: nat | k + 1 < |r.goals| :: SpaceFor(r, size, nvars, stack, k)
  }

  ghost predicate SpaceFor(r: Rule, size: int, nvars: nat, stack: int, k: nat)
    requires r.Structs() && k < |r.goals|
  {
    && size - 4 - |r.head.args| - 2 * nvars - |r.goals[k].args| - H.RestTally(-1, r.head.args, 0) >= Size(r.goals[k])
    && Size(r.goals[k]) + 2 * nvars <= stack
  }

  /** What has been computed about the clause. */
  ghost predicate Prepared(r: Rule, vt: seq<VarInf>, p: seq<nat>, sizes: seq<nat>) {
    && r.Structs() && r.AllKnown(|vt|) && |r.goals| >= 2 && Found(r, vt, p) && |p| <= |vt|
    && |sizes| == |r.goals| + 1 && forall j | 0 < j <= |r.goals| :: sizes[j] == CountKept(vt, |vt|, j)
  }

  /** The table when the variables of the first goal have got their targets. */
  ghost predicate Targeted(r: Rule, adst: int, vt: seq<VarInf>, vt': seq<VarInf>)
    requires r.Structs() && |r.goals| >= 2
  {
    |vt'| == |vt| && forall v: nat | v < |vt| :: vt'[v] == TargetFor(r.goals[0].args, adst, v, vt[v])
  }

  // ---- the head ----

  lemma HeadOccurs(r: Rule, v: int)
    requires r.Structs() && v >= 0
    ensures r.Upto(v, 0) == HS.Occurrences(v, r.head.args, 0) && (Var(v) in r.head.args ==> r.Upto(v, 0) > 0)
  {
    TallySum(v, r.head);
    OccursMember(v, r.head.args, 0);
    assert r.head.args[0..] == r.head.args;
  }

  lemma GoalOccurs(r: Rule, v: nat, k: nat)
    requires r.Structs() && k < |r.goals|
    ensures Var(v) in r.goals[k].args ==> r.In(v, k + 1) > 0
  {
    TallySum(v, r.goals[k]);
    OccursMember(v, r.goals[k].args, 0);
    assert r.goals[k].args[0..] == r.goals[k].args;
  }

  lemma HeadClassified(r: Rule, vt: seq<VarInf>, p: seq<nat>, sizes: seq<nat>, vt': seq<VarInf>, size: int,
                       cells: seq<Cell>, spb: int, v: nat)
    requires Prepared(r, vt, p, sizes) && v < |vt| && size > 2 + |r.head.args| + |vt| + |r.goals[0].args|
    requires var F := FrameOf(r, size, |vt|, |p|, cells, spb); Targeted(r, F.Adst, vt, vt')
    ensures HS.Classified(FrameOf(r, size, |vt|, |p|, cells, spb), vt'[v], v)
  {
    var F := FrameOf(r, size, |vt|, |p|, cells, spb);
    assert FoundAt(r, vt[v], v);
    SpanAt(r, vt[v], v, 0);
    PermNumbered(r, vt, p, v);
    HeadOccurs(r, v);
    FirstCellIsFirst(r.goals[0].args, F.Adst, v, 0);
  }

  lemma PlacesDiffer(r: Rule, vt: seq<VarInf>, p: seq<nat>, u: nat, v: nat)
    requires r.head.Struct? && Found(r, vt, p) && u < |vt| && v < |vt| && u != v && vt[u].pvnum != 0
    ensures vt[u].pvnum != vt[v].pvnum
  {
    PermNumbered(r, vt, p, u);
    PermNumbered(r, vt, p, v);
  }

  lemma TableIsOk(r: Rule, vt: seq<VarInf>, p: seq<nat>, sizes: seq<nat>, vt': seq<VarInf>, size: int, cells: seq<Cell>,
                  spb: int)
    requires Prepared(r, vt, p, sizes) && size > 2 + |r.head.args| + |vt| + |r.goals[0].args|
    requires var F := FrameOf(r, size, |vt|, |p|, cells, spb); Targeted(r, F.Adst, vt, vt')
    ensures HS.TableOk(FrameOf(r, size, |vt|, |p|, cells, spb), vt')
  {
    var F := FrameOf(r, size, |vt|, |p|, cells, spb);
    hide Found, HS.Classified, HS.Occurrences;
    forall v: nat | v < |vt'| ensures HS.Classified(F, vt'[v], v) {
      HeadClassified(r, vt, p, sizes, vt', size, cells, spb, v);
    }
    forall u: nat, v: nat | u < |vt'| && v < |vt'| ensures HS.SlotsDiffer(vt', u, v) {
      if u != v && vt[u].pvnum != 0 { PlacesDiffer(r, vt, p, u, v); }
    }
    forall v: nat | v >= |vt'| ensures HS.Occurrences(v, F.head, 0) == 0 {
      HeadOccurs(r, v);
      assert r.PartKnown(|vt|, 0);
    }
  }

  // ---- the first goal ----

  lemma FirstClassified(r: Rule, vt: seq<VarInf>, p: seq<nat>, sizes: seq<nat>, vt': seq<VarInf>, size: int,
                        cells: seq<Cell>, spb: int, v: nat)
    requires Prepared(r, vt, p, sizes) && v < |vt|
    requires var F := FrameOf(r, size, |vt|, |p|, cells, spb); Targeted(r, F.Adst, vt, vt')
    ensures FG.Classified(FrameOf(r, size, |vt|, |p|, cells, spb), vt'[v], v, r.Upto(v, 1), 1)
  {
    assert FoundAt(r, vt[v], v);
    SpanAt(r, vt[v], v, 0);
    SpanAt(r, vt[v], v, 1);
    OnceOnly(r, vt[v], v);
    PermNumbered(r, vt, p, v);
    HeadOccurs(r, v);
    GoalOccurs(r, v, 0);
    NoneBetween(r, v, 0, 1);
  }

  lemma FirstFits(r: Rule, vt: seq<VarInf>, p: seq<nat>, sizes: seq<nat>, vt': seq<VarInf>, size: int, cells: seq<Cell>,
                  spb: int)
    requires Prepared(r, vt, p, sizes)
    requires var F := FrameOf(r, size, |vt|, |p|, cells, spb); Targeted(r, F.Adst, vt, vt')
    ensures FG.TableFits(FrameOf(r, size, |vt|, |p|, cells, spb), vt', Row(r, |vt|, 1), 1)
  {
    var F := FrameOf(r, size, |vt|, |p|, cells, spb);
    hide FG.Classified;
    forall v: nat | v < |vt'| ensures FG.Classified(F, vt'[v], v, Row(r, |vt|, 1)[v], 1) {
      FirstClassified(r, vt, p, sizes, vt', size, cells, spb, v);
    }
    forall x | F.Eend <= x < F.E ensures FG.HasPerm(F, vt', x) {
      var k := F.E - x - PERMOFFSET;
      assert NumberAt(vt, p, k);
      assert FG.IsPerm(F, vt', x, p[k]);
    }
  }

  // ---- the goals that follow ----

  /** The frame of goal `k`. */
  lemma FrameAt(r: Rule, nvars: nat, npv: nat, sizes: seq<nat>, size: int, gap: Gap, k: nat)
    requires r.Structs() && |sizes| == |r.goals| + 1 && k + 1 < |r.goals|
    ensures var b := BodyOf(r, size, nvars, npv, sizes, gap);
            && b.Shaped() && |b.goals| == |r.goals| - 1 && b.goals[k] == r.goals[k] == r.Part(k + 1)
            && b.totals[k] == b.F(k).total == Row(r, nvars, k + 1) && b.F(k).args == r.goals[k].args
            && b.F(k).goalnumber == k + 1 && b.F(k).Top == b.E - sizes[k + 1]
  {
  }

  /** What places and counts mean for the goal that follows. */
  lemma ClassifiedFrom(F: G.Frame, F': G.Frame, i: VarInf, v: nat)
    requires v < |F.total| == |F'.total| && i.usecnt == F.total[v] <= F'.total[v] <= i.noccurences && F'.goalnumber >= 2
    requires F'.total[v] < i.noccurences <==> i.lastocc > F'.goalnumber
    requires F.total[v] > 0 <==> 0 <= i.firstocc < F'.goalnumber
    requires F'.total[v] > 0 <==> 0 <= i.firstocc <= F'.goalnumber
    requires Var(v) in F'.args ==> i.lastocc >= F'.goalnumber
    requires i.pvnum != 0 <==> !IsTemp(i, 1)
    requires i.istoplevinhead ==> F.total[v] > 0
    requires i.firstocc == -1 ==> i.lastocc == -1
    requires i.firstocc <= i.lastocc && i.firstocc >= -1
    requires Kept(i, F'.goalnumber) ==> i.home >= F'.Top
    ensures N.Classified(F, F', i, v)
  {
  }

  lemma OrderOf(r: Rule, i: VarInf, v: nat)
    requires r.Structs() && FoundAt(r, i, v)
    ensures (i.istoplevinhead ==> Var(v) in r.head.args) && (i.firstocc == -1 ==> i.lastocc == -1)
    ensures -1 <= i.firstocc <= i.lastocc
  {
  }

  /** What has been found out about `v`, as far as goal `g` is concerned. */
  lemma VarAt(r: Rule, vt: seq<VarInf>, p: seq<nat>, sizes: seq<nat>, v: nat, g: nat)
    requires Prepared(r, vt, p, sizes) && v < |vt| && 2 <= g <= |r.goals|
    ensures var i := vt[v];
            && r.Upto(v, g - 1) <= r.Upto(v, g) <= i.noccurences
            && (r.Upto(v, g) < i.noccurences <==> i.lastocc > g)
            && (r.Upto(v, g - 1) > 0 <==> 0 <= i.firstocc < g) && (r.Upto(v, g) > 0 <==> 0 <= i.firstocc <= g)
            && (Var(v) in r.goals[g - 1].args ==> i.lastocc >= g)
            && (i.pvnum != 0 <==> !IsTemp(i, 1)) && (i.istoplevinhead ==> r.Upto(v, g - 1) > 0)
            && (i.firstocc == -1 ==> i.lastocc == -1) && -1 <= i.firstocc <= i.lastocc
            && (Kept(i, g) ==> i.pvnum <= sizes[g])
  {
    hide Lists, Ordered, Numbered, FoundAt, Tally, CountKept;
    OrderOf(r, vt[v], v);
    SpanAt(r, vt[v], v, g - 1);
    SpanAt(r, vt[v], v, g);
    PermNumbered(r, vt, p, v);
    HeadOccurs(r, v);
    NoneBetween(r, v, 0, g - 1);
    NoneBetween(r, v, g - 1, g);
    GoalOccurs(r, v, g - 1);
    if Kept(vt[v], g) { PlaceIsKept(r, vt, p, v, g); }
  }

  lemma NextAt(r: Rule, vt: seq<VarInf>, p: seq<nat>, sizes: seq<nat>, v: nat, g: nat, F: G.Frame, F': G.Frame,
               e: int, i: VarInf)
    requires Prepared(r, vt, p, sizes) && v < |vt| && 2 <= g <= |r.goals|
    requires F.total == Row(r, |vt|, g - 1) && F'.total == Row(r, |vt|, g) && F'.args == r.goals[g - 1].args
    requires F'.goalnumber == g && F'.Top == e - sizes[g]
    requires i == vt[v].(home := i.home, usecnt := r.Upto(v, g - 1), target := i.target)
    requires i.pvnum != 0 ==> i.home == e - i.pvnum
    ensures N.Classified(F, F', i, v)
  {
    hide Found, FoundAt, N.Classified, IsTemp, Kept;
    VarAt(r, vt, p, sizes, v, g);
    SameTemp(vt[v], i, g);
    ClassifiedFrom(F, F', i, v);
  }

  lemma NextClassified(r: Rule, vt: seq<VarInf>, p: seq<nat>, sizes: seq<nat>, vt': seq<VarInf>, size: int, gap: Gap,
                       k: nat, v: nat)
    requires Prepared(r, vt, p, sizes) && v < |vt| && k + 2 < |r.goals|
    requires Targeted(r, size - 2 - |r.head.args| - |p| - |r.goals[0].args|, vt, vt')
    ensures ClassifiedAt(BodyOf(r, size, |vt|, |p|, sizes, gap), Placed(vt', size - 2 - |r.head.args|), k, v)
  {
    hide N.Classified, Found, CountKept, BodyOf;
    FrameAt(r, |vt|, |p|, sizes, size, gap, k);
    FrameAt(r, |vt|, |p|, sizes, size, gap, k + 1);
    var b := BodyOf(r, size, |vt|, |p|, sizes, gap);
    var i := PlacedVar(vt'[v], b.E).(usecnt := r.Upto(v, k + 1));
    NextAt(r, vt, p, sizes, v, k + 2, b.F(k), b.F(k + 1), b.E, i);
  }

  lemma SameTemp(i: VarInf, i': VarInf, g: int)
    requires i' == i.(home := i'.home, usecnt := i'.usecnt, target := i'.target)
    ensures (IsTemp(i', 1) <==> IsTemp(i, 1)) && (Kept(i', g) <==> Kept(i, g)) && (Kept(i, g) ==> i.pvnum != 0)
  {
  }

  lemma SharesNext(r: Rule, nvars: nat, npv: nat, sizes: seq<nat>, size: int, gap: Gap, k: nat, v: nat)
    requires r.Structs() && r.AllKnown(nvars) && |sizes| == |r.goals| + 1 && k + 2 < |r.goals|
    ensures SharesAt(BodyOf(r, size, nvars, npv, sizes, gap), k, v)
  {
    hide BodyOf, Tally;
    var b := BodyOf(r, size, nvars, npv, sizes, gap);
    assert b.goals[k + 1] == r.Part(k + 2) && b.F(k).total == Row(r, nvars, k + 1)
           && b.F(k + 1).total == Row(r, nvars, k + 2) by {
      FrameAt(r, nvars, npv, sizes, size, gap, k);
      FrameAt(r, nvars, npv, sizes, size, gap, k + 1);
    }
    assert r.PartKnown(nvars, k + 2);
    assert r.Upto(v, k + 2) == r.In(v, k + 2) + r.Upto(v, k + 1);
  }

  lemma {:induction false} PermFew(vt: seq<VarInf>)
    ensures G.PermCount(vt) <= |vt|
  {
    if vt != [] { PermFew(vt[..|vt| - 1]); }
  }

  /** Less and less of the environment is kept. */
  lemma SizesShrink(r: Rule, vt: seq<VarInf>, p: seq<nat>, sizes: seq<nat>, k: nat)
    requires Prepared(r, vt, p, sizes) && k + 1 < |r.goals|
    ensures var kept := Sizes(|p|, sizes, |r.goals|); kept[k + 1] <= kept[k] <= |p| && (k == 0 ==> kept[0] == kept[1])
  {
    hide Found, CountKept;
    AllKeptFirst(r, vt, p);
    KeptShrinks(vt, 1, k + 1);
    if k > 0 {
      KeptShrinks(vt, k, k + 1);
      KeptShrinks(vt, 1, k);
    }
  }

  /** Where goal `k` is set up. */
  lemma PlaceOf(r: Rule, nvars: nat, npv: nat, sizes: seq<nat>, size: int, gap: Gap, k: nat)
    requires r.Structs() && |sizes| == |r.goals| + 1 && k + 1 < |r.goals|
    ensures var b := BodyOf(r, size, nvars, npv, sizes, gap);
            var kept := Sizes(npv, sizes, |r.goals|);
            && b.plan.callEnvSizes == kept && b.gaps[k] == gap(k, kept[k], kept[k + 1])
            && b.goals[k] == r.goals[k] && b.totals[k] == Row(r, nvars, k + 1)
  {
  }

  lemma GoalIsOk(r: Rule, vt: seq<VarInf>, p: seq<nat>, sizes: seq<nat>, size: int, gap: Gap, stack: int, k: nat)
    requires Prepared(r, vt, p, sizes) && k + 1 < |r.goals| && GapOk(gap) && Spacious(r, size, |vt|, stack)
    ensures GoalOk(BodyOf(r, size, |vt|, |p|, sizes, gap), |vt|, stack, k)
    ensures BodyOf(r, size, |vt|, |p|, sizes, gap).SPstart(k) - |vt| - H.RestTally(-1, r.head.args, 0) >= Size(r.goals[k])
  {
    hide Found, H.RestTally, Size, BodyOf;
    var kept := Sizes(|p|, sizes, |r.goals|);
    SizesShrink(r, vt, p, sizes, k);
    assert SpaceFor(r, size, |vt|, stack, k) && GapAt(gap, k, kept[k], kept[k + 1]);
    PlaceOf(r, |vt|, |p|, sizes, size, gap, k);
    SizeOfKids(r.goals[k]);
  }

  lemma RoomAt(r: Rule, vt: seq<VarInf>, p: seq<nat>, sizes: seq<nat>, vt': seq<VarInf>, size: int, gap: Gap,
               stack: int, k: nat)
    requires Prepared(r, vt, p, sizes) && GapOk(gap) && Spacious(r, size, |vt|, stack) && k + 1 < |r.goals|
    requires |vt'| == |vt|
    ensures var b := BodyOf(r, size, |vt|, |p|, sizes, gap);
            b.SPstart(k) - G.PermCount(Placed(vt', size - 2 - |r.head.args|)) >= Size(b.goals[k])
  {
    hide Found, Spacious, GapOk, GoalOk, H.RestTally, Size, BodyOf, CountKept;
    PermFew(Placed(vt', size - 2 - |r.head.args|));
    PlaceOf(r, |vt|, |p|, sizes, size, gap, k);
    GoalIsOk(r, vt, p, sizes, size, gap, stack, k);
  }

  lemma AllClassified(r: Rule, vt: seq<VarInf>, p: seq<nat>, sizes: seq<nat>, vt': seq<VarInf>, size: int, gap: Gap,
                      k: nat,
                      b: Body, table: seq<VarInf>)
    requires Prepared(r, vt, p, sizes) && k + 2 < |r.goals| && |table| == |vt|
    requires Targeted(r, size - 2 - |r.head.args| - |p| - |r.goals[0].args|, vt, vt')
    requires b == BodyOf(r, size, |vt|, |p|, sizes, gap) && table == Placed(vt', size - 2 - |r.head.args|)
    ensures |b.totals[k]| == |b.totals[k + 1]| == |table|
    ensures forall v: nat | v < |table| :: ClassifiedAt(b, table, k, v)
  {
    hide Found, ClassifiedAt, BodyOf, CountKept, Placed;
    forall v: nat | v < |table| ensures ClassifiedAt(b, table, k, v) {
      NextClassified(r, vt, p, sizes, vt', size, gap, k, v);
    }
  }

  lemma FollowsFrom(b: Body, table: seq<VarInf>, k: nat)
    requires b.Shaped() && k + 1 < |b.goals| && b.SPstart(k + 1) - G.PermCount(table) >= Size(b.goals[k + 1])
    requires |b.totals[k]| == |b.totals[k + 1]| == |table| && (forall v: nat :: SharesAt(b, k, v))
    requires forall v: nat | v < |table| :: ClassifiedAt(b, table, k, v)
    ensures GoalFollows(b, table, k)
  {
  }

  lemma GoalDoesFollow(r: Rule, vt: seq<VarInf>, p: seq<nat>, sizes: seq<nat>, vt': seq<VarInf>, size: int, gap: Gap,
                       stack: int,
                       k: nat, b: Body, table: seq<VarInf>)
    requires Prepared(r, vt, p, sizes) && GapOk(gap) && Spacious(r, size, |vt|, stack) && k + 2 < |r.goals|
    requires Targeted(r, size - 2 - |r.head.args| - |p| - |r.goals[0].args|, vt, vt')
    requires b == BodyOf(r, size, |vt|, |p|, sizes, gap) && table == Placed(vt', size - 2 - |r.head.args|)
    ensures GoalFollows(b, table, k)
  {
    hide Found, Spacious, GapOk, ClassifiedAt, SharesAt, H.RestTally, Size, BodyOf, CountKept, Placed, G.PermCount,
         GoalFollows;
    assert b.SPstart(k + 1) - G.PermCount(table) >= Size(b.goals[k + 1]) by {
      RoomAt(r, vt, p, sizes, vt', size, gap, stack, k + 1);
    }
    SharesAll(r, |vt|, |p|, sizes, size, gap, k);
    AllClassified(r, vt, p, sizes, vt', size, gap, k, b, table);
    FollowsFrom(b, table, k);
  }

  lemma SharesAll(r: Rule, nvars: nat, npv: nat, sizes: seq<nat>, size: int, gap: Gap, k: nat)
    requires r.Structs() && r.AllKnown(nvars) && |sizes| == |r.goals| + 1 && k + 2 < |r.goals|
    ensures forall v: nat :: SharesAt(BodyOf(r, size, nvars, npv, sizes, gap), k, v)
  {
    hide SharesAt, BodyOf;
    forall v: nat ensures SharesAt(BodyOf(r, size, nvars, npv, sizes, gap), k, v) {
      SharesNext(r, nvars, npv, sizes, size, gap, k, v);
    }
  }

  lemma PlacesAreOk(r: Rule, vt: seq<VarInf>, p: seq<nat>, sizes: seq<nat>, vt': seq<VarInf>, size: int, stack: int,
                    e: int, table: seq<VarInf>)
    requires Prepared(r, vt, p, sizes) && Spacious(r, size, |vt|, stack) && e == size - 2 - |r.head.args|
    requires Targeted(r, e - |p| - |r.goals[0].args|, vt, vt') && table == Placed(vt', e)
    ensures forall v: nat | v < |table| :: Housed(table[v]) && AtPlace(e, table[v])
  {
    hide Found, Spacious, Housed, AtPlace, CountKept;
    forall v: nat | v < |table| ensures Housed(table[v]) && AtPlace(e, table[v]) {
      HousedAtPlace(r, vt, p, sizes, vt', size, stack, v);
    }
  }

  lemma GoalsAreOk(r: Rule, vt: seq<VarInf>, p: seq<nat>, sizes: seq<nat>, size: int, gap: Gap, stack: int, b: Body)
    requires Prepared(r, vt, p, sizes) && GapOk(gap) && Spacious(r, size, |vt|, stack)
    requires b == BodyOf(r, size, |vt|, |p|, sizes, gap)
    ensures forall k: nat | k < |b.goals| :: GoalOk(b, |vt|, stack, k)
  {
    hide Found, Spacious, GapOk, GoalOk, BodyOf, CountKept;
    forall k: nat | k < |b.goals| ensures GoalOk(b, |vt|, stack, k) { GoalIsOk(r, vt, p, sizes, size, gap, stack, k); }
  }

  lemma GoalsDoFollow(r: Rule, vt: seq<VarInf>, p: seq<nat>, sizes: seq<nat>, vt': seq<VarInf>, size: int, gap: Gap,
                      stack: int, b: Body, table: seq<VarInf>)
    requires Prepared(r, vt, p, sizes) && GapOk(gap) && Spacious(r, size, |vt|, stack)
    requires Targeted(r, size - 2 - |r.head.args| - |p| - |r.goals[0].args|, vt, vt')
    requires b == BodyOf(r, size, |vt|, |p|, sizes, gap) && table == Placed(vt', size - 2 - |r.head.args|)
    ensures forall k: nat | k + 1 < |b.goals| :: GoalFollows(b, table, k)
  {
    hide Found, Spacious, GapOk, GoalFollows, BodyOf, CountKept, Placed;
    forall k: nat | k + 1 < |b.goals| ensures GoalFollows(b, table, k) {
      GoalDoesFollow(r, vt, p, sizes, vt', size, gap, stack, k, b, table);
    }
  }

  lemma BodyFrom(b: Body, table: seq<VarInf>, stack: int, call: Callee)
    requires b.Shaped() && Behaves(b, call) && (forall v: nat | v < |table| :: Housed(table[v]) && AtPlace(b.E, table[v]))
    requires forall k: nat | k < |b.goals| :: GoalOk(b, |table|, stack, k)
    requires forall k: nat | k + 1 < |b.goals| :: GoalFollows(b, table, k)
    ensures BodyOk(b, table, stack, call)
  {
  }

  lemma BodyIsOk(r: Rule, vt: seq<VarInf>, p: seq<nat>, sizes: seq<nat>, vt': seq<VarInf>, size: int, gap: Gap,
                 stack: int, call: Callee, b: Body, e: int, table: seq<VarInf>)
    requires Prepared(r, vt, p, sizes) && GapOk(gap) && Spacious(r, size, |vt|, stack) && e == size - 2 - |r.head.args|
    requires Targeted(r, e - |p| - |r.goals[0].args|, vt, vt') && table == Placed(vt', e)
    requires b == BodyOf(r, size, |vt|, |p|, sizes, gap) && Behaves(b, call)
    ensures BodyOk(b, table, stack, call)
  {
    hide Found, Spacious, GapOk, GoalOk, GoalFollows, Behaves, BodyOf, Housed, AtPlace, BodyOk, Placed, CountKept;
    PlacesAreOk(r, vt, p, sizes, vt', size, stack, e, table);
    GoalsAreOk(r, vt, p, sizes, size, gap, stack, b);
    GoalsDoFollow(r, vt, p, sizes, vt', size, gap, stack, b, table);
    BodyFrom(b, table, stack, call);
  }

  lemma HousedAtPlace(r: Rule, vt: seq<VarInf>, p: seq<nat>, sizes: seq<nat>, vt': seq<VarInf>, size: int, stack: int,
                      v: nat)
    requires Prepared(r, vt, p, sizes) && Spacious(r, size, |vt|, stack) && v < |vt|
    requires Targeted(r, size - 2 - |r.head.args| - |p| - |r.goals[0].args|, vt, vt')
    ensures Housed(Placed(vt', size - 2 - |r.head.args|)[v])
    ensures AtPlace(size - 2 - |r.head.args|, Placed(vt', size - 2 - |r.head.args|)[v])
  {
    assert SpaceFor(r, size, |vt|, stack, 0);
    PermNumbered(r, vt, p, v);
  }

  // ---- a clause ----

  /** The machine that calls the clause: the arguments are where a head expects them. */
  ghost predicate Called(r: Rule, size: int, cells: seq<Cell>, m: Head) {
    && r.head.Struct? && |cells| == |r.head.args| && !m.failed && HeadMachine.OkState(m) && HeadMachine.Settled(m.bind)
    && HF.Global(m) && FreshIds(m.w) && !m.w.open && !m.w.spilled && m.w.e == size - 2 - |r.head.args|
    && forall j: nat | j < |cells| :: ArgumentAt(m, cells, j)
  }

  predicate ArgumentAt(m: Head, cells: seq<Cell>, j: nat)
    requires j < |cells|
  {
    Get(m.w.mem, m.w.e + 2 + j) == cells[j] && OkCell(m.w.heap, m.w.next, cells[j])
  }

  /** The stack pointer is set when the environment is allocated. */
  function Allocated(m: Head, sp: int): Head {
    m.(w := m.w.(sp := sp))
  }

  lemma AllocatedOk(r: Rule, size: int, nvars: nat, npv: nat, cells: seq<Cell>, nm: Names, m: Head)
    requires r.Structs() && |r.goals| >= 2 && Called(r, size, cells, m)
    ensures var F := FrameOf(r, size, nvars, npv, cells, m.w.spb); HS.StartOk(F, nm, Allocated(m, F.SPstart))
  {
    var F := FrameOf(r, size, nvars, npv, cells, m.w.spb);
    forall j: nat | j < |F.cells| ensures HS.CellGiven(F, Allocated(m, F.SPstart), j) { assert ArgumentAt(m, cells, j); }
  }

  lemma FrameIsOk(r: Rule, vt: seq<VarInf>, p: seq<nat>, sizes: seq<nat>, size: int, cells: seq<Cell>, spb: int, gap: Gap,
                  stack: int)
    requires Prepared(r, vt, p, sizes) && GapOk(gap) && Spacious(r, size, |vt|, stack) && |cells| == |r.head.args|
    ensures var F := FrameOf(r, size, |vt|, |p|, cells, spb);
            var b := BodyOf(r, size, |vt|, |p|, sizes, gap);
            && F.Ok() && F.Adst >= 2 && F.SPstart - H.RestTally(-1, F.head, 0) - |vt| >= Size(b.goals[0]) > 0
            && size > 2 + |r.head.args| + |vt| + |r.goals[0].args| && b.goals[0] == r.goals[0]
            && b.E == F.E && b.Eend(0) == b.Eend(1) == F.Eend && b.Adst(0) == F.Adst && b.gaps[0] == 0
            && b.totals[0] == Row(r, |vt|, 1)
            && F.SPstart == F.Adst - 2 && F.Adst == size - 2 - |r.head.args| - |p| - |r.goals[0].args|
  {
    hide Found, H.RestTally, Size, BodyOf;
    assert SpaceFor(r, size, |vt|, stack, 0);
    SizeOfKids(r.goals[0]);
    PlaceOf(r, |vt|, |p|, sizes, size, gap, 0);
    SizesShrink(r, vt, p, sizes, 0);
    var kept := Sizes(|p|, sizes, |r.goals|);
    assert gap(0, kept[0], kept[1]) == 0;
  }

  /** The first goal's share of the occurrences, and what has none in the head. */
  lemma FirstShares(r: Rule, vt: seq<VarInf>, p: seq<nat>, sizes: seq<nat>, vt': seq<VarInf>, adst: int,
                    F: H.HeadFrame, b: Body)
    requires Prepared(r, vt, p, sizes) && Targeted(r, adst, vt, vt') && b.Shaped() && b.goals[0] == r.goals[0]
    requires F.total == Row(r, |vt|, 0) && b.totals[0] == Row(r, |vt|, 1)
    ensures forall v: nat :: FirstShare(F, b, v)
    ensures forall v: nat | v < |vt'| && vt'[v].firstocc > 1 :: F.total[v] == 0
  {
    hide Found, Tally, CountKept;
    forall v: nat ensures FirstShare(F, b, v) { SharesFirst(r, |vt|, v); }
    forall v: nat | v < |vt'| && vt'[v].firstocc > 1 ensures F.total[v] == 0 { NotInHead(r, vt, p, v); }
  }

  lemma FirstAims(r: Rule, vt: seq<VarInf>, p: seq<nat>, vt': seq<VarInf>, adst: int)
    requires r.Structs() && |r.goals| >= 2 && Found(r, vt, p) && Targeted(r, adst, vt, vt')
    ensures AllAim(r.goals[0].args, adst, vt')
  {
    forall v: nat | v < |vt'| ensures Aims(r.goals[0].args, adst, v, vt'[v]) { assert FoundAt(r, vt[v], v); }
  }

  lemma RuleFrom(F: H.HeadFrame, vt: seq<VarInf>, b: Body, stack: int, call: Callee)
    requires BodyOk(b, Placed(vt, F.E), stack, call) && FG.TableFits(F, vt, b.totals[0], b.firstgoalnumber)
    requires b.N == F.N && b.E == F.E && b.Eend(0) == b.Eend(1) == F.Eend && b.Adst(0) == F.Adst && b.gaps[0] == 0
    requires b.goals[0].args == F.goal && AllAim(F.goal, F.Adst, vt) && (forall v: nat :: FirstShare(F, b, v))
    requires forall v: nat | v < |vt| && vt[v].firstocc > b.firstgoalnumber :: F.total[v] == 0
    requires F.SPstart - H.RestTally(-1, F.head, 0) - |vt| >= Size(b.goals[0])
    ensures RuleOk(F, vt, b, stack, call)
  {
    PermFew(vt);
  }

  lemma RuleFollows(r: Rule, vt: seq<VarInf>, p: seq<nat>, sizes: seq<nat>, vt': seq<VarInf>, size: int,
                    cells: seq<Cell>, spb: int, gap: Gap, stack: int, call: Callee, F: H.HeadFrame, b: Body)
    requires Prepared(r, vt, p, sizes) && GapOk(gap) && Spacious(r, size, |vt|, stack) && |cells| == |r.head.args|
    requires F == FrameOf(r, size, |vt|, |p|, cells, spb) && b == BodyOf(r, size, |vt|, |p|, sizes, gap)
    requires Targeted(r, F.Adst, vt, vt') && Behaves(b, call)
    ensures RuleOk(F, vt', b, stack, call)
  {
    hide Found, Behaves, BodyOk, FG.TableFits, Placed, BodyOf, H.RestTally, Size, Tally, GapOk, Spacious, CountKept,
         RuleOk;
    FrameIsOk(r, vt, p, sizes, size, cells, spb, gap, stack);
    assert FG.TableFits(F, vt', b.totals[0], b.firstgoalnumber) by { FirstFits(r, vt, p, sizes, vt', size, cells, spb); }
    assert BodyOk(b, Placed(vt', F.E), stack, call) by {
      BodyIsOk(r, vt, p, sizes, vt', size, gap, stack, call, b, F.E, Placed(vt', F.E));
    }
    FirstShares(r, vt, p, sizes, vt', F.Adst, F, b);
    FirstAims(r, vt, p, vt', F.Adst);
    hide AllAim, FirstShare, Prepared, Targeted, FrameOf;
    RuleFrom(F, vt', b, stack, call);
  }

  /** Everything that the compilation demands of the clause holds. */
  lemma RuleIsOk(r: Rule, vt: seq<VarInf>, p: seq<nat>, sizes: seq<nat>, vt': seq<VarInf>, size: int, cells: seq<Cell>,
                 spb: int, gap: Gap, stack: int, call: Callee)
    requires Prepared(r, vt, p, sizes) && GapOk(gap) && Spacious(r, size, |vt|, stack) && |cells| == |r.head.args|
    requires var F := FrameOf(r, size, |vt|, |p|, cells, spb); Targeted(r, F.Adst, vt, vt')
    requires Behaves(BodyOf(r, size, |vt|, |p|, sizes, gap), call)
    ensures var F := FrameOf(r, size, |vt|, |p|, cells, spb);
            && F.Ok() && HS.TableOk(F, vt') && F.Adst >= 2 && F.SPstart >= H.RestTally(-1, F.head, 0) + 1
            && RuleOk(F, vt', BodyOf(r, size, |vt|, |p|, sizes, gap), stack, call)
  {
    hide Found, Behaves, RuleOk, HS.TableOk, BodyOf, H.RestTally, Size, GapOk, Spacious, CountKept;
    FrameIsOk(r, vt, p, sizes, size, cells, spb, gap, stack);
    TableIsOk(r, vt, p, sizes, vt', size, cells, spb);
    RuleFollows(r, vt, p, sizes, vt', size, cells, spb, gap, stack, call,
                FrameOf(r, size, |vt|, |p|, cells, spb), BodyOf(r, size, |vt|, |p|, sizes, gap));
  }

  lemma SharesFirst(r: Rule, nvars: nat, v: nat)
    requires r.Structs() && |r.goals| >= 2 && r.AllKnown(nvars)
    ensures Tally(v, r.goals[0]) == if v < nvars then r.Upto(v, 1) as int - r.Upto(v, 0) as int else 0
  {
    assert r.PartKnown(nvars, 1) && r.Part(1) == r.goals[0];
    assert r.Upto(v, 1) == r.In(v, 1) + r.Upto(v, 0);
  }

  lemma NotInHead(r: Rule, vt: seq<VarInf>, p: seq<nat>, v: nat)
    requires r.head.Struct? && Found(r, vt, p) && v < |vt| && vt[v].firstocc > 1
    ensures r.Upto(v, 0) == 0
  {
    assert FoundAt(r, vt[v], v);
    SpanAt(r, vt[v], v, 0);
  }

  lemma LastsKnown(r: Rule, vt: seq<VarInf>, p: seq<nat>)
    requires r.head.Struct? && Found(r, vt, p)
    ensures forall v: nat | v < |vt| :: vt[v].lastocc <= |r.goals| && vt[v].target == 0
  {
    forall v: nat | v < |vt| ensures vt[v].lastocc <= |r.goals| && vt[v].target == 0 {
      assert FoundAt(r, vt[v], v);
      SpanAt(r, vt[v], v, 0);
    }
  }

  lemma ArgsKnown(r: Rule, nvars: nat)
    requires r.Structs() && |r.goals| >= 2 && r.AllKnown(nvars)
    ensures var args := r.goals[0].args; forall j | 0 <= j < |args| && args[j].Var? :: args[j].v < nvars
  {
    var args := r.goals[0].args;
    assert r.PartKnown(nvars, 1) && r.Part(1) == r.goals[0];
    forall j | 0 <= j < |args| && args[j].Var? ensures args[j].v < nvars {
      KidTally(args[j].v, r.goals[0], j);
      SimpleTally(args[j]);
    }
  }

  lemma BehavesInBody(r: Rule, size: int, nvars: nat, npv: nat, sizes: seq<nat>, gap: Gap, call: Callee)
    requires r.Structs() && |r.goals| >= 2 && |sizes| == |r.goals| + 1 && AllBehave(r, call)
    ensures Behaves(BodyOf(r, size, nvars, npv, sizes, gap), call)
  {
    var b := BodyOf(r, size, nvars, npv, sizes, gap);
    forall k: nat, m | k < |b.goals| ensures LeavesAlone(b.goals[k], m, call(k, m)) {
      PlaceOf(r, nvars, npv, sizes, size, gap, k);
      assert LeavesAlone(r.goals[k], m, call(k, m));
    }
  }

  ghost predicate AllBehave(r: Rule, call: Callee)
    requires r.Structs()
  {
    forall k: nat, m | k < |r.goals| :: LeavesAlone(r.goals[k], m, call(k, m))
  }

  /** Finds out what there is to know about the variables, and gives those of the first goal
      their targets. */
  method Analyze(r: Rule, nvars: nat, size: nat, ghost stack: nat)
    returns (vtbl: array<VarInf>, npv: nat, sizes: seq<nat>, ghost vt: seq<VarInf>, ghost p: seq<nat>)
    requires r.Structs() && |r.goals| >= 2 && r.AllKnown(nvars) && Spacious(r, size, nvars, stack)
    ensures fresh(vtbl) && vtbl.Length == |vt| == nvars && npv == |p| && Prepared(r, vt, p, sizes)
    ensures Targeted(r, size - 2 - |r.head.args| - npv - |r.goals[0].args|, vt, vtbl[..])
  {
    hide Found;
    vtbl := new VarInf[nvars](_ => VarInf(0, false, 0, 0, 0, 0, 0, 0, false));
    npv, p := ClassifyVars(vtbl, r);
    vt := vtbl[..];
    var callEnvSizes := new nat[|r.goals| + 1];
    LastsKnown(r, vt, p);
    ComputeCallEnvSizes(vtbl, callEnvSizes, |r.goals|);
    sizes := callEnvSizes[..];
    assert SpaceFor(r, size, nvars, stack, 0);
    ArgsKnown(r, nvars);
    InitOnlyTargets(vtbl, r.goals[0].args, size - 2 - |r.head.args| - npv - |r.goals[0].args|, 0, 1);
  }

  // ---- what is told beforehand ----

  lemma StartsAt(r: Rule, vt: seq<VarInf>, p: seq<nat>, sizes: seq<nat>, F: H.HeadFrame, was: VarInf, now: VarInf, v: nat)
    requires Prepared(r, vt, p, sizes) && v < |vt| && F.head == r.head.args && F.total == Row(r, |vt|, 0)
    requires was == vt[v].(target := was.target) && HeadLeaves(F, was, now, v)
    ensures FoundAt(r, vt[v], v) && Starts(r, vt[v], now, v)
  {
    hide FoundAt, Lists, Ordered, Numbered;
    PermNumbered(r, vt, p, v);
  }

  lemma GoalsAreSame(r: Rule, nvars: nat, npv: nat, sizes: seq<nat>, size: int, gap: Gap)
    requires r.Structs() && |r.goals| >= 2 && |sizes| == |r.goals| + 1
    ensures var b := BodyOf(r, size, nvars, npv, sizes, gap);
            b.Shaped() && |b.goals| <= |r.goals| && forall k: nat | k < |b.goals| :: SameGoal(r, nvars, b, k)
  {
    var b := BodyOf(r, size, nvars, npv, sizes, gap);
    hide BodyOf;
    forall k: nat | k < |b.goals| ensures SameGoal(r, nvars, b, k) { PlaceOf(r, nvars, npv, sizes, size, gap, k); }
  }

  lemma CompilesFrom(r: Rule, vt: seq<VarInf>, p: seq<nat>, sizes: seq<nat>, F: H.HeadFrame, adst: int,
                     vt': seq<VarInf>, table: seq<VarInf>, b: Body)
    requires Prepared(r, vt, p, sizes) && F.head == r.head.args && F.total == Row(r, |vt|, 0)
    requires Targeted(r, adst, vt, vt') && AllLeft(F, vt', table)
    requires b.Shaped() && |b.goals| <= |r.goals| && forall k: nat | k < |b.goals| :: SameGoal(r, |vt|, b, k)
    ensures Compiles(r, vt, b, table)
  {
    hide Found, FoundAt, CountKept, Starts, HeadLeaves, SameGoal, Row;
    forall v: nat | v < |vt| ensures FoundAt(r, vt[v], v) && Starts(r, vt[v], table[v], v) {
      assert HeadLeaves(F, vt'[v], table[v], v);
      StartsAt(r, vt, p, sizes, F, vt'[v], table[v], v);
    }
  }

  lemma RuleCompiles(r: Rule, vt: seq<VarInf>, p: seq<nat>, sizes: seq<nat>, vt': seq<VarInf>, size: int,
                     cells: seq<Cell>, spb: int, gap: Gap, table: seq<VarInf>)
    requires Prepared(r, vt, p, sizes)
    requires var F := FrameOf(r, size, |vt|, |p|, cells, spb); Targeted(r, F.Adst, vt, vt') && AllLeft(F, vt', table)
    ensures Compiles(r, vt, BodyOf(r, size, |vt|, |p|, sizes, gap), table)
  {
    var F := FrameOf(r, size, |vt|, |p|, cells, spb);
    hide Found, BodyOf, CountKept, SameGoal, Row, Targeted, AllLeft, Compiles;
    GoalsAreSame(r, |vt|, |p|, sizes, size, gap);
    CompilesFrom(r, vt, p, sizes, F, F.Adst, vt', table, BodyOf(r, size, |vt|, |p|, sizes, gap));
  }

  /** What a goal is like that is entered in the state `s` and called from `m`: what is watched on
      entry, whether its arguments come out right, and which of its new variables are exposed.  The
      first goal is right in any case, and so is one over which nothing is cut off the environment or
      that is entered with nothing exposed. */
  ghost predicate Foretold(r: Rule, vt: seq<VarInf>, b: Body, k: nat, s: G.State, m: Machine, env: Env)
    requires r.Structs() && b.Shaped() && k < |b.goals| <= |r.goals|
  {
    && D.Watched(s) == ClauseWatch(r, vt, b.E, b.Adst(k), k, env, Exposed(s.m))
    && (AllRight(b.F(k), m, env) <==> !GoesWrong(r, vt, b.E, b.Adst(k), k, env, Exposed(s.m)))
    && (k == 0 || b.Eend(k) == b.Eend(k + 1) || Exposed(s.m) == {} ==> AllRight(b.F(k), m, env))
    && (forall v: nat | v < |vt| :: ExposedNew(r, vt[v], b.E, k, v, env, m))
  }

  lemma IsForetold(r: Rule, vt: seq<VarInf>, bc: Compiler, k: nat, s: G.State, m: Machine, env: Env)
    requires Compiles(r, vt, bc.b, bc.table) && k < |bc.b.goals| && bc.Entered(k, s, m, env)
    requires AllRight(bc.b.F(k), m, env) <==> !BodyCollides(bc.b, bc.table, k, env, Exposed(s.m))
    requires bc.b.Eend(k) == bc.b.Eend(k + 1) || Exposed(s.m) == {} ==> AllRight(bc.b.F(k), m, env)
    requires k == 0 ==> bc.b.Eend(0) == bc.b.Eend(1)
    ensures Foretold(r, vt, bc.b, k, s, m, env)
  {
    hide D.Watched, EntryWatch, ClauseWatch, AllRight, P.Collision, ExposedNew, ExposedAt, FoundAt, Starts, Valued;
    WatchIs(r, vt, bc.b, bc.table, k, env, Exposed(s.m));
    assert SameGoal(r, |vt|, bc.b, k);
    forall v: nat | v < |vt| ensures ExposedNew(r, vt[v], bc.b.E, k, v, env, m) {
      assert ExposedAt(bc.b, bc.table, k, v, env, m);
      NewIs(r, vt, bc.b, bc.table, k, v, env, m);
    }
  }

  /** Compiles any clause of two or more goals that has room, but for its last goal.  The code of
      the head unifies the arguments with it; where that succeeds there is one binding of all
      variables of the clause under which at every call but the last the arguments are right,
      unless the goal goes wrong, which the clause and the exposed variables tell. */
  method CompileClause(r: Rule, nvars: nat, size: nat, stack: nat, ghost gap: Gap, ghost cells: seq<Cell>, ghost nm: Names,
                       ghost unify: Unifier, ghost m0: Head, ghost call: Callee)
    returns (hc: HC.Compiler, bc: Compiler, ghost vt: seq<VarInf>, ghost p: seq<nat>, ghost sizes: seq<nat>)
    requires r.Structs() && |r.goals| >= 2 && r.AllKnown(nvars) && Spacious(r, size, nvars, stack)
    requires GapOk(gap) && AllBehave(r, call) && |cells| == |r.head.args| && Called(r, size, cells, m0)
    requires HL.Injective(nm) && IsUnifier(nm, unify)
    ensures Prepared(r, vt, p, sizes) && |vt| == nvars && fresh(hc) && fresh(bc)
    ensures hc.start == Allocated(m0, hc.start.w.sp) && hc.head == r.head.args && hc.cells == cells && hc.names == nm
    ensures bc.b == BodyOf(r, size, nvars, |p|, sizes, gap) && bc.b.goals == r.goals[..|r.goals| - 1] && bc.call == call
    ensures hc.m == HeadRun(nm, unify, hc.start, hc.code)
    ensures HT.Sound(nm, hc.start, hc.m, hc.l.env, r.head.args, cells)
    ensures HT.Complete(nm, hc.start, hc.m, hc.l.env, r.head.args, cells) && HT.Decides(hc.F(), nm, hc.start, hc.m)
    ensures |bc.code| == |bc.entries| == |bc.calls| == |bc.b.goals|
    ensures !hc.m.failed ==>
              && (forall k: nat | k < |bc.b.goals| ::
                    bc.GoalDone(k, Run(hc.m.w, bc.prelude), bc.entries, bc.code, bc.calls, bc.env))
              && (forall k: nat | k < |bc.b.goals| ::
                    Foretold(r, vt, bc.b, k, bc.entries[k], bc.calls[k], bc.env))
              && G.FreshBindings(hc.l.env, hc.m.w.next, bc.env, bc.m.next) && hc.m.w.spb == m0.w.spb
  {
    hide Found, Spacious, GapOk, AllBehave, Called, HL.Injective, IsUnifier, HT.Sound, HT.Complete, HT.Decides, RuleOk,
         Behaves, HS.TableOk, HS.StartOk, HS.StartLogic, BodyCollides, AllRight, G.FreshBindings, Run, BodyOf,
         H.RestTally, HeadRun, Foretold, Compiles, AllLeft, Outcome, Targeted;
    var vtbl, npv, sizes1, vt1, p1 := Analyze(r, nvars, size, stack);
    vt, p, sizes := vt1, p1, sizes1;
    ghost var vt' := vtbl[..];
    var e := size - 2 - |r.head.args|;
    var adst := e - npv - |r.goals[0].args|;
    ghost var F := FrameOf(r, size, nvars, npv, cells, m0.w.spb);
    ghost var b := BodyOf(r, size, nvars, npv, sizes, gap);
    BehavesInBody(r, size, nvars, npv, sizes, gap, call);
    RuleIsOk(r, vt, p, sizes, vt', size, cells, m0.w.spb, gap, stack, call);
    AllocatedOk(r, size, nvars, npv, cells, nm, m0);
    var model := new Entry[size](_ => Nil);
    var toDo := new int[stack];
    hc := new HC.Compiler(model, vtbl, toDo, r.head.args, e, e - npv, adst, F, nm, unify, Allocated(m0, F.SPstart));
    ToDoFits(r, size, nvars, stack);
    bc := CompRule(hc, PlanOf(r, size, npv, sizes1), b, call);
    GoalsOfBody(r, size, nvars, npv, sizes, gap);
    if !hc.m.failed {
      RuleCompiles(r, vt, p, sizes, vt', size, cells, m0.w.spb, gap, bc.table);
      SizesShrink(r, vt, p, sizes, 0);
      PlaceOf(r, nvars, npv, sizes, size, gap, 0);
      forall k: nat | k < |bc.b.goals| ensures Foretold(r, vt, bc.b, k, bc.entries[k], bc.calls[k], bc.env) {
        assert bc.GoalDone(k, Run(hc.m.w, bc.prelude), bc.entries, bc.code, bc.calls, bc.env);
        IsForetold(r, vt, bc, k, bc.entries[k], bc.calls[k], bc.env);
      }
    }
  }

  lemma ToDoFits(r: Rule, size: int, nvars: nat, stack: int)
    requires r.Structs() && Spacious(r, size, nvars, stack)
    ensures H.RestTally(-1, r.head.args, 0) <= stack
  {
  }

  lemma GoalsOfBody(r: Rule, size: int, nvars: nat, npv: nat, sizes: seq<nat>, gap: Gap)
    requires r.Structs() && |r.goals| >= 2 && |sizes| == |r.goals| + 1
    ensures BodyOf(r, size, nvars, npv, sizes, gap).goals == r.goals[..|r.goals| - 1]
  {
  }
}
