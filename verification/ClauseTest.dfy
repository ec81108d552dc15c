/** Which goals of a clause go wrong: a test on what has been found out about its variables and on
    the machine variables that are exposed when the goal is entered. */
module ClauseTest {
  import opened Wam
  import opened VarTable
  import opened VarProc
  import opened GoalDanger
  import opened GoalSpill
  import opened GoalTargets
  import opened ClauseEntry

  /** The first part of the clause to have `v` has it outside structures only; for the head, it is
      enough that `v` is one of the arguments. */
  predicate Plain(r: Rule, i: VarInf, v: nat) {
    if i.firstocc <= 0 then r.head.Struct? && Var(v) in r.head.args
    else i.firstocc <= |r.goals| && BuiltTally(v, r.Part(i.firstocc), |Kids(r.Part(i.firstocc))|) == 0
  }

  /** What is watched of `v` when goal `k` is entered, with the environment at `e` and the arguments
      from `adst` on: its place while it is permanent and needed, whether it has a home, how often
      it has occurred, the argument cell it is meant for, and its value if that has to be made safe. */
  function WatchedOf(r: Rule, i: VarInf, e: int, adst: int, k: nat, env: Env, v: nat): Info
    requires r.Structs() && k < |r.goals|
  {
    var n := r.Upto(v, k);
    Info(if i.pvnum != 0 && i.lastocc > k then e - i.pvnum else -1,
         n > 0 || i.lastocc <= k || i.pvnum != 0, n, i.noccurences,
         FirstCell(r.goals[k].args, adst, v, 0), i.firstocc,
         if n > 0 && i.lastocc > k && Plain(r, i, v) && v in env then env[v] else Junk)
  }

  function ClauseWatch(r: Rule, vt: seq<VarInf>, e: int, adst: int, k: nat, env: Env, exposed: set<nat>): Watch
    requires r.Structs() && k < |r.goals|
  {
    Watch(seq(|vt|, v requires 0 <= v < |vt| => WatchedOf(r, vt[v], e, adst, k, env, v)), exposed, false)
  }

  /** Goal `k` pushes a variable into an open structure. */
  ghost predicate GoesWrong(r: Rule, vt: seq<VarInf>, e: int, adst: int, k: nat, env: Env, exposed: set<nat>)
    requires r.Structs() && k < |r.goals|
  {
    Collision(ClauseWatch(r, vt, e, adst, k, env, exposed), GoalEvents(r.goals[k].args, adst, |r.goals[k].args|))
  }

  /** Goal `k` is the first part to have `v`, a permanent variable, and has it outside structures only. */
  predicate MetAsArgument(r: Rule, i: VarInf, k: nat, v: nat) {
    i.firstocc == k + 1 && i.pvnum != 0 && Plain(r, i, v)
  }

  /** Such a variable is exposed at the call exactly if no choice point protects its cell. */
  predicate ExposedNew(r: Rule, i: VarInf, e: int, k: nat, v: nat, env: Env, m: Machine) {
    MetAsArgument(r, i, k, v) ==> v in env && env[v].CVar? && (env[v].id in Exposed(m) <==> e - i.pvnum < m.spb)
  }

  // ---- the body tells what the clause tells ----

  predicate Starts(r: Rule, was: VarInf, now: VarInf, v: nat) {
    && now.firstocc == was.firstocc && now.noccurences == was.noccurences && now.pvnum == was.pvnum
    && now.usecnt == r.Upto(v, 0)
    && (r.Upto(v, 0) < was.noccurences ==> (now.unsafe <==> r.Upto(v, 0) == 0 || (r.head.Struct? && Var(v) in r.head.args)))
    && (now.pvnum != 0 ==> !IsTemp(was, 1))
  }

  predicate SameGoal(r: Rule, nvars: nat, b: Body, k: nat)
    requires b.Shaped() && k < |b.goals| <= |r.goals|
  {
    b.goals[k] == r.goals[k] && |b.totals[k]| == nvars && forall v: nat | v < nvars :: b.totals[k][v] == r.Upto(v, k + 1)
  }

  /** `b` are goals of `r`, and `table` is what the head leaves of the table `vt`. */
  ghost predicate Compiles(r: Rule, vt: seq<VarInf>, b: Body, table: seq<VarInf>) {
    && r.Structs() && b.Shaped() && |b.goals| <= |r.goals| && |table| == |vt|
    && (forall v: nat | v < |vt| :: FoundAt(r, vt[v], v) && Starts(r, vt[v], table[v], v))
    && (forall k: nat | k < |b.goals| :: SameGoal(r, |vt|, b, k))
  }

  lemma BeforeIs(r: Rule, vt: seq<VarInf>, b: Body, table: seq<VarInf>, k: nat, v: nat)
    requires Compiles(r, vt, b, table) && k <= |b.goals| && v < |vt|
    ensures Before(b, table, k, v) == r.Upto(v, k)
  {
    if k > 0 { assert SameGoal(r, |vt|, b, k - 1); } else { assert Starts(r, vt[v], table[v], v); }
  }

  lemma {:induction false} BareIs(r: Rule, vt: seq<VarInf>, b: Body, table: seq<VarInf>, k: nat, v: nat)
    requires Compiles(r, vt, b, table) && k <= |b.goals| && v < |vt| && r.Upto(v, 0) < vt[v].noccurences
    ensures Bare(b, table, k, v) <==> r.Upto(v, k) == 0 || Plain(r, vt[v], v)
  {
    hide Tally, BuiltTally, FoundAt, Compiles;
    CompilesAt(r, vt, b, table, v);
    SpanAt(r, vt[v], v, k);
    if k > 0 {
      BareIs(r, vt, b, table, k - 1, v);
      BeforeIs(r, vt, b, table, k - 1, v);
      SpanAt(r, vt[v], v, k - 1);
      BareNext(r, vt, b, table, k, v);
    }
  }

  lemma CompilesAt(r: Rule, vt: seq<VarInf>, b: Body, table: seq<VarInf>, v: nat)
    requires Compiles(r, vt, b, table) && v < |vt|
    ensures r.Structs() && b.Shaped() && |b.goals| <= |r.goals| && |table| == |vt|
    ensures FoundAt(r, vt[v], v) && Starts(r, vt[v], table[v], v)
  {
  }

  lemma BareNext(r: Rule, vt: seq<VarInf>, b: Body, table: seq<VarInf>, k: nat, v: nat)
    requires Compiles(r, vt, b, table) && 0 < k <= |b.goals|
    ensures k <= |r.goals| && b.goals[k - 1] == r.Part(k) && r.Upto(v, k) == r.In(v, k) + r.Upto(v, k - 1)
    ensures BuiltTally(v, r.Part(k), |Kids(r.Part(k))|) <= r.In(v, k)
  {
    assert SameGoal(r, |vt|, b, k - 1);
  }

  lemma InfoIs(r: Rule, vt: seq<VarInf>, b: Body, table: seq<VarInf>, k: nat, env: Env, v: nat)
    requires Compiles(r, vt, b, table) && k < |b.goals| && v < |vt|
    ensures EntryInfo(b, table, k, env, v) == WatchedOf(r, vt[v], b.E, b.Adst(k), k, env, v)
  {
    hide Tally, BuiltTally, FoundAt, Bare, Before, Plain, FirstCell;
    CompilesAt(r, vt, b, table, v);
    assert SameGoal(r, |vt|, b, k);
    SpanAt(r, vt[v], v, k);
    NoneBetween(r, v, 0, k);
    BeforeIs(r, vt, b, table, k, v);
    if r.Upto(v, k) < vt[v].noccurences { BareIs(r, vt, b, table, k, v); }
  }

  /** What the entry of a goal is like is told by the clause. */
  lemma WatchIs(r: Rule, vt: seq<VarInf>, b: Body, table: seq<VarInf>, k: nat, env: Env, exposed: set<nat>)
    requires Compiles(r, vt, b, table) && k < |b.goals|
    ensures EntryWatch(b, table, k, env, exposed) == ClauseWatch(r, vt, b.E, b.Adst(k), k, env, exposed)
  {
    hide EntryInfo, WatchedOf;
    var w, w' := EntryWatch(b, table, k, env, exposed), ClauseWatch(r, vt, b.E, b.Adst(k), k, env, exposed);
    forall v: nat | v < |vt| ensures w.info[v] == w'.info[v] { InfoIs(r, vt, b, table, k, env, v); }
    assert w.info == w'.info;
  }

  lemma NewIs(r: Rule, vt: seq<VarInf>, b: Body, table: seq<VarInf>, k: nat, v: nat, env: Env, m: Machine)
    requires Compiles(r, vt, b, table) && k < |b.goals| && v < |vt| && ExposedAt(b, table, k, v, env, m)
    ensures ExposedNew(r, vt[v], b.E, k, v, env, m)
  {
    hide Tally, BuiltTally, FoundAt, Bare, Before, Plain;
    CompilesAt(r, vt, b, table, v);
    SpanAt(r, vt[v], v, k);
    SpanAt(r, vt[v], v, k + 1);
    NoneBetween(r, v, 0, k);
    NoneBetween(r, v, k, k + 1);
    BeforeIs(r, vt, b, table, k, v);
    BeforeIs(r, vt, b, table, k + 1, v);
    if r.Upto(v, 0) < vt[v].noccurences { BareIs(r, vt, b, table, k + 1, v); }
  }
}
