/** Targets: each variable of a goal is meant for the first argument position it occurs in. */
module GoalTargets {
  import opened Wam
  import opened VarTable

  /** The argument cell of the first occurrence of `v` among `args[i..]`, or 0. */
  function FirstCell(args: seq<Term>, adst: int, v: nat, i: nat): (cell: int)
    requires i <= |args|
    decreases |args| - i
  {
    if i == |args| then 0
    else if args[i] == Var(v) then adst + i
    else FirstCell(args, adst, v, i + 1)
  }

  lemma {:induction false} FirstCellIsFirst(args: seq<Term>, adst: int, v: nat, i: nat)
    requires i <= |args| && adst > 0
    ensures var c := FirstCell(args, adst, v, i);
            if c == 0 then forall j | i <= j < |args| :: args[j] != Var(v)
            else adst + i <= c < adst + |args| && args[c - adst] == Var(v)
                 && forall j | i <= j < c - adst :: args[j] != Var(v)
    decreases |args| - i
  {
    if i < |args| { FirstCellIsFirst(args, adst, v, i + 1); }
  }

  /** Different variables are meant for different cells. */
  lemma FirstCellsDiffer(args: seq<Term>, adst: int, u: nat, v: nat)
    requires adst > 0 && FirstCell(args, adst, u, 0) == FirstCell(args, adst, v, 0) != 0
    ensures u == v
  {
    FirstCellIsFirst(args, adst, u, 0);
    FirstCellIsFirst(args, adst, v, 0);
  }

  /** The target that a variable has once all arguments from the first on have been looked at:
      one it has already is kept. */
  function TargetFor(args: seq<Term>, adst: int, v: nat, i: VarInf): VarInf {
    if i.target != 0 then i else i.(target := FirstCell(args, adst, v, 0))
  }

  method InitOnlyTargets(vtbl: array<VarInf>, args: seq<Term>, adst: int, goalnumber: int, firstgoalnumber: int)
    requires adst > 0 && forall k | 0 <= k < |args| && args[k].Var? :: args[k].v < vtbl.Length
    modifies vtbl
    ensures forall v: nat | v < vtbl.Length ::
              vtbl[v] == TargetFor(args, adst, v, old(vtbl[v]).(target := if goalnumber >= firstgoalnumber then 0
                                                                          else old(vtbl[v]).target))
    ensures goalnumber >= firstgoalnumber ==>
              forall u: nat, v: nat | u < vtbl.Length && v < vtbl.Length && vtbl[u].target == vtbl[v].target != 0 :: u == v
  {
    if goalnumber >= firstgoalnumber {
      for i := 0 to vtbl.Length
        invariant forall v: nat | v < vtbl.Length ::
                    vtbl[v] == if v < i then old(vtbl[v]).(target := 0) else old(vtbl[v])
      {
        vtbl[i] := vtbl[i].(target := 0);
      }
    }
    ghost var cleared := vtbl[..];
    for i := 0 to |args|
      invariant |cleared| == vtbl.Length
      invariant forall v: nat | v < vtbl.Length :: Scanned(args, adst, v, i, cleared[v], vtbl[v])
    {
      if args[i].Var? && vtbl[args[i].v].target == 0 {
        vtbl[args[i].v] := vtbl[args[i].v].(target := adst + i);
      }
    }
    forall v: nat | v < vtbl.Length ensures vtbl[v] == TargetFor(args, adst, v, cleared[v]) {
      assert Scanned(args, adst, v, |args|, cleared[v], vtbl[v]);
      FirstCellIsFirst(args, adst, v, 0);
    }
    if goalnumber >= firstgoalnumber {
      forall u: nat, v: nat | u < vtbl.Length && v < vtbl.Length && vtbl[u].target == vtbl[v].target != 0 ensures u == v {
        FirstCellsDiffer(args, adst, u, v);
      }
    }
  }

  /** `now` is `was`, with the first of the first `i` argument positions noted. */
  predicate Scanned(args: seq<Term>, adst: int, v: nat, i: nat, was: VarInf, now: VarInf)
    requires i <= |args|
  {
    && now == was.(target := now.target)
    && (was.target != 0 ==> now == was)
    && (was.target == 0 && now.target == 0 ==> forall j | 0 <= j < i :: args[j] != Var(v))
    && (was.target == 0 && now.target != 0 ==>
          adst <= now.target < adst + i && args[now.target - adst] == Var(v)
          && forall j | 0 <= j < now.target - adst :: args[j] != Var(v))
  }
}
