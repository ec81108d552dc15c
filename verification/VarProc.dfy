/** What is found out about the variables of a clause before it is compiled: where each occurs
    first and last and how often, which ones are permanent, their places in the environment,
    and how much of the environment is kept over each call. */
module VarProc {
  import opened Wam
  import opened VarTable
  import HS = HeadStart

  const PERMOFFSET := 1

  // ---- occurrences ----

  lemma LeafPartOf(v: nat, t: Term, k: nat)
    requires Compound(t) && k < |Kids(t)|
    ensures !Built(Kids(t)[k]) ==> Tally(v, Kids(t)[k]) == Unit(v, Kids(t)[k])
  {
    if !Built(Kids(t)[k]) { SimpleTally(Kids(t)[k]); }
  }

  /** Built subterms below `i` and leaves from `i` on make up what comes before and after. */
  lemma {:induction false} Shares(v: nat, t: Term, i: nat)
    requires Compound(t) && i <= |Kids(t)|
    ensures BuiltTally(v, t, |Kids(t)|) - BuiltTally(v, t, i) + LeafTally(v, Kids(t), i) == HS.Occurrences(v, Kids(t), i)
    decreases |Kids(t)| - i
  {
    if i < |Kids(t)| {
      Shares(v, t, i + 1);
      LeafPartOf(v, t, i);
    }
  }

  /** A variable occurs in a compound term as often as in its parts. */
  lemma TallySum(v: nat, t: Term)
    requires Compound(t)
    ensures Tally(v, t) == HS.Occurrences(v, Kids(t), 0)
  {
    Shares(v, t, 0);
  }

  lemma {:induction false} OccursMember(v: nat, args: seq<Term>, i: nat)
    requires i <= |args|
    ensures Var(v) in args[i..] ==> HS.Occurrences(v, args, i) > 0
    decreases |args| - i
  {
    if i < |args| {
      OccursMember(v, args, i + 1);
      SimpleTally(Var(v));
      assert args[i..] == [args[i]] + args[i + 1..];
    }
  }

  // ---- walking the clause ----

  /** What `n` more occurrences in part `gn` of the clause do to an entry. */
  function Met(i: VarInf, n: nat, top: bool, gn: int): VarInf {
    if n == 0 then i
    else
      i.(firstocc := if i.firstocc == -1 then gn else i.firstocc, istoplevinhead := i.istoplevinhead || top,
         lastocc := gn, noccurences := n + if i.firstocc == -1 then 0 else i.noccurences)
  }

  lemma MetTwice(i: VarInf, n: nat, top: bool, n': nat, top': bool, gn: int)
    requires gn >= 0 && (n == 0 ==> !top) && (n' == 0 ==> !top')
    ensures Met(Met(i, n, top, gn), n', top', gn) == Met(i, n + n', top || top', gn)
  {
  }

  /** `t`, at depth `l` of part `gn`, is the variable `v` as an argument of the head, or has it as
      an argument of its own and is the head. */
  predicate TopIn(v: nat, t: Term, l: int, gn: int) {
    gn == 0 && ((l == 0 && t == Var(v)) || (l == -1 && t.Struct? && Var(v) in t.args))
  }

  predicate Walked(was: VarInf, now: VarInf, v: nat, t: Term, l: int, gn: int) {
    now == Met(was, Tally(v, t), TopIn(v, t, l, gn), gn)
  }

  ghost predicate Known(t: Term, nvars: nat) {
    forall v: nat | v >= nvars :: Tally(v, t) == 0
  }

  lemma KidKnown(t: Term, k: nat, nvars: nat)
    requires Compound(t) && k < |Kids(t)| && Known(t, nvars)
    ensures Known(Kids(t)[k], nvars)
  {
    forall v: nat | v >= nvars ensures Tally(v, Kids(t)[k]) == 0 { KidTally(v, t, k); }
  }

  method VwalkVo(vtbl: array<VarInf>, vo: nat, l: int, gn: int)
    requires gn >= 0 && vo < vtbl.Length
    modifies vtbl
    ensures forall v: nat | v < vtbl.Length :: Walked(old(vtbl[v]), vtbl[v], v, Var(vo), l, gn)
  {
    SimpleTally(Var(vo));
    if vtbl[vo].firstocc == -1 {
      vtbl[vo] := vtbl[vo].(firstocc := gn, noccurences := 0);
    }
    vtbl[vo] := vtbl[vo].(istoplevinhead := vtbl[vo].istoplevinhead || (l == 0 && gn == 0));
    vtbl[vo] := vtbl[vo].(lastocc := gn);
    vtbl[vo] := vtbl[vo].(noccurences := vtbl[vo].noccurences + 1);
  }

  method Vwalk(vtbl: array<VarInf>, t: Term, l: int, gn: int)
    requires gn >= 0 && l >= -1 && (l == -1 ==> t.Struct?) && Known(t, vtbl.Length)
    modifies vtbl
    ensures forall v: nat | v < vtbl.Length :: Walked(old(vtbl[v]), vtbl[v], v, t, l, gn)
    decreases t, 1
  {
    match t
    case Struct(_, _) => VwalkTerm(vtbl, t, l, gn);
    case List(_, _) => VwalkList(vtbl, t, l, gn);
    case Var(vo) =>
      SimpleTally(t);
      assert Tally(vo, t) == 1;
      VwalkVo(vtbl, vo, l, gn);
    case _ => SimpleTally(t);
  }

  /** The first `i` arguments of `t` have been walked. */
  predicate PartWalked(was: VarInf, now: VarInf, v: nat, t: Term, i: nat, l: int, gn: int)
    requires t.Struct? && i <= |t.args|
  {
    HS.Occurrences(v, t.args, i) <= HS.Occurrences(v, t.args, 0) &&
    now == Met(was, HS.Occurrences(v, t.args, 0) - HS.Occurrences(v, t.args, i),
               gn == 0 && l == -1 && Var(v) in t.args[..i], gn)
  }

  lemma PartStep(was: VarInf, now: VarInf, now': VarInf, v: nat, t: Term, i: nat, l: int, gn: int)
    requires gn >= 0 && l >= -1 && t.Struct? && i < |t.args| && PartWalked(was, now, v, t, i, l, gn)
    requires Walked(now, now', v, t.args[i], l + 1, gn)
    ensures PartWalked(was, now', v, t, i + 1, l, gn)
  {
    var arg, n := t.args[i], HS.Occurrences(v, t.args, 0) - HS.Occurrences(v, t.args, i);
    assert t.args[..i + 1] == t.args[..i] + [arg];
    PrefixOccurs(v, t.args, i);
    if arg == Var(v) { SimpleTally(arg); }
    MetTwice(was, n, gn == 0 && l == -1 && Var(v) in t.args[..i], Tally(v, arg), TopIn(v, arg, l + 1, gn), gn);
  }

  lemma {:induction false} PrefixOccurs(v: nat, args: seq<Term>, i: nat)
    requires i <= |args|
    ensures HS.Occurrences(v, args, i) <= HS.Occurrences(v, args, 0)
    ensures Var(v) in args[..i] ==> HS.Occurrences(v, args, i) < HS.Occurrences(v, args, 0)
  {
    if i > 0 {
      PrefixOccurs(v, args, i - 1);
      assert args[..i] == args[..i - 1] + [args[i - 1]];
      SimpleTally(Var(v));
    }
  }

  method VwalkTerm(vtbl: array<VarInf>, t: Term, l: int, gn: int)
    requires gn >= 0 && l >= -1 && t.Struct? && Known(t, vtbl.Length)
    modifies vtbl
    ensures forall v: nat | v < vtbl.Length :: Walked(old(vtbl[v]), vtbl[v], v, t, l, gn)
    decreases t, 0
  {
    hide Walked, Met, Known, TopIn;
    forall v: nat | v < vtbl.Length ensures PartWalked(old(vtbl[v]), vtbl[v], v, t, 0, l, gn) {
      PartStart(vtbl[v], v, t, l, gn);
    }
    for i := 0 to |t.args|
      invariant forall v: nat | v < vtbl.Length :: PartWalked(old(vtbl[v]), vtbl[v], v, t, i, l, gn)
    {
      ghost var before, i1 := vtbl[..], i + 1;
      assert Kids(t)[i] == t.args[i];
      KidKnown(t, i, vtbl.Length);
      Vwalk(vtbl, t.args[i], l + 1, gn);
      forall v: nat | v < vtbl.Length ensures PartWalked(old(vtbl[v]), vtbl[v], v, t, i1, l, gn) {
        PartStep(old(vtbl[v]), before[v], vtbl[v], v, t, i, l, gn);
      }
    }
    forall v: nat | v < vtbl.Length ensures Walked(old(vtbl[v]), vtbl[v], v, t, l, gn) {
      PartEnd(old(vtbl[v]), vtbl[v], v, t, l, gn);
    }
  }

  lemma PartStart(i: VarInf, v: nat, t: Term, l: int, gn: int)
    requires t.Struct?
    ensures PartWalked(i, i, v, t, 0, l, gn)
  {
  }

  lemma PartEnd(was: VarInf, now: VarInf, v: nat, t: Term, l: int, gn: int)
    requires t.Struct? && l >= -1 && PartWalked(was, now, v, t, |t.args|, l, gn)
    ensures Walked(was, now, v, t, l, gn)
  {
    TallySum(v, t);
    assert t.args[..|t.args|] == t.args;
  }

  /** The cars are walked along the list, then whatever it ends in. */
  method VwalkList(vtbl: array<VarInf>, list: Term, l: int, gn: int)
    requires gn >= 0 && l >= 0 && list.List? && Known(list, vtbl.Length)
    modifies vtbl
    ensures forall v: nat | v < vtbl.Length :: Walked(old(vtbl[v]), vtbl[v], v, list, l, gn)
    decreases list, 0
  {
    hide Met, Known, TopIn;
    var t := list;
    forall v: nat | v < vtbl.Length ensures AlongList(old(vtbl[v]), vtbl[v], v, list, t, gn) { NotYetMet(vtbl[v], gn); }
    while t.List?
      invariant (t == list || t < list) && (t.List? || t < list) && Known(t, vtbl.Length)
      invariant forall v: nat | v < vtbl.Length :: AlongList(old(vtbl[v]), vtbl[v], v, list, t, gn)
      decreases t
    {
      ghost var before := vtbl[..];
      assert Kids(t)[0] == t.car && Kids(t)[1] == t.cdr;
      KidKnown(t, 0, vtbl.Length);
      KidKnown(t, 1, vtbl.Length);
      Vwalk(vtbl, t.car, l + 1, gn);
      forall v: nat | v < vtbl.Length ensures AlongList(old(vtbl[v]), vtbl[v], v, list, t.cdr, gn) {
        ListStep(old(vtbl[v]), before[v], vtbl[v], v, list, t, l, gn);
      }
      t := t.cdr;
    }
    ghost var before := vtbl[..];
    Vwalk(vtbl, t, l + 1, gn);
    forall v: nat | v < vtbl.Length ensures Walked(old(vtbl[v]), vtbl[v], v, list, l, gn) {
      ListEnd(old(vtbl[v]), before[v], vtbl[v], v, list, t, l, gn);
    }
  }

  predicate AlongList(was: VarInf, now: VarInf, v: nat, list: Term, t: Term, gn: int) {
    Tally(v, t) <= Tally(v, list) && now == Met(was, Tally(v, list) - Tally(v, t), false, gn)
  }

  lemma NotYetMet(i: VarInf, gn: int)
    ensures Met(i, 0, false, gn) == i
  {
  }

  lemma ListTally(v: nat, t: Term)
    requires t.List?
    ensures Tally(v, t) == Tally(v, t.car) + Tally(v, t.cdr)
  {
    TallySum(v, t);
    assert HS.Occurrences(v, Kids(t), 2) == 0;
    assert HS.Occurrences(v, Kids(t), 1) == Tally(v, t.cdr);
  }

  lemma ListStep(was: VarInf, now: VarInf, now': VarInf, v: nat, list: Term, t: Term, l: int, gn: int)
    requires gn >= 0 && l >= 0 && t.List? && AlongList(was, now, v, list, t, gn)
    requires Walked(now, now', v, t.car, l + 1, gn)
    ensures AlongList(was, now', v, list, t.cdr, gn)
  {
    ListTally(v, t);
    MetTwice(was, Tally(v, list) - Tally(v, t), false, Tally(v, t.car), false, gn);
  }

  lemma ListEnd(was: VarInf, now: VarInf, now': VarInf, v: nat, list: Term, t: Term, l: int, gn: int)
    requires gn >= 0 && l >= 0 && list.List? && AlongList(was, now, v, list, t, gn)
    requires Walked(now, now', v, t, l + 1, gn)
    ensures Walked(was, now', v, list, l, gn)
  {
    MetTwice(was, Tally(v, list) - Tally(v, t), false, Tally(v, t), false, gn);
  }

  // ---- a whole clause ----

  /** Head and goals; one without arguments is a structure with none. */
  datatype Rule = Rule(head: Term, goals: seq<Term>) {
    predicate Structs() {
      head.Struct? && forall k | 0 <= k < |goals| :: goals[k].Struct?
    }

    /** The head is part 0, goal `k` is part `k`. */
    function Part(k: nat): Term
      requires k <= |goals|
    {
      if k == 0 then head else goals[k - 1]
    }

    function In(v: nat, k: nat): nat
      requires k <= |goals|
    {
      Tally(v, Part(k))
    }

    function Upto(v: nat, k: nat): nat
      requires k <= |goals|
    {
      In(v, k) + if k == 0 then 0 else Upto(v, k - 1)
    }

    ghost predicate AllKnown(nvars: nat) {
      forall k: nat | k <= |goals| :: PartKnown(nvars, k)
    }

    ghost predicate PartKnown(nvars: nat, k: nat)
      requires k <= |goals|
    {
      Known(Part(k), nvars)
    }
  }

  /** No occurrence of `v` in the parts from `lo` up to `hi`. */
  ghost predicate None(r: Rule, v: nat, lo: int, hi: int) {
    forall k: nat | lo <= k < hi && k <= |r.goals| :: r.In(v, k) == 0
  }

  /** Where `v` occurs first and last in the parts up to `k`. */
  ghost predicate Span(r: Rule, v: nat, k: nat, first: int, last: int)
    requires k <= |r.goals|
  {
    if r.Upto(v, k) == 0 then first == last == -1
    else
      && 0 <= first <= last <= k && r.In(v, first) > 0 && r.In(v, last) > 0
      && None(r, v, 0, first) && None(r, v, last + 1, k + 1)
  }

  /** What is known of `v` when the parts up to `k` have been walked. */
  ghost predicate Facts(r: Rule, i: VarInf, v: nat, k: nat)
    requires r.head.Struct? && k <= |r.goals|
  {
    && i == VarInf(i.firstocc, i.istoplevinhead, i.lastocc, r.Upto(v, k), 0, 0, 0, 0, true)
    && (i.istoplevinhead <==> Var(v) in r.head.args) && Span(r, v, k, i.firstocc, i.lastocc)
  }

  lemma FactsStart(r: Rule, i: VarInf, v: nat, i': VarInf)
    requires r.head.Struct? && i == VarInf(-1, false, -1, 0, 0, 0, 0, 0, true) && Walked(i, i', v, r.head, -1, 0)
    ensures Facts(r, i', v, 0)
  {
    TallySum(v, r.head);
    OccursMember(v, r.head.args, 0);
    assert r.head.args[0..] == r.head.args;
  }

  lemma {:induction false} NoneBefore(r: Rule, v: nat, k: nat)
    requires k <= |r.goals| && r.Upto(v, k) == 0
    ensures None(r, v, 0, k + 1)
  {
    if k > 0 { NoneBefore(r, v, k - 1); }
  }

  lemma FactsStep(r: Rule, i: VarInf, v: nat, k: nat, i': VarInf)
    requires r.Structs() && k + 1 <= |r.goals| && Facts(r, i, v, k) && Walked(i, i', v, r.goals[k], -1, k + 1)
    ensures Facts(r, i', v, k + 1)
  {
    var k1 := k + 1;
    assert r.In(v, k1) == Tally(v, r.goals[k]) && r.Upto(v, k1) == r.In(v, k1) + r.Upto(v, k);
    if r.Upto(v, k) == 0 { NoneBefore(r, v, k); }
  }

  method InitVtbl(vtbl: array<VarInf>)
    modifies vtbl
    ensures forall v: nat | v < vtbl.Length :: vtbl[v] == VarInf(-1, false, -1, 0, 0, 0, 0, 0, true)
  {
    for i := 0 to vtbl.Length
      invariant forall v: nat | v < i :: vtbl[v] == VarInf(-1, false, -1, 0, 0, 0, 0, 0, true)
    {
      vtbl[i] := VarInf(-1, false, -1, 0, 0, 0, 0, 0, true);
    }
  }

  method VwalkRule(vtbl: array<VarInf>, r: Rule)
    requires r.Structs() && r.AllKnown(vtbl.Length)
    requires forall v: nat | v < vtbl.Length :: vtbl[v] == VarInf(-1, false, -1, 0, 0, 0, 0, 0, true)
    modifies vtbl
    ensures forall v: nat | v < vtbl.Length :: Facts(r, vtbl[v], v, |r.goals|)
  {
    hide Walked, Facts, Known;
    assert r.PartKnown(vtbl.Length, 0);
    ghost var start := vtbl[..];
    Vwalk(vtbl, r.head, -1, 0);
    forall v: nat | v < vtbl.Length ensures Facts(r, vtbl[v], v, 0) { FactsStart(r, start[v], v, vtbl[v]); }
    for i := 0 to |r.goals|
      invariant forall v: nat | v < vtbl.Length :: Facts(r, vtbl[v], v, i)
    {
      ghost var before, k := vtbl[..], i + 1;
      assert r.PartKnown(vtbl.Length, k);
      Vwalk(vtbl, r.goals[i], -1, i + 1);
      forall v: nat | v < vtbl.Length ensures Facts(r, vtbl[v], v, k) { FactsStep(r, before[v], v, i, vtbl[v]); }
    }
  }

  // ---- permanent variables ----

  predicate IsTemp(i: VarInf, fgn: int) {
    (i.firstocc == 0 && i.lastocc <= fgn) || i.firstocc == i.lastocc || i.istoplevinhead
  }

  predicate IsListed(p: seq<nat>, vt: seq<VarInf>, fgn: int, k: int)
    requires 0 <= k < |p|
  {
    p[k] < |vt| && !IsTemp(vt[p[k]], fgn)
  }

  ghost predicate Distinct(p: seq<nat>) {
    forall i, j | 0 <= i < j < |p| :: p[i] != p[j]
  }

  /** `p` lists every permanent variable below `n` once, and nothing else. */
  ghost predicate Lists(p: seq<nat>, vt: seq<VarInf>, fgn: int, n: nat) {
    && (forall k | 0 <= k < |p| :: IsListed(p, vt, fgn, k) && p[k] < n) && Distinct(p)
    && (forall v: nat | v < n && v < |vt| && !IsTemp(vt[v], fgn) :: v in p)
  }

  lemma {:induction false} Elements(p: seq<nat>)
    requires Distinct(p)
    ensures |set k | 0 <= k < |p| :: p[k]| == |p|
  {
    var s := set k | 0 <= k < |p| :: p[k];
    if p == [] {
      assert s == {};
    } else {
      var n := |p| - 1;
      var t := set k | 0 <= k < n :: p[k];
      Elements(p[..n]);
      assert t == set k | 0 <= k < |p[..n]| :: p[..n][k];
      assert s == t + {p[n]};
    }
  }

  lemma {:induction false} Subset<T>(a: set<T>, b: set<T>)
    requires a <= b
    ensures |a| <= |b|
  {
    if a != {} {
      var x :| x in a;
      Subset(a - {x}, b - {x});
    }
  }

  method ListPermanent(vtbl: array<VarInf>, ptb: array<nat>, fgn: int) returns (npv: nat)
    requires ptb.Length >= vtbl.Length
    modifies ptb
    ensures npv <= vtbl.Length && Lists(ptb[..npv], vtbl[..], fgn, vtbl.Length)
  {
    npv := 0;
    for i := 0 to vtbl.Length
      invariant npv <= i && Lists(ptb[..npv], vtbl[..], fgn, i)
    {
      ghost var p := ptb[..npv];
      if !IsTemp(vtbl[i], fgn) {
        ptb[npv] := i;
        npv := npv + 1;
        assert ptb[..npv] == p + [i];
        OneMore(p, vtbl[..], fgn, i);
      } else {
        assert ptb[..npv] == p;
        NoMore(p, vtbl[..], fgn, i);
      }
    }
  }

  lemma OneMore(p: seq<nat>, vt: seq<VarInf>, fgn: int, i: nat)
    requires Lists(p, vt, fgn, i) && i < |vt| && !IsTemp(vt[i], fgn)
    ensures Lists(p + [i], vt, fgn, i + 1)
  {
    var q := p + [i];
    forall k | 0 <= k < |q| ensures IsListed(q, vt, fgn, k) && q[k] < i + 1 {
      if k < |p| { assert IsListed(p, vt, fgn, k); }
    }
  }

  lemma NoMore(p: seq<nat>, vt: seq<VarInf>, fgn: int, i: nat)
    requires Lists(p, vt, fgn, i) && i < |vt| && IsTemp(vt[i], fgn)
    ensures Lists(p, vt, fgn, i + 1)
  {
    forall k | 0 <= k < |p| ensures IsListed(p, vt, fgn, k) && p[k] < i + 1 { assert IsListed(p, vt, fgn, k); }
  }

  lemma SwapLists(p: seq<nat>, q: seq<nat>, vt: seq<VarInf>, fgn: int, n: nat, i: int, j: int)
    requires Lists(p, vt, fgn, n) && 0 <= i < j < |p| && q == p[i := p[j]][j := p[i]]
    ensures Lists(q, vt, fgn, n)
  {
    forall k | 0 <= k < |q| ensures IsListed(q, vt, fgn, k) && q[k] < n {
      assert IsListed(p, vt, fgn, k) && IsListed(p, vt, fgn, i) && IsListed(p, vt, fgn, j);
    }
    forall v: nat | v < n && v < |vt| && !IsTemp(vt[v], fgn) ensures v in q {
      assert v in p;
      var k :| 0 <= k < |p| && p[k] == v;
      assert q[if k == i then j else if k == j then i else k] == v;
    }
  }

  predicate LaterFirst(p: seq<nat>, vt: seq<VarInf>, i: int, j: int)
    requires 0 <= i < |p| && 0 <= j < |p|
  {
    p[i] < |vt| && p[j] < |vt| && vt[p[i]].lastocc >= vt[p[j]].lastocc
  }

  /** The first `n` entries are in order, and no later one belongs before them. */
  ghost predicate Ordered(p: seq<nat>, vt: seq<VarInf>, n: int) {
    forall i, j | 0 <= i < j < |p| && i < n :: LaterFirst(p, vt, i, j)
  }

  /** The variables used last come first. */
  method SortByLastOcc(vtbl: array<VarInf>, ptb: array<nat>, npv: nat, ghost fgn: int)
    requires npv <= ptb.Length && Lists(ptb[..npv], vtbl[..], fgn, vtbl.Length)
    modifies ptb
    ensures Lists(ptb[..npv], vtbl[..], fgn, vtbl.Length) && Ordered(ptb[..npv], vtbl[..], npv)
  {
    hide Lists, Ordered;
    OrderedStart(ptb[..npv], vtbl[..]);
    var i := 0;
    while i < npv - 1
      invariant 0 <= i && (npv > 0 ==> i <= npv - 1) && Lists(ptb[..npv], vtbl[..], fgn, vtbl.Length)
      invariant Ordered(ptb[..npv], vtbl[..], i)
    {
      var j := i + 1;
      ListedNumbers(ptb[..npv], vtbl[..], fgn);
      while j < npv
        invariant i < j <= npv && Lists(ptb[..npv], vtbl[..], fgn, vtbl.Length) && Ordered(ptb[..npv], vtbl[..], i)
        invariant forall k | i < k < j :: LaterFirst(ptb[..npv], vtbl[..], i, k)
      {
        ghost var p := ptb[..npv];
        ListedNumbers(p, vtbl[..], fgn);
        assert p[i] == ptb[i] && p[j] == ptb[j];
        if vtbl[ptb[i]].lastocc < vtbl[ptb[j]].lastocc {
          ptb[i], ptb[j] := ptb[j], ptb[i];
          assert ptb[..npv] == p[i := p[j]][j := p[i]];
          SwapLists(p, ptb[..npv], vtbl[..], fgn, vtbl.Length, i, j);
          SwapOrders(p, ptb[..npv], vtbl[..], fgn, i, j);
        }
        j := j + 1;
      }
      OneInOrder(ptb[..npv], vtbl[..], i);
      i := i + 1;
    }
    LastInOrder(ptb[..npv], vtbl[..], i);
  }

  lemma OrderedStart(p: seq<nat>, vt: seq<VarInf>)
    ensures Ordered(p, vt, 0)
  {
  }

  lemma ListedNumbers(p: seq<nat>, vt: seq<VarInf>, fgn: int)
    requires Lists(p, vt, fgn, |vt|)
    ensures forall k | 0 <= k < |p| :: p[k] < |vt|
  {
    forall k | 0 <= k < |p| ensures p[k] < |vt| { assert IsListed(p, vt, fgn, k); }
  }

  lemma SwapOrders(p: seq<nat>, q: seq<nat>, vt: seq<VarInf>, fgn: int, i: int, j: int)
    requires Lists(p, vt, fgn, |vt|) && Ordered(p, vt, i) && 0 <= i < j < |p| && q == p[i := p[j]][j := p[i]]
    requires forall k | i < k < j :: LaterFirst(p, vt, i, k)
    requires p[i] < |vt| && p[j] < |vt| && vt[p[i]].lastocc < vt[p[j]].lastocc
    ensures Ordered(q, vt, i) && forall k | i < k <= j :: LaterFirst(q, vt, i, k)
  {
    forall a, b | 0 <= a < b < |q| && a < i ensures LaterFirst(q, vt, a, b) {
      assert LaterFirst(p, vt, a, b) && LaterFirst(p, vt, a, i) && LaterFirst(p, vt, a, j);
    }
    forall k | i < k <= j ensures LaterFirst(q, vt, i, k) {
      if k < j { assert LaterFirst(p, vt, i, k); }
    }
  }

  lemma OneInOrder(p: seq<nat>, vt: seq<VarInf>, i: int)
    requires 0 <= i < |p| && Ordered(p, vt, i) && forall k | i < k < |p| :: LaterFirst(p, vt, i, k)
    ensures Ordered(p, vt, i + 1)
  {
  }

  lemma LastInOrder(p: seq<nat>, vt: seq<VarInf>, i: int)
    requires Ordered(p, vt, i) && |p| - 1 <= i
    ensures Ordered(p, vt, |p|)
  {
  }

  /** Permanent variables are numbered in the order of `p`, the others not at all. */
  ghost predicate Numbered(vt: seq<VarInf>, p: seq<nat>) {
    && (forall k | 0 <= k < |p| :: NumberAt(vt, p, k))
    && (forall v: nat | v < |vt| && v !in p :: vt[v].pvnum == 0)
  }

  predicate NumberAt(vt: seq<VarInf>, p: seq<nat>, k: int)
    requires 0 <= k < |p|
  {
    p[k] < |vt| && vt[p[k]].pvnum == k + PERMOFFSET
  }

  predicate SameBut(i: VarInf, i': VarInf) {
    i' == i.(pvnum := i'.pvnum)
  }

  method NumberPermanent(vtbl: array<VarInf>, ptb: array<nat>, npv: nat, ghost fgn: int)
    requires npv <= ptb.Length && Lists(ptb[..npv], vtbl[..], fgn, vtbl.Length)
    requires forall v: nat | v < vtbl.Length :: vtbl[v].pvnum == 0
    modifies vtbl
    ensures Numbered(vtbl[..], ptb[..npv]) && forall v: nat | v < vtbl.Length :: SameBut(old(vtbl[v]), vtbl[v])
  {
    hide Lists;
    ghost var p := ptb[..npv];
    ListedNumbers(p, vtbl[..], fgn);
    ListedOnce(p, vtbl[..], fgn);
    for i := 0 to npv
      invariant Numbered(vtbl[..], p[..i]) && forall v: nat | v < vtbl.Length :: SameBut(old(vtbl[v]), vtbl[v])
    {
      ghost var before := vtbl[..];
      assert p[i] == ptb[i];
      vtbl[ptb[i]] := vtbl[ptb[i]].(pvnum := i + PERMOFFSET);
      NumberNext(before, vtbl[..], p, i);
    }
    assert p[..npv] == p;
  }

  lemma ListedOnce(p: seq<nat>, vt: seq<VarInf>, fgn: int)
    requires Lists(p, vt, fgn, |vt|)
    ensures Distinct(p)
  {
  }

  lemma NumberNext(vt: seq<VarInf>, vt': seq<VarInf>, p: seq<nat>, i: int)
    requires 0 <= i < |p| && Distinct(p) && Numbered(vt, p[..i]) && p[i] < |vt|
    requires vt' == vt[p[i] := vt[p[i]].(pvnum := i + PERMOFFSET)]
    ensures Numbered(vt', p[..i + 1])
  {
    var q := p[..i + 1];
    forall k | 0 <= k < |q| ensures NumberAt(vt', q, k) {
      if k < i { assert NumberAt(vt, p[..i], k) && p[..i][k] == p[k] && p[k] != p[i]; }
    }
    forall v: nat | v < |vt'| && v !in q ensures vt'[v].pvnum == 0 {
      assert q == p[..i] + [p[i]];
    }
  }

  /** All that is found out: `p` are the permanent variables in the order of their numbers. */
  ghost predicate Found(r: Rule, vt: seq<VarInf>, p: seq<nat>)
    requires r.head.Struct?
  {
    && (forall v: nat | v < |vt| :: FoundAt(r, vt[v], v))
    && Lists(p, vt, 1, |vt|) && Ordered(p, vt, |p|) && Numbered(vt, p)
  }

  ghost predicate FoundAt(r: Rule, i: VarInf, v: nat)
    requires r.head.Struct?
  {
    Facts(r, i.(pvnum := 0), v, |r.goals|)
  }

  lemma SameLists(p: seq<nat>, vt: seq<VarInf>, vt': seq<VarInf>, fgn: int)
    requires Lists(p, vt, fgn, |vt|) && Ordered(p, vt, |p|) && |vt'| == |vt|
    requires forall v: nat | v < |vt| :: SameBut(vt[v], vt'[v])
    ensures Lists(p, vt', fgn, |vt'|) && Ordered(p, vt', |p|)
  {
    forall k | 0 <= k < |p| ensures IsListed(p, vt', fgn, k) {
      assert IsListed(p, vt, fgn, k) && SameBut(vt[p[k]], vt'[p[k]]);
    }
    forall v: nat | v < |vt'| && !IsTemp(vt'[v], fgn) ensures v in p { assert SameBut(vt[v], vt'[v]); }
    forall i, j | 0 <= i < j < |p| ensures LaterFirst(p, vt', i, j) {
      assert LaterFirst(p, vt, i, j) && SameBut(vt[p[i]], vt'[p[i]]) && SameBut(vt[p[j]], vt'[p[j]]);
    }
  }

  /** Fills in the table of variables for a clause that does not begin with a cut, and gives the
      number of permanent variables. */
  method ClassifyVars(vtbl: array<VarInf>, r: Rule) returns (npv: nat, ghost p: seq<nat>)
    requires r.Structs() && r.AllKnown(vtbl.Length)
    modifies vtbl
    ensures npv == |p| <= vtbl.Length && Found(r, vtbl[..], p)
  {
    hide Lists, Ordered, Numbered, Facts;
    InitVtbl(vtbl);
    VwalkRule(vtbl, r);
    var ptb := new nat[vtbl.Length];
    npv := ListPermanent(vtbl, ptb, 1);
    SortByLastOcc(vtbl, ptb, npv, 1);
    p := ptb[..npv];
    ghost var walked := vtbl[..];
    NoNumbers(r, walked);
    NumberPermanent(vtbl, ptb, npv, 1);
    SameLists(p, walked, vtbl[..], 1);
    forall v: nat | v < vtbl.Length ensures FoundAt(r, vtbl[v], v) {
      assert Facts(r, walked[v], v, |r.goals|) && walked[v].pvnum == 0 && SameBut(walked[v], vtbl[v]);
      assert vtbl[v].(pvnum := 0) == walked[v];
    }
  }

  lemma NoNumbers(r: Rule, vt: seq<VarInf>)
    requires r.head.Struct? && forall v: nat | v < |vt| :: Facts(r, vt[v], v, |r.goals|)
    ensures forall v: nat | v < |vt| :: vt[v].pvnum == 0
  {
  }

  // ---- how much of the environment is kept over each call ----

  predicate Kept(i: VarInf, j: int) {
    i.pvnum != 0 && i.lastocc > j
  }

  function CountKept(vt: seq<VarInf>, n: nat, j: int): nat
    requires n <= |vt|
  {
    if n == 0 then 0 else CountKept(vt, n - 1, j) + if Kept(vt[n - 1], j) then 1 else 0
  }

  method ComputeCallEnvSizes(vtbl: array<VarInf>, sizes: array<nat>, ngoals: nat)
    requires sizes.Length == ngoals + 1 && forall v: nat | v < vtbl.Length :: vtbl[v].lastocc <= ngoals
    modifies sizes
    ensures sizes[0] == 0 && forall j | 0 < j <= ngoals :: sizes[j] == CountKept(vtbl[..], vtbl.Length, j)
  {
    for j := 0 to ngoals + 1
      invariant forall k | 0 <= k < j :: sizes[k] == 0
    {
      sizes[j] := 0;
    }
    for i := 0 to vtbl.Length
      invariant sizes[0] == 0 && forall j | 0 < j <= ngoals :: sizes[j] == CountKept(vtbl[..], i, j)
    {
      if vtbl[i].pvnum != 0 {
        var j := vtbl[i].lastocc - 1;
        while j > 0
          invariant j <= ngoals && sizes[0] == 0
          invariant j < 0 ==> vtbl[i].lastocc <= 0
          invariant j >= 0 ==> j < vtbl[i].lastocc
          invariant forall k | 0 < k <= ngoals ::
                      sizes[k] == CountKept(vtbl[..], i, k) + if j < k && Kept(vtbl[i], k) then 1 else 0
        {
          sizes[j] := sizes[j] + 1;
          j := j - 1;
        }
      }
    }
  }

  /** The permanent variables are those that are no argument of the head and occur in two parts
      of the clause, one of which is the second goal or a later one; head and first goal are
      one stretch. */
  lemma PermanentExactly(r: Rule, vt: seq<VarInf>, p: seq<nat>, v: nat)
    requires r.head.Struct? && Found(r, vt, p) && v < |vt|
    ensures vt[v].pvnum != 0 <==> v in p
    ensures v in p <==> Var(v) !in r.head.args &&
                        exists i: nat, k: nat :: i < k <= |r.goals| && k >= 2 && r.In(v, i) > 0 && r.In(v, k) > 0
  {
    hide Span;
    var i := vt[v];
    assert FoundAt(r, i, v);
    SpanTells(r, v, i.firstocc, i.lastocc);
    if v in p {
      var k :| 0 <= k < |p| && p[k] == v;
      assert IsListed(p, vt, 1, k) && NumberAt(vt, p, k);
    }
  }

  lemma SpanTells(r: Rule, v: nat, first: int, last: int)
    requires Span(r, v, |r.goals|, first, last)
    ensures first < last && last >= 2 <==>
            exists i: nat, k: nat :: i < k <= |r.goals| && k >= 2 && r.In(v, i) > 0 && r.In(v, k) > 0
    ensures first <= last && (first == -1 ==> last == -1) && -1 <= first
    ensures first < last ==> (!(first == 0 && last <= 1) <==> last >= 2)
  {
    if i: nat, k: nat :| i < k <= |r.goals| && k >= 2 && r.In(v, i) > 0 && r.In(v, k) > 0 {
      Counted(r, v, i, |r.goals|);
      assert first <= i && k <= last;
    }
    if first < last && last >= 2 {
      assert r.In(v, first) > 0 && r.In(v, last) > 0;
    }
  }

  lemma {:induction false} Counted(r: Rule, v: nat, i: nat, k: nat)
    requires i <= k <= |r.goals| && r.In(v, i) > 0
    ensures r.Upto(v, k) > 0
    decreases k
  {
    if i < k { Counted(r, v, i, k - 1); }
  }

  /** A place is kept over a call exactly if its variable occurs in a later goal. */
  lemma KeptExactly(r: Rule, vt: seq<VarInf>, p: seq<nat>, v: nat, j: nat)
    requires r.head.Struct? && Found(r, vt, p) && v < |vt|
    ensures Kept(vt[v], j) <==> vt[v].pvnum != 0 && exists k: nat :: j < k <= |r.goals| && r.In(v, k) > 0
  {
    var i := vt[v];
    assert FoundAt(r, i, v);
    if k: nat :| j < k <= |r.goals| && r.In(v, k) > 0 {
      Counted(r, v, k, |r.goals|);
      assert k <= i.lastocc;
    }
    if Kept(i, j) { assert r.In(v, i.lastocc) > 0; }
  }

  ghost function KeptSet(vt: seq<VarInf>, n: nat, j: int): set<nat>
    requires n <= |vt|
  {
    set v: nat | v < n && Kept(vt[v], j)
  }

  lemma {:induction false} CountIsCard(vt: seq<VarInf>, n: nat, j: int)
    requires n <= |vt|
    ensures CountKept(vt, n, j) == |KeptSet(vt, n, j)|
  {
    if n == 0 {
      assert KeptSet(vt, n, j) == {};
    } else {
      CountIsCard(vt, n - 1, j);
      if Kept(vt[n - 1], j) {
        assert KeptSet(vt, n, j) == KeptSet(vt, n - 1, j) + {n - 1};
      } else {
        assert KeptSet(vt, n, j) == KeptSet(vt, n - 1, j);
      }
    }
  }

  /** Fewer are kept over later calls. */
  lemma KeptShrinks(vt: seq<VarInf>, j: int, j': int)
    requires j <= j'
    ensures CountKept(vt, |vt|, j') <= CountKept(vt, |vt|, j)
  {
    CountIsCard(vt, |vt|, j);
    CountIsCard(vt, |vt|, j');
    Subset(KeptSet(vt, |vt|, j'), KeptSet(vt, |vt|, j));
  }

  /** A variable that occurs after goal `j` has its place in the part that is kept over it. */
  lemma PlaceIsKept(r: Rule, vt: seq<VarInf>, p: seq<nat>, v: nat, j: int)
    requires r.head.Struct? && Found(r, vt, p) && v < |vt| && Kept(vt[v], j)
    ensures vt[v].pvnum <= CountKept(vt, |vt|, j)
  {
    hide Lists, FoundAt;
    assert v in p;
    var k :| 0 <= k < |p| && p[k] == v;
    assert NumberAt(vt, p, k);
    ListedOnce(p, vt, 1);
    var q := p[..k + 1];
    var s := set x | 0 <= x < |q| :: q[x];
    Elements(q);
    CountIsCard(vt, |vt|, j);
    forall x | 0 <= x < |q| ensures q[x] in KeptSet(vt, |vt|, j) {
      assert q[x] == p[x] && NumberAt(vt, p, x);
      if x < k { assert LaterFirst(p, vt, x, k); }
    }
    Subset(s, KeptSet(vt, |vt|, j));
  }

  /** Over the first call all of them are kept. */
  lemma AllKeptFirst(r: Rule, vt: seq<VarInf>, p: seq<nat>)
    requires r.head.Struct? && Found(r, vt, p)
    ensures CountKept(vt, |vt|, 1) == |p|
  {
    CountIsCard(vt, |vt|, 1);
    var s := set x | 0 <= x < |p| :: p[x];
    ListedOnce(p, vt, 1);
    Elements(p);
    forall v: nat ensures v in KeptSet(vt, |vt|, 1) <==> v in s {
      if v in KeptSet(vt, |vt|, 1) { assert v in p; }
      if v in s {
        var x :| 0 <= x < |p| && p[x] == v;
        assert IsListed(p, vt, 1, x) && NumberAt(vt, p, x) && FoundAt(r, vt[v], v);
      }
    }
    assert KeptSet(vt, |vt|, 1) == s;
  }

  // ---- what the facts mean for each goal ----

  lemma {:induction false} NoneBetween(r: Rule, v: nat, k: nat, n: nat)
    requires k <= n <= |r.goals|
    ensures r.Upto(v, k) <= r.Upto(v, n)
    ensures None(r, v, k + 1, n + 1) ==> r.Upto(v, k) == r.Upto(v, n)
    decreases n
  {
    if k < n { NoneBetween(r, v, k, n - 1); }
  }

  /** How often a variable has occurred up to part `k` tells whether it still occurs later, and
      whether it has occurred at all. */
  lemma SpanAt(r: Rule, i: VarInf, v: nat, k: nat)
    requires r.head.Struct? && FoundAt(r, i, v) && k <= |r.goals|
    ensures r.Upto(v, k) <= i.noccurences == r.Upto(v, |r.goals|)
    ensures r.Upto(v, k) < i.noccurences <==> i.lastocc > k
    ensures r.Upto(v, k) > 0 <==> 0 <= i.firstocc <= k
    ensures r.In(v, k) > 0 ==> 0 <= i.firstocc <= k <= i.lastocc
    ensures i.lastocc <= |r.goals|
  {
    var n := |r.goals|;
    NoneBetween(r, v, k, n);
    if r.Upto(v, n) > 0 {
      var first, last := i.firstocc, i.lastocc;
      if last > k {
        NoneBetween(r, v, k, last - 1);
        NoneBetween(r, v, last, n);
      }
      if first > k { NoneUpto(r, v, k, first); } else { NoneBetween(r, v, first, k); }
    }
  }

  lemma {:induction false} NoneUpto(r: Rule, v: nat, k: nat, first: nat)
    requires k < first && k <= |r.goals| && None(r, v, 0, first)
    ensures r.Upto(v, k) == 0
  {
    if k > 0 { NoneUpto(r, v, k - 1, first); }
  }

  lemma OnceOnly(r: Rule, i: VarInf, v: nat)
    requires r.head.Struct? && FoundAt(r, i, v)
    ensures i.noccurences == 1 ==> i.firstocc == i.lastocc
  {
    if r.Upto(v, |r.goals|) > 0 && i.firstocc < i.lastocc {
      NoneBetween(r, v, i.firstocc, i.lastocc - 1);
      NoneBetween(r, v, i.lastocc, |r.goals|);
    }
  }

  /** A permanent variable has a number, the others have none. */
  lemma PermNumbered(r: Rule, vt: seq<VarInf>, p: seq<nat>, v: nat)
    requires r.head.Struct? && Found(r, vt, p) && v < |vt|
    ensures vt[v].pvnum != 0 <==> !IsTemp(vt[v], 1)
    ensures vt[v].pvnum <= |p|
    ensures vt[v].pvnum != 0 ==> p[vt[v].pvnum - PERMOFFSET] == v
  {
    if v in p {
      var k :| 0 <= k < |p| && p[k] == v;
      assert NumberAt(vt, p, k) && IsListed(p, vt, 1, k);
    }
  }
}
