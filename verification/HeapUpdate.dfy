/** The built-in predicates that change heap cells in place, and the steps of the abstract
    machine that undo changes, over the engine's memory. */
module HeapUpdate {
  import opened HeapSafety

  /** A functor with this arity is followed by a cell that holds the structure's own. */
  const ESCAPE_ARITY := 255

  /** A structure lies in the heap with all its arguments. */
  predicate WholeStruct(heap: seq<Cell>, a: nat) {
    && a < |heap| && heap[a].Functor? && heap[a].arity <= ESCAPE_ARITY
    && (if heap[a].arity < ESCAPE_ARITY then a + heap[a].arity < |heap|
        else
          && a + 1 < |heap| && heap[a + 1].Int? && heap[a + 1].i >= ESCAPE_ARITY
          && a + 1 + heap[a + 1].i < |heap|)
  }

  predicate Whole(heap: seq<Cell>, term: Cell) {
    && (term.Ptr? && term.tag.STRUCT? ==> WholeStruct(heap, term.addr))
    && (term.Ptr? && term.tag.LIST? ==> term.addr + 1 < |heap|)
  }

  /** The arguments of a structure or list as they lie in the heap: behind the functor and, in a
      big structure, its arity; of a list the head and the tail. */
  function Arguments(heap: seq<Cell>, term: Cell): seq<Cell>
    requires Whole(heap, term)
  {
    match term
    case Ptr(STRUCT, a) =>
      if heap[a].arity < 255 then heap[a + 1..a + 1 + heap[a].arity] else heap[a + 2..a + 2 + heap[a + 1].i]
    case Ptr(LIST, a) => [heap[a], heap[a + 1]]
    case _ => []
  }

  /** The cell of argument `argn`, if there is one. */
  datatype Slot = None | SlotAt(a: nat)

  function ArityOf(heap: seq<Cell>, a: nat): int
    requires WholeStruct(heap, a)
  {
    if heap[a].arity == ESCAPE_ARITY then heap[a + 1].i else heap[a].arity
  }

  function SlotOf(heap: seq<Cell>, argn: int, term: Cell): Slot
    requires Whole(heap, term)
  {
    if term.Ptr? && term.tag.STRUCT? then
      var arity := ArityOf(heap, term.addr);
      if argn > arity || argn < 1 then None
      else if arity < ESCAPE_ARITY then SlotAt(term.addr + argn) else SlotAt(term.addr + (argn + 1))
    else if term.Ptr? && term.tag.LIST? then
      if argn == 1 then SlotAt(term.addr) else if argn == 2 then SlotAt(term.addr + 1) else None
    else None
  }

  // ---- the arguments and their slots ----

  predicate HasArgument(heap: seq<Cell>, argn: int, term: Cell) {
    Whole(heap, term) && 1 <= argn <= |Arguments(heap, term)|
  }

  /** Where the arguments start. */
  function FirstAt(heap: seq<Cell>, term: Cell): nat
    requires Whole(heap, term)
  {
    match term
    case Ptr(STRUCT, f) => if heap[f].arity < 255 then f + 1 else f + 2
    case Ptr(_, a) => a
    case _ => 0
  }

  predicate HoldsArgument(heap: seq<Cell>, term: Cell, a: int)
    requires Whole(heap, term)
  {
    0 <= a - FirstAt(heap, term) < |Arguments(heap, term)|
  }

  /** `heap` is `was` with argument `argn` of `term` replaced, and with nothing else changed. */
  predicate Replaced(was: seq<Cell>, heap: seq<Cell>, argn: int, term: Cell, arg: Cell) {
    && HasArgument(was, argn, term) && Whole(heap, term) && |heap| == |was|
    && Arguments(heap, term) == Arguments(was, term)[argn - 1 := arg]
    && forall a | 0 <= a < |heap| && !HoldsArgument(was, term, a) :: heap[a] == was[a]
  }

  predicate SlotIn(heap: seq<Cell>, argn: int, term: Cell) {
    Whole(heap, term) && SlotOf(heap, argn, term).SlotAt? && SlotOf(heap, argn, term).a < |heap|
  }

  /** There is a slot for each argument and for no other number, and it holds the argument. */
  lemma SlotIsArgument(heap: seq<Cell>, argn: int, term: Cell)
    requires Whole(heap, term)
    ensures SlotOf(heap, argn, term).SlotAt? <==> HasArgument(heap, argn, term)
    ensures HasArgument(heap, argn, term) ==>
              SlotIn(heap, argn, term) && heap[SlotOf(heap, argn, term).a] == Arguments(heap, term)[argn - 1]
  {
  }

  lemma ArgumentsInRow(heap: seq<Cell>, term: Cell)
    requires Whole(heap, term) && Arguments(heap, term) != []
    ensures var first, n := FirstAt(heap, term), |Arguments(heap, term)|;
            first + n <= |heap| && Arguments(heap, term) == heap[first..first + n]
  {
  }

  lemma SlotInRow(heap: seq<Cell>, argn: int, term: Cell)
    requires SlotIn(heap, argn, term)
    ensures 1 <= argn <= |Arguments(heap, term)| && SlotOf(heap, argn, term).a == FirstAt(heap, term) + (argn - 1)
  {
  }

  lemma StillWhole(heap: seq<Cell>, term: Cell, a: nat, c: Cell)
    requires Whole(heap, term) && HoldsArgument(heap, term, a) && a < |heap|
    ensures var heap' := heap[a := c];
            && Whole(heap', term) && FirstAt(heap', term) == FirstAt(heap, term)
            && |Arguments(heap', term)| == |Arguments(heap, term)|
  {
  }

  lemma ArgumentReplaced(heap: seq<Cell>, argn: int, term: Cell, arg: Cell)
    requires SlotIn(heap, argn, term)
    ensures Replaced(heap, heap[SlotOf(heap, argn, term).a := arg], argn, term, arg)
  {
    var a := SlotOf(heap, argn, term).a;
    hide Whole, Arguments, FirstAt, SlotOf;
    SlotInRow(heap, argn, term);
    StillWhole(heap, term, a, arg);
    ArgumentsInRow(heap, term);
    ArgumentsInRow(heap[a := arg], term);
  }

  /** What replacing an argument does to the cells: of a list, 1 is the cell its address names
      and 2 the next one; of a structure, the first is the cell behind the functor, or behind
      the arity if that does not fit into the functor. */
  lemma ReplacedWhere(was: seq<Cell>, heap: seq<Cell>, argn: int, term: Cell, arg: Cell)
    requires Replaced(was, heap, argn, term, arg)
    ensures term.Ptr? && (term.tag.LIST? || term.tag.STRUCT?)
    ensures term.tag.LIST? && argn == 1 ==> heap == was[term.addr := arg]
    ensures term.tag.LIST? && argn != 1 ==> heap == was[term.addr + 1 := arg]
    ensures term.tag.STRUCT? && was[term.addr].arity < 255 ==> heap == was[term.addr + argn := arg]
    ensures term.tag.STRUCT? && was[term.addr].arity == 255 ==> heap == was[term.addr + 1 + argn := arg]
  {
    var n, first := argn - 1, FirstAt(was, term);
    var heap' := was[first + n := arg];
    forall x | 0 <= x < |heap| ensures heap[x] == heap'[x] {
      if HoldsArgument(was, term, x) {
        assert Arguments(heap, term)[x - first] == heap[x] && Arguments(was, term)[x - first] == was[x];
      }
    }
    assert heap == heap';
  }

  /** `now` is `was` with its elements from `b` on raised, as far as they have to be. */
  predicate RaisedTo(was: seq<Choice>, now: seq<Choice>, b: int, a: nat, hb: nat) {
    && 0 <= b <= |now| == |was| && now[..b] == was[..b]
    && Raised(was, a, hb) == Raised(was[..b], a, hb) + now[b..]
  }

  lemma RaiseStart(was: seq<Choice>, a: nat, hb: nat)
    ensures RaisedTo(was, was, |was|, a, hb)
  {
    assert was[..|was|] == was;
  }

  lemma RaiseStep(was: seq<Choice>, now: seq<Choice>, b: int, a: nat, hb: nat)
    requires RaisedTo(was, now, b, a, hb) && b != 0 && now[b - 1].hb >= a
    ensures RaisedTo(was, now[b - 1 := now[b - 1].(hb := hb)], b - 1, a, hb)
  {
    assert now[b - 1] == now[..b][b - 1] == was[b - 1];
    assert was[..b][..b - 1] == was[..b - 1];
    var now' := now[b - 1 := now[b - 1].(hb := hb)];
    assert now'[..b - 1] == now[..b][..b - 1];
    assert now'[b - 1..] == [was[b - 1].(hb := hb)] + now[b..];
  }

  lemma RaiseEnd(was: seq<Choice>, now: seq<Choice>, b: int, a: nat, hb: nat)
    requires RaisedTo(was, now, b, a, hb) && (b == 0 || now[b - 1].hb < a)
    ensures now == Raised(was, a, hb)
  {
    if b > 0 { assert now[b - 1] == now[..b][b - 1] == was[..b][b - 1]; }
    assert now == now[..b] + now[b..];
  }

  /** What arg/3 makes of its first two arguments. */
  datatype ArgResult = InstantiationError | DomainError | TypeError | Fails | Argument(value: Cell)

  class Store {
    var heap: seq<Cell>
    var HB: nat
    var trail: seq<Entry>
    var chps: seq<Choice>

    function S(): State
      reads this
    {
      State(heap, HB, trail, chps)
    }

    constructor ()
      ensures S() == State([], 0, [], []) && Inv(S())
    {
      heap, HB, trail, chps := [], 0, [], [];
    }

    /** HB and the choice points at or above the slot are moved up to the top of the heap. */
    method RaiseHB(argaddr: nat)
      modifies this`HB, this`chps
      ensures S() == Raise(old(S()), argaddr)
    {
      hide Raised, RaisedTo;
      HB := |heap|;
      ghost var was := chps;
      var b := |chps|;
      RaiseStart(was, argaddr, |heap|);
      while b != 0 && chps[b - 1].hb >= argaddr
        invariant HB == |heap| && 0 <= b <= |chps| && RaisedTo(was, chps, b, argaddr, |heap|)
        decreases b
      {
        RaiseStep(was, chps, b, argaddr, |heap|);
        chps := chps[b - 1 := chps[b - 1].(hb := |heap|)];
        b := b - 1;
      }
      RaiseEnd(was, chps, b, argaddr, |heap|);
    }

    /** mangle(ArgN, Term, Arg): the argument is replaced for good. */
    method PbiMangle(argn: Cell, term: Cell, arg: Cell) returns (ok: bool)
      requires Inv(S()) && Whole(heap, term) && Below(arg, |heap|)
      modifies this
      ensures Inv(S())
      ensures ok <==> argn.Int? && !(arg.Ptr? && arg.tag.VAR?) && HasArgument(old(heap), argn.i, term)
      ensures !ok ==> S() == old(S())
      ensures ok ==> Replaced(old(heap), heap, argn.i, term, arg)
      ensures ok ==> SlotIn(old(heap), argn.i, term)
                     && S() == Mangle(old(S()), SlotOf(old(heap), argn.i, term).a, arg)
    {
      hide Inv, Whole, Replaced, HasArgument, SlotOf;
      if !argn.Int? || (arg.Ptr? && arg.tag.VAR?) { return false; }
      var slot := FindSlot(argn.i, term);
      SlotIsArgument(heap, argn.i, term);
      if slot.None? { return false; }
      ArgumentReplaced(heap, argn.i, term, arg);
      MangleInv(S(), slot.a, arg);
      heap := heap[slot.a := arg];
      if !(arg.Int? || arg.Sym?) {
        if arg.Ptr? && slot.a < arg.addr { RaiseHB(slot.a); }
      }
      return true;
    }

    method FindSlot(argn: int, term: Cell) returns (slot: Slot)
      requires Whole(heap, term)
      ensures slot == SlotOf(heap, argn, term)
    {
      slot := None;
      if term.Ptr? && term.tag.STRUCT? {
        var arity: int := heap[term.addr].arity;
        if arity == ESCAPE_ARITY { arity := heap[term.addr + 1].i; }
        if argn > arity || argn < 1 { return None; }
        if arity < ESCAPE_ARITY { return SlotAt(term.addr + argn); }
        return SlotAt(term.addr + (argn + 1));
      } else if term.Ptr? && term.tag.LIST? {
        if argn == 1 { return SlotAt(term.addr); }
        if argn == 2 { return SlotAt(term.addr + 1); }
      }
    }

    /** arg(ArgN, Term, Arg) up to the unification with Arg: what the argument stands for. */
    method PbiArg(argn: Cell, term: Cell) returns (r: ArgResult)
      requires Whole(heap, term)
      ensures argn.Ptr? && argn.tag.VAR? ==> r == InstantiationError
      ensures argn.Int? && argn.i < 0 ==> r == DomainError
      ensures !argn.Int? && !(argn.Ptr? && argn.tag.VAR?) ==> r == TypeError
      ensures argn.Int? && argn.i >= 0 && term.Ptr? && term.tag.VAR? ==> r == InstantiationError
      ensures argn.Int? && argn.i >= 0 && !(term.Ptr? && !term.tag.UIA?) ==> r == TypeError
      ensures argn.Int? && argn.i >= 0 && term.Ptr? && (term.tag.LIST? || term.tag.STRUCT?) ==>
                r == if 1 <= argn.i <= |Arguments(heap, term)|
                     then Argument(Deref(heap, Arguments(heap, term)[argn.i - 1], |heap|)) else Fails
    {
      if argn.Ptr? && argn.tag.VAR? { return InstantiationError; }
      if !argn.Int? { return TypeError; }
      if argn.i < 0 { return DomainError; }
      if !term.Ptr? || term.tag.UIA? { return TypeError; }
      match term.tag {
        case STRUCT =>
          var arity: int := heap[term.addr].arity;
          if arity == ESCAPE_ARITY { arity := heap[term.addr + 1].i; }
          if argn.i > arity || argn.i < 1 { return Fails; }
          var s := if heap[term.addr].arity == ESCAPE_ARITY then term.addr + 1 else term.addr;
          return Argument(Deref(heap, heap[s + argn.i], |heap|));
        case LIST =>
          if argn.i == 1 { return Argument(Deref(heap, heap[term.addr], |heap|)); }
          if argn.i == 2 { return Argument(Deref(heap, heap[term.addr + 1], |heap|)); }
          return Fails;
        case _ =>
          return InstantiationError;
      }
    }

    /** As mangle, but the slot's address and old word go on the trail first. */
    method TrailedMangle0(argn: int, term: Cell, arg: Cell) returns (ok: bool)
      requires Inv(S()) && Whole(heap, term) && Below(arg, |heap|)
      modifies this
      ensures Inv(S()) && (ok <==> HasArgument(old(heap), argn, term))
      ensures !ok ==> S() == old(S())
      ensures ok ==> Replaced(old(heap), heap, argn, term, arg)
      ensures ok ==> SlotIn(old(heap), argn, term)
                     && S() == TrailedMangle(old(S()), SlotOf(old(heap), argn, term).a, arg)
    {
      hide Inv, Whole, Replaced, HasArgument, SlotOf;
      var slot := FindSlot(argn, term);
      SlotIsArgument(heap, argn, term);
      if slot.None? { return false; }
      var argaddr := slot.a;
      ArgumentReplaced(heap, argn, term, arg);
      TrailedMangleInv(S(), argaddr, arg);
      var oldarg := Deref(heap, heap[argaddr], |heap|);
      trail := trail + [Entry(argaddr, heap[argaddr])];
      heap := heap[argaddr := arg];
      if arg.Ptr? {
        var newarg := if arg.tag.VAR? then 0 else arg.addr;
        if oldarg.Ptr? {
          var newoldarg := if oldarg.tag.VAR? then 0 else oldarg.addr;
          if argaddr < newarg || argaddr < newoldarg { RaiseHB(argaddr); }
        } else if argaddr < newarg {
          RaiseHB(argaddr);
        }
      }
      return true;
    }

    /** The delay term for goal `g` of module `m` is built, and the variable `dv` bound to its
        first argument.  Unifying the term with the caller's argument comes after this. */
    method PbiDelay(dv: nat, delay: int, m: Cell, g: Cell) returns (term: Cell)
      requires Inv(S()) && dv < |heap| && Below(m, |heap|) && Below(g, |heap|)
      modifies this
      ensures S() == Delay(old(S()), dv, delay, m, g) && Inv(S()) && term == Ptr(STRUCT, |old(heap)|)
      ensures var h := |old(heap)|;
              && Whole(heap, term) && heap[h] == Functor(delay, 4)
              && Arguments(heap, term) == [Ptr(VAR, h + 1), Ptr(VAR, h + 2), m, g]
              && heap[dv] == Ptr(VAR, h + 1) && forall a | 0 <= a < h && a != dv :: heap[a] == old(heap)[a]
      ensures |trail| == |old(trail)| + 1 && trail[|old(trail)|] == Entry(dv, old(heap)[dv])
      ensures HB == |heap| && |chps| == |old(chps)| && forall k | 0 <= k < |chps| :: chps[k] == Choice(|heap|, old(chps)[k].tr)
    {
      hide Inv, Below;
      ghost var s := S();
      DelayInv(s, dv, delay, m, g);
      var one, two := |heap| + 1, |heap| + 2;
      term := Ptr(STRUCT, |heap|);
      heap := heap + [Functor(delay, 4), Ptr(VAR, one), Ptr(VAR, two), m, g];
      trail := trail + [Entry(dv, heap[dv])];
      heap := heap[dv := Ptr(VAR, one)];
      UpdateChptSlots(|heap|);
      HB := |heap|;
      assert S() == Delay(s, dv, delay, m, g);
    }

    method UpdateChptSlots(hval: nat)
      modifies this`HB, this`chps
      ensures HB == hval && chps == RaisedAll(old(chps), hval)
    {
      var cur := |chps|;
      while cur != 0
        invariant 0 <= cur <= |chps| && |chps| == |old(chps)|
        invariant forall k | 0 <= k < |chps| :: chps[k] == if k < cur then old(chps)[k] else old(chps)[k].(hb := hval)
        decreases cur
      {
        cur := cur - 1;
        chps := chps[cur := chps[cur].(hb := hval)];
      }
      HB := hval;
    }

    /** Everything trailed since the newest choice point is put back, most recent first. */
    method UnwindTrail()
      requires Inv(S()) && |chps| > 0
      modifies this`heap
      ensures heap == Unwind(old(heap), trail, TopTr(S()))
    {
      var r := |trail|;
      assert trail[..r] == trail;
      while r > TopTr(S())
        invariant TopTr(S()) <= r <= |trail| && |heap| == |old(heap)|
        invariant Unwind(heap, trail[..r], TopTr(S())) == Unwind(old(heap), trail, TopTr(S()))
        decreases r
      {
        assert trail[..r][..r - 1] == trail[..r - 1];
        heap := heap[trail[r - 1].addr := trail[r - 1].was];
        r := r - 1;
      }
    }

    /** The next clause of the newest choice point is tried. */
    method DoRetry()
      requires Inv(S()) && |chps| > 0
      modifies this`heap, this`trail
      ensures S() == Retry(old(S())) && Inv(S())
    {
      RetryInv(S());
      UnwindTrail();
      trail := trail[..chps[|chps| - 1].tr];
      heap := heap[..HB];
    }

    /** The last clause is tried: the newest choice point goes. */
    method DoTrust()
      requires Inv(S()) && |chps| > 1
      modifies this
      ensures S() == Trust(old(S())) && Inv(S())
    {
      TrustInv(S());
      DoRetry();
      chps := chps[..|chps| - 1];
      HB := chps[|chps| - 1].hb;
    }

    /** Choice points newer than the first `n` are dropped, and with them the trail entries that
        the remaining ones do not need. */
    method DoCut(n: nat)
      requires Inv(S()) && 0 < n <= |chps|
      modifies this
      ensures old(chps)[n - 1].tr <= |old(trail)| && S() == Cut(old(S()), n) && Inv(S())
    {
      hide Inv;
      CutInv(S(), n);
      if n == |chps| { return; }
      chps := chps[..n];
      HB := chps[n - 1].hb;
      ghost var was := trail;
      var kept, t := trail[..chps[n - 1].tr], chps[n - 1].tr;
      while t < |trail|
        invariant chps[n - 1].tr <= t <= |trail| && trail == was
        invariant kept == Compacted(trail[..t], chps[n - 1].tr, HB)
      {
        assert trail[..t + 1][..t] == trail[..t];
        if trail[t].addr < HB { kept := kept + [trail[t]]; }
        t := t + 1;
      }
      assert trail[..t] == trail;
      trail := kept;
    }
  }
}
