/** The memory of a Prolog engine as a value, and what it means independently of where it lies.

    One block holds, from low to high addresses, the stack (growing down to SP), the heap
    (growing up to H), free space, the trail with the choice points (growing down to TR) and
    the globals.  Addresses count cells; a word is 8 times an address plus a tag. */
module EngineModel {

  const CELL := 8

  datatype Regs = Regs(SP: int, E: int, SPB: int, HB: int, H: int, TR: int, B: int)

  datatype Snap = Snap(
    base: int,
    words: seq<int>,
    stackSize: nat,
    heapSize: nat,
    stackMax: int,
    stackBase: int,
    heapBase: int,
    trailBase: int,
    globalsBase: int,
    reg: Regs,
    saved: seq<Regs>,
    free: int)

  // ---- words ----

  function Tag(w: int): int { w % 4 }

  /** Unbound variables, structures and lists hold an address. */
  predicate IsPointer(w: int) { Tag(w) != 3 }

  predicate IsFence(w: int) { w % 16 == 11 }

  /** The number of cells that an object starting with `w` takes. */
  function CellSize(w: int): int {
    if IsFence(w) then w / 16 + 1 else 1
  }

  function Moved(w: int, offset: int): int { w + CELL * offset }

  function At(s: Snap, a: int): int {
    if s.base <= a < s.base + |s.words| then s.words[a - s.base] else 0
  }

  // ---- the invariant ----

  predicate RegsOk(s: Snap, r: Regs) {
    && (r.B == 0 || r.TR <= r.B < s.trailBase)
    && s.heapBase <= r.HB <= r.H < r.TR <= s.trailBase
    && s.stackMax < r.SP <= r.SPB <= s.heapBase
    && r.SP <= r.E <= s.heapBase
  }

  /** A register set pushed earlier leaves room for the one in use. */
  predicate Nested(s: Snap, r: Regs) {
    s.reg.SP <= r.SP && r.H <= s.reg.H && s.reg.TR <= r.TR
  }

  predicate Layout(s: Snap) {
    && s.stackMax == s.base > 0 && s.base <= s.stackBase == s.heapBase <= s.trailBase <= s.globalsBase
    && s.trailBase + 1 == s.base + s.stackSize + s.heapSize
    && |s.words| == s.stackSize + s.heapSize + (s.globalsBase - s.trailBase)
  }

  predicate InHeap(s: Snap, w: int) { CELL * s.heapBase <= w < CELL * s.reg.H }

  predicate Live(s: Snap, w: int) { CELL * s.reg.SP <= w < CELL * s.reg.H }

  /** From `p` on the heap is a row of whole objects whose addresses stay in the heap. */
  predicate HeapOk(s: Snap, p: int)
    decreases s.reg.H - p
  {
    p == s.reg.H ||
    (p < s.reg.H &&
     var n := CellSize(At(s, p));
     && n >= 1 && p + n <= s.reg.H && (IsPointer(At(s, p)) ==> InHeap(s, At(s, p)))
     && HeapOk(s, p + n))
  }

  /** A stack cell holds a constant, an address in the live stack or heap, or something that
      has nothing to do with this memory. */
  predicate StackWordOk(s: Snap, w: int) {
    !IsPointer(w) || Live(s, w) || w <= CELL * s.stackMax || w >= CELL * s.trailBase
  }

  predicate TrailEntryOk(s: Snap, w: int) { CELL * s.reg.SP <= w <= CELL * s.reg.H }

  /** Word `i` of the choice point at `b`: next clause, HB, SPB, B. */
  function Field(s: Snap, b: int, i: int): int { At(s, b + i) }

  predicate ChoiceOk(s: Snap, b: int) {
    && CELL * s.heapBase <= Field(s, b, 1) <= CELL * s.reg.H
    && CELL * s.reg.SP <= Field(s, b, 2) <= CELL * s.heapBase
    && Field(s, b, 3) % CELL == 0
  }

  /** The trail from `t`, with `b` the most recent choice point above it (0 for none). */
  predicate ChainOk(s: Snap, t: int, b: int)
    decreases s.trailBase - t
  {
    if b == 0 then t <= s.trailBase
    else
      && t <= b && b + 4 <= s.trailBase && ChoiceOk(s, b)
      && (forall a | t <= a < b :: TrailEntryOk(s, At(s, a)))
      && ChainOk(s, b + 4, Field(s, b, 3) / CELL)
  }

  predicate StackOk(s: Snap) {
    forall a | s.reg.E <= a < s.stackBase :: StackWordOk(s, At(s, a))
  }

  predicate Inv(s: Snap) {
    && Layout(s) && RegsOk(s, s.reg) && StackOk(s)
    && (forall i | 0 <= i < |s.saved| :: RegsOk(s, s.saved[i]) && Nested(s, s.saved[i]))
    && HeapOk(s, s.heapBase) && ChainOk(s, s.reg.TR, s.reg.B)
  }

  // ---- what the memory means ----

  /** An address as a distance from the heap base, or anything else as it is. */
  datatype Node = Link(distance: int) | Atom(word: int)

  datatype Place = Null | Below(distance: int)

  datatype Choice = Choice(entries: seq<int>, nextClause: int, hb: int, spb: int, b: Place)

  datatype RelRegs = RelRegs(SP: int, E: int, SPB: int, HB: int, H: int, TR: int, B: Place)

  datatype View = View(reg: RelRegs, saved: seq<RelRegs>, stack: seq<Node>, heap: seq<Node>, choices: seq<Choice>)

  function NodeOf(s: Snap, w: int): Node {
    if IsPointer(w) then Link(w - CELL * s.heapBase) else Atom(w)
  }

  function StackNode(s: Snap, w: int): Node {
    if IsPointer(w) && Live(s, w) then Link(w - CELL * s.heapBase) else Atom(w)
  }

  function PlaceOf(s: Snap, b: int): Place {
    if b == 0 then Null else Below(b - s.trailBase)
  }

  function RelRegsOf(s: Snap, r: Regs): RelRegs {
    RelRegs(r.SP - s.heapBase, r.E - s.heapBase, r.SPB - s.heapBase, r.HB - s.heapBase, r.H - s.heapBase,
            r.TR - s.trailBase, PlaceOf(s, r.B))
  }

  function StackView(s: Snap): seq<Node> {
    if s.reg.E <= s.stackBase then seq(s.stackBase - s.reg.E, i => StackNode(s, At(s, s.reg.E + i))) else []
  }

  /** The cells of one heap object; what is inside a fence is taken as it is. */
  function ObjectView(s: Snap, p: int): seq<Node>
    requires CellSize(At(s, p)) >= 1
  {
    [NodeOf(s, At(s, p))] + seq(CellSize(At(s, p)) - 1, i => Atom(At(s, p + 1 + i)))
  }

  function HeapView(s: Snap, p: int): seq<Node>
    requires HeapOk(s, p)
    decreases s.reg.H - p
  {
    if p == s.reg.H then [] else ObjectView(s, p) + HeapView(s, p + CellSize(At(s, p)))
  }

  function EntriesView(s: Snap, t: int, b: int): seq<int>
    requires t <= b
  {
    seq(b - t, i => At(s, t + i) - CELL * s.heapBase)
  }

  function ChoicesView(s: Snap, t: int, b: int): seq<Choice>
    requires ChainOk(s, t, b)
    decreases s.trailBase - t
  {
    if b == 0 then []
    else
      [Choice(EntriesView(s, t, b), Field(s, b, 0), Field(s, b, 1) - CELL * s.heapBase,
              Field(s, b, 2) - CELL * s.heapBase, PlaceOf(s, Field(s, b, 3) / CELL))]
      + ChoicesView(s, b + 4, Field(s, b, 3) / CELL)
  }

  /** Everything a Prolog program can tell about its memory. */
  function ViewOf(s: Snap): View
    requires Inv(s)
  {
    View(RelRegsOf(s, s.reg), seq(|s.saved|, i requires 0 <= i < |s.saved| => RelRegsOf(s, s.saved[i])),
         StackView(s), HeapView(s, s.heapBase), ChoicesView(s, s.reg.TR, s.reg.B))
  }

  // ---- moving and rewriting ----

  function MovedRegs(r: Regs, d: int, dt: int): Regs {
    Regs(r.SP + d, r.E + d, r.SPB + d, r.HB + d, r.H + d, r.TR + dt, if r.B == 0 then 0 else r.B + dt)
  }

  /** The end of the list of free globals, the integer -1 as a word. */
  const END := -13

  function MovedFree(free: int, offset: int): int {
    if free == END then END else Moved(free, offset)
  }

  // ---- what reallocation and shifting do ----

  /** After reallocation at `newBase`: everything is as far from the base as it was. */
  function Resized(s: Snap, newBase: int, newStack: nat, newHeap: nat, words: seq<int>): Snap {
    var o := newBase - s.base;
    Snap(newBase, words, newStack, newHeap, s.stackMax + o, s.stackBase + o, s.heapBase + o, s.trailBase + o,
         s.globalsBase + o, MovedRegs(s.reg, o, o), s.saved, MovedFree(s.free, o))
  }

  function StackShift(s: Snap, newStack: nat): int { s.base + newStack - s.heapBase }

  function TrailShift(s: Snap, newStack: nat, newHeap: nat): int {
    s.heapBase + StackShift(s, newStack) + newHeap - 1 - s.trailBase
  }

  function Shifted(s: Snap, newStack: nat, newHeap: nat, words: seq<int>): Snap {
    var d, dt := StackShift(s, newStack), TrailShift(s, newStack, newHeap);
    Snap(s.base, words, s.stackSize, s.heapSize, s.stackMax, s.stackBase + d, s.heapBase + d, s.trailBase + dt,
         s.globalsBase + dt, MovedRegs(s.reg, d, dt), s.saved, MovedFree(s.free, dt))
  }

  predicate ShiftInside(s: Snap, newStack: nat, newHeap: nat) {
    var d, dt, top := StackShift(s, newStack), TrailShift(s, newStack, newHeap), s.base + |s.words|;
    && s.base <= s.reg.SP <= s.reg.H <= top && s.base <= s.reg.SP + d && s.reg.H + d <= top
    && s.base <= s.reg.TR <= s.globalsBase <= top && s.base <= s.reg.TR + dt && s.globalsBase + dt <= top
  }

  /** What a cell holds once stack and heap have been moved, but not yet the trail. */
  function HalfShiftedCell(s: Snap, newStack: nat, a: int): int {
    var d := StackShift(s, newStack);
    if s.reg.SP + d <= a < s.reg.H + d then At(s, a - d) else At(s, a)
  }

  function ShiftedCell(s: Snap, newStack: nat, newHeap: nat, a: int): int {
    var dt := TrailShift(s, newStack, newHeap);
    HalfShiftedCell(s, newStack, if s.reg.TR + dt <= a < s.globalsBase + dt then a - dt else a)
  }

  predicate AreasShifted(s0: Snap, s: Snap, newStack: nat, newHeap: nat) {
    forall a | s0.base <= a < s0.base + |s0.words| :: ShiftedAt(s0, s, newStack, newHeap, a)
  }

  predicate ShiftedAt(s0: Snap, s: Snap, newStack: nat, newHeap: nat, a: int) {
    At(s, a) == ShiftedCell(s0, newStack, newHeap, a)
  }

  /** `n` cells have been copied from `src` to `dst`, and nothing else has changed. */
  predicate BlockMoved(s0: Snap, s: Snap, dst: int, src: int, n: int) {
    forall a | s0.base <= a < s0.base + |s0.words| :: CellMoved(s0, s, dst, src, n, a)
  }

  predicate CellMoved(s0: Snap, s: Snap, dst: int, src: int, n: int, a: int) {
    At(s, a) == if dst <= a < dst + n then At(s0, a - dst + src) else At(s0, a)
  }

  lemma TwoMoves(s0: Snap, s1: Snap, s: Snap, newStack: nat, newHeap: nat)
    requires ShiftInside(s0, newStack, newHeap) && s1.base == s0.base && |s1.words| == |s0.words|
    requires BlockMoved(s0, s1, s0.reg.SP + StackShift(s0, newStack), s0.reg.SP, s0.reg.H - s0.reg.SP)
    requires BlockMoved(s1, s, s0.reg.TR + TrailShift(s0, newStack, newHeap), s0.reg.TR, s0.globalsBase - s0.reg.TR)
    ensures AreasShifted(s0, s, newStack, newHeap)
  {
    var d, dt := StackShift(s0, newStack), TrailShift(s0, newStack, newHeap);
    var n, nt := s0.reg.H - s0.reg.SP, s0.globalsBase - s0.reg.TR;
    hide At;
    forall a | s0.base <= a < s0.base + |s0.words| ensures ShiftedAt(s0, s, newStack, newHeap, a) {
      var from := if s0.reg.TR + dt <= a < s0.globalsBase + dt then a - dt else a;
      assert CellMoved(s1, s, s0.reg.TR + dt, s0.reg.TR, nt, a);
      assert CellMoved(s0, s1, s0.reg.SP + d, s0.reg.SP, n, from);
    }
  }

  lemma SameWordsShifted(s0: Snap, s1: Snap, s: Snap, newStack: nat, newHeap: nat)
    requires AreasShifted(s0, s1, newStack, newHeap) && s.words == s1.words && s.base == s1.base
    ensures AreasShifted(s0, s, newStack, newHeap)
  {
    forall a | s0.base <= a < s0.base + |s0.words| ensures ShiftedAt(s0, s, newStack, newHeap, a) {
      assert ShiftedAt(s0, s1, newStack, newHeap, a) && At(s, a) == At(s1, a);
    }
  }

  /** The areas in use fit the new sizes. */
  predicate Fits(s: Snap, newStack: nat, newHeap: nat) {
    && s.heapBase - s.reg.SP < newStack
    && (s.reg.H - s.heapBase) + (s.trailBase - s.reg.TR) + 1 < newHeap
  }

  /** `s` is laid out with the new sizes, `d` and `dt` away from `s0`. */
  predicate LaidOut(s0: Snap, s: Snap, d: int, dt: int) {
    && Layout(s) && s.heapBase == s0.heapBase + d && s.trailBase == s0.trailBase + dt
    && s.globalsBase == s0.globalsBase + dt
    && s.stackMax < s0.reg.SP + d && s0.reg.H + d < s0.reg.TR + dt
  }

  /** The areas in use have been copied, word for word. */
  predicate Copied(s0: Snap, s: Snap, d: int, dt: int) {
    LaidOut(s0, s, d, dt) && s.reg == MovedRegs(s0.reg, d, dt) && AreasCopied(s0, s, d, dt)
  }

  predicate AreasCopied(s0: Snap, s: Snap, d: int, dt: int) {
    && (forall a | s0.reg.SP <= a < s0.reg.H :: At(s, a + d) == At(s0, a))
    && (forall a | s0.reg.TR <= a < s0.globalsBase :: At(s, a + dt) == At(s0, a))
  }

  function StackImage(s0: Snap, w: int, d: int): int {
    if CELL * s0.stackMax < w < CELL * s0.trailBase && IsPointer(w) then Moved(w, d) else w
  }

  function HeapImage(w: int, d: int): int {
    if IsPointer(w) then Moved(w, d) else w
  }

  predicate ObjectMoved(s0: Snap, s: Snap, p: int, d: int) {
    && At(s, p + d) == HeapImage(At(s0, p), d)
    && forall a | p < a < p + CellSize(At(s0, p)) :: At(s, a + d) == At(s0, a)
  }

  predicate HeapMoved(s0: Snap, s: Snap, p: int, d: int)
    requires HeapOk(s0, p)
    decreases s0.reg.H - p
  {
    p == s0.reg.H || (ObjectMoved(s0, s, p, d) && HeapMoved(s0, s, p + CellSize(At(s0, p)), d))
  }

  predicate ChoiceMoved(s0: Snap, s: Snap, t: int, b: int, d: int, dt: int) {
    && Field(s, b + dt, 0) == Field(s0, b, 0)
    && Field(s, b + dt, 1) == Moved(Field(s0, b, 1), d)
    && Field(s, b + dt, 2) == Moved(Field(s0, b, 2), d)
    && Field(s, b + dt, 3) == (if Field(s0, b, 3) == 0 then 0 else Moved(Field(s0, b, 3), dt))
    && forall a | t <= a < b :: At(s, a + dt) == Moved(At(s0, a), d)
  }

  predicate ChainMoved(s0: Snap, s: Snap, t: int, b: int, d: int, dt: int)
    requires ChainOk(s0, t, b)
    decreases s0.trailBase - t
  {
    b == 0 || (ChoiceMoved(s0, s, t, b, d, dt) && ChainMoved(s0, s, b + 4, Field(s0, b, 3) / CELL, d, dt))
  }

  /** The copy has been rewritten throughout. */
  predicate Relocated(s0: Snap, s: Snap, d: int, dt: int)
    requires Inv(s0)
  {
    && LaidOut(s0, s, d, dt) && s.reg == MovedRegs(s0.reg, d, dt)
    && |s.saved| == |s0.saved| && (forall i | 0 <= i < |s.saved| :: s.saved[i] == MovedRegs(s0.saved[i], d, dt))
    && (forall a | s0.reg.E <= a < s0.stackBase :: At(s, a + d) == StackImage(s0, At(s0, a), d))
    && HeapMoved(s0, s, s0.heapBase, d) && ChainMoved(s0, s, s0.reg.TR, s0.reg.B, d, dt)
  }

  /** What does not belong to the old memory does not look like part of the new one. */
  predicate Foreign(s0: Snap, s: Snap, w: int) {
    w <= CELL * s0.stackMax || w >= CELL * s0.trailBase ==> w <= CELL * s.stackMax || w >= CELL * s.trailBase
  }

  predicate ForeignStays(s0: Snap, s: Snap) {
    forall a | s0.reg.E <= a < s0.stackBase && IsPointer(At(s0, a)) :: Foreign(s0, s, At(s0, a))
  }

  lemma MovedTag(w: int, d: int)
    ensures Tag(Moved(w, d)) == Tag(w)
  {
    assert w == 4 * (w / 4) + w % 4 && Moved(w, d) == 4 * (w / 4 + 2 * d) + w % 4;
  }

  lemma PointerIsOneCell(w: int)
    requires IsPointer(w)
    ensures CellSize(w) == 1
  {
    assert w == 16 * (w / 16) + w % 16;
  }

  lemma {:induction false} HeapMeansSame(s0: Snap, s: Snap, p: int, d: int, dt: int)
    requires LaidOut(s0, s, d, dt) && s.reg == MovedRegs(s0.reg, d, dt)
    requires HeapOk(s0, p) && HeapMoved(s0, s, p, d)
    ensures HeapOk(s, p + d) && HeapView(s, p + d) == HeapView(s0, p)
    decreases s0.reg.H - p
  {
    if p < s0.reg.H {
      var w := At(s0, p);
      MovedTag(w, d);
      if IsPointer(w) { PointerIsOneCell(w); PointerIsOneCell(Moved(w, d)); }
      HeapMeansSame(s0, s, p + CellSize(w), d, dt);
      assert p + d + CellSize(w) == p + CellSize(w) + d;
      ObjectMeansSame(s0, s, p, d, dt);
    }
  }

  lemma ObjectMeansSame(s0: Snap, s: Snap, p: int, d: int, dt: int)
    requires s.heapBase == s0.heapBase + d && CellSize(At(s0, p)) >= 1 && ObjectMoved(s0, s, p, d)
    ensures CellSize(At(s, p + d)) == CellSize(At(s0, p)) && ObjectView(s, p + d) == ObjectView(s0, p)
  {
    var w := At(s0, p);
    MovedTag(w, d);
    if IsPointer(w) { PointerIsOneCell(w); PointerIsOneCell(Moved(w, d)); }
    forall a' | p + d < a' < p + d + CellSize(w) ensures At(s, a') == At(s0, a' - d) {
      assert At(s, (a' - d) + d) == At(s0, a' - d);
    }
  }

  lemma {:induction false} ChainMeansSame(s0: Snap, s: Snap, t: int, b: int, d: int, dt: int)
    requires LaidOut(s0, s, d, dt) && s.reg == MovedRegs(s0.reg, d, dt) && s0.reg.TR <= t && s0.trailBase + dt > 0
    requires ChainOk(s0, t, b) && ChainMoved(s0, s, t, b, d, dt) && (b != 0 ==> b + dt != 0)
    requires s0.reg.TR + dt > 0 && s0.reg.TR > 0
    ensures var b' := if b == 0 then 0 else b + dt;
            ChainOk(s, t + dt, b') && ChoicesView(s, t + dt, b') == ChoicesView(s0, t, b)
    decreases s0.trailBase - t
  {
    if b != 0 {
      var f := Field(s0, b, 3);
      var next := f / CELL;
      assert f == CELL * next;
      ChainMeansSame(s0, s, b + 4, next, d, dt);
      assert Field(s, b + dt, 3) / CELL == if next == 0 then 0 else next + dt;
      forall a' | t + dt <= a' < b + dt ensures TrailEntryOk(s, At(s, a')) {
        assert At(s, (a' - dt) + dt) == Moved(At(s0, a' - dt), d) && TrailEntryOk(s0, At(s0, a' - dt));
      }
      assert ChoiceOk(s, b + dt);
      assert b + dt + 4 == b + 4 + dt;
      EntriesMeanSame(s0, s, t, b, d, dt);
    }
  }

  lemma EntriesMeanSame(s0: Snap, s: Snap, t: int, b: int, d: int, dt: int)
    requires s.heapBase == s0.heapBase + d && t <= b && ChoiceMoved(s0, s, t, b, d, dt)
    ensures EntriesView(s, t + dt, b + dt) == EntriesView(s0, t, b)
  {
    forall a' | t + dt <= a' < b + dt ensures At(s, a') == Moved(At(s0, a' - dt), d) {
      assert At(s, (a' - dt) + dt) == Moved(At(s0, a' - dt), d);
    }
  }

  lemma StackMeansSame(s0: Snap, s: Snap, d: int, dt: int)
    requires Inv(s0) && Relocated(s0, s, d, dt) && ForeignStays(s0, s)
    ensures StackOk(s) && StackView(s) == StackView(s0)
  {
    forall a' | s.reg.E <= a' < s.stackBase
      ensures StackWordOk(s, At(s, a')) && StackNode(s, At(s, a')) == StackNode(s0, At(s0, a' - d))
    {
      var a := a' - d;
      assert At(s, a + d) == StackImage(s0, At(s0, a), d) && StackWordOk(s0, At(s0, a));
      MovedTag(At(s0, a), d);
    }
  }

  lemma RegsMeanSame(s0: Snap, s: Snap, r: Regs, d: int, dt: int)
    requires Layout(s0) && LaidOut(s0, s, d, dt) && s.reg == MovedRegs(s0.reg, d, dt)
    requires RegsOk(s0, r) && Nested(s0, r) && s0.heapBase > 0
    ensures RegsOk(s, MovedRegs(r, d, dt)) && Nested(s, MovedRegs(r, d, dt))
    ensures RelRegsOf(s, MovedRegs(r, d, dt)) == RelRegsOf(s0, r)
  {
  }

  /** Moving and rewriting the memory does not change what it means, and keeps it in order. */
  lemma RelocationMeansSame(s0: Snap, s: Snap, d: int, dt: int)
    requires Inv(s0) && Relocated(s0, s, d, dt) && ForeignStays(s0, s)
    ensures Inv(s) && ViewOf(s) == ViewOf(s0)
  {
    hide StackOk, HeapOk, ChainOk, RegsOk, Nested, RelRegsOf, StackView, HeapMoved, ChainMoved, ForeignStays;
    StackMeansSame(s0, s, d, dt);
    HeapMeansSame(s0, s, s0.heapBase, d, dt);
    TrailMeansSame(s0, s, d, dt);
    RegsMeanSame(s0, s, s0.reg, d, dt);
    forall i | 0 <= i < |s.saved|
      ensures RegsOk(s, s.saved[i]) && Nested(s, s.saved[i])
      ensures RelRegsOf(s, s.saved[i]) == RelRegsOf(s0, s0.saved[i])
    {
      assert RegsOk(s0, s0.saved[i]) && Nested(s0, s0.saved[i]);
      RegsMeanSame(s0, s, s0.saved[i], d, dt);
    }
  }

  lemma TrailMeansSame(s0: Snap, s: Snap, d: int, dt: int)
    requires Inv(s0) && Relocated(s0, s, d, dt)
    ensures ChainOk(s, s.reg.TR, s.reg.B)
    ensures ChoicesView(s, s.reg.TR, s.reg.B) == ChoicesView(s0, s0.reg.TR, s0.reg.B)
  {
    hide HeapOk, StackOk, HeapMoved, ChainOk, ChainMoved, ChoicesView;
    ChainMeansSame(s0, s, s0.reg.TR, s0.reg.B, d, dt);
  }

  // ---- scanning: which cells have been rewritten so far ----

  /** Only cells from `lo` up to `hi` differ. */
  predicate SameOutside(s: Snap, s': Snap, lo: int, hi: int) {
    && s' == s.(words := s'.words) && |s'.words| == |s.words|
    && forall a | s.base <= a < s.base + |s.words| && !(lo <= a < hi) :: At(s', a) == At(s, a)
  }

  lemma CellRewritten(s: Snap, p: int, w: int)
    requires s.base <= p < s.base + |s.words|
    ensures var s' := s.(words := s.words[p - s.base := w]);
            At(s', p) == w && forall a | a != p :: At(s', a) == At(s, a)
  {
  }

  /** `heads` are consecutive heap objects, all but the last one rewritten. */
  predicate Scanned(s0: Snap, s: Snap, heads: seq<int>, d: int) {
    && |heads| > 0 && heads[0] == s0.heapBase
    && (forall i | 0 <= i < |heads| :: HeadAt(s0, heads, i))
    && (forall i | 0 <= i < |heads| - 1 :: HeadDone(s0, s, heads, i, d))
  }

  predicate HeadAt(s0: Snap, heads: seq<int>, i: int)
    requires 0 <= i < |heads|
  {
    heads[i] <= heads[|heads| - 1] <= s0.reg.H && HeapOk(s0, heads[i])
  }

  predicate HeadDone(s0: Snap, s: Snap, heads: seq<int>, i: int, d: int)
    requires 0 <= i < |heads| - 1
  {
    && heads[i] < heads[i] + CellSize(At(s0, heads[i])) == heads[i + 1] <= heads[|heads| - 1]
    && ObjectMoved(s0, s, heads[i], d)
  }

  /** The part of the heap from `p` on has only been copied. */
  predicate Unscanned(s0: Snap, s: Snap, p: int, hi: int, d: int) {
    forall a | p <= a < hi :: At(s, a + d) == At(s0, a)
  }

  lemma ScanStart(s0: Snap, s: Snap, d: int)
    requires HeapOk(s0, s0.heapBase)
    ensures Scanned(s0, s, [s0.heapBase], d) && forall lo, hi :: SameOutside(s, s, lo, hi)
  {
  }

  lemma ScanDone(s0: Snap, s: Snap, heads: seq<int>, d: int)
    requires Scanned(s0, s, heads, d) && heads[|heads| - 1] == s0.reg.H
    ensures HeapOk(s0, s0.heapBase) && HeapMoved(s0, s, s0.heapBase, d)
  {
    ScanEnd(s0, s, heads, 0, d);
  }

  /** One more object is rewritten. */
  lemma ScanStep(s0: Snap, s: Snap, s': Snap, heads: seq<int>, d: int)
    requires Scanned(s0, s, heads, d)
    requires var p := heads[|heads| - 1];
             && p < s0.reg.H && Unscanned(s0, s, p, s0.reg.H, d) && SameOutside(s, s', p + d, p + d + 1)
             && At(s', p + d) == HeapImage(At(s0, p), d)
             && s.base <= s0.heapBase + d && s0.reg.H + d <= s.base + |s.words|
    ensures var p := heads[|heads| - 1];
            var q := p + CellSize(At(s0, p));
            && q <= s0.reg.H && p < q && Unscanned(s0, s', q, s0.reg.H, d) && Scanned(s0, s', heads + [q], d)
  {
    var p := heads[|heads| - 1];
    assert HeadAt(s0, heads, |heads| - 1);
    var q := p + CellSize(At(s0, p));
    var heads' := heads + [q];
    forall i | 0 <= i < |heads'| ensures HeadAt(s0, heads', i) {
      if i < |heads| { assert HeadAt(s0, heads, i); }
    }
    assert HeadAt(s0, heads, 0);
    forall i | 0 <= i < |heads'| - 1 ensures HeadDone(s0, s', heads', i, d) {
      if i < |heads| - 1 {
        assert HeadDone(s0, s, heads, i, d) && HeadAt(s0, heads, i);
        HeadStart(s0, s, heads, i, d);
        ObjectKept(s0, s, s', heads[i], p, d);
      } else {
        HeadStart(s0, s, heads, i, d);
        forall a | p < a < q ensures At(s', a + d) == At(s0, a) {
          assert At(s, a + d) == At(s0, a);
        }
      }
    }
    forall a | q <= a < s0.reg.H ensures At(s', a + d) == At(s0, a) {
      HeadStart(s0, s, heads, |heads| - 1, d);
      assert At(s, a + d) == At(s0, a);
    }
  }

  lemma {:induction false} HeadStart(s0: Snap, s: Snap, heads: seq<int>, i: int, d: int)
    requires Scanned(s0, s, heads, d) && 0 <= i < |heads|
    ensures s0.heapBase <= heads[i]
  {
    if i > 0 {
      HeadStart(s0, s, heads, i - 1, d);
      assert HeadDone(s0, s, heads, i - 1, d);
    }
  }

  lemma ObjectKept(s0: Snap, s: Snap, s': Snap, h: int, p: int, d: int)
    requires ObjectMoved(s0, s, h, d) && SameOutside(s, s', p + d, p + d + 1) && h + CellSize(At(s0, h)) <= p
    requires s.base <= h + d && p + d <= s.base + |s.words| && CellSize(At(s0, h)) >= 1
    ensures ObjectMoved(s0, s', h, d)
  {
    forall a | h < a < h + CellSize(At(s0, h)) ensures At(s', a + d) == At(s0, a) {
      assert At(s, a + d) == At(s0, a);
    }
  }

  lemma {:induction false} ScanEnd(s0: Snap, s: Snap, heads: seq<int>, i: int, d: int)
    requires Scanned(s0, s, heads, d) && heads[|heads| - 1] == s0.reg.H && 0 <= i < |heads|
    ensures HeapOk(s0, heads[i]) && HeapMoved(s0, s, heads[i], d)
    decreases |heads| - i
  {
    assert HeadAt(s0, heads, i);
    if i < |heads| - 1 {
      ScanEnd(s0, s, heads, i + 1, d);
      assert HeadDone(s0, s, heads, i, d);
    }
  }

  /** The heap loop's step: the next object has been rewritten in place. */
  lemma HeapCellScanned(s0: Snap, s: Snap, s1: Snap, s2: Snap, heads: seq<int>, d: int, lo: int, hi: int)
    requires Scanned(s0, s1, heads, d) && SameOutside(s, s1, lo, hi)
    requires var p := heads[|heads| - 1];
             && lo <= p + d < hi == s0.reg.H + d && lo == s0.heapBase + d && Unscanned(s0, s1, p, s0.reg.H, d)
             && s1.base <= lo && hi <= s1.base + |s1.words|
             && s2 == s1.(words := s1.words[p + d - s1.base := HeapImage(At(s1, p + d), d)])
    ensures var p := heads[|heads| - 1];
            var q := p + CellSize(At(s1, p + d));
            && p < q <= s0.reg.H && Scanned(s0, s2, heads + [q], d) && Unscanned(s0, s2, q, s0.reg.H, d)
            && SameOutside(s, s2, lo, hi)
  {
    var p := heads[|heads| - 1];
    CellRewritten(s1, p + d, HeapImage(At(s1, p + d), d));
    assert At(s1, p + d) == At(s0, p);
    ScanStep(s0, s1, s2, heads, d);
  }

  // ---- the trail ----

  datatype Step = Step(t: int, b: int)

  /** `steps` follow the choice points from the most recent one; all but the last are rewritten. */
  predicate Walked(s0: Snap, s: Snap, steps: seq<Step>, d: int, dt: int) {
    && |steps| > 0 && steps[0] == Step(s0.reg.TR, s0.reg.B)
    && (forall i | 0 <= i < |steps| :: StepAt(s0, steps, i))
    && (forall i | 0 <= i < |steps| - 1 :: StepDone(s0, s, steps, i, d, dt))
  }

  predicate StepAt(s0: Snap, steps: seq<Step>, i: int)
    requires 0 <= i < |steps|
  {
    s0.reg.TR <= steps[i].t <= steps[|steps| - 1].t && ChainOk(s0, steps[i].t, steps[i].b)
  }

  predicate StepDone(s0: Snap, s: Snap, steps: seq<Step>, i: int, d: int, dt: int)
    requires 0 <= i < |steps| - 1
  {
    var b := steps[i].b;
    && b != 0 && steps[i].t <= b && b + 4 == steps[i + 1].t <= steps[|steps| - 1].t
    && steps[i + 1].b == Field(s0, b, 3) / CELL && ChoiceMoved(s0, s, steps[i].t, b, d, dt)
  }

  lemma WalkStart(s0: Snap, s: Snap, d: int, dt: int)
    requires ChainOk(s0, s0.reg.TR, s0.reg.B)
    ensures Walked(s0, s, [Step(s0.reg.TR, s0.reg.B)], d, dt) && forall lo, hi :: SameOutside(s, s, lo, hi)
  {
  }

  lemma WalkStep(s0: Snap, s: Snap, s': Snap, steps: seq<Step>, d: int, dt: int)
    requires Walked(s0, s, steps, d, dt)
    requires var k := steps[|steps| - 1];
             && k.b != 0 && SameOutside(s, s', k.t + dt, k.b + 4 + dt) && ChoiceMoved(s0, s', k.t, k.b, d, dt)
             && s.base <= s0.reg.TR + dt && k.t + dt <= s.base + |s.words|
    ensures var k := steps[|steps| - 1];
            && k.t <= k.b && k.b + 4 <= s0.trailBase
            && Walked(s0, s', steps + [Step(k.b + 4, Field(s0, k.b, 3) / CELL)], d, dt)
  {
    var k := steps[|steps| - 1];
    assert StepAt(s0, steps, |steps| - 1);
    var steps' := steps + [Step(k.b + 4, Field(s0, k.b, 3) / CELL)];
    forall i | 0 <= i < |steps'| ensures StepAt(s0, steps', i) {
      if i < |steps| { assert StepAt(s0, steps, i); }
    }
    forall i | 0 <= i < |steps'| - 1 ensures StepDone(s0, s', steps', i, d, dt) {
      if i < |steps| - 1 {
        assert StepDone(s0, s, steps, i, d, dt) && StepAt(s0, steps, i);
        ChoiceKept(s0, s, s', steps[i].t, steps[i].b, k.t, k.b, d, dt);
      }
    }
  }

  lemma ChoiceKept(s0: Snap, s: Snap, s': Snap, t: int, b: int, kt: int, kb: int, d: int, dt: int)
    requires ChoiceMoved(s0, s, t, b, d, dt) && SameOutside(s, s', kt + dt, kb + 4 + dt)
    requires t <= b && b + 4 <= kt && s.base <= t + dt && kt + dt <= s.base + |s.words|
    ensures ChoiceMoved(s0, s', t, b, d, dt)
  {
    forall a | t <= a < b ensures At(s', a + dt) == Moved(At(s0, a), d) {
      assert At(s, a + dt) == Moved(At(s0, a), d);
    }
  }

  lemma {:induction false} WalkEnd(s0: Snap, s: Snap, steps: seq<Step>, i: int, d: int, dt: int)
    requires Walked(s0, s, steps, d, dt) && steps[|steps| - 1].b == 0 && 0 <= i < |steps|
    ensures ChainOk(s0, steps[i].t, steps[i].b) && ChainMoved(s0, s, steps[i].t, steps[i].b, d, dt)
    ensures LastEntries(s0, steps[i].t, steps[i].b) == steps[|steps| - 1].t
    decreases |steps| - i
  {
    assert StepAt(s0, steps, i);
    if i < |steps| - 1 {
      WalkEnd(s0, s, steps, i + 1, d, dt);
      assert StepDone(s0, s, steps, i, d, dt);
    }
  }

  lemma WalkDone(s0: Snap, s: Snap, steps: seq<Step>, d: int, dt: int)
    requires Walked(s0, s, steps, d, dt) && steps[|steps| - 1].b == 0
    ensures ChainOk(s0, s0.reg.TR, s0.reg.B) && ChainMoved(s0, s, s0.reg.TR, s0.reg.B, d, dt)
    ensures LastEntries(s0, s0.reg.TR, s0.reg.B) == steps[|steps| - 1].t
  {
    WalkEnd(s0, s, steps, 0, d, dt);
  }

  /** Where the trail entries begin that are older than every choice point. */
  function LastEntries(s: Snap, t: int, b: int): int
    requires ChainOk(s, t, b)
    decreases s.trailBase - t
  {
    if b == 0 then t else LastEntries(s, b + 4, Field(s, b, 3) / CELL)
  }

  /** The trail loop's step: one choice point and the entries below it have been rewritten. */
  lemma ChoiceWalked(s0: Snap, s: Snap, s1: Snap, s2: Snap, steps: seq<Step>, d: int, dt: int, lo: int, hi: int)
    requires Walked(s0, s1, steps, d, dt) && SameOutside(s, s1, lo, hi)
    requires var k := steps[|steps| - 1];
             && k.b != 0 && Unscanned(s0, s1, k.t, s0.trailBase, dt)
             && lo == s0.reg.TR + dt && hi == s0.trailBase + dt && s1.base <= lo && hi <= s1.base + |s1.words|
             && SameOutside(s1, s2, k.t + dt, k.b + dt + 4) && ChoiceRewritten(s1, s2, k.t + dt, k.b + dt, d, dt)
    ensures var k := steps[|steps| - 1];
            && lo <= k.t + dt <= k.b + dt && k.b + 4 + dt <= hi
            && Walked(s0, s2, steps + [Step(k.b + 4, Field(s0, k.b, 3) / CELL)], d, dt)
            && Unscanned(s0, s2, k.b + 4, s0.trailBase, dt) && SameOutside(s, s2, lo, hi)
  {
    var k := steps[|steps| - 1];
    assert StepAt(s0, steps, |steps| - 1);
    ChoiceWasCopied(s0, s1, s2, k.t, k.b, d, dt);
    assert k.b + dt + 4 == k.b + 4 + dt;
    WalkStep(s0, s1, s2, steps, d, dt);
    forall a | k.b + 4 <= a < s0.trailBase ensures At(s2, a + dt) == At(s0, a) {
      assert At(s1, a + dt) == At(s0, a);
    }
  }

  /** One choice point and the entries from `t` up to it have been rewritten in place. */
  predicate ChoiceRewritten(s: Snap, s': Snap, t: int, b: int, d: int, dt: int) {
    && Field(s', b, 0) == Field(s, b, 0)
    && Field(s', b, 1) == Moved(Field(s, b, 1), d)
    && Field(s', b, 2) == Moved(Field(s, b, 2), d)
    && Field(s', b, 3) == (if Field(s, b, 3) == 0 then 0 else Moved(Field(s, b, 3), dt))
    && forall a | t <= a < b :: At(s', a) == Moved(At(s, a), d)
  }

  lemma ChoiceWasCopied(s0: Snap, s1: Snap, s2: Snap, t: int, b: int, d: int, dt: int)
    requires ChoiceRewritten(s1, s2, t + dt, b + dt, d, dt) && Unscanned(s0, s1, t, s0.trailBase, dt)
    requires t <= b && b + 4 <= s0.trailBase
    ensures ChoiceMoved(s0, s2, t, b, d, dt)
  {
    assert At(s1, b + dt) == At(s0, b) && At(s1, (b + 1) + dt) == At(s0, b + 1);
    assert At(s1, (b + 2) + dt) == At(s0, b + 2) && At(s1, (b + 3) + dt) == At(s0, b + 3);
    forall a | t <= a < b ensures At(s2, a + dt) == Moved(At(s0, a), d) {
      assert At(s2, a + dt) == Moved(At(s1, a + dt), d) && At(s1, a + dt) == At(s0, a);
    }
  }

  /** The loop variables `t` and `b` stand at step `k`. */
  predicate OnStep(s0: Snap, k: Step, t: int, b: int, dt: int) {
    && t == k.t + dt && b == (if k.b == 0 then 0 else k.b + dt) && s0.reg.TR <= k.t && s0.reg.TR > 0 && s0.reg.TR + dt > 0
    && (k.b != 0 ==> k.t <= k.b)
  }

  lemma ChoiceInside(s0: Snap, s: Snap, steps: seq<Step>, d: int, dt: int)
    requires Walked(s0, s, steps, d, dt)
    ensures var k := steps[|steps| - 1];
            k.b != 0 ==> s0.reg.TR <= k.t <= k.b && k.b + 4 <= s0.trailBase && ChainOk(s0, k.t, k.b)
  {
    assert StepAt(s0, steps, |steps| - 1);
  }

  lemma NextChoice(s0: Snap, s1: Snap, s2: Snap, k: Step, d: int, dt: int)
    requires ChoiceRewritten(s1, s2, k.t + dt, k.b + dt, d, dt) && Unscanned(s0, s1, k.t, s0.trailBase, dt)
    requires k.b != 0 && ChainOk(s0, k.t, k.b) && s0.reg.TR <= k.t && s0.reg.TR > 0 && s0.reg.TR + dt > 0
    ensures OnStep(s0, Step(k.b + 4, Field(s0, k.b, 3) / CELL), k.b + dt + 4, Field(s2, k.b + dt, 3) / CELL, dt)
  {
    var f := Field(s0, k.b, 3);
    assert At(s1, (k.b + 3) + dt) == At(s0, k.b + 3);
    assert f == CELL * (f / CELL);
    assert k.b + dt + 3 == (k.b + 3) + dt;
  }

  lemma FieldsAndEntries(s: Snap, s1: Snap, s2: Snap, t: int, b: int, d: int, dt: int)
    requires s.base <= t <= b && b + 4 <= s.base + |s.words|
    requires SameOutside(s, s1, b, b + 4) && ChoiceRewritten(s, s1, b, b, d, dt)
    requires SameOutside(s1, s2, t, b) && forall a | t <= a < b :: At(s2, a) == Moved(At(s1, a), d)
    ensures SameOutside(s, s2, t, b + 4) && ChoiceRewritten(s, s2, t, b, d, dt)
  {
    forall a | t <= a < b ensures At(s2, a) == Moved(At(s, a), d) {
      assert At(s1, a) == At(s, a);
    }
  }

  // ---- the whole operation ----

  /** After the saved registers, the stack, the heap and the trail in turn, all is rewritten. */
  lemma AllRelocated(s0: Snap, s1: Snap, s2: Snap, s3: Snap, s4: Snap, d: int, dt: int)
    requires Inv(s0) && Copied(s0, s1, d, dt)
    requires |s1.saved| == |s0.saved| && forall i | 0 <= i < |s1.saved| :: s1.saved[i] == MovedRegs(s0.saved[i], d, dt)
    requires SameOutside(s1, s2, s1.reg.E, s1.stackBase)
    requires forall a | s1.reg.E <= a < s1.stackBase :: At(s2, a) == StackImage(s0, At(s1, a), d)
    requires SameOutside(s2, s3, s2.heapBase, s2.reg.H) && HeapMoved(s0, s3, s0.heapBase, d)
    requires SameOutside(s3, s4, s3.reg.TR, s3.trailBase) && ChainMoved(s0, s4, s0.reg.TR, s0.reg.B, d, dt)
    ensures Relocated(s0, s4, d, dt)
  {
    hide HeapMoved, ChainMoved, HeapOk, ChainOk, StackOk;
    HeapMovedStays(s0, s3, s4, s0.heapBase, d);
    forall a | s0.reg.E <= a < s0.stackBase ensures At(s4, a + d) == StackImage(s0, At(s0, a), d) {
      assert At(s1, a + d) == At(s0, a);
      assert At(s4, a + d) == At(s3, a + d) == At(s2, a + d);
    }
  }

  lemma {:induction false} HeapMovedStays(s0: Snap, s: Snap, s': Snap, p: int, d: int)
    requires HeapOk(s0, p) && HeapMoved(s0, s, p, d) && s.base <= p + d && s0.reg.H + d <= s.base + |s.words|
    requires SameOutside(s, s', s.reg.TR, s.trailBase) && s0.reg.H + d <= s.reg.TR
    ensures HeapMoved(s0, s', p, d)
    decreases s0.reg.H - p
  {
    if p < s0.reg.H {
      var n := CellSize(At(s0, p));
      HeapMovedStays(s0, s, s', p + n, d);
      forall a | p < a < p + n ensures At(s', a + d) == At(s0, a) {
        assert At(s, a + d) == At(s0, a);
      }
    }
  }

  predicate Ordered(s: Snap) {
    && s.base < s.reg.SP <= s.heapBase <= s.reg.H < s.reg.TR <= s.trailBase <= s.globalsBase
    && (s.reg.B == 0 || s.reg.TR <= s.reg.B)
  }

  /** If stack or heap words are moved onto the trail cell `a`, they are what it holds already. */
  predicate Overwritten(s: Snap, newStack: nat, a: int) {
    var d := StackShift(s, newStack);
    s.reg.SP + d <= a < s.reg.H + d ==> At(s, a - d) == At(s, a)
  }

  /** Whatever stack and heap, which are moved first, put over the trail is what is there. */
  predicate TrailKept(s: Snap, newStack: nat) {
    forall a | s.reg.TR <= a < s.globalsBase :: Overwritten(s, newStack, a)
  }

  /** Stack and heap end at or below the old top of the trail. */
  predicate ShiftClear(s: Snap, newStack: nat) {
    s.reg.H + StackShift(s, newStack) <= s.reg.TR
  }

  lemma ClearIsKept(s: Snap, newStack: nat)
    requires ShiftClear(s, newStack)
    ensures TrailKept(s, newStack)
  {
  }

  /** The memory as it is when the trail is about to be moved: stack and heap, which are moved
      first, lie over the trail wherever they reach it. */
  function Overlaid(s: Snap, newStack: nat): Snap {
    s.(words := seq(|s.words|, i requires 0 <= i < |s.words| => OverlaidWord(s, newStack, s.base + i)))
  }

  function OverlaidWord(s: Snap, newStack: nat, a: int): int {
    if s.reg.TR <= a < s.globalsBase then HalfShiftedCell(s, newStack, a) else At(s, a)
  }

  lemma OverlaidAt(s: Snap, newStack: nat, a: int)
    requires s.base <= a < s.base + |s.words|
    ensures At(Overlaid(s, newStack), a) == OverlaidWord(s, newStack, a)
  {
  }

  /** The shift copies every word in use as it finds it. */
  lemma ShiftCopies(s0: Snap, s: Snap, newStack: nat, newHeap: nat)
    requires Ordered(s0) && Fits(s0, newStack, newHeap) && ShiftInside(s0, newStack, newHeap)
    requires AreasShifted(s0, s, newStack, newHeap)
    ensures AreasCopied(Overlaid(s0, newStack), s, StackShift(s0, newStack), TrailShift(s0, newStack, newHeap))
  {
    hide Overlaid, At;
    var d, dt, c := StackShift(s0, newStack), TrailShift(s0, newStack, newHeap), Overlaid(s0, newStack);
    OverlaidKeeps(s0, newStack);
    forall a | s0.reg.SP <= a < s0.reg.H ensures At(s, a + d) == At(c, a) {
      assert ShiftedAt(s0, s, newStack, newHeap, a + d);
      OverlaidAt(s0, newStack, a);
    }
    forall a | s0.reg.TR <= a < s0.globalsBase ensures At(s, a + dt) == At(c, a) {
      assert ShiftedAt(s0, s, newStack, newHeap, a + dt);
      OverlaidAt(s0, newStack, a);
    }
  }

  lemma OverlaidKeeps(s: Snap, newStack: nat)
    ensures var c := Overlaid(s, newStack);
            c == s.(words := c.words) && |c.words| == |s.words|
  {
  }

  /** The areas come through exactly when the words written over the trail are its own. */
  lemma TrailIntact(s0: Snap, s: Snap, newStack: nat, d: int, dt: int)
    requires Ordered(s0) && s0.globalsBase <= s0.base + |s0.words| && AreasCopied(Overlaid(s0, newStack), s, d, dt)
    ensures AreasCopied(s0, s, d, dt) <==> TrailKept(s0, newStack)
  {
    hide Overlaid, At;
    var c := Overlaid(s0, newStack);
    OverlaidKeeps(s0, newStack);
    forall a | s0.reg.SP <= a < s0.reg.H ensures At(s, a + d) == At(s0, a) {
      assert At(s, a + d) == At(c, a);
      OverlaidAt(s0, newStack, a);
    }
    forall a | s0.reg.TR <= a < s0.globalsBase
      ensures At(s, a + dt) == At(s0, a) <==> Overwritten(s0, newStack, a)
    {
      assert At(s, a + dt) == At(c, a);
      OverlaidAt(s0, newStack, a);
    }
  }

  lemma CopiedStays(s0: Snap, s: Snap, s': Snap, d: int, dt: int)
    requires Copied(s0, s, d, dt) && s' == s.(saved := s'.saved)
    ensures Copied(s0, s', d, dt)
  {
    assert forall a :: At(s', a) == At(s, a);
  }

  lemma HeapUnscanned(s0: Snap, s1: Snap, s2: Snap, d: int, dt: int)
    requires Inv(s0) && Copied(s0, s1, d, dt) && SameOutside(s1, s2, s1.reg.E, s1.stackBase)
    ensures Unscanned(s0, s2, s0.heapBase, s0.reg.H, d) && HeapOk(s0, s0.heapBase)
    ensures s2.base <= s2.heapBase <= s2.reg.H <= s2.base + |s2.words|
  {
    forall a | s0.heapBase <= a < s0.reg.H ensures At(s2, a + d) == At(s0, a) {
      assert At(s1, a + d) == At(s0, a);
    }
  }

  lemma TrailUnscanned(s0: Snap, s1: Snap, s2: Snap, s3: Snap, d: int, dt: int)
    requires Inv(s0) && Copied(s0, s1, d, dt) && SameOutside(s1, s2, s1.reg.E, s1.stackBase)
    requires SameOutside(s2, s3, s2.heapBase, s2.reg.H)
    ensures Unscanned(s0, s3, s0.reg.TR, s0.trailBase, dt) && ChainOk(s0, s0.reg.TR, s0.reg.B)
    ensures s3.base <= s3.reg.TR <= s3.trailBase <= s3.base + |s3.words|
    ensures s0.reg.TR > 0 && s3.reg.TR > 0
  {
    forall a | s0.reg.TR <= a < s0.trailBase ensures At(s3, a + dt) == At(s0, a) {
      assert At(s1, a + dt) == At(s0, a);
      assert At(s2, a + dt) == At(s1, a + dt);
    }
  }

  function FinalBase(s: Snap, newBase: int, newStack: nat, newHeap: nat): int {
    if newStack + newHeap == s.stackSize + s.heapSize then s.base else newBase
  }

  /** Whatever on the stack lies outside the old memory also lies outside the new one. */
  predicate ForeignKept(s: Snap, newBase: int, newStack: nat, newHeap: nat) {
    var base := FinalBase(s, newBase, newStack, newHeap);
    forall a | s.reg.E <= a < s.stackBase && IsPointer(At(s, a)) ::
      OutsideStays(At(s, a), s.base, s.trailBase, base, base + newStack + newHeap - 1)
  }

  predicate OutsideStays(w: int, lo: int, hi: int, lo': int, hi': int) {
    w <= CELL * lo || w >= CELL * hi ==> w <= CELL * lo' || w >= CELL * hi'
  }

  lemma OrderedIsInside(s: Snap, newStack: nat, newHeap: nat)
    requires Inv(s) && Fits(s, newStack, newHeap)
    ensures Ordered(s) && Layout(s)
    ensures newStack + newHeap <= s.stackSize + s.heapSize ==> ShiftInside(s, newStack, newHeap)
  {
  }

  lemma ResizedIsInside(s0: Snap, newBase: int, newStack: nat, newHeap: nat, words: seq<int>)
    requires Layout(s0) && Ordered(s0) && Fits(s0, newStack, newHeap) && newBase > 0
    requires newStack + newHeap >= s0.stackSize + s0.heapSize
    requires |words| == newStack + newHeap + (s0.globalsBase - s0.trailBase)
    ensures var s := Resized(s0, newBase, newStack, newHeap, words);
            && Ordered(s) && Fits(s, newStack, newHeap) && ShiftInside(s, newStack, newHeap)
  {
  }

  /** Reallocation does not change what the shift will write over the trail. */
  lemma ResizedKeeps(s0: Snap, s1: Snap, newBase: int, newStack: nat, newHeap: nat)
    requires Layout(s0) && Ordered(s0) && newStack + newHeap >= s0.stackSize + s0.heapSize
    requires s1 == Resized(s0, newBase, newStack, newHeap, s1.words)
    requires |s1.words| == newStack + newHeap + (s0.globalsBase - s0.trailBase)
    requires forall i | 0 <= i < |s0.words| && i < |s1.words| :: s1.words[i] == s0.words[i]
    ensures AreasCopied(Overlaid(s0, newStack), Overlaid(s1, newStack), newBase - s0.base, newBase - s0.base)
  {
    hide Overlaid;
    var o, c0, c1 := newBase - s0.base, Overlaid(s0, newStack), Overlaid(s1, newStack);
    OverlaidKeeps(s0, newStack);
    forall a | s0.base <= a < s0.globalsBase ensures At(c1, a + o) == At(c0, a) {
      OverlaidAt(s0, newStack, a);
      OverlaidAt(s1, newStack, a + o);
    }
  }

  /** Growing: the block is reallocated, then the areas are shifted. */
  lemma GrowCopies(s0: Snap, s1: Snap, s2: Snap, newBase: int, newStack: nat, newHeap: nat)
    requires Layout(s0) && Ordered(s0) && Fits(s0, newStack, newHeap) && newBase > 0
    requires newStack + newHeap >= s0.stackSize + s0.heapSize
    requires |s1.words| == newStack + newHeap + (s0.globalsBase - s0.trailBase)
    requires s1 == Resized(s0, newBase, newStack, newHeap, s1.words)
    requires forall i | 0 <= i < |s0.words| && i < |s1.words| :: s1.words[i] == s0.words[i]
    requires s2 == Shifted(s1, newStack, newHeap, s2.words) && |s2.words| == |s1.words|
    requires AreasShifted(s1, s2, newStack, newHeap)
    ensures LaidOut(s0, s2, s2.heapBase - s0.heapBase, s2.trailBase - s0.trailBase) && s2.saved == s0.saved
    ensures Copied(Overlaid(s0, newStack), s2, s2.heapBase - s0.heapBase, s2.trailBase - s0.trailBase)
  {
    hide At, AreasShifted, AreasCopied, Overlaid;
    var o := newBase - s0.base;
    ResizedIsInside(s0, newBase, newStack, newHeap, s1.words);
    ResizedKeeps(s0, s1, newBase, newStack, newHeap);
    ShiftCopies(s1, s2, newStack, newHeap);
    var d, dt := StackShift(s1, newStack), TrailShift(s1, newStack, newHeap);
    OverlaidKeeps(s0, newStack);
    OverlaidKeeps(s1, newStack);
    CopiedThen(Overlaid(s0, newStack), Overlaid(s1, newStack), s2, o, o, d, dt);
    assert s2.heapBase - s0.heapBase == o + d && s2.trailBase - s0.trailBase == o + dt;
  }

  lemma ShiftOnlyCopies(s0: Snap, s1: Snap, newStack: nat, newHeap: nat)
    requires Layout(s0) && Ordered(s0) && Fits(s0, newStack, newHeap)
    requires newStack + newHeap == s0.stackSize + s0.heapSize
    requires s1 == Shifted(s0, newStack, newHeap, s1.words) && |s1.words| == |s0.words|
    requires AreasShifted(s0, s1, newStack, newHeap)
    ensures LaidOut(s0, s1, s1.heapBase - s0.heapBase, s1.trailBase - s0.trailBase) && s1.saved == s0.saved
    ensures Copied(Overlaid(s0, newStack), s1, s1.heapBase - s0.heapBase, s1.trailBase - s0.trailBase)
  {
    hide At, AreasShifted, Overlaid;
    OverlaidKeeps(s0, newStack);
    ShiftCopies(s0, s1, newStack, newHeap);
  }

  /** Shrinking: the areas are shifted, then the block is reallocated. */
  lemma ShrinkCopies(s0: Snap, s1: Snap, s2: Snap, newBase: int, newStack: nat, newHeap: nat)
    requires Layout(s0) && Ordered(s0) && Fits(s0, newStack, newHeap) && newBase > 0
    requires newStack + newHeap < s0.stackSize + s0.heapSize
    requires s1 == Shifted(s0, newStack, newHeap, s1.words) && |s1.words| == |s0.words|
    requires AreasShifted(s0, s1, newStack, newHeap)
    requires |s2.words| == newStack + newHeap + (s1.globalsBase - s1.trailBase)
    requires s2 == Resized(s1, newBase, newStack, newHeap, s2.words)
    requires forall i | 0 <= i < |s1.words| && i < |s2.words| :: s2.words[i] == s1.words[i]
    ensures LaidOut(s0, s2, s2.heapBase - s0.heapBase, s2.trailBase - s0.trailBase) && s2.saved == s0.saved
    ensures Copied(Overlaid(s0, newStack), s2, s2.heapBase - s0.heapBase, s2.trailBase - s0.trailBase)
  {
    hide At, AreasShifted, AreasCopied, Overlaid;
    var o := newBase - s0.base;
    OverlaidKeeps(s0, newStack);
    ShiftCopies(s0, s1, newStack, newHeap);
    ReallocCopies(s1, s2, o);
    var d, dt := StackShift(s0, newStack), TrailShift(s0, newStack, newHeap);
    CopiedThen(Overlaid(s0, newStack), s1, s2, d, dt, o, o);
    assert s2.heapBase - s0.heapBase == d + o && s2.trailBase - s0.trailBase == dt + o;
  }

  lemma ReallocCopies(s: Snap, s': Snap, o: int)
    requires s.base <= s.reg.SP && s.reg.H <= s.globalsBase && s.globalsBase <= s.base + |s.words|
    requires s.globalsBase <= s.base + |s'.words| && s.base <= s.reg.TR && s'.base == s.base + o
    requires forall i | 0 <= i < |s.words| && i < |s'.words| :: s'.words[i] == s.words[i]
    ensures AreasCopied(s, s', o, o)
  {
  }

  /** Two copies are one. */
  lemma CopiedThen(s0: Snap, s1: Snap, s2: Snap, d: int, dt: int, e: int, et: int)
    requires AreasCopied(s0, s1, d, dt) && AreasCopied(s1, s2, e, et)
    requires s1.reg.SP == s0.reg.SP + d && s1.reg.H == s0.reg.H + d
    requires s1.reg.TR == s0.reg.TR + dt && s1.globalsBase == s0.globalsBase + dt
    ensures AreasCopied(s0, s2, d + e, dt + et)
  {
    hide At;
    forall a | s0.reg.SP <= a < s0.reg.H ensures At(s2, a + (d + e)) == At(s0, a) {
      assert At(s1, a + d) == At(s0, a) && At(s2, (a + d) + e) == At(s1, a + d);
    }
    forall a | s0.reg.TR <= a < s0.globalsBase ensures At(s2, a + (dt + et)) == At(s0, a) {
      assert At(s1, a + dt) == At(s0, a) && At(s2, (a + dt) + et) == At(s1, a + dt);
    }
  }

  lemma ForeignStaysAway(s0: Snap, s: Snap, newBase: int, newStack: nat, newHeap: nat)
    requires Inv(s0) && ForeignKept(s0, newBase, newStack, newHeap) && s.stackMax == s.base
    requires s.base == FinalBase(s0, newBase, newStack, newHeap) && s.trailBase == s.base + newStack + newHeap - 1
    ensures ForeignStays(s0, s)
  {
    forall a | s0.reg.E <= a < s0.stackBase && IsPointer(At(s0, a)) ensures Foreign(s0, s, At(s0, a)) {
      assert OutsideStays(At(s0, a), s0.base, s0.trailBase, s.base, s.trailBase);
    }
  }

  // ---- what writing over the trail does to the view ----

  /** The words of the trail that can be told from outside, those below the entries older than
      every choice point, are not written over with others. */
  predicate ViewedTrailKept(s: Snap, newStack: nat)
    requires Inv(s)
  {
    forall a | s.reg.TR <= a < LastEntries(s, s.reg.TR, s.reg.B) :: Overwritten(s, newStack, a)
  }

  /** `c` differs from `s` in the words above the heap only. */
  ghost predicate SameBelow(s: Snap, c: Snap) {
    && c == s.(words := c.words) && |c.words| == |s.words|
    && forall a | a < s.reg.TR :: At(c, a) == At(s, a)
  }

  lemma OverlaidBelow(s: Snap, newStack: nat)
    ensures SameBelow(s, Overlaid(s, newStack))
  {
    hide Overlaid;
    OverlaidKeeps(s, newStack);
    forall a | a < s.reg.TR ensures At(Overlaid(s, newStack), a) == At(s, a) {
      if s.base <= a < s.base + |s.words| { OverlaidAt(s, newStack, a); }
    }
  }

  lemma StackSame(s: Snap, c: Snap)
    requires SameBelow(s, c) && s.stackBase <= s.reg.TR && StackOk(s)
    ensures StackOk(c) && StackView(c) == StackView(s)
  {
    if s.reg.E <= s.stackBase {
      var mine, other := StackView(s), StackView(c);
      forall i | 0 <= i < |mine| ensures other[i] == mine[i] {
        var a := s.reg.E + i;
        assert At(c, a) == At(s, a);
        assert mine[i] == StackNode(s, At(s, a)) && other[i] == StackNode(c, At(c, a));
      }
    }
  }

  lemma {:induction false} HeapSame(s: Snap, c: Snap, p: int)
    requires SameBelow(s, c) && HeapOk(s, p) && s.reg.H <= s.reg.TR
    ensures HeapOk(c, p) && HeapView(c, p) == HeapView(s, p)
    decreases s.reg.H - p
  {
    if p < s.reg.H {
      var n := CellSize(At(s, p));
      HeapSame(s, c, p + n);
      assert ObjectView(c, p) == ObjectView(s, p);
    }
  }

  /** The same words make the same choice points. */
  lemma {:induction false} ChainSame(s: Snap, c: Snap, t: int, b: int)
    requires c == s.(words := c.words) && ChainOk(s, t, b)
    requires forall a | t <= a < LastEntries(s, t, b) :: At(c, a) == At(s, a)
    ensures ChainOk(c, t, b) && ChoicesView(c, t, b) == ChoicesView(s, t, b)
    decreases s.trailBase - t
  {
    if b != 0 {
      var next := Field(s, b, 3) / CELL;
      LastAbove(s, b + 4, next);
      assert Field(c, b, 0) == Field(s, b, 0) && Field(c, b, 1) == Field(s, b, 1);
      assert Field(c, b, 2) == Field(s, b, 2) && Field(c, b, 3) == Field(s, b, 3);
      ChainSame(s, c, b + 4, next);
      assert EntriesView(c, t, b) == EntriesView(s, t, b);
    }
  }

  /** The same choice points are made of the same words. */
  lemma {:induction false} ChainTells(s: Snap, c: Snap, t: int, b: int)
    requires c == s.(words := c.words) && ChainOk(s, t, b) && ChainOk(c, t, b)
    requires ChoicesView(c, t, b) == ChoicesView(s, t, b)
    ensures forall a | t <= a < LastEntries(s, t, b) :: At(c, a) == At(s, a)
    decreases s.trailBase - t
  {
    if b != 0 {
      var next := Field(s, b, 3) / CELL;
      var mine, other := ChoicesView(s, t, b), ChoicesView(c, t, b);
      assert mine[0] == other[0];
      assert Field(s, b, 3) == CELL * next && Field(c, b, 3) == CELL * (Field(c, b, 3) / CELL);
      assert mine[1..] == ChoicesView(s, b + 4, next) && other[1..] == ChoicesView(c, b + 4, next);
      ChainTells(s, c, b + 4, next);
      forall a | t <= a < LastEntries(s, t, b) ensures At(c, a) == At(s, a) {
        if a < b {
          assert mine[0].entries[a - t] == other[0].entries[a - t];
        } else if a < b + 4 {
          assert At(s, a) == Field(s, b, a - b);
        }
      }
    }
  }

  lemma {:induction false} LastAbove(s: Snap, t: int, b: int)
    requires ChainOk(s, t, b)
    ensures t <= LastEntries(s, t, b)
    ensures t <= s.trailBase ==> LastEntries(s, t, b) <= s.trailBase
    decreases s.trailBase - t
  {
    if b != 0 { LastAbove(s, b + 4, Field(s, b, 3) / CELL); }
  }

  lemma ViewedWords(s: Snap, newStack: nat)
    requires Inv(s)
    ensures ViewedTrailKept(s, newStack) <==>
            forall a | s.reg.TR <= a < LastEntries(s, s.reg.TR, s.reg.B) :: At(Overlaid(s, newStack), a) == At(s, a)
  {
    hide Overlaid, LastEntries, At, HeapOk, ChainOk, StackOk;
    LastAbove(s, s.reg.TR, s.reg.B);
    forall a | s.reg.TR <= a < LastEntries(s, s.reg.TR, s.reg.B)
      ensures Overwritten(s, newStack, a) <==> At(Overlaid(s, newStack), a) == At(s, a)
    {
      OverlaidAt(s, newStack, a);
    }
  }

  /** A trail that is kept as far as it is looked at is in order, and looks the same. */
  lemma OverlaidInOrder(s: Snap, newStack: nat)
    requires Inv(s) && ViewedTrailKept(s, newStack)
    ensures Inv(Overlaid(s, newStack)) && ViewOf(Overlaid(s, newStack)) == ViewOf(s)
  {
    hide Overlaid, LastEntries, HeapOk, HeapView, ChainOk, ChoicesView, StackOk, StackView;
    var c := Overlaid(s, newStack);
    OverlaidBelow(s, newStack);
    ViewedWords(s, newStack);
    HeapSame(s, c, s.heapBase);
    ChainSame(s, c, s.reg.TR, s.reg.B);
    StackSame(s, c);
  }

  /** If what is written over the trail leaves it in order, it goes unnoticed exactly when the
      words that are looked at are the same. */
  lemma ViewExactly(s: Snap, newStack: nat)
    requires Inv(s) && Inv(Overlaid(s, newStack))
    ensures ViewOf(Overlaid(s, newStack)) == ViewOf(s) <==> ViewedTrailKept(s, newStack)
  {
    hide Overlaid, LastEntries, HeapOk, HeapView, ChainOk, ChoicesView, StackOk, RegsOk, StackView;
    var c := Overlaid(s, newStack);
    OverlaidKeeps(s, newStack);
    if ViewedTrailKept(s, newStack) { OverlaidInOrder(s, newStack); }
    if ViewOf(c) == ViewOf(s) {
      ChainTells(s, c, s.reg.TR, s.reg.B);
      ViewedWords(s, newStack);
    }
  }

  /** A trail that is not written over is found as it was. */
  lemma KeptIsSame(s: Snap, newStack: nat)
    requires TrailKept(s, newStack)
    ensures Overlaid(s, newStack) == s
  {
    var c := Overlaid(s, newStack);
    forall i | 0 <= i < |s.words| ensures c.words[i] == s.words[i] {
      var a := s.base + i;
      assert At(s, a) == s.words[i] && c.words[i] == OverlaidWord(s, newStack, a);
      if s.reg.TR <= a < s.globalsBase { assert Overwritten(s, newStack, a); }
    }
  }

  lemma InBlock(s: Snap)
    requires Inv(s)
    ensures s.base <= s.reg.TR <= s.trailBase && s.globalsBase <= s.base + |s.words|
  {
    hide HeapOk, ChainOk, StackOk;
  }

  lemma ForeignOverlaid(s: Snap, newBase: int, newStack: nat, newHeap: nat)
    requires Inv(s) && ForeignKept(s, newBase, newStack, newHeap)
    ensures ForeignKept(Overlaid(s, newStack), newBase, newStack, newHeap)
  {
    hide Overlaid;
    OverlaidBelow(s, newStack);
  }
}
