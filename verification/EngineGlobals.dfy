/** The global variables, which lie above the trail: those in use hold a value, those free are
    linked into a list. */
module EngineGlobals {
  import opened EngineModel

  /** The list of free globals goes through `cells`. */
  ghost predicate FreeList(s: Snap, cells: seq<int>) {
    && s.free == (if cells == [] then END else CELL * cells[0])
    && (forall i | 0 <= i < |cells| :: LinkAt(s, cells, i))
    && (forall i, j | 0 <= i < j < |cells| :: cells[i] != cells[j])
  }

  /** What the `i`-th free global holds. */
  function LinkOf(cells: seq<int>, i: int): int
    requires 0 <= i < |cells|
  {
    if i + 1 < |cells| then CELL * cells[i + 1] else END
  }

  predicate LinkAt(s: Snap, cells: seq<int>, i: int)
    requires 0 <= i < |cells|
  {
    s.trailBase <= cells[i] < s.globalsBase && At(s, cells[i]) == LinkOf(cells, i)
  }

  predicate InUse(s: Snap, cells: seq<int>, a: int) {
    s.trailBase <= a < s.globalsBase && a !in cells
  }

  /** The global at `a` has the value it had. */
  predicate ValueKept(s0: Snap, s: Snap, a: int, dt: int) {
    NodeOf(s, At(s, a + dt)) == NodeOf(s0, At(s0, a))
  }

  /** Every global in use has the value it had. */
  ghost predicate GlobalsKept(s0: Snap, s: Snap, cells: seq<int>, dt: int) {
    forall a | InUse(s0, cells, a) :: ValueKept(s0, s, a, dt)
  }

  function Carried(cells: seq<int>, dt: int): (r: seq<int>)
    ensures |r| == |cells| && forall i | 0 <= i < |r| :: r[i] == cells[i] + dt
  {
    seq(|cells|, i requires 0 <= i < |cells| => cells[i] + dt)
  }

  // ---- what rewriting does ----

  predicate LooksLikeLink(s: Snap, w: int) {
    CELL * s.trailBase <= w < CELL * s.globalsBase
  }

  /** What becomes of the word `w` of a global: it is rewritten if it does not look like a link
      of the list in its new place, and only if there is a list at all. */
  function GlobalImage(s: Snap, w: int, d: int): int {
    if s.free != END && IsPointer(w) && !LooksLikeLink(s, w) then Moved(w, d) else w
  }

  ghost predicate GlobalsMoved(s0: Snap, s: Snap, cells: seq<int>, d: int, dt: int) {
    && FreeList(s, Carried(cells, dt))
    && forall a | InUse(s0, cells, a) :: At(s, a + dt) == GlobalImage(s, At(s0, a), d)
  }

  predicate LinkMoved(s0: Snap, s: Snap, cells: seq<int>, k: int, i: int, dt: int)
    requires 0 <= i < |cells|
  {
    At(s, cells[i] + dt) == if i < k then LinkOf(Carried(cells, dt), i) else At(s0, cells[i])
  }

  /** The first `k` links have been rewritten; everything else is as it was. */
  ghost predicate LinksMoved(s0: Snap, s: Snap, cells: seq<int>, k: int, dt: int)
    requires 0 <= k <= |cells|
  {
    && (forall i | 0 <= i < |cells| :: LinkMoved(s0, s, cells, k, i, dt))
    && forall a | InUse(s0, cells, a) :: At(s, a + dt) == At(s0, a)
  }

  /** The global at `a` is rewritten as it should be. */
  predicate Rewritten(s0: Snap, s: Snap, w: int, d: int) {
    IsPointer(w) && d != 0 ==> s0.free != END && !LooksLikeLink(s, w)
  }

  /** The globals in use keep their values exactly when there is a free one, and no old heap
      address they hold happens to lie in the new place of the globals; or when the heap has
      not moved. */
  lemma GlobalsExactly(s0: Snap, s: Snap, cells: seq<int>, d: int, dt: int)
    requires FreeList(s0, cells) && s.heapBase == s0.heapBase + d && (s.free == END <==> s0.free == END)
    requires GlobalsMoved(s0, s, cells, d, dt)
    ensures GlobalsKept(s0, s, cells, dt) <==> forall a | InUse(s0, cells, a) :: Rewritten(s0, s, At(s0, a), d)
  {
    forall a | InUse(s0, cells, a)
      ensures ValueKept(s0, s, a, dt) <==> Rewritten(s0, s, At(s0, a), d)
    {
      assert At(s, a + dt) == GlobalImage(s, At(s0, a), d);
      MovedTag(At(s0, a), d);
    }
  }

  lemma LinksStart(s0: Snap, s: Snap, cells: seq<int>, dt: int)
    requires FreeList(s0, cells) && forall a | s0.trailBase <= a < s0.globalsBase :: At(s, a + dt) == At(s0, a)
    ensures LinksMoved(s0, s, cells, 0, dt)
  {
    forall i | 0 <= i < |cells| ensures LinkMoved(s0, s, cells, 0, i, dt) {
      assert LinkAt(s0, cells, i);
    }
  }

  /** One more link has been rewritten. */
  lemma LinkStep(s0: Snap, s: Snap, s': Snap, cells: seq<int>, k: int, dt: int)
    requires FreeList(s0, cells) && 0 <= k < |cells| - 1 && LinksMoved(s0, s, cells, k, dt)
    requires SameOutside(s, s', cells[k] + dt, cells[k] + dt + 1)
    requires At(s', cells[k] + dt) == Moved(At(s, cells[k] + dt), dt)
    requires s.base <= s0.trailBase + dt && s0.globalsBase + dt <= s.base + |s.words|
    ensures LinksMoved(s0, s', cells, k + 1, dt)
  {
    assert LinkAt(s0, cells, k) && LinkMoved(s0, s, cells, k, k, dt);
    var k1 := k + 1;
    forall i | 0 <= i < |cells| ensures LinkMoved(s0, s', cells, k1, i, dt) {
      assert LinkAt(s0, cells, i) && LinkMoved(s0, s, cells, k, i, dt);
      if i != k { assert cells[i] + dt != cells[k] + dt; }
    }
  }

  /** The cell that link `k` stands in, and whether the list goes on. */
  lemma LinkHere(s0: Snap, s: Snap, cells: seq<int>, k: int, dt: int)
    requires FreeList(s0, cells) && 0 <= k < |cells| && LinksMoved(s0, s, cells, k, dt)
    ensures s0.trailBase <= cells[k] < s0.globalsBase && At(s, cells[k] + dt) == At(s0, cells[k]) == LinkOf(cells, k)
    ensures At(s, cells[k] + dt) == END <==> k == |cells| - 1
    ensures k < |cells| - 1 ==> Moved(At(s, cells[k] + dt), dt) == CELL * (cells[k + 1] + dt)
  {
    assert LinkAt(s0, cells, k) && LinkMoved(s0, s, cells, k, k, dt);
  }

  lemma ListStart(s0: Snap, s: Snap, cells: seq<int>, dt: int)
    requires FreeList(s0, cells) && cells != [] && Unscanned(s0, s, s0.trailBase, s0.globalsBase, dt)
    requires s.free == MovedFree(s0.free, dt) && s.base <= s0.trailBase + dt && s0.globalsBase + dt <= s.base + |s.words|
    ensures LinksMoved(s0, s, cells, 0, dt) && forall lo, hi :: SameOutside(s, s, lo, hi)
    ensures s.free == CELL * (cells[0] + dt) && s.base <= cells[0] + dt < s.base + |s.words|
  {
    assert LinkAt(s0, cells, 0);
    forall a | s0.trailBase <= a < s0.globalsBase ensures At(s, a + dt) == At(s0, a) { }
    LinksStart(s0, s, cells, dt);
  }

  /** The loop's step: the link in cell `k` has been rewritten in place. */
  lemma LinkRewritten(s0: Snap, s: Snap, s1: Snap, s2: Snap, cells: seq<int>, k: int, dt: int, lo: int, hi: int)
    requires FreeList(s0, cells) && 0 <= k < |cells| && LinksMoved(s0, s1, cells, k, dt) && SameOutside(s, s1, lo, hi)
    requires At(s1, cells[k] + dt) != END && lo == s0.trailBase + dt && hi == s0.globalsBase + dt
    requires s1.base <= lo <= hi <= s1.base + |s1.words|
    requires s1.base <= cells[k] + dt < s1.base + |s1.words|
    requires s2 == s1.(words := s1.words[cells[k] + dt - s1.base := Moved(At(s1, cells[k] + dt), dt)])
    ensures k + 1 < |cells| && LinksMoved(s0, s2, cells, k + 1, dt) && SameOutside(s, s2, lo, hi)
    ensures At(s2, cells[k] + dt) == CELL * (cells[k + 1] + dt)
    ensures s2.base <= cells[k + 1] + dt < s2.base + |s2.words|
  {
    LinkHere(s0, s1, cells, k, dt);
    CellRewritten(s1, cells[k] + dt, Moved(At(s1, cells[k] + dt), dt));
    LinkStep(s0, s1, s2, cells, k, dt);
    assert LinkAt(s0, cells, k + 1);
  }

  /** The list is whole again, in its new place. */
  lemma LinksDone(s0: Snap, s: Snap, cells: seq<int>, k: int, dt: int)
    requires FreeList(s0, cells) && 0 <= k < |cells| && LinksMoved(s0, s, cells, k, dt) && k == |cells| - 1
    requires s.free == CELL * (cells[0] + dt)
    requires s.trailBase == s0.trailBase + dt && s.globalsBase == s0.globalsBase + dt
    ensures FreeList(s, Carried(cells, dt))
  {
    var carried := Carried(cells, dt);
    hide At;
    forall i | 0 <= i < |carried| ensures LinkAt(s, carried, i) {
      assert LinkAt(s0, cells, i) && LinkMoved(s0, s, cells, k, i, dt);
    }
    forall i, j | 0 <= i < j < |carried| ensures carried[i] != carried[j] {
      assert cells[i] != cells[j];
    }
  }

  /** The cells below `p` have been looked at. */
  predicate Swept(s1: Snap, s: Snap, p: int, d: int) {
    forall a | s1.trailBase <= a < s1.globalsBase ::
      At(s, a) == if a < p then GlobalImage(s1, At(s1, a), d) else At(s1, a)
  }

  lemma SweepStep(s1: Snap, s: Snap, s': Snap, p: int, d: int)
    requires Swept(s1, s, p, d) && s1.base <= s1.trailBase <= p < s1.globalsBase <= s1.base + |s1.words|
    requires s.base == s1.base && |s.words| == |s1.words| && SameOutside(s, s', p, p + 1)
    requires At(s', p) == GlobalImage(s1, At(s, p), d)
    ensures Swept(s1, s', p + 1, d)
  {
  }

  /** Links are left alone by the sweep, values are rewritten. */
  lemma SweepDone(s0: Snap, s1: Snap, s: Snap, cells: seq<int>, d: int, dt: int)
    requires FreeList(s0, cells) && FreeList(s1, Carried(cells, dt)) && s1.free != END
    requires forall a | InUse(s0, cells, a) :: At(s1, a + dt) == At(s0, a)
    requires s1.trailBase == s0.trailBase + dt && s1.globalsBase == s0.globalsBase + dt
    requires Swept(s1, s, s1.globalsBase, d) && s == s1.(words := s.words)
    ensures GlobalsMoved(s0, s, cells, d, dt)
  {
    var carried := Carried(cells, dt);
    forall i | 0 <= i < |carried| ensures LinkAt(s, carried, i) {
      assert LinkAt(s1, carried, i);
      if i + 1 < |carried| { assert LinkAt(s1, carried, i + 1); }
    }
    forall a | InUse(s0, cells, a) ensures At(s, a + dt) == GlobalImage(s, At(s0, a), d) {
      assert At(s1, a + dt) == At(s0, a);
    }
  }

  lemma NoListNothingMoved(s0: Snap, s: Snap, d: int, dt: int)
    requires FreeList(s0, []) && s.free == END && forall a | s0.trailBase <= a < s0.globalsBase :: At(s, a + dt) == At(s0, a)
    ensures GlobalsMoved(s0, s, [], d, dt)
  {
  }

  /** Up to the trail nothing has touched the globals. */
  lemma GlobalsUnscanned(s0: Snap, s1: Snap, s2: Snap, s3: Snap, s4: Snap, d: int, dt: int)
    requires Inv(s0) && Copied(s0, s1, d, dt)
    requires SameOutside(s1, s2, s1.reg.E, s1.stackBase) && SameOutside(s2, s3, s2.heapBase, s2.reg.H)
    requires SameOutside(s3, s4, s3.reg.TR, s3.trailBase)
    ensures Unscanned(s0, s4, s0.trailBase, s0.globalsBase, dt)
    ensures s4.base <= s4.trailBase <= s4.globalsBase <= s4.base + |s4.words|
    ensures s4.trailBase == s0.trailBase + dt && s4.globalsBase == s0.globalsBase + dt && s4.heapBase == s0.heapBase + d
  {
    forall a | s0.trailBase <= a < s0.globalsBase ensures At(s4, a + dt) == At(s0, a) {
      assert At(s1, a + dt) == At(s0, a);
      assert At(s4, a + dt) == At(s3, a + dt) == At(s2, a + dt) == At(s1, a + dt);
    }
  }

  lemma OldestStay(s0: Snap, s: Snap, s': Snap, d: int, dt: int)
    requires Inv(s0) && Unscanned(s0, s, LastEntries(s0, s0.reg.TR, s0.reg.B), s0.trailBase, dt)
    requires SameOutside(s, s', s.trailBase, s.globalsBase) && s.trailBase == s0.trailBase + dt
    requires s.base <= s0.reg.TR + dt && s.trailBase <= s.base + |s.words|
    ensures Unscanned(s0, s', LastEntries(s0, s0.reg.TR, s0.reg.B), s0.trailBase, dt)
  {
    LastAbove(s0, s0.reg.TR, s0.reg.B);
    forall a | LastEntries(s0, s0.reg.TR, s0.reg.B) <= a < s0.trailBase ensures At(s', a + dt) == At(s0, a) {
      assert At(s, a + dt) == At(s0, a);
    }
  }

  /** Rewriting the globals leaves the rest of the memory as it was. */
  lemma RelocatedStays(s0: Snap, s: Snap, s': Snap, d: int, dt: int)
    requires Inv(s0) && Relocated(s0, s, d, dt) && SameOutside(s, s', s.trailBase, s.globalsBase)
    ensures Relocated(s0, s', d, dt)
  {
    hide HeapMoved, ChainMoved, HeapOk, ChainOk, StackOk;
    HeapStays(s0, s, s', s0.heapBase, d);
    ChainStays(s0, s, s', s0.reg.TR, s0.reg.B, d, dt);
    forall a | s0.reg.E <= a < s0.stackBase ensures At(s', a + d) == StackImage(s0, At(s0, a), d) {
      assert At(s, a + d) == StackImage(s0, At(s0, a), d);
    }
  }

  lemma {:induction false} HeapStays(s0: Snap, s: Snap, s': Snap, p: int, d: int)
    requires HeapOk(s0, p) && HeapMoved(s0, s, p, d) && s.base <= p + d && s0.reg.H + d <= s.trailBase
    requires SameOutside(s, s', s.trailBase, s.globalsBase) && s.trailBase <= s.base + |s.words|
    ensures HeapMoved(s0, s', p, d)
    decreases s0.reg.H - p
  {
    if p < s0.reg.H {
      var n := CellSize(At(s0, p));
      HeapStays(s0, s, s', p + n, d);
      forall a | p < a < p + n ensures At(s', a + d) == At(s0, a) {
        assert At(s, a + d) == At(s0, a);
      }
    }
  }

  lemma {:induction false} ChainStays(s0: Snap, s: Snap, s': Snap, t: int, b: int, d: int, dt: int)
    requires ChainOk(s0, t, b) && ChainMoved(s0, s, t, b, d, dt) && s.base <= t + dt && s0.trailBase + dt == s.trailBase
    requires SameOutside(s, s', s.trailBase, s.globalsBase) && s.trailBase <= s.base + |s.words|
    ensures ChainMoved(s0, s', t, b, d, dt)
    decreases s0.trailBase - t
  {
    if b != 0 {
      ChainStays(s0, s, s', b + 4, Field(s0, b, 3) / CELL, d, dt);
      forall a | t <= a < b ensures At(s', a + dt) == Moved(At(s0, a), d) {
        assert At(s, a + dt) == Moved(At(s0, a), d);
      }
    }
  }

  // ---- what can be told beforehand ----

  /** A global that holds the word `w` keeps its value over the resize: `w` is a constant, or the
      heap stays where it is, or there is a free global and `w` is not an address in the new
      place of the globals. */
  predicate WillMove(s: Snap, w: int, newBase: int, newStack: nat, newHeap: nat) {
    var heapBase := FinalBase(s, newBase, newStack, newHeap) + newStack;
    var trailBase := heapBase + newHeap - 1;
    !IsPointer(w) || heapBase == s.heapBase ||
    (s.free != END && !(CELL * trailBase <= w < CELL * (trailBase + s.globalsBase - s.trailBase)))
  }

  /** The global at `a` keeps its value: it is not written over and will be rewritten as it
      should; or what is written over it is the address it should get, and is left alone. */
  predicate WillKeep(s: Snap, a: int, newBase: int, newStack: nat, newHeap: nat) {
    var w, w' := At(s, a), OverlaidWord(s, newStack, a);
    if w' == w then WillMove(s, w, newBase, newStack, newHeap)
    else
      && !WillMove(s, w', newBase, newStack, newHeap)
      && w' == Moved(w, FinalBase(s, newBase, newStack, newHeap) + newStack - s.heapBase)
  }

  lemma ToldBefore(s0: Snap, s: Snap, cells: seq<int>, newBase: int, newStack: nat, newHeap: nat, d: int, dt: int)
    requires s.heapBase == FinalBase(s0, newBase, newStack, newHeap) + newStack && s.trailBase == s.heapBase + newHeap - 1
    requires d == s.heapBase - s0.heapBase && dt == s.trailBase - s0.trailBase
    requires s.globalsBase - s.trailBase == s0.globalsBase - s0.trailBase && (s.free == END <==> s0.free == END)
    requires s0.base <= s0.reg.TR <= s0.trailBase && s0.globalsBase <= s0.base + |s0.words|
    requires GlobalsMoved(Overlaid(s0, newStack), s, cells, d, dt)
    ensures forall a | InUse(s0, cells, a) :: ValueKept(s0, s, a, dt) <==> WillKeep(s0, a, newBase, newStack, newHeap)
    ensures GlobalsKept(s0, s, cells, dt) <==> forall a | InUse(s0, cells, a) :: WillKeep(s0, a, newBase, newStack, newHeap)
  {
    hide Overlaid;
    var c := Overlaid(s0, newStack);
    OverlaidKeeps(s0, newStack);
    forall a | InUse(s0, cells, a)
      ensures ValueKept(s0, s, a, dt) <==> WillKeep(s0, a, newBase, newStack, newHeap)
    {
      assert InUse(c, cells, a);
      OverlaidAt(s0, newStack, a);
      var w, w' := At(s0, a), At(c, a);
      assert At(s, a + dt) == GlobalImage(s, w', d);
      MovedTag(w, d);
      MovedTag(w', d);
    }
  }

  lemma FreeMovesTwice(free: int)
    ensures free == END || free % CELL == 0 ==>
              forall o, dt :: MovedFree(MovedFree(free, o), dt) == MovedFree(free, o + dt)
  {
    if free == END || free % CELL == 0 {
      forall o, dt ensures MovedFree(MovedFree(free, o), dt) == MovedFree(free, o + dt) {
        if free != END { assert Moved(free, o) % CELL == 0; }
      }
    }
  }

  lemma FreeStays(s: Snap, cells: seq<int>, dt: int)
    requires FreeList(s, cells)
    ensures MovedFree(s.free, dt) == END <==> s.free == END
  {
    if cells != [] { assert Moved(CELL * cells[0], dt) % CELL == 0; }
  }

  lemma FreeIsAddress(s: Snap, cells: seq<int>)
    requires FreeList(s, cells)
    ensures s.free == END || s.free % CELL == 0
  {
  }
}
