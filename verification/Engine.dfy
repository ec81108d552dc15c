/** Resizing the memory of a Prolog engine: the block is reallocated, the areas in use are
    shifted to their new places, and every address in them is rewritten. */
module EngineMemory {
  import opened EngineModel
  import opened EngineGlobals
  import opened EngineTerms

  class Engine {
    var base: int
    var mem: array<int>
    var stackSize: nat
    var heapSize: nat
    var stackMax: int
    var stackBase: int
    var heapBase: int
    var trailBase: int
    var globalsBase: int
    var reg: Regs
    var saved: seq<Regs>
    var free: int

    function S(): Snap
      reads this, mem
    {
      Snap(base, mem[..], stackSize, heapSize, stackMax, stackBase, heapBase, trailBase, globalsBase, reg, saved, free)
    }

    predicate Holds(lo: int, hi: int)
      reads this, mem
    {
      base <= lo <= hi <= base + mem.Length
    }

    constructor (b: int, block: array<int>, stackCells: nat, heapCells: nat, globals: nat, r: Regs, rs: seq<Regs>, f: int)
      ensures S() == Snap(b, block[..], stackCells, heapCells, b, b + stackCells, b + stackCells,
                          b + stackCells + heapCells - 1, b + stackCells + heapCells - 1 + globals, r, rs, f)
      ensures mem == block
    {
      base, mem, stackSize, heapSize := b, block, stackCells, heapCells;
      stackMax, stackBase, heapBase := b, b + stackCells, b + stackCells;
      trailBase, globalsBase := b + stackCells + heapCells - 1, b + stackCells + heapCells - 1 + globals;
      reg, saved, free := r, rs, f;
    }

    /** Copies `n` cells, also when the two places overlap. */
    method Memmove(dst: int, src: int, n: int)
      requires n >= 0 && Holds(dst, dst + n) && Holds(src, src + n)
      modifies mem
      ensures BlockMoved(old(S()), S(), dst, src, n)
    {
      forall i | 0 <= i < n { mem[dst - base + i] := mem[src - base + i]; }
      forall a | base <= a < base + mem.Length ensures CellMoved(old(S()), S(), dst, src, n, a) {
        assert mem[a - base] == if dst <= a < dst + n then old(mem[src - base + (a - dst)]) else old(mem[a - base]);
      }
    }

    /** The block gets its new size, at the place `newBase` that the operating system chose. */
    method ResizePrologMemory(newBase: int, newStack: nat, newHeap: nat)
      requires globalsBase >= trailBase
      modifies this
      ensures fresh(mem) && S() == Resized(old(S()), newBase, newStack, newHeap, mem[..])
      ensures mem.Length == newStack + newHeap + (globalsBase - trailBase)
      ensures forall i | 0 <= i < mem.Length && i < old(mem.Length) :: mem[i] == old(mem[i])
    {
      hide Moved, MovedRegs;
      var oldBase := base;
      ReallocPrologMemory(newBase, newStack, newHeap);
      stackSize := newStack;
      heapSize := newHeap;
      var offset := base - oldBase;
      stackMax := stackMax + offset;
      stackBase := stackBase + offset;
      heapBase := heapBase + offset;
      trailBase := trailBase + offset;
      globalsBase := globalsBase + offset;
      if free != END { free := Moved(free, offset); }
      reg := MovedRegs(reg, offset, offset);
    }

    method ReallocPrologMemory(newBase: int, newStack: nat, newHeap: nat)
      requires globalsBase >= trailBase
      modifies this`base, this`mem
      ensures fresh(mem) && base == newBase && mem.Length == newStack + newHeap + (globalsBase - trailBase)
      ensures forall i | 0 <= i < mem.Length && i < old(mem.Length) :: mem[i] == old(mem[i])
    {
      var block := new int[newStack + newHeap + (globalsBase - trailBase)];
      var n := if mem.Length < block.Length then mem.Length else block.Length;
      forall i | 0 <= i < n { block[i] := mem[i]; }
      base, mem := newBase, block;
    }

    /** The areas in use are moved to where the new sizes put them. */
    method ShiftPrologMemory(newStack: nat, newHeap: nat)
      requires ShiftInside(S(), newStack, newHeap)
      modifies this, mem
      ensures mem == old(mem) && S() == Shifted(old(S()), newStack, newHeap, mem[..])
      ensures AreasShifted(old(S()), S(), newStack, newHeap)
    {
      hide AreasShifted;
      ghost var s0 := S();
      var stackHeapOffset := (base + newStack) - heapBase;
      var trailOffset := (heapBase + stackHeapOffset + newHeap - 1) - trailBase;
      MoveAreas(newStack, newHeap, stackHeapOffset, trailOffset);
      ghost var s1 := S();
      stackMax := stackMax + 0;
      stackBase := stackBase + stackHeapOffset;
      heapBase := heapBase + stackHeapOffset;
      trailBase := trailBase + trailOffset;
      globalsBase := globalsBase + trailOffset;
      if free != END { free := Moved(free, trailOffset); }
      reg := MovedRegs(reg, stackHeapOffset, trailOffset);
      SameWordsShifted(s0, s1, S(), newStack, newHeap);
    }

    /** Stack and heap first, then trail and globals. */
    method MoveAreas(ghost newStack: nat, ghost newHeap: nat, d: int, dt: int)
      requires ShiftInside(S(), newStack, newHeap)
      requires d == StackShift(S(), newStack) && dt == TrailShift(S(), newStack, newHeap)
      modifies mem
      ensures AreasShifted(old(S()), S(), newStack, newHeap)
    {
      hide BlockMoved, AreasShifted;
      ghost var s0 := S();
      Memmove(reg.SP + d, reg.SP, reg.H - reg.SP);
      ghost var s1 := S();
      Memmove(reg.TR + dt, reg.TR, globalsBase - reg.TR);
      TwoMoves(s0, s1, S(), newStack, newHeap);
    }

    /** Rewrites the address in a cell, if it holds one, and tells how far the next object is. */
    method DoOffset(p: int, offset: int) returns (size: int)
      requires Holds(p, p + 1)
      modifies mem
      ensures mem[..] == old(mem[..])[p - base := HeapImage(old(At(S(), p)), offset)]
      ensures size == CellSize(old(At(S(), p)))
      ensures old(mem[p - base]) % 4 == 3 ==> mem[..] == old(mem[..])
      ensures old(mem[p - base]) % 4 != 3 ==> mem[..] == old(mem[..])[p - base := old(mem[p - base]) + 8 * offset]
      ensures size == if old(mem[p - base]) % 16 == 11 then old(mem[p - base]) / 16 + 1 else 1
    {
      var w := mem[p - base];
      if Tag(w) != 3 {
        PointerIsOneCell(w);
        mem[p - base] := Moved(w, offset);
        size := 1;
      } else if IsFence(w) {
        size := w / 16 + 1;
      } else {
        size := 1;
      }
    }

    /** Every saved register set moves with the areas. */
    method RelocateSaved(stackHeapOffset: int, trailOffset: int)
      modifies this`saved
      ensures |saved| == |old(saved)|
      ensures forall i | 0 <= i < |saved| :: saved[i] == MovedRegs(old(saved)[i], stackHeapOffset, trailOffset)
    {
      for i := 0 to |saved|
        invariant |saved| == |old(saved)|
        invariant forall k | 0 <= k < |saved| ::
                    saved[k] == if k < i then MovedRegs(old(saved)[k], stackHeapOffset, trailOffset) else old(saved)[k]
      {
        saved := saved[i := MovedRegs(saved[i], stackHeapOffset, trailOffset)];
      }
    }

    /** Any stack cell from E on that holds an address in the old memory is rewritten. */
    method RelocateStack(stackMaxOffset: int, stackHeapOffset: int, trailOffset: int, ghost s0: Snap)
      requires Holds(reg.E, stackBase)
      requires stackMax - stackMaxOffset == s0.stackMax && trailBase - trailOffset == s0.trailBase
      modifies mem
      ensures SameOutside(old(S()), S(), reg.E, stackBase)
      ensures forall a | reg.E <= a < stackBase :: At(S(), a) == StackImage(s0, old(At(S(), a)), stackHeapOffset)
    {
      ghost var s := S();
      var p := reg.E;
      while p < stackBase
        invariant reg.E <= p <= stackBase
        invariant SameOutside(s, S(), reg.E, p)
        invariant forall a | reg.E <= a < p :: At(S(), a) == StackImage(s0, At(s, a), stackHeapOffset)
      {
        ghost var s1 := S();
        var w := mem[p - base];
        if CELL * (stackMax - stackMaxOffset) < w < CELL * (trailBase - trailOffset) {
          var _ := DoOffset(p, stackHeapOffset);
          CellRewritten(s1, p, HeapImage(w, stackHeapOffset));
          assert S() == s1.(words := s1.words[p - base := HeapImage(w, stackHeapOffset)]);
        }
        assert At(s1, p) == At(s, p) == w;
        p := p + 1;
      }
    }

    /** The heap is rewritten object by object. */
    method RelocateHeap(stackHeapOffset: int, ghost s0: Snap)
      requires Holds(heapBase, reg.H) && heapBase == s0.heapBase + stackHeapOffset
      requires reg.H == s0.reg.H + stackHeapOffset
      requires HeapOk(s0, s0.heapBase) && Unscanned(s0, S(), s0.heapBase, s0.reg.H, stackHeapOffset)
      modifies mem
      ensures SameOutside(old(S()), S(), heapBase, reg.H)
      ensures HeapMoved(s0, S(), s0.heapBase, stackHeapOffset)
    {
      hide Scanned, Unscanned, SameOutside, HeapMoved;
      ghost var s := S();
      var p := heapBase;
      ghost var heads := [s0.heapBase];
      ScanStart(s0, s, stackHeapOffset);
      while p < reg.H
        invariant heapBase <= p <= reg.H && |heads| > 0 && heads[|heads| - 1] + stackHeapOffset == p
        invariant Scanned(s0, S(), heads, stackHeapOffset)
        invariant Unscanned(s0, S(), p - stackHeapOffset, s0.reg.H, stackHeapOffset)
        invariant SameOutside(s, S(), heapBase, reg.H)
        decreases reg.H - p
      {
        ghost var s1 := S();
        var size := DoOffset(p, stackHeapOffset);
        HeapCellScanned(s0, s, s1, S(), heads, stackHeapOffset, heapBase, reg.H);
        heads := heads + [p - stackHeapOffset + size];
        p := p + size;
      }
      ScanDone(s0, S(), heads, stackHeapOffset);
    }

    /** Choice points and trail entries are rewritten from the most recent one on; what is
        older than the oldest choice point is left alone. */
    method RelocateTrail(stackHeapOffset: int, trailOffset: int, ghost s0: Snap)
      requires Holds(reg.TR, trailBase) && trailBase == s0.trailBase + trailOffset
      requires reg.TR == s0.reg.TR + trailOffset && reg.B == (if s0.reg.B == 0 then 0 else s0.reg.B + trailOffset)
      requires s0.reg.TR > 0 && reg.TR > 0
      requires ChainOk(s0, s0.reg.TR, s0.reg.B) && Unscanned(s0, S(), s0.reg.TR, s0.trailBase, trailOffset)
      modifies mem
      ensures SameOutside(old(S()), S(), reg.TR, trailBase)
      ensures ChainMoved(s0, S(), s0.reg.TR, s0.reg.B, stackHeapOffset, trailOffset)
      ensures Unscanned(s0, S(), LastEntries(s0, s0.reg.TR, s0.reg.B), s0.trailBase, trailOffset)
    {
      hide Walked, Unscanned, SameOutside, ChainMoved, ChoiceRewritten;
      ghost var s := S();
      var b, t := reg.B, reg.TR;
      ghost var steps := [Step(s0.reg.TR, s0.reg.B)];
      WalkStart(s0, s, stackHeapOffset, trailOffset);
      while b != 0
        invariant |steps| > 0 && OnStep(s0, steps[|steps| - 1], t, b, trailOffset)
        invariant Walked(s0, S(), steps, stackHeapOffset, trailOffset)
        invariant Unscanned(s0, S(), steps[|steps| - 1].t, s0.trailBase, trailOffset)
        invariant SameOutside(s, S(), reg.TR, trailBase)
        decreases trailBase - t
      {
        ghost var s1 := S();
        ghost var k := steps[|steps| - 1];
        ChoiceInside(s0, s1, steps, stackHeapOffset, trailOffset);
        RelocateChoice(t, b, stackHeapOffset, trailOffset);
        ChoiceWalked(s0, s, s1, S(), steps, stackHeapOffset, trailOffset, reg.TR, trailBase);
        NextChoice(s0, s1, S(), k, stackHeapOffset, trailOffset);
        steps := steps + [Step(k.b + 4, Field(s0, k.b, 3) / CELL)];
        t, b := b + 4, mem[b + 3 - base] / CELL;
      }
      WalkDone(s0, S(), steps, stackHeapOffset, trailOffset);
    }

    method RelocateChoice(t: int, b: int, stackHeapOffset: int, trailOffset: int)
      requires Holds(t, b) && Holds(b, b + 4)
      modifies mem
      ensures SameOutside(old(S()), S(), t, b + 4)
      ensures ChoiceRewritten(old(S()), S(), t, b, stackHeapOffset, trailOffset)
    {
      hide SameOutside, ChoiceRewritten;
      ghost var s := S();
      RelocateFields(b, stackHeapOffset, trailOffset);
      ghost var s1 := S();
      RelocateEntries(t, b, stackHeapOffset);
      FieldsAndEntries(s, s1, S(), t, b, stackHeapOffset, trailOffset);
    }

    method RelocateFields(b: int, stackHeapOffset: int, trailOffset: int)
      requires Holds(b, b + 4)
      modifies mem
      ensures SameOutside(old(S()), S(), b, b + 4)
      ensures ChoiceRewritten(old(S()), S(), b, b, stackHeapOffset, trailOffset)
    {
      if mem[b + 3 - base] != 0 { mem[b + 3 - base] := Moved(mem[b + 3 - base], trailOffset); }
      mem[b + 2 - base] := Moved(mem[b + 2 - base], stackHeapOffset);
      mem[b + 1 - base] := Moved(mem[b + 1 - base], stackHeapOffset);
    }

    method RelocateEntries(t: int, b: int, offset: int)
      requires Holds(t, b)
      modifies mem
      ensures SameOutside(old(S()), S(), t, b)
      ensures forall a | t <= a < b :: At(S(), a) == Moved(old(At(S(), a)), offset)
    {
      ghost var s := S();
      var p := t;
      while p < b
        invariant t <= p <= b
        invariant SameOutside(s, S(), t, p)
        invariant forall a | t <= a < p :: At(S(), a) == Moved(At(s, a), offset)
      {
        assert mem[p - base] == At(S(), p) == At(s, p);
        mem[p - base] := Moved(mem[p - base], offset);
        p := p + 1;
      }
    }

    /** The links of the free globals are rewritten first.  Then every global is, unless it
        holds a constant or what looks like a link; nothing is done when no global is free. */
    method RelocateGlobals(stackHeapOffset: int, trailOffset: int, ghost s0: Snap, ghost cells: seq<int>)
      requires FreeList(s0, cells) && Holds(trailBase, globalsBase)
      requires trailBase == s0.trailBase + trailOffset && globalsBase == s0.globalsBase + trailOffset
      requires free == MovedFree(s0.free, trailOffset) && Unscanned(s0, S(), s0.trailBase, s0.globalsBase, trailOffset)
      modifies mem
      ensures SameOutside(old(S()), S(), trailBase, globalsBase)
      ensures GlobalsMoved(s0, S(), cells, stackHeapOffset, trailOffset)
    {
      if free != END {
        RelocateLinks(trailOffset, s0, cells);
        ghost var s1 := S();
        SweepGlobals(stackHeapOffset);
        SweepDone(s0, s1, S(), cells, stackHeapOffset, trailOffset);
      } else {
        NoListNothingMoved(s0, S(), stackHeapOffset, trailOffset);
      }
    }

    method RelocateLinks(trailOffset: int, ghost s0: Snap, ghost cells: seq<int>)
      requires FreeList(s0, cells) && cells != [] && Holds(trailBase, globalsBase)
      requires trailBase == s0.trailBase + trailOffset && globalsBase == s0.globalsBase + trailOffset
      requires free == MovedFree(s0.free, trailOffset) && Unscanned(s0, S(), s0.trailBase, s0.globalsBase, trailOffset)
      modifies mem
      ensures SameOutside(old(S()), S(), trailBase, globalsBase) && FreeList(S(), Carried(cells, trailOffset))
      ensures forall a | InUse(s0, cells, a) :: At(S(), a + trailOffset) == At(s0, a)
    {
      hide FreeList, SameOutside;
      ghost var s := S();
      ghost var k := 0;
      var p := free / CELL;
      ListStart(s0, s, cells, trailOffset);
      while mem[p - base] != END
        invariant 0 <= k < |cells| && p == cells[k] + trailOffset && Holds(p, p + 1)
        invariant LinksMoved(s0, S(), cells, k, trailOffset) && SameOutside(s, S(), trailBase, globalsBase)
        decreases |cells| - k
      {
        ghost var s1 := S();
        LinkHere(s0, s1, cells, k, trailOffset);
        mem[p - base] := Moved(mem[p - base], trailOffset);
        LinkRewritten(s0, s, s1, S(), cells, k, trailOffset, trailBase, globalsBase);
        p := mem[p - base] / CELL;
        k := k + 1;
      }
      LinkHere(s0, S(), cells, k, trailOffset);
      LinksDone(s0, S(), cells, k, trailOffset);
    }

    method SweepGlobals(offset: int)
      requires Holds(trailBase, globalsBase) && free != END
      modifies mem
      ensures SameOutside(old(S()), S(), trailBase, globalsBase) && Swept(old(S()), S(), globalsBase, offset)
    {
      ghost var s := S();
      var p := trailBase;
      while p < globalsBase
        invariant trailBase <= p <= globalsBase
        invariant SameOutside(s, S(), trailBase, p) && Swept(s, S(), p, offset)
      {
        ghost var s1 := S();
        SweepGlobal(p, offset);
        SweepStep(s, s1, S(), p, offset);
        p := p + 1;
      }
    }

    method SweepGlobal(p: int, offset: int)
      requires Holds(p, p + 1) && free != END
      modifies mem
      ensures SameOutside(old(S()), S(), p, p + 1) && At(S(), p) == GlobalImage(old(S()), old(At(S(), p)), offset)
    {
      ghost var s1 := S();
      var w := mem[p - base];
      if Tag(w) != 3 && !(CELL * trailBase <= w < CELL * globalsBase) {
        var _ := DoOffset(p, offset);
        CellRewritten(s1, p, HeapImage(w, offset));
        assert S() == s1.(words := s1.words[p - base := HeapImage(w, offset)]);
      }
    }

    /** Rewrites every address in the areas in use, which `s0` had elsewhere.  Whether the global
        variables keep their values is decided by what they hold. */
    method RelocatePrologMemory(stackMaxOffset: int, stackHeapOffset: int, trailOffset: int, ghost s0: Snap,
                                ghost cells: seq<int>)
      requires Inv(s0) && Copied(s0, S(), stackHeapOffset, trailOffset) && saved == s0.saved
      requires stackMaxOffset == stackMax - s0.stackMax
      requires FreeList(s0, cells) && free == MovedFree(s0.free, trailOffset)
      modifies mem, this`saved
      ensures Relocated(s0, S(), stackHeapOffset, trailOffset)
      ensures Unscanned(s0, S(), LastEntries(s0, s0.reg.TR, s0.reg.B), s0.trailBase, trailOffset)
      ensures GlobalsMoved(s0, S(), cells, stackHeapOffset, trailOffset)
      ensures GlobalsKept(s0, S(), cells, trailOffset) <==>
                forall a | InUse(s0, cells, a) :: Rewritten(s0, S(), At(s0, a), stackHeapOffset)
    {
      hide SameOutside, Copied, HeapOk, ChainOk, StackOk, Relocated, Unscanned, GlobalsKept, Rewritten,
           InUse, FreeList, MovedFree, GlobalsMoved;
      FreeStays(s0, cells, trailOffset);
      RelocateAreas(stackMaxOffset, stackHeapOffset, trailOffset, s0);
      ghost var s4 := S();
      RelocateGlobals(stackHeapOffset, trailOffset, s0, cells);
      RelocatedStays(s0, s4, S(), stackHeapOffset, trailOffset);
      OldestStay(s0, s4, S(), stackHeapOffset, trailOffset);
      GlobalsExactly(s0, S(), cells, stackHeapOffset, trailOffset);
    }

    /** Registers, stack, heap and trail. */
    method RelocateAreas(stackMaxOffset: int, stackHeapOffset: int, trailOffset: int, ghost s0: Snap)
      requires Inv(s0) && Copied(s0, S(), stackHeapOffset, trailOffset) && saved == s0.saved
      requires stackMaxOffset == stackMax - s0.stackMax
      modifies mem, this`saved
      ensures Relocated(s0, S(), stackHeapOffset, trailOffset)
      ensures Unscanned(s0, S(), LastEntries(s0, s0.reg.TR, s0.reg.B), s0.trailBase, trailOffset)
      ensures Unscanned(s0, S(), s0.trailBase, s0.globalsBase, trailOffset)
      ensures base <= reg.TR == s0.reg.TR + trailOffset && reg.TR <= trailBase <= globalsBase <= base + mem.Length
      ensures trailBase == s0.trailBase + trailOffset && globalsBase == s0.globalsBase + trailOffset
      ensures heapBase == s0.heapBase + stackHeapOffset
    {
      hide SameOutside, HeapMoved, ChainMoved, HeapOk, ChainOk, StackOk, Relocated, Unscanned;
      RelocateSaved(stackHeapOffset, trailOffset);
      ghost var s1 := S();
      CopiedStays(s0, old(S()), s1, stackHeapOffset, trailOffset);
      RelocateStack(stackMaxOffset, stackHeapOffset, trailOffset, s0);
      ghost var s2 := S();
      HeapUnscanned(s0, s1, s2, stackHeapOffset, trailOffset);
      RelocateHeap(stackHeapOffset, s0);
      ghost var s3 := S();
      TrailUnscanned(s0, s1, s2, s3, stackHeapOffset, trailOffset);
      RelocateTrail(stackHeapOffset, trailOffset, s0);
      AllRelocated(s0, s1, s2, s3, S(), stackHeapOffset, trailOffset);
      GlobalsUnscanned(s0, s1, s2, s3, S(), stackHeapOffset, trailOffset);
    }

    /** Reallocation comes before the shift when the memory grows, after it when it shrinks.
        Every word in use is copied as it is found when its turn comes; so all are copied exactly
        when the trail is not written over with others. */
    method MovePrologMemory(newBase: int, newStack: nat, newHeap: nat)
      requires Layout(S()) && Ordered(S()) && Fits(S(), newStack, newHeap) && newBase > 0
      requires newStack + newHeap <= stackSize + heapSize ==> ShiftInside(S(), newStack, newHeap)
      modifies this, mem
      ensures mem == old(mem) || fresh(mem)
      ensures base == FinalBase(old(S()), newBase, newStack, newHeap)
      ensures heapBase == base + newStack && trailBase == heapBase + newHeap - 1 && stackMax == base
      ensures stackSize + heapSize == newStack + newHeap && globalsBase - trailBase == old(globalsBase - trailBase)
      ensures stackSize == (if newStack + newHeap == old(stackSize + heapSize) then old(stackSize) else newStack)
      ensures saved == old(saved)
      ensures old(free) == END || old(free) % CELL == 0 ==> free == MovedFree(old(free), trailBase - old(trailBase))
      ensures LaidOut(old(S()), S(), heapBase - old(heapBase), trailBase - old(trailBase))
      ensures Copied(Overlaid(old(S()), newStack), S(), heapBase - old(heapBase), trailBase - old(trailBase))
      ensures Copied(old(S()), S(), heapBase - old(heapBase), trailBase - old(trailBase))
              <==> TrailKept(old(S()), newStack)
    {
      hide AreasCopied, AreasShifted, Fits, ShiftInside, TrailKept, LaidOut, MovedFree, Overlaid;
      ghost var s0 := S();
      FreeMovesTwice(free);
      var diff := (newStack + newHeap) - (stackSize + heapSize);
      if diff > 0 {
        ResizePrologMemory(newBase, newStack, newHeap);
        ghost var s1 := S();
        ResizedIsInside(s0, newBase, newStack, newHeap, s1.words);
        ShiftPrologMemory(newStack, newHeap);
        GrowCopies(s0, s1, S(), newBase, newStack, newHeap);
      } else if diff == 0 {
        ShiftPrologMemory(newStack, newHeap);
        ShiftOnlyCopies(s0, S(), newStack, newHeap);
      } else {
        ShiftPrologMemory(newStack, newHeap);
        ghost var s1 := S();
        ResizePrologMemory(newBase, newStack, newHeap);
        ShrinkCopies(s0, s1, S(), newBase, newStack, newHeap);
      }
      OverlaidKeeps(s0, newStack);
      TrailIntact(s0, S(), newStack, heapBase - s0.heapBase, trailBase - s0.trailBase);
    }

    /** Gives stack and heap new sizes.  Whatever has been written over the trail has to leave
        one that can be followed.  The memory is in order afterwards, and seen from its own base
        it is as before exactly when the words of the trail that can be told from outside have
        not been written over with others.  The recorded sizes stay as they were when only the
        border between stack and heap moves, and whether the global variables keep their values
        can be told beforehand. */
    method SizePrologEngine(newBase: int, newStack: nat, newHeap: nat, ghost cells: seq<int>)
      requires Inv(S()) && Fits(S(), newStack, newHeap) && newBase > 0 && ForeignKept(S(), newBase, newStack, newHeap)
      requires Inv(Overlaid(S(), newStack)) && FreeList(Overlaid(S(), newStack), cells)
      modifies this, mem
      ensures Inv(S()) && (ViewOf(S()) == old(ViewOf(S())) <==> ViewedTrailKept(old(S()), newStack))
      ensures AllRegsKept(old(S()), S(), heapBase - old(heapBase), trailBase - old(trailBase))
      ensures TermsKept(old(S()), S(), heapBase - old(heapBase))
      ensures PointsKept(old(S()), S()) <==> ViewedTrailKept(old(S()), newStack)
      ensures base == FinalBase(old(S()), newBase, newStack, newHeap)
      ensures heapBase == base + newStack && trailBase == heapBase + newHeap - 1
      ensures stackSize + heapSize == newStack + newHeap
      ensures stackSize == (if newStack + newHeap == old(stackSize + heapSize) then old(stackSize) else newStack)
      ensures FreeList(S(), Carried(cells, trailBase - old(trailBase)))
      ensures GlobalsKept(old(S()), S(), cells, trailBase - old(trailBase)) <==>
                forall a | InUse(old(S()), cells, a) :: WillKeep(old(S()), a, newBase, newStack, newHeap)
      ensures forall a | InUse(old(S()), cells, a) && Readable(old(S()), At(old(S()), a)) ::
                GlobalReads(old(S()), S(), a, trailBase - old(trailBase))
                <==> WillKeep(old(S()), a, newBase, newStack, newHeap)
    {
      hide AllRegsKept, TermsKept, PointsKept, GlobalReads, Readable, ValueKept;
      hide GlobalsKept, InUse, FreeList, MovedFree, Rewritten, WillKeep, Overlaid;
      hide Inv, Fits, Copied, Relocated, ForeignKept, Layout, Ordered, ShiftInside, TrailKept, LaidOut,
           ForeignStays, ViewOf, Unscanned, ViewedTrailKept;
      ghost var s0, c := S(), Overlaid(S(), newStack);
      var oldHeapBase, oldTrailBase, oldStackMax := heapBase, trailBase, stackMax;
      OverlaidKeeps(s0, newStack);
      OrderedIsInside(s0, newStack, newHeap);
      FreeIsAddress(c, cells);
      MovePrologMemory(newBase, newStack, newHeap);
      RelocatePrologMemory(stackMax - oldStackMax, heapBase - oldHeapBase, trailBase - oldTrailBase, c, cells);
      ForeignOverlaid(s0, newBase, newStack, newHeap);
      ForeignStaysAway(c, S(), newBase, newStack, newHeap);
      RelocationMeansSame(c, S(), heapBase - oldHeapBase, trailBase - oldTrailBase);
      ViewExactly(s0, newStack);
      RegistersKept(s0, S(), newStack, heapBase - oldHeapBase, trailBase - oldTrailBase);
      TermsExactly(s0, S(), cells, newStack, heapBase - oldHeapBase, trailBase - oldTrailBase);
      InBlock(s0);
      FreeStays(c, cells, trailBase - oldTrailBase);
      ToldBefore(s0, S(), cells, newBase, newStack, newHeap, heapBase - oldHeapBase, trailBase - oldTrailBase);
    }
  }
}
