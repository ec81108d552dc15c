/** Two engines that lose something when their memory is resized. */
module EngineExample {
  import opened EngineModel
  import opened EngineGlobals
  import opened EngineMemory

  function LowWords(): seq<int> {
    [0, 0, 0, 104, 19, 0, 0, 0, 0, 112, 8000, 112, 112, 0]
  }

  /** One stack cell, one heap cell, one trail entry, one choice point, no globals. */
  function NoGlobals(): Snap {
    Snap(10, LowWords() + [0], 4, 11, 10, 14, 14, 24, 24, Regs(13, 13, 14, 14, 15, 19, 20), [], END)
  }

  function ThirtyTwo(): seq<int> {
    LowWords() + [112] + seq(31, _ => 3) + [0]
  }

  /** The same with the globals that are set aside first, all in use: one holds the address of
      the heap cell, the others the integer 0. */
  function AllInUse(): Snap {
    Snap(10, ThirtyTwo(), 4, 11, 10, 14, 14, 24, 56, Regs(13, 13, 14, 14, 15, 19, 20), [], END)
  }

  /** What both engines have below their globals. */
  predicate Low(s: Snap, words: seq<int>) {
    s == Snap(10, words, 4, 11, 10, 14, 14, 24, s.globalsBase, Regs(13, 13, 14, 14, 15, 19, 20), [], END)
    && 24 <= s.globalsBase && |words| == 15 + (s.globalsBase - 24)
  }

  lemma InOrder(s: Snap, words: seq<int>)
    requires Low(s, words) && words[3] == 104 && words[4] == 19
    requires words[9] in {104, 112} && words[11] == words[12] == 112 && words[13] == 0
    ensures Inv(s)
  {
    assert At(s, 13) == 104 && At(s, 14) == 19 && CellSize(19) == 1 && !IsPointer(19);
    assert HeapOk(s, 15);
    assert ChainOk(s, 24, 0);
    assert At(s, 19) == words[9] && At(s, 21) == words[11] && At(s, 22) == words[12] && At(s, 23) == words[13];
    assert ChainOk(s, 19, 20);
  }

  lemma AllInUseIsFine()
    ensures var s := AllInUse();
            && Inv(s) && Fits(s, 5, 11) && ForeignKept(s, 10, 5, 11) && Overlaid(s, 5) == s && FreeList(s, [])
            && InUse(s, [], 24) && !WillKeep(s, 24, 10, 5, 11)
  {
    var s := AllInUse();
    InOrder(s, ThirtyTwo());
    ClearIsKept(s, 5);
    KeptIsSame(s, 5);
    assert At(s, 24) == 112 && OverlaidWord(s, 5, 24) == 112;
  }

  /** Growing by one stack cell moves the heap cell.  No global is free, so the one that refers
      to the cell still holds its old address. */
  method GlobalIsLost() returns (e: Engine)
    ensures fresh(e) && e.heapBase == 15 && Inv(e.S())
    ensures !GlobalsKept(AllInUse(), e.S(), [], 1)
  {
    hide Inv, Fits, ForeignKept, InUse, WillKeep, GlobalsKept, FreeList, ViewOf, Overlaid, ViewedTrailKept;
    var block := new int[47](i requires 0 <= i < 47 => ThirtyTwo()[i]);
    assert block[..] == ThirtyTwo();
    e := new Engine(10, block, 4, 11, 32, Regs(13, 13, 14, 14, 15, 19, 20), [], END);
    AllInUseIsFine();
    e.SizePrologEngine(10, 5, 11, []);
  }

  lemma TrailAfter(s: Snap, words: seq<int>)
    requires Low(s, words) && words[3] == 104 && words[4] == 19 && words[11] == words[12] == 112 && words[13] == 0
    ensures var c := Overlaid(s, 10);
            && Low(c, c.words) && c.words[3] == 104 && c.words[4] == 19 && c.words[9] == 104
            && c.words[11] == c.words[12] == 112 && c.words[13] == 0
  {
    hide Overlaid, OverlaidWord;
    OverlaidKeeps(s, 10);
    WordAfter(s, words, 3);
    WordAfter(s, words, 4);
    WordAfter(s, words, 9);
    WordAfter(s, words, 11);
    WordAfter(s, words, 12);
    WordAfter(s, words, 13);
  }

  lemma WordAfter(s: Snap, words: seq<int>, i: nat)
    requires Low(s, words) && i < 14
    ensures Overlaid(s, 10).words[i] == if i == 9 then words[3] else if i == 10 then words[4] else words[i]
  {
    OverlaidAt(s, 10, 10 + i);
    assert s.base == 10 && |Overlaid(s, 10).words| == |words|;
    assert At(s, 10 + i) == words[i] && At(s, 13) == words[3] && At(s, 14) == words[4];
  }

  /** Six more stack cells: the stack cell is moved onto the trail entry, the heap cell onto the
      choice point, before the trail is moved away. */
  lemma TrailIsHit()
    ensures var s := NoGlobals();
            && Inv(s) && Fits(s, 10, 12) && ForeignKept(s, 10, 10, 12) && Inv(Overlaid(s, 10))
            && FreeList(Overlaid(s, 10), []) && !ViewedTrailKept(s, 10)
  {
    var s := NoGlobals();
    InOrder(s, LowWords() + [0]);
    TrailAfter(s, LowWords() + [0]);
    InOrder(Overlaid(s, 10), Overlaid(s, 10).words);
    assert At(s, 13) == 104 && At(s, 19) == 112 && !Overwritten(s, 10, 19);
    assert LastEntries(s, 24, 0) == 24 && LastEntries(s, 19, 20) == 24;
  }

  /** The engine fits its new sizes and is in order afterwards, but is not what it was. */
  method TrailIsLost() returns (e: Engine)
    ensures fresh(e) && e.stackSize == 10 && e.heapSize == 12
    ensures Inv(NoGlobals()) && Inv(e.S()) && ViewOf(e.S()) != ViewOf(NoGlobals())
  {
    hide Inv, Fits, ForeignKept, InUse, WillKeep, GlobalsKept, FreeList, ViewOf, Overlaid, ViewedTrailKept;
    var block := new int[15](i requires 0 <= i < 15 => (LowWords() + [0])[i]);
    assert block[..] == LowWords() + [0];
    e := new Engine(10, block, 4, 11, 0, Regs(13, 13, 14, 14, 15, 19, 20), [], END);
    TrailIsHit();
    e.SizePrologEngine(10, 10, 12, []);
  }
}
