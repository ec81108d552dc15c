/** The terms in an engine's memory, read by the tags of its words: 0 is a variable, 1 a
    structure, 2 a list and 3 a constant, of which 7 in the low four bits is a symbol, 11 a
    fence and 15 the distance of a string's fence from the heap base.  Nothing here depends on
    how the resize finds out which words are addresses. */
module EngineTerms {
  import opened EngineModel
  import opened EngineGlobals

  /** What is found where.  Cells are counted from the heap base, so that shared parts show. */
  datatype Seen =
    | Deep
    | Constant(word: int)
    | Text(at: int, words: seq<int>)
    | Unbound(at: int)
    | Bound(at: int, value: Seen)
    | Pair(at: int, head: Seen, tail: Seen)
    | Compound(at: int, functor: int, args: seq<Seen>)
    | Outside(word: int)
    | Broken(bytes: int)

  /** How many cells a heap object takes that starts with `w`. */
  function Extent(w: int): int {
    if w % 16 == 11 then w / 16 + 1 else 1
  }

  /** In the row of objects that starts at `p`, one starts at `a`. */
  predicate Begins(s: Snap, p: int, a: int)
    decreases s.reg.H - p
  {
    p < s.reg.H && (p == a || (Extent(At(s, p)) >= 1 && Begins(s, p + Extent(At(s, p)), a)))
  }

  predicate IsCell(s: Snap, a: int) {
    s.reg.E <= a < s.stackBase || Begins(s, s.heapBase, a)
  }

  predicate IsText(s: Snap, p: int) {
    Begins(s, s.heapBase, p) && At(s, p) % 16 == 11 && Extent(At(s, p)) >= 1
  }

  /** A functor's arity is in the high byte; 255 stands for the integer in the next cell. */
  function Arity(s: Snap, a: int): int {
    var n := At(s, a) / 0x1000000 % 0x100;
    if n == 255 then At(s, a + 1) / 16 else n
  }

  function FirstArg(s: Snap, a: int): int {
    if At(s, a) / 0x1000000 % 0x100 == 255 then a + 2 else a + 1
  }

  predicate IsFunctor(s: Snap, a: int) {
    && IsCell(s, a) && At(s, a) % 16 == 7
    && (At(s, a) / 0x1000000 % 0x100 == 255 ==> IsCell(s, a + 1) && At(s, a + 1) % 16 == 3)
  }

  /** The term that the word `w` stands for, down to depth `n`. */
  function Read(s: Snap, w: int, n: nat): Seen
    decreases n, 0
  {
    var bytes := w - 8 * s.heapBase;
    if n == 0 then Deep
    else if w % 16 == 15 then ReadText(s, w)
    else if w % 4 == 3 then Constant(w)
    else if w < 8 * s.reg.SP || w >= 8 * s.reg.H then Outside(w)
    else if w % 8 >= 4 then Broken(bytes)
    else
      var a := w / 8;
      if w % 4 == 0 then
        if !IsCell(s, a) then Broken(bytes)
        else if At(s, a) == w then Unbound(a - s.heapBase)
        else Bound(a - s.heapBase, ReadCell(s, a, n - 1))
      else if w % 4 == 2 then Pair(a - s.heapBase, ReadCell(s, a, n - 1), ReadCell(s, a + 1, n - 1))
      else if !IsFunctor(s, a) then Broken(bytes)
      else Compound(a - s.heapBase, At(s, a), ReadCells(s, FirstArg(s, a), Arity(s, a), n - 1))
  }

  /** What the cell at `a` holds. */
  function ReadCell(s: Snap, a: int, n: nat): Seen
    decreases n, 1
  {
    if IsCell(s, a) then Read(s, At(s, a), n) else Broken(8 * (a - s.heapBase))
  }

  function ReadCells(s: Snap, a: int, count: int, n: nat): (r: seq<Seen>)
    ensures |r| == if count >= 0 then count else 0
    decreases n, 2, count
  {
    if count <= 0 then [] else ReadCells(s, a, count - 1, n) + [ReadCell(s, a + (count - 1), n)]
  }

  function ReadText(s: Snap, w: int): Seen {
    var p := s.heapBase + w / 16 / 8;
    if w / 16 % 8 == 0 && IsText(s, p)
    then Text(p - s.heapBase, Words(s, p, Extent(At(s, p))))
    else Constant(w)
  }

  function Words(s: Snap, p: int, n: nat): seq<int> {
    seq(n, i => At(s, p + i))
  }

  // ---- terms that are kept ----

  /** The same term is found in every cell, at any depth. */
  ghost predicate TermsKept(s0: Snap, s: Snap, d: int) {
    forall a, n: nat :: SameCell(s0, s, a, d, n)
  }

  predicate SameCell(s0: Snap, s: Snap, a: int, d: int, n: nat) {
    ReadCell(s, a + d, n) == ReadCell(s0, a, n)
  }

  /** What has to become of a word. */
  predicate Carries(s0: Snap, s: Snap, w: int, w': int, d: int) {
    if w % 4 == 3 then w' == w
    else if Live(s0, w) then w' == w + 8 * d
    else w' == w && !Live(s, w)
  }

  predicate CellCarried(s0: Snap, s: Snap, a: int, d: int) {
    && (IsCell(s, a + d) <==> IsCell(s0, a))
    && (IsCell(s0, a) ==> Carries(s0, s, At(s0, a), At(s, a + d), d))
  }

  predicate TextCarried(s0: Snap, s: Snap, p: int, d: int) {
    && (IsText(s, p + d) <==> IsText(s0, p))
    && (IsText(s0, p) ==> forall i | 0 <= i < Extent(At(s0, p)) :: SameWord(s0, s, p, i, d))
  }

  predicate SameWord(s0: Snap, s: Snap, p: int, i: int, d: int) {
    At(s, p + d + i) == At(s0, p + i)
  }

  ghost predicate AllCarried(s0: Snap, s: Snap, d: int) {
    && s.heapBase == s0.heapBase + d && s.reg.SP == s0.reg.SP + d && s.reg.H == s0.reg.H + d
    && (forall a :: CellCarried(s0, s, a, d))
    && (forall p :: TextCarried(s0, s, p, d))
  }

  lemma MovedWord(w: int, d: int)
    ensures (w + 8 * d) % 4 == w % 4 && (w + 8 * d) % 8 == w % 8 && (w + 8 * d) / 8 == w / 8 + d
  {
    var q, r := w / 8, w % 8;
    assert w == 8 * q + r;
    Divided(q, r);
    Divided(q + d, r);
  }

  lemma Divided(q: int, r: int)
    requires 0 <= r < 8
    ensures (8 * q + r) / 8 == q && (8 * q + r) % 8 == r && (8 * q + r) % 4 == r % 4
  {
    assert 8 * q + r == 4 * (2 * q + r / 4) + r % 4;
  }

  lemma LowBits(w: int)
    ensures w % 4 == w % 16 % 4
  {
    assert w == 4 * (4 * (w / 16)) + w % 16;
  }

  lemma ReadTextKept(s0: Snap, s: Snap, w: int, d: int)
    requires AllCarried(s0, s, d)
    ensures ReadText(s, w) == ReadText(s0, w)
  {
    hide Begins;
    var p := s0.heapBase + w / 16 / 8;
    assert TextCarried(s0, s, p, d) && p + d == s.heapBase + w / 16 / 8;
    if IsText(s0, p) {
      assert SameWord(s0, s, p, 0, d);
      var n := Extent(At(s0, p));
      forall i | 0 <= i < n ensures Words(s, p + d, n)[i] == Words(s0, p, n)[i] {
        assert SameWord(s0, s, p, i, d);
      }
      assert Words(s, p + d, n) == Words(s0, p, n);
    }
  }

  lemma {:induction false} ReadKept(s0: Snap, s: Snap, w: int, w': int, d: int, n: nat)
    requires AllCarried(s0, s, d) && Carries(s0, s, w, w', d)
    ensures Read(s, w', n) == Read(s0, w, n)
    decreases n, 0
  {
    hide AllCarried, ReadText, IsCell, At;
    LowBits(w);
    if n == 0 {
    } else if w % 4 == 3 {
      ReadTextKept(s0, s, w, d);
    } else if Live(s0, w) {
      PointerKept(s0, s, w, d, n);
    } else {
    }
  }

  lemma {:induction false} PointerKept(s0: Snap, s: Snap, w: int, d: int, n: nat)
    requires AllCarried(s0, s, d) && w % 4 != 3 && Live(s0, w) && n > 0
    ensures Read(s, w + 8 * d, n) == Read(s0, w, n)
    decreases n - 1, 3
  {
    hide IsCell, At, ReadText, IsText, ReadCell, ReadCells, Arity, FirstArg, IsFunctor;
    var a, w' := w / 8, w + 8 * d;
    MovedWord(w, d);
    LowBits(w);
    LowBits(w');
    assert CellCarried(s0, s, a, d);
    ReadCellKept(s0, s, a, d, n - 1);
    assert a + 1 + d == a + d + 1;
    ReadCellKept(s0, s, a + 1, d, n - 1);
    FunctorKept(s0, s, a, d);
    if IsFunctor(s0, a) {
      ReadCellsKept(s0, s, FirstArg(s0, a), Arity(s0, a), d, n - 1);
    }
    if IsCell(s0, a) { SelfKept(s0, s, w, d); }
  }

  /** A variable that refers to itself still does, and no other has begun to. */
  lemma SelfKept(s0: Snap, s: Snap, w: int, d: int)
    requires AllCarried(s0, s, d) && w % 4 != 3 && Live(s0, w) && IsCell(s0, w / 8)
    ensures At(s, w / 8 + d) == w + 8 * d <==> At(s0, w / 8) == w
  {
    hide IsCell, At, IsText;
    assert CellCarried(s0, s, w / 8, d);
    MovedWord(w, d);
  }

  lemma FunctorKept(s0: Snap, s: Snap, a: int, d: int)
    requires AllCarried(s0, s, d)
    ensures IsFunctor(s, a + d) <==> IsFunctor(s0, a)
    ensures IsFunctor(s0, a) ==>
              At(s, a + d) == At(s0, a) && Arity(s, a + d) == Arity(s0, a) && FirstArg(s, a + d) == FirstArg(s0, a) + d
  {
    hide IsCell, At, IsText;
    assert CellCarried(s0, s, a, d) && CellCarried(s0, s, a + 1, d) && a + 1 + d == a + d + 1;
    var w, w1 := At(s0, a), At(s0, a + 1);
    MovedWord(w, d);
    MovedWord(w1, d);
    LowBits(w);
    LowBits(w1);
    LowBits(At(s, a + d));
    LowBits(At(s, a + d + 1));
  }

  lemma {:induction false} ReadCellKept(s0: Snap, s: Snap, a: int, d: int, n: nat)
    requires AllCarried(s0, s, d)
    ensures ReadCell(s, a + d, n) == ReadCell(s0, a, n)
    decreases n, 1
  {
    hide IsCell, At, Read, IsText;
    assert CellCarried(s0, s, a, d);
    if IsCell(s0, a) { ReadKept(s0, s, At(s0, a), At(s, a + d), d, n); }
  }

  lemma {:induction false} ReadCellsKept(s0: Snap, s: Snap, a: int, count: int, d: int, n: nat)
    requires AllCarried(s0, s, d)
    ensures ReadCells(s, a + d, count, n) == ReadCells(s0, a, count, n)
    decreases n, 2, count
  {
    hide AllCarried, ReadCell;
    if count > 0 {
      ReadCellsKept(s0, s, a, count - 1, d, n);
      ReadCellKept(s0, s, a + (count - 1), d, n);
      assert a + d + (count - 1) == a + (count - 1) + d;
    }
  }

  /** All terms are kept when all words are. */
  lemma AllKept(s0: Snap, s: Snap, d: int)
    requires AllCarried(s0, s, d)
    ensures TermsKept(s0, s, d)
  {
    hide AllCarried, ReadCell;
    forall a, n: nat ensures SameCell(s0, s, a, d, n) {
      ReadCellKept(s0, s, a, d, n);
    }
  }

  lemma CarriedTwice(s0: Snap, s1: Snap, s: Snap, d: int)
    requires AllCarried(s0, s1, 0) && AllCarried(s1, s, d)
    ensures AllCarried(s0, s, d)
  {
    hide IsCell, IsText, At, Begins;
    forall a ensures CellCarried(s0, s, a, d) {
      assert CellCarried(s0, s1, a, 0) && CellCarried(s1, s, a, d) && a + 0 == a;
    }
    forall p ensures TextCarried(s0, s, p, d) {
      assert TextCarried(s0, s1, p, 0) && TextCarried(s1, s, p, d) && p + 0 == p;
      if IsText(s0, p) {
        TextLength(s0, s1, p);
        forall i | 0 <= i < Extent(At(s0, p)) ensures SameWord(s0, s, p, i, d) {
          assert SameWord(s0, s1, p, i, 0) && SameWord(s1, s, p, i, d);
        }
      }
    }
  }

  lemma TextLength(s0: Snap, s1: Snap, p: int)
    requires TextCarried(s0, s1, p, 0) && IsText(s0, p)
    ensures At(s1, p) == At(s0, p)
  {
    assert SameWord(s0, s1, p, 0, 0);
  }

  // ---- the row of heap objects ----

  lemma {:induction false} BeginsBetween(s: Snap, p: int, a: int)
    requires Begins(s, p, a)
    ensures p <= a < s.reg.H
    decreases s.reg.H - p
  {
    if p != a { BeginsBetween(s, p + Extent(At(s, p)), a); }
  }

  predicate ObjectFacts(s0: Snap, s: Snap, a: int, d: int) {
    && CellSize(At(s0, a)) >= 1 && a + CellSize(At(s0, a)) <= s0.reg.H
    && (IsPointer(At(s0, a)) ==> InHeap(s0, At(s0, a)))
    && ObjectMoved(s0, s, a, d)
  }

  lemma {:induction false} RowMoved(s0: Snap, s: Snap, p: int, a: int, d: int)
    requires HeapOk(s0, p) && HeapMoved(s0, s, p, d) && s.reg.H == s0.reg.H + d
    ensures Begins(s, p + d, a + d) <==> Begins(s0, p, a)
    ensures Begins(s0, p, a) ==> ObjectFacts(s0, s, a, d)
    decreases s0.reg.H - p
  {
    if p < s0.reg.H {
      var w := At(s0, p);
      MovedTag(w, d);
      if IsPointer(w) { PointerIsOneCell(w); PointerIsOneCell(Moved(w, d)); }
      assert Extent(At(s, p + d)) == Extent(w) == CellSize(w);
      RowMoved(s0, s, p + CellSize(w), a, d);
      assert p + d + CellSize(w) == p + CellSize(w) + d;
    }
  }

  lemma {:induction false} RowSame(s: Snap, c: Snap, p: int, a: int)
    requires SameBelow(s, c) && HeapOk(s, p) && s.reg.H <= s.reg.TR
    ensures Begins(c, p, a) <==> Begins(s, p, a)
    ensures Begins(s, p, a) ==> CellSize(At(s, a)) >= 1 && a + CellSize(At(s, a)) <= s.reg.H
    decreases s.reg.H - p
  {
    if p < s.reg.H { RowSame(s, c, p + CellSize(At(s, p)), a); }
  }

  // ---- the resize carries every word ----

  lemma StackCarried(s0: Snap, s: Snap, a: int, d: int, dt: int)
    requires Inv(s0) && Relocated(s0, s, d, dt) && ForeignStays(s0, s) && s0.reg.E <= a < s0.stackBase
    ensures s.reg.E <= a + d < s.stackBase && Carries(s0, s, At(s0, a), At(s, a + d), d)
  {
    hide HeapOk, ChainOk, HeapMoved, ChainMoved;
    var w := At(s0, a);
    assert At(s, a + d) == StackImage(s0, w, d) && StackWordOk(s0, w);
  }

  lemma CellsCarried(s0: Snap, s: Snap, a: int, d: int, dt: int)
    requires Inv(s0) && Relocated(s0, s, d, dt) && ForeignStays(s0, s)
    ensures CellCarried(s0, s, a, d)
  {
    hide HeapOk, ChainOk, StackOk, HeapMoved, ChainMoved, ForeignStays, StackImage;
    RowMoved(s0, s, s0.heapBase, a, d);
    if s0.reg.E <= a < s0.stackBase {
      StackCarried(s0, s, a, d, dt);
    }
  }

  lemma TextsCarried(s0: Snap, s: Snap, p: int, d: int, dt: int)
    requires Inv(s0) && Relocated(s0, s, d, dt)
    ensures TextCarried(s0, s, p, d)
  {
    hide HeapOk, ChainOk, StackOk, HeapMoved, ChainMoved, StackImage;
    RowMoved(s0, s, s0.heapBase, p, d);
    if Begins(s0, s0.heapBase, p) {
      var w := At(s0, p);
      LowBits(w);
      LowBits(At(s, p + d));
      MovedTag(w, d);
      forall i | 0 <= i < Extent(w) && IsText(s0, p) ensures SameWord(s0, s, p, i, d) {
        assert i > 0 ==> At(s, (p + i) + d) == At(s0, p + i);
      }
    }
  }

  lemma RelocationCarries(s0: Snap, s: Snap, d: int, dt: int)
    requires Inv(s0) && Relocated(s0, s, d, dt) && ForeignStays(s0, s)
    ensures AllCarried(s0, s, d)
  {
    hide Inv, HeapMoved, ChainMoved, ForeignStays, CellCarried, TextCarried;
    forall a ensures CellCarried(s0, s, a, d) { CellsCarried(s0, s, a, d, dt); }
    forall p ensures TextCarried(s0, s, p, d) { TextsCarried(s0, s, p, d, dt); }
  }

  /** What is written over the trail does not touch stack and heap. */
  lemma OverlaidCarries(s: Snap, c: Snap)
    requires Inv(s) && SameBelow(s, c)
    ensures AllCarried(s, c, 0)
  {
    hide HeapOk, ChainOk, StackOk;
    forall a ensures CellCarried(s, c, a, 0) {
      RowSame(s, c, s.heapBase, a);
      if Begins(s, s.heapBase, a) { BeginsBetween(s, s.heapBase, a); }
    }
    forall p ensures TextCarried(s, c, p, 0) {
      RowSame(s, c, s.heapBase, p);
      if Begins(s, s.heapBase, p) {
        BeginsBetween(s, s.heapBase, p);
        forall i | 0 <= i < Extent(At(s, p)) ensures SameWord(s, c, p, i, 0) { }
      }
    }
  }

  // ---- choice points and the trail ----

  /** A trailed address, and what is found there. */
  datatype Entry = Entry(bytes: int, held: Seen)

  datatype Point = Point(entries: seq<Entry>, nextClause: int, hb: int, spb: int, link: Place)

  function ReadEntry(s: Snap, w: int, n: nat): Entry {
    Entry(w - 8 * s.heapBase, ReadCell(s, w / 8, n))
  }

  function ReadEntries(s: Snap, t: int, b: int, n: nat): seq<Entry>
    requires t <= b
  {
    seq(b - t, i => ReadEntry(s, At(s, t + i), n))
  }

  function ReadLink(s: Snap, w: int): Place {
    if w == 0 then Null else Below(w / 8 - s.trailBase)
  }

  function ReadPoint(s: Snap, t: int, b: int, n: nat): Point
    requires t <= b
  {
    Point(ReadEntries(s, t, b, n), At(s, b), At(s, b + 1) - 8 * s.heapBase, At(s, b + 2) - 8 * s.heapBase,
          ReadLink(s, At(s, b + 3)))
  }

  /** The choice points from `b` on, with the trail entries made since each one. */
  function ReadPoints(s: Snap, t: int, b: int, n: nat): seq<Point>
    decreases s.trailBase - t
  {
    if b == 0 || t > b || b + 4 > s.trailBase then []
    else [ReadPoint(s, t, b, n)] + ReadPoints(s, b + 4, At(s, b + 3) / 8, n)
  }

  /** The same choice points and trail entries are found, with the same terms at any depth. */
  ghost predicate PointsKept(s0: Snap, s: Snap) {
    forall n: nat :: SamePoints(s0, s, n)
  }

  predicate SamePoints(s0: Snap, s: Snap, n: nat) {
    ReadPoints(s, s.reg.TR, s.reg.B, n) == ReadPoints(s0, s0.reg.TR, s0.reg.B, n)
  }

  lemma EntriesKept(s0: Snap, s: Snap, t: int, b: int, d: int, dt: int, n: nat)
    requires AllCarried(s0, s, d) && t <= b && forall a | t <= a < b :: At(s, a + dt) == Moved(At(s0, a), d)
    ensures ReadEntries(s, t + dt, b + dt, n) == ReadEntries(s0, t, b, n)
  {
    hide IsCell, At, Read, ReadCell, IsText;
    var mine, other := ReadEntries(s0, t, b, n), ReadEntries(s, t + dt, b + dt, n);
    forall i | 0 <= i < |mine| ensures other[i] == mine[i] {
      var w := At(s0, t + i);
      var a := t + i;
      assert At(s, a + dt) == Moved(w, d) == w + 8 * d && a + dt == t + dt + i;
      MovedWord(w, d);
      ReadCellKept(s0, s, w / 8, d, n);
      assert mine[i] == ReadEntry(s0, w, n) && other[i] == ReadEntry(s, w + 8 * d, n);
    }
  }

  lemma PointKept(s0: Snap, s: Snap, t: int, b: int, d: int, dt: int, n: nat)
    requires AllCarried(s0, s, d) && s.trailBase == s0.trailBase + dt && t <= b
    requires ChoiceOk(s0, b) && ChoiceMoved(s0, s, t, b, d, dt) && (At(s0, b + 3) != 0 ==> At(s0, b + 3) + 8 * dt != 0)
    ensures ReadPoint(s, t + dt, b + dt, n) == ReadPoint(s0, t, b, n)
  {
    hide ReadEntries, CellCarried, TextCarried, At;
    EntriesKept(s0, s, t, b, d, dt, n);
    MovedWord(At(s0, b + 3), dt);
    assert b + dt + 1 == b + 1 + dt && b + dt + 2 == b + 2 + dt && b + dt + 3 == b + 3 + dt;
  }

  lemma {:induction false} ChainKept(s0: Snap, s: Snap, t: int, b: int, d: int, dt: int, n: nat)
    requires AllCarried(s0, s, d) && s.trailBase == s0.trailBase + dt && s0.reg.TR <= t && s0.reg.TR > 0
    requires ChainOk(s0, t, b) && ChainMoved(s0, s, t, b, d, dt) && s0.reg.TR + dt > 0
    ensures ReadPoints(s, t + dt, if b == 0 then 0 else b + dt, n) == ReadPoints(s0, t, b, n)
    decreases s0.trailBase - t
  {
    hide AllCarried, ReadPoint;
    if b != 0 {
      var f := Field(s0, b, 3);
      var next := f / 8;
      assert f == 8 * next && ChoiceOk(s0, b);
      ChainKept(s0, s, b + 4, next, d, dt, n);
      NoLinkIsNull(s0, b + 4, next, dt);
      PointKept(s0, s, t, b, d, dt, n);
      assert b + dt + 4 == b + 4 + dt;
      assert Field(s, b + dt, 3) / 8 == if next == 0 then 0 else next + dt;
    }
  }

  lemma NoLinkIsNull(s0: Snap, t: int, b: int, dt: int)
    requires ChainOk(s0, t, b) && s0.reg.TR <= t && s0.reg.TR + dt > 0
    ensures b != 0 ==> b + dt != 0
  {
  }

  lemma RelocationKeepsPoints(s0: Snap, s: Snap, d: int, dt: int)
    requires Inv(s0) && Relocated(s0, s, d, dt) && AllCarried(s0, s, d)
    ensures PointsKept(s0, s)
  {
    hide HeapOk, StackOk, ChainOk, HeapMoved, ChainMoved, AllCarried;
    forall n: nat ensures SamePoints(s0, s, n) {
      ChainKept(s0, s, s0.reg.TR, s0.reg.B, d, dt, n);
    }
  }

  lemma PointStays(s: Snap, c: Snap, t: int, b: int, n: nat)
    requires AllCarried(s, c, 0) && c == s.(words := c.words) && t <= b
    requires forall a | t <= a < b + 4 :: At(c, a) == At(s, a)
    ensures ReadPoint(c, t, b, n) == ReadPoint(s, t, b, n)
  {
    hide AllCarried, ReadCell, At;
    var mine, other := ReadEntries(s, t, b, n), ReadEntries(c, t, b, n);
    forall i | 0 <= i < |mine| ensures other[i] == mine[i] {
      var w := At(s, t + i);
      assert At(c, t + i) == w && c.heapBase == s.heapBase;
      ReadCellKept(s, c, w / 8, 0, n);
      assert mine[i] == ReadEntry(s, w, n) && other[i] == ReadEntry(c, w, n);
    }
  }

  lemma {:induction false} ChainStays(s: Snap, c: Snap, t: int, b: int, n: nat)
    requires AllCarried(s, c, 0) && c == s.(words := c.words) && ChainOk(s, t, b)
    requires forall a | t <= a < LastEntries(s, t, b) :: At(c, a) == At(s, a)
    ensures ReadPoints(c, t, b, n) == ReadPoints(s, t, b, n)
    decreases s.trailBase - t
  {
    hide AllCarried, ReadPoint;
    if b != 0 {
      var next := Field(s, b, 3) / 8;
      LastAbove(s, b + 4, next);
      ChainStays(s, c, b + 4, next, n);
      PointStays(s, c, t, b, n);
      assert At(c, b + 3) == At(s, b + 3);
    }
  }

  /** Whoever reads the same choice points sees the same ones. */
  lemma {:induction false} PointsTell(s0: Snap, s: Snap, t0: int, b0: int, t: int, b: int, n: nat)
    requires ChainOk(s0, t0, b0) && ChainOk(s, t, b) && ReadPoints(s, t, b, n) == ReadPoints(s0, t0, b0, n)
    ensures ChoicesView(s, t, b) == ChoicesView(s0, t0, b0)
    decreases s0.trailBase - t0
  {
    hide ReadCell;
    if b0 != 0 {
      var mine, other := ReadPoints(s0, t0, b0, n), ReadPoints(s, t, b, n);
      var next0, next := At(s0, b0 + 3) / 8, At(s, b + 3) / 8;
      assert mine[0] == other[0];
      assert mine[1..] == ReadPoints(s0, b0 + 4, next0, n) && other[1..] == ReadPoints(s, b + 4, next, n);
      PointsTell(s0, s, b0 + 4, next0, b + 4, next, n);
      EntriesTell(s0, s, t0, b0, t, b, n);
      assert Field(s0, b0, 3) == 8 * next0 && Field(s, b, 3) == 8 * next;
    } else {
      assert ReadPoints(s, t, b, n) == [];
    }
  }

  lemma EntriesTell(s0: Snap, s: Snap, t0: int, b0: int, t: int, b: int, n: nat)
    requires t0 <= b0 && t <= b && ReadEntries(s, t, b, n) == ReadEntries(s0, t0, b0, n)
    ensures EntriesView(s, t, b) == EntriesView(s0, t0, b0)
  {
    hide ReadCell;
    var mine, other := ReadEntries(s0, t0, b0, n), ReadEntries(s, t, b, n);
    forall i | 0 <= i < |mine| ensures EntriesView(s, t, b)[i] == EntriesView(s0, t0, b0)[i] {
      assert mine[i] == other[i];
      assert mine[i] == ReadEntry(s0, At(s0, t0 + i), n) && other[i] == ReadEntry(s, At(s, t + i), n);
    }
  }

  lemma TrailStays(s: Snap, newStack: nat)
    requires Inv(s) && ViewedTrailKept(s, newStack) && AllCarried(s, Overlaid(s, newStack), 0)
    ensures PointsKept(s, Overlaid(s, newStack))
  {
    hide Overlaid, AllCarried, HeapOk, StackOk, ChainOk, LastEntries;
    var c := Overlaid(s, newStack);
    OverlaidBelow(s, newStack);
    ViewedWords(s, newStack);
    forall n: nat ensures SamePoints(s, c, n) { ChainStays(s, c, s.reg.TR, s.reg.B, n); }
  }

  lemma TrailTold(s: Snap, newStack: nat)
    requires Inv(s) && Inv(Overlaid(s, newStack)) && SamePoints(s, Overlaid(s, newStack), 0)
    ensures ViewedTrailKept(s, newStack)
  {
    hide Overlaid, HeapOk, StackOk, ChainOk, LastEntries;
    var c := Overlaid(s, newStack);
    OverlaidBelow(s, newStack);
    PointsTell(s, c, s.reg.TR, s.reg.B, c.reg.TR, c.reg.B, 0);
    ChainTells(s, c, s.reg.TR, s.reg.B);
    ViewedWords(s, newStack);
  }

  // ---- global variables ----

  /** A word that is a constant, or an address of the stack or the heap in use. */
  predicate Readable(s: Snap, w: int) {
    w % 4 == 3 || 8 * s.reg.SP <= w < 8 * s.reg.H
  }

  /** The term that the global at `a` holds is as it was, at any depth. */
  ghost predicate GlobalReads(s0: Snap, s: Snap, a: int, dt: int) {
    var w, w' := At(s0, a), At(s, a + dt);
    forall n: nat :: SameWordRead(s0, s, w, w', n)
  }

  predicate SameWordRead(s0: Snap, s: Snap, w: int, w': int, n: nat) {
    Read(s, w', n) == Read(s0, w, n)
  }

  /** The word can be told from what is read. */
  lemma ReadOne(s: Snap, w: int)
    ensures var r := Read(s, w, 1);
            && (w % 4 == 3 <==> r.Constant? || r.Text?) && !r.Deep?
            && (r.Constant? ==> w == r.word) && (r.Text? ==> w == 128 * r.at + 15)
            && (r.Outside? ==> w == r.word && !(8 * s.reg.SP <= w < 8 * s.reg.H))
            && (r.Broken? ==> w == 8 * s.heapBase + r.bytes)
            && (r.Unbound? ==> w == 8 * (s.heapBase + r.at)) && (r.Bound? ==> w == 8 * (s.heapBase + r.at))
            && (r.Compound? ==> w == 8 * (s.heapBase + r.at) + 1) && (r.Pair? ==> w == 8 * (s.heapBase + r.at) + 2)
  {
    hide IsCell, At, ReadCell, ReadCells, IsText, IsFunctor, FirstArg, Arity, Words;
    LowBits(w);
    assert w == 8 * (w / 8) + w % 8;
    if w % 16 == 15 {
      var v := w / 16;
      assert w == 16 * v + 15 && v == 8 * (v / 8) + v % 8;
    }
    assert w % 8 % 4 == w % 4 by { MovedWord(w % 8, w / 8); }
  }

  /** A constant is told by itself, an address by where it leads and how. */
  lemma ReadTells(s0: Snap, s: Snap, w: int, w': int)
    requires Readable(s0, w) && SameWordRead(s0, s, w, w', 1)
    ensures NodeOf(s, w') == NodeOf(s0, w)
  {
    hide Read;
    ReadOne(s0, w);
    ReadOne(s, w');
  }

  lemma GlobalsRead(s0: Snap, s: Snap, a: int, d: int, dt: int)
    requires AllCarried(s0, s, d) && Readable(s0, At(s0, a))
    ensures GlobalReads(s0, s, a, dt) <==> ValueKept(s0, s, a, dt)
  {
    hide Read, At, CellCarried, TextCarried;
    var w, w' := At(s0, a), At(s, a + dt);
    if GlobalReads(s0, s, a, dt) {
      assert SameWordRead(s0, s, w, w', 1);
      ReadTells(s0, s, w, w');
    }
    if ValueKept(s0, s, a, dt) {
      forall n: nat ensures SameWordRead(s0, s, w, w', n) { ReadKept(s0, s, w, w', d, n); }
    }
  }

  // ---- the resize as a whole ----

  /** A register set that lies as far from heap base and trail base as it did. */
  predicate RegsKept(r0: Regs, r: Regs, d: int, dt: int) {
    && r.SP == r0.SP + d && r.E == r0.E + d && r.SPB == r0.SPB + d && r.HB == r0.HB + d && r.H == r0.H + d
    && r.TR == r0.TR + dt && r.B == if r0.B == 0 then 0 else r0.B + dt
  }

  predicate AllRegsKept(s0: Snap, s: Snap, d: int, dt: int) {
    && RegsKept(s0.reg, s.reg, d, dt) && |s.saved| == |s0.saved|
    && forall i | 0 <= i < |s.saved| :: RegsKept(s0.saved[i], s.saved[i], d, dt)
  }

  lemma RegistersKept(s0: Snap, s: Snap, newStack: nat, d: int, dt: int)
    requires Inv(Overlaid(s0, newStack)) && Relocated(Overlaid(s0, newStack), s, d, dt)
    ensures AllRegsKept(s0, s, d, dt)
  {
    hide HeapOk, StackOk, ChainOk, HeapMoved, ChainMoved, Overlaid;
    OverlaidBelow(s0, newStack);
  }

  /** The terms are kept whatever becomes of the trail; choice points and trail exactly when
      the words that are looked at are not written over with others; and the term that a global
      variable holds exactly when its value is. */
  lemma TermsExactly(s0: Snap, s: Snap, cells: seq<int>, newStack: nat, d: int, dt: int)
    requires var c := Overlaid(s0, newStack);
             Inv(s0) && Inv(c) && Relocated(c, s, d, dt) && ForeignStays(c, s)
    ensures TermsKept(s0, s, d)
    ensures PointsKept(s0, s) <==> ViewedTrailKept(s0, newStack)
    ensures forall a | InUse(s0, cells, a) && Readable(s0, At(s0, a)) ::
              GlobalReads(s0, s, a, dt) <==> ValueKept(s0, s, a, dt)
  {
    hide Overlaid, Inv, Relocated, ForeignStays, ViewedTrailKept, TermsKept, AllCarried, ReadPoints, GlobalReads, At;
    var c := Overlaid(s0, newStack);
    OverlaidBelow(s0, newStack);
    OverlaidCarries(s0, c);
    RelocationCarries(c, s, d, dt);
    CarriedTwice(s0, c, s, d);
    AllKept(s0, s, d);
    PointsExactly(s0, s, newStack, d, dt);
    forall a | InUse(s0, cells, a) && Readable(s0, At(s0, a))
      ensures GlobalReads(s0, s, a, dt) <==> ValueKept(s0, s, a, dt)
    {
      GlobalsRead(s0, s, a, d, dt);
    }
  }

  lemma PointsExactly(s0: Snap, s: Snap, newStack: nat, d: int, dt: int)
    requires var c := Overlaid(s0, newStack);
             && Inv(s0) && Inv(c) && Relocated(c, s, d, dt) && AllCarried(s0, c, 0) && AllCarried(c, s, d)
    ensures PointsKept(s0, s) <==> ViewedTrailKept(s0, newStack)
  {
    hide Overlaid, Inv, Relocated, ViewedTrailKept, AllCarried, ReadPoints;
    var c := Overlaid(s0, newStack);
    RelocationKeepsPoints(c, s, d, dt);
    if ViewedTrailKept(s0, newStack) {
      TrailStays(s0, newStack);
      forall n: nat ensures SamePoints(s0, s, n) { assert SamePoints(s0, c, n) && SamePoints(c, s, n); }
    }
    if PointsKept(s0, s) {
      assert SamePoints(s0, s, 0) && SamePoints(c, s, 0);
      TrailTold(s0, newStack);
    }
  }
}
