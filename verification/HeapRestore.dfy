/** Value trailing restores.  When every destructive change is trailed with the old word,
    backtracking to a choice point brings back, word for word, the heap it was made with. */
module HeapRestore {
  import opened HeapSafety

  /** For each choice point, what the heap held when it was made. */
  type Snapshots = seq<seq<Cell>>

  predicate ExactAt(s: State, t: nat, snap: seq<Cell>)
    requires Fits(s.trail, H(s))
  {
    |snap| <= H(s) && Unwind(s.heap, s.trail, t)[..|snap|] == snap
  }

  /** Backtracking to any choice point would restore its snapshot, which its HB covers. */
  predicate Exact(s: State, snaps: Snapshots)
    requires Inv(s)
  {
    |snaps| == |s.chps| &&
    forall k | 0 <= k < |snaps| :: ExactAt(s, s.chps[k].tr, snaps[k]) && |snaps[k]| <= s.chps[k].hb
  }

  /** Steps of a machine that trails values: no untrailed mangling. */
  predicate ValueTrailed(op: Op) { !op.OMangle? }

  function Snapped(s: State, snaps: Snapshots, op: Op): Snapshots
    requires |snaps| == |s.chps| && Enabled(s, op)
  {
    match op
    case OTry => snaps + [s.heap]
    case OTrust => snaps[..|snaps| - 1]
    case OCut(n) => snaps[..n]
    case _ => snaps
  }

  lemma ExactAlloc(s: State, cells: seq<Cell>, t: nat, snap: seq<Cell>)
    requires Fits(s.trail, H(s)) && ExactAt(s, t, snap)
    ensures Fits(s.trail, H(Alloc(s, cells))) && ExactAt(Alloc(s, cells), t, snap)
  {
    UnwindAlloc(s.heap, s.trail, t, cells);
    assert (Unwind(s.heap, s.trail, t) + cells)[..|snap|] == Unwind(s.heap, s.trail, t)[..|snap|];
  }

  lemma ExactBind(s: State, r: nat, c: Cell, t: nat, snap: seq<Cell>)
    requires Fits(s.trail, H(s)) && ExactAt(s, t, snap) && r < H(s) && t <= |s.trail| && |snap| <= s.HB
    ensures Fits(Bind(s, r, c).trail, H(s)) && ExactAt(Bind(s, r, c), t, snap)
  {
    if r < s.HB {
      UnwindTrailed(s.heap, s.trail, t, r, c);
    } else {
      UnwindUntrailed(s.heap, s.trail, t, r, c);
      assert Unwind(s.heap, s.trail, t)[r := c][..|snap|] == Unwind(s.heap, s.trail, t)[..|snap|];
    }
  }

  /** Backtracking leaves older choice points restorable, and restores the newest. */
  lemma ExactRetry(s: State, k: nat, snap: seq<Cell>)
    requires Inv(s) && k < |s.chps| && s.chps[k].tr <= |s.trail| && ExactAt(s, s.chps[k].tr, snap) && |snap| <= s.chps[k].hb
    ensures Inv(Retry(s)) && ExactAt(Retry(s), s.chps[k].tr, snap)
    ensures k == |s.chps| - 1 ==> Retry(s).heap[..|snap|] == snap
  {
    RetryInv(s);
    var s', t, u := Retry(s), TopTr(s), s.chps[k].tr;
    TopChoice(s);
    TrMonotone(s, k, |s.chps| - 1);
    UnwindTwice(s.heap, s.trail, t, u);
    UnwindTruncated(Unwind(s.heap, s.trail, t), s.trail[..t], u, s.HB);
    assert Unwind(s.heap, s.trail, u)[..s.HB][..|snap|] == Unwind(s.heap, s.trail, u)[..|snap|];
    if k == |s.chps| - 1 { assert Unwind(s.heap, s.trail, t)[..s.HB][..|snap|] == Unwind(s.heap, s.trail, t)[..|snap|]; }
  }

  lemma ExactCut(s: State, n: nat, k: nat, snap: seq<Cell>)
    requires Inv(s) && k < n < |s.chps| && s.chps[n - 1].tr <= |s.trail| && s.chps[k].tr <= |s.trail|
    requires ExactAt(s, s.chps[k].tr, snap) && |snap| <= s.chps[k].hb
    ensures Inv(Cut(s, n)) && ExactAt(Cut(s, n), s.chps[k].tr, snap)
  {
    CutInv(s, n);
    hide Inv, Unwind, Compacted;
    var c := s.chps[n - 1];
    TrMonotone(s, k, n - 1);
    assert ChoiceOk(s, n - 1);
    UnwindCompacted(s.heap, s.trail, c.tr, c.hb, s.chps[k].tr);
    var un, un' := Unwind(s.heap, s.trail, s.chps[k].tr), Unwind(s.heap, Cut(s, n).trail, s.chps[k].tr);
    assert un[..|snap|] == un[..c.hb][..|snap|] && un'[..|snap|] == un'[..c.hb][..|snap|];
  }

  lemma ExactTrailedMangle(s: State, a: nat, c: Cell, t: nat, snap: seq<Cell>)
    requires Fits(s.trail, H(s)) && ExactAt(s, t, snap) && a < H(s) && t <= |s.trail|
    ensures Fits(TrailedMangle(s, a, c).trail, H(s)) && ExactAt(TrailedMangle(s, a, c), t, snap)
  {
    UnwindTrailed(s.heap, s.trail, t, a, c);
  }

  lemma ExactDelay(s: State, dv: nat, delay: int, m: Cell, g: Cell, t: nat, snap: seq<Cell>)
    requires Fits(s.trail, H(s)) && ExactAt(s, t, snap) && dv < H(s) && t <= |s.trail|
    ensures Fits(Delay(s, dv, delay, m, g).trail, H(Delay(s, dv, delay, m, g)))
    ensures ExactAt(Delay(s, dv, delay, m, g), t, snap)
  {
    var cells := [Functor(delay, 4), Ptr(VAR, H(s) + 1), Ptr(VAR, H(s) + 2), m, g];
    ExactAlloc(s, cells, t, snap);
    UnwindTrailed(s.heap + cells, s.trail, t, dv, Ptr(VAR, H(s) + 1));
  }

  lemma ExactSame(s: State, s': State, t: nat, snap: seq<Cell>)
    requires Fits(s.trail, H(s)) && ExactAt(s, t, snap) && s'.heap == s.heap && s'.trail == s.trail
    ensures ExactAt(s', t, snap)
  {
  }

  /** One choice point through one step. */
  lemma ExactStep(s: State, snaps: Snapshots, op: Op, k: nat)
    requires Inv(s) && Exact(s, snaps) && Enabled(s, op) && ValueTrailed(op)
    requires k < |Snapped(s, snaps, op)| && k < |Next(s, op).chps|
    ensures Fits(Next(s, op).trail, H(Next(s, op)))
    ensures ExactAt(Next(s, op), Next(s, op).chps[k].tr, Snapped(s, snaps, op)[k])
  {
    hide ExactAt, Unwind, SafeAt, AllBelow, WasBelow;
    NextInv(s, op);
    ExactChoice(s, snaps, op, k);
    match op
    case OAlloc(cells) => ExactAlloc(s, cells, s.chps[k].tr, snaps[k]);
    case OBind(r, c) => ExactBind(s, r, c, s.chps[k].tr, snaps[k]);
    case OTry => JustMade(s, k);
    case ORetry => ExactRetry(s, k, snaps[k]);
    case OTrust => ExactRetry(s, k, snaps[k]); ExactSame(Retry(s), Trust(s), s.chps[k].tr, snaps[k]);
    case OCut(n) => if n < |s.chps| { ExactCut(s, n, k, snaps[k]); }
    case OTrailedMangle(a, c) =>
      ExactTrailedMangle(s, a, c, s.chps[k].tr, snaps[k]);
      var j := RaisedFrom(s.chps, a, H(s));
    case ODelay(dv, delay, m, g) => ExactDelay(s, dv, delay, m, g, s.chps[k].tr, snaps[k]);
  }

  lemma ExactChoice(s: State, snaps: Snapshots, op: Op, k: nat)
    requires Inv(s) && Exact(s, snaps) && Enabled(s, op) && k < |Snapped(s, snaps, op)|
    ensures k < |s.chps| ==>
              ExactAt(s, s.chps[k].tr, snaps[k]) && s.chps[k].tr <= |s.trail| && |snaps[k]| <= s.chps[k].hb <= s.HB
    ensures k < |s.chps| || op.OTry?
    ensures op.OCut? ==> s.chps[op.n - 1].tr <= |s.trail|
    ensures k < |s.chps| ==> Snapped(s, snaps, op)[k] == snaps[k]
    ensures k == |s.chps| ==> Snapped(s, snaps, op)[k] == s.heap
  {
    if k < |s.chps| { assert ExactAt(s, s.chps[k].tr, snaps[k]) && ChoiceOk(s, k); }
    if op.OCut? { assert ChoiceOk(s, op.n - 1); }
  }

  lemma JustMade(s: State, k: nat)
    requires Inv(s) && k <= |s.chps|
    ensures k == |s.chps| ==> ExactAt(Try(s), Try(s).chps[k].tr, s.heap)
    ensures ExactAt(Try(s), Try(s).chps[k].tr, [])
    ensures forall snap :: k < |s.chps| && ExactAt(s, s.chps[k].tr, snap) ==> ExactAt(Try(s), Try(s).chps[k].tr, snap)
  {
    assert k == |s.chps| ==> Unwind(s.heap, s.trail, |s.trail|)[..H(s)] == s.heap;
  }

  lemma SnapshotsCovered(s: State, snaps: Snapshots, op: Op)
    requires Inv(s) && Exact(s, snaps) && Enabled(s, op) && ValueTrailed(op)
    ensures |Snapped(s, snaps, op)| == |Next(s, op).chps|
    ensures forall k | 0 <= k < |Next(s, op).chps| :: |Snapped(s, snaps, op)[k]| <= Next(s, op).chps[k].hb
  {
    forall k: nat | k < |s.chps| ensures |snaps[k]| <= s.chps[k].hb <= H(s) {
      assert ChoiceOk(s, k) && ExactAt(s, s.chps[k].tr, snaps[k]);
    }
    if op.OTrailedMangle? { var j := RaisedFrom(s.chps, op.a, H(s)); }
  }

  lemma ExactNext(s: State, snaps: Snapshots, op: Op)
    requires Inv(s) && Exact(s, snaps) && Enabled(s, op) && ValueTrailed(op)
    ensures Inv(Next(s, op)) && Exact(Next(s, op), Snapped(s, snaps, op))
  {
    hide Next, Snapped, ExactAt;
    NextInv(s, op);
    SnapshotsCovered(s, snaps, op);
    forall k: nat | k < |Next(s, op).chps|
      ensures ExactAt(Next(s, op), Next(s, op).chps[k].tr, Snapped(s, snaps, op)[k])
    {
      ExactStep(s, snaps, op, k);
    }
  }

  predicate AllValueTrailed(ops: seq<Op>) {
    forall i | 0 <= i < |ops| :: ValueTrailed(ops[i])
  }

  function SnapshotsAfter(s: State, snaps: Snapshots, ops: seq<Op>): Snapshots
    requires Inv(s) && CanRun(s, ops) && Exact(s, snaps) && AllValueTrailed(ops)
    decreases |ops|
  {
    if ops == [] then snaps
    else
      ExactNext(s, snaps, ops[0]);
      SnapshotsAfter(Next(s, ops[0]), Snapped(s, snaps, ops[0]), ops[1..])
  }

  /** The choice point with number `n` is there all the time. */
  predicate Remains(s: State, ops: seq<Op>, n: nat)
    requires Inv(s) && CanRun(s, ops)
    decreases |ops|
  {
    |s.chps| > n && (ops == [] || (NextInv(s, ops[0]); Remains(Next(s, ops[0]), ops[1..], n)))
  }

  lemma {:induction false} ExactRun(s: State, snaps: Snapshots, ops: seq<Op>, n: nat)
    requires Inv(s) && CanRun(s, ops) && Exact(s, snaps) && AllValueTrailed(ops) && Remains(s, ops, n)
    ensures Inv(After(s, ops)) && Exact(After(s, ops), SnapshotsAfter(s, snaps, ops))
    ensures |After(s, ops).chps| > n && SnapshotsAfter(s, snaps, ops)[n] == snaps[n]
    decreases |ops|
  {
    if ops != [] {
      ExactNext(s, snaps, ops[0]);
      ExactRun(Next(s, ops[0]), Snapped(s, snaps, ops[0]), ops[1..], n);
    }
  }

  /** A choice point is made; anything happens, except untrailed mangling, while it exists; when
      it is the newest again, backtracking to it restores the heap it was made with. */
  lemma BacktrackingRestores(s: State, s1: State, s2: State, ops: seq<Op>)
    requires Inv(s) && s1 == Try(s) && Inv(s1) && CanRun(s1, ops) && s2 == After(s1, ops) && Inv(s2)
    requires AllValueTrailed(ops) && Remains(s1, ops, |s.chps|) && |s2.chps| == |s.chps| + 1
    ensures H(s) <= H(Retry(s2)) && Retry(s2).heap[..H(s)] == s.heap
  {
    hide CanRun, After, Remains, ExactAt, Unwind, SnapshotsAfter;
    var snaps: Snapshots := seq(|s.chps|, _ => []);
    var snaps1 := snaps + [s.heap];
    forall k | 0 <= k < |snaps1| ensures ExactAt(s1, s1.chps[k].tr, snaps1[k]) && |snaps1[k]| <= s1.chps[k].hb {
      JustMade(s, k);
    }
    ExactRun(s1, snaps1, ops, |s.chps|);
    RetriedExactly(s2, SnapshotsAfter(s1, snaps1, ops));
  }

  lemma RetriedExactly(s: State, snaps: Snapshots)
    requires Inv(s) && Exact(s, snaps) && |s.chps| > 0
    ensures |snaps[|s.chps| - 1]| <= s.HB == H(Retry(s))
    ensures Retry(s).heap[..|snaps[|s.chps| - 1]|] == snaps[|s.chps| - 1]
  {
    var k := |s.chps| - 1;
    RetryInv(s);
    assert ChoiceOk(s, k) && ExactAt(s, s.chps[k].tr, snaps[k]);
    ExactRetry(s, k, snaps[k]);
  }
}
