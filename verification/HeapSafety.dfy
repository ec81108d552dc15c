/** Destructive update under backtracking: heap, trail and choice points as one machine.

    A trail entry is an address with the word to put back there.  Without value trailing the
    word put back is always the unbound variable at that address, which is also what a cell
    holds when it is bound, so one machine serves both kinds of trail. */
module HeapSafety {

  datatype Tag = VAR | LIST | STRUCT | UIA

  datatype Cell =
    | Int(i: int)
    | Sym(tok: int)
    | Functor(tok: int, arity: nat)
    | Ptr(tag: Tag, addr: nat)

  datatype Entry = Entry(addr: nat, was: Cell)

  /** `hb` is where the heap ended when the choice point was made, or later when it was
      raised; `tr` is the height of the trail below the choice point. */
  datatype Choice = Choice(hb: nat, tr: nat)

  datatype State = State(heap: seq<Cell>, HB: nat, trail: seq<Entry>, chps: seq<Choice>)

  function H(s: State): nat { |s.heap| }

  predicate Below(c: Cell, n: nat) {
    c.Ptr? ==> c.addr < n
  }

  predicate AllBelow(cells: seq<Cell>, n: nat) {
    forall x | 0 <= x < |cells| :: Below(cells[x], n)
  }

  // ---- unwinding the trail ----

  predicate Fits(trail: seq<Entry>, n: nat) {
    forall i | 0 <= i < |trail| :: trail[i].addr < n
  }

  /** The heap after the entries above `t` have been put back, the most recent one first. */
  function Unwind(heap: seq<Cell>, trail: seq<Entry>, t: nat): (r: seq<Cell>)
    requires Fits(trail, |heap|)
    ensures |r| == |heap|
    decreases |trail|
  {
    if |trail| <= t then heap
    else
      var e := trail[|trail| - 1];
      Unwind(heap[e.addr := e.was], trail[..|trail| - 1], t)
  }

  /** A change that is trailed leaves no trace. */
  lemma UnwindTrailed(heap: seq<Cell>, trail: seq<Entry>, t: nat, r: nat, c: Cell)
    requires Fits(trail, |heap|) && r < |heap| && t <= |trail|
    ensures Fits(trail + [Entry(r, heap[r])], |heap|)
    ensures Unwind(heap[r := c], trail + [Entry(r, heap[r])], t) == Unwind(heap, trail, t)
  {
    var trail' := trail + [Entry(r, heap[r])];
    assert trail'[..|trail|] == trail && heap[r := c][r := heap[r]] == heap;
  }

  predicate Trailed(trail: seq<Entry>, t: nat, r: nat) {
    exists i :: t <= i < |trail| && trail[i].addr == r
  }

  /** A change that is not trailed shows exactly where no older entry covers it. */
  lemma {:induction false} UnwindUntrailed(heap: seq<Cell>, trail: seq<Entry>, t: nat, r: nat, c: Cell)
    requires Fits(trail, |heap|) && r < |heap|
    ensures Unwind(heap[r := c], trail, t)
            == if Trailed(trail, t, r) then Unwind(heap, trail, t) else Unwind(heap, trail, t)[r := c]
    decreases |trail|
  {
    if |trail| > t {
      var e := trail[|trail| - 1];
      var rest := trail[..|trail| - 1];
      if e.addr == r {
        assert heap[r := c][e.addr := e.was] == heap[e.addr := e.was];
        assert trail[|trail| - 1].addr == r;
      } else {
        assert heap[r := c][e.addr := e.was] == heap[e.addr := e.was][r := c];
        UnwindUntrailed(heap[e.addr := e.was], rest, t, r, c);
        TrailedBelow(trail, t, r);
      }
    }
  }

  lemma TrailedBelow(trail: seq<Entry>, t: nat, r: nat)
    requires t < |trail| && trail[|trail| - 1].addr != r
    ensures Trailed(trail, t, r) <==> Trailed(trail[..|trail| - 1], t, r)
  {
    if i :| t <= i < |trail| && trail[i].addr == r { assert trail[..|trail| - 1][i].addr == r; }
  }

  lemma {:induction false} UnwindAlloc(heap: seq<Cell>, trail: seq<Entry>, t: nat, cells: seq<Cell>)
    requires Fits(trail, |heap|)
    ensures Fits(trail, |heap + cells|) && Unwind(heap + cells, trail, t) == Unwind(heap, trail, t) + cells
    decreases |trail|
  {
    if |trail| > t {
      var e := trail[|trail| - 1];
      assert (heap + cells)[e.addr := e.was] == heap[e.addr := e.was] + cells;
      UnwindAlloc(heap[e.addr := e.was], trail[..|trail| - 1], t, cells);
    }
  }

  /** Unwinding in two stages. */
  lemma {:induction false} UnwindTwice(heap: seq<Cell>, trail: seq<Entry>, t: nat, u: nat)
    requires Fits(trail, |heap|) && u <= t <= |trail|
    ensures Fits(trail[..t], |heap|)
    ensures Unwind(Unwind(heap, trail, t), trail[..t], u) == Unwind(heap, trail, u)
    decreases |trail|
  {
    if |trail| > t {
      var e := trail[|trail| - 1];
      var rest := trail[..|trail| - 1];
      UnwindTwice(heap[e.addr := e.was], rest, t, u);
      assert rest[..t] == trail[..t];
    } else {
      assert trail[..t] == trail;
    }
  }

  lemma {:induction false} UnwindTruncated(heap: seq<Cell>, trail: seq<Entry>, t: nat, n: nat)
    requires Fits(trail, n) && n <= |heap|
    ensures Unwind(heap[..n], trail, t) == Unwind(heap, trail, t)[..n]
    decreases |trail|
  {
    if |trail| > t {
      var e := trail[|trail| - 1];
      assert heap[..n][e.addr := e.was] == heap[e.addr := e.was][..n];
      UnwindTruncated(heap[e.addr := e.was], trail[..|trail| - 1], t, n);
    }
  }

  predicate WasBelow(trail: seq<Entry>, n: nat) {
    forall i | 0 <= i < |trail| :: Below(trail[i].was, n)
  }

  lemma {:induction false} UnwindBelow(heap: seq<Cell>, trail: seq<Entry>, t: nat, n: nat)
    requires Fits(trail, |heap|) && AllBelow(heap, n) && WasBelow(trail, n)
    ensures AllBelow(Unwind(heap, trail, t), n)
    decreases |trail|
  {
    if |trail| > t {
      var e := trail[|trail| - 1];
      UnwindBelow(heap[e.addr := e.was], trail[..|trail| - 1], t, n);
    }
  }

  // ---- the invariant ----

  /** Backtracking to the choice point with trail height `t` leaves every cell below `hb`
      pointing below `hb`. */
  predicate SafeAt(s: State, t: nat, hb: nat)
    requires Fits(s.trail, H(s)) && hb <= H(s)
  {
    AllBelow(Unwind(s.heap, s.trail, t)[..hb], hb)
  }

  predicate ChoiceOk(s: State, k: nat)
    requires k < |s.chps|
  {
    var c := s.chps[k];
    && c.hb <= s.HB && c.tr <= |s.trail|
    && (k > 0 ==> s.chps[k - 1].hb <= c.hb && s.chps[k - 1].tr <= c.tr)
    && Fits(s.trail[..c.tr], c.hb) && WasBelow(s.trail[..c.tr], c.hb)
  }

  function TopTr(s: State): nat {
    if |s.chps| == 0 then 0 else s.chps[|s.chps| - 1].tr
  }

  predicate Inv(s: State) {
    && s.HB <= H(s)
    && AllBelow(s.heap, H(s)) && Fits(s.trail, H(s)) && WasBelow(s.trail, H(s))
    && (forall k: nat | k < |s.chps| :: ChoiceOk(s, k) && SafeAt(s, s.chps[k].tr, s.chps[k].hb))
    && TopTr(s) <= |s.trail| && SafeAt(s, TopTr(s), s.HB)
  }

  // ---- the steps ----

  function Alloc(s: State, cells: seq<Cell>): State {
    s.(heap := s.heap + cells)
  }

  /** Binding an unbound variable; cells older than the newest choice point are trailed. */
  function Bind(s: State, r: nat, c: Cell): State
    requires r < H(s)
  {
    s.(heap := s.heap[r := c], trail := if r < s.HB then s.trail + [Entry(r, s.heap[r])] else s.trail)
  }

  function Try(s: State): State {
    s.(HB := H(s), chps := s.chps + [Choice(H(s), |s.trail|)])
  }

  function Retry(s: State): State
    requires Inv(s) && |s.chps| > 0
  {
    s.(heap := Unwind(s.heap, s.trail, TopTr(s))[..s.HB], trail := s.trail[..TopTr(s)])
  }

  function Trust(s: State): State
    requires Inv(s) && |s.chps| > 1
  {
    var s1 := Retry(s);
    s1.(chps := s.chps[..|s.chps| - 1], HB := s.chps[|s.chps| - 2].hb)
  }

  /** The entries from `t` on that still have to be kept when HB goes down. */
  function Compacted(trail: seq<Entry>, t: nat, hb: nat): (r: seq<Entry>)
    requires t <= |trail|
    ensures trail[..t] <= r
    decreases |trail|
  {
    if |trail| == t then trail
    else
      var e := trail[|trail| - 1];
      var rest := Compacted(trail[..|trail| - 1], t, hb);
      if e.addr < hb then rest + [e] else rest
  }

  /** All but the `n` oldest choice points are dropped. */
  function Cut(s: State, n: nat): State
    requires 0 < n <= |s.chps| && s.chps[n - 1].tr <= |s.trail|
  {
    if n == |s.chps| then s
    else
      var c := s.chps[n - 1];
      s.(chps := s.chps[..n], HB := c.hb, trail := Compacted(s.trail, c.tr, c.hb))
  }

  /** Of the choice points, newest first, those that lie at or above `a` get the new `hb`. */
  function Raised(chps: seq<Choice>, a: nat, hb: nat): (r: seq<Choice>)
    ensures |r| == |chps|
    decreases |chps|
  {
    if |chps| == 0 || chps[|chps| - 1].hb < a then chps
    else Raised(chps[..|chps| - 1], a, hb) + [chps[|chps| - 1].(hb := hb)]
  }

  function Raise(s: State, a: nat): State {
    s.(HB := H(s), chps := Raised(s.chps, a, H(s)))
  }

  /** Does the new argument lie above the slot it goes into? */
  predicate PointsUp(a: nat, c: Cell) {
    c.Ptr? && a < c.addr
  }

  function Mangle(s: State, a: nat, c: Cell): State
    requires a < H(s)
  {
    var s1 := s.(heap := s.heap[a := c]);
    if PointsUp(a, c) then Raise(s1, a) else s1
  }

  /** What a word stands for once variable links have been followed. */
  function Deref(heap: seq<Cell>, c: Cell, fuel: nat): Cell
    decreases fuel
  {
    if fuel > 0 && c.Ptr? && c.tag.VAR? && c.addr < |heap| && heap[c.addr] != c
    then Deref(heap, heap[c.addr], fuel - 1) else c
  }

  /** From each variable of the chain a link leads to the next one, and the last one is unbound or
      holds something else. */
  predicate Links(heap: seq<Cell>, chain: seq<nat>) {
    && |chain| > 0 && (forall i | 0 <= i < |chain| :: chain[i] < |heap|)
    && (forall i, j | 0 <= i < j < |chain| :: chain[i] != chain[j])
    && (forall i | 0 <= i < |chain| - 1 :: heap[chain[i]] == Ptr(VAR, chain[i + 1]))
    && var last := chain[|chain| - 1];
       heap[last] == Ptr(VAR, last) || !heap[last].Ptr? || !heap[last].tag.VAR?
  }

  /** A chain of any length is followed to its end. */
  lemma DerefFollows(heap: seq<Cell>, chain: seq<nat>)
    requires Links(heap, chain)
    ensures Deref(heap, Ptr(VAR, chain[0]), |heap|) == heap[chain[|chain| - 1]]
  {
    DistinctBelow(chain, |heap|);
    DerefChain(heap, chain, |heap|);
  }

  lemma {:induction false} DerefChain(heap: seq<Cell>, chain: seq<nat>, fuel: nat)
    requires Links(heap, chain) && |chain| <= fuel
    ensures Deref(heap, Ptr(VAR, chain[0]), fuel) == heap[chain[|chain| - 1]]
    decreases |chain|
  {
    if |chain| > 1 {
      assert heap[chain[0]] == Ptr(VAR, chain[1]) && chain[0] != chain[1];
      DerefChain(heap, chain[1..], fuel - 1);
    }
  }

  lemma {:induction false} DistinctBelow(chain: seq<nat>, n: nat)
    requires forall i | 0 <= i < |chain| :: chain[i] < n
    requires forall i, j | 0 <= i < j < |chain| :: chain[i] != chain[j]
    ensures |chain| <= n
    decreases n
  {
    assert |chain| > 0 ==> chain[0] < n;
    if n > 0 {
      if i :| 0 <= i < |chain| && chain[i] == n - 1 {
        DistinctBelow(chain[..i] + chain[i + 1..], n - 1);
      } else {
        DistinctBelow(chain, n - 1);
      }
    }
  }

  /** An object above `a`; an unbound variable is none. */
  predicate HoldsUp(a: nat, c: Cell) {
    PointsUp(a, c) && !c.tag.VAR?
  }

  /** The slot is trailed with its old word first. */
  function TrailedMangle(s: State, a: nat, c: Cell): State
    requires a < H(s)
  {
    var was := Deref(s.heap, s.heap[a], H(s));
    var s1 := s.(heap := s.heap[a := c], trail := s.trail + [Entry(a, s.heap[a])]);
    if c.Ptr? && (HoldsUp(a, c) || HoldsUp(a, was)) then Raise(s1, a) else s1
  }

  function RaisedAll(chps: seq<Choice>, hb: nat): (r: seq<Choice>)
    ensures |r| == |chps| && forall k | 0 <= k < |r| :: r[k] == chps[k].(hb := hb)
  {
    seq(|chps|, k requires 0 <= k < |chps| => chps[k].(hb := hb))
  }

  /** A delay term for the variable `dv`: the variable is bound upwards to the term's first argument. */
  function Delay(s: State, dv: nat, delay: int, m: Cell, g: Cell): State
    requires dv < H(s)
  {
    var h := H(s);
    var heap := s.heap + [Functor(delay, 4), Ptr(VAR, h + 1), Ptr(VAR, h + 2), m, g];
    State(heap[dv := Ptr(VAR, h + 1)], |heap|, s.trail + [Entry(dv, s.heap[dv])], RaisedAll(s.chps, |heap|))
  }

  // ---- every step keeps the invariant ----

  lemma TopChoice(s: State)
    requires Inv(s) && |s.chps| > 0
    ensures var c := s.chps[|s.chps| - 1];
            && TopTr(s) == c.tr && ChoiceOk(s, |s.chps| - 1)
            && Fits(s.trail[..c.tr], c.hb) && WasBelow(s.trail[..c.tr], c.hb)
  {
    assert ChoiceOk(s, |s.chps| - 1);
  }

  lemma AllocInv(s: State, cells: seq<Cell>)
    requires Inv(s) && AllBelow(cells, H(s) + |cells|)
    ensures Inv(Alloc(s, cells))
  {
    var s' := Alloc(s, cells);
    forall k: nat | k < |s.chps| ensures ChoiceOk(s', k) && SafeAt(s', s.chps[k].tr, s.chps[k].hb) {
      assert ChoiceOk(s, k) && SafeAt(s, s.chps[k].tr, s.chps[k].hb);
      SafeAfterAlloc(s, cells, s.chps[k].tr, s.chps[k].hb);
    }
    SafeAfterAlloc(s, cells, TopTr(s), s.HB);
  }

  lemma SafeAfterAlloc(s: State, cells: seq<Cell>, t: nat, hb: nat)
    requires Fits(s.trail, H(s)) && hb <= H(s) && SafeAt(s, t, hb)
    ensures Fits(s.trail, H(Alloc(s, cells))) && SafeAt(Alloc(s, cells), t, hb)
  {
    UnwindAlloc(s.heap, s.trail, t, cells);
    assert (Unwind(s.heap, s.trail, t) + cells)[..hb] == Unwind(s.heap, s.trail, t)[..hb];
  }

  lemma BindInv(s: State, r: nat, c: Cell)
    requires Inv(s) && r < H(s) && Below(c, H(s))
    ensures Inv(Bind(s, r, c))
  {
    var s' := Bind(s, r, c);
    forall k: nat | k < |s.chps| ensures ChoiceOk(s', k) && SafeAt(s', s.chps[k].tr, s.chps[k].hb) {
      assert ChoiceOk(s, k) && SafeAt(s, s.chps[k].tr, s.chps[k].hb);
      assert s'.trail[..s.chps[k].tr] == s.trail[..s.chps[k].tr];
      SafeAfterBind(s, r, c, s.chps[k].tr, s.chps[k].hb);
    }
    SafeAfterBind(s, r, c, TopTr(s), s.HB);
  }

  lemma SafeAfterBind(s: State, r: nat, c: Cell, t: nat, hb: nat)
    requires Fits(s.trail, H(s)) && r < H(s) && hb <= s.HB <= H(s) && t <= |s.trail| && SafeAt(s, t, hb)
    ensures Fits(Bind(s, r, c).trail, H(s)) && SafeAt(Bind(s, r, c), t, hb)
  {
    if r < s.HB {
      UnwindTrailed(s.heap, s.trail, t, r, c);
    } else {
      UnwindUntrailed(s.heap, s.trail, t, r, c);
      assert Unwind(s.heap, s.trail, t)[r := c][..hb] == Unwind(s.heap, s.trail, t)[..hb];
    }
  }

  lemma TryInv(s: State)
    requires Inv(s)
    ensures Inv(Try(s))
  {
    var s' := Try(s);
    forall k: nat | k < |s'.chps| ensures ChoiceOk(s', k) && SafeAt(s', s'.chps[k].tr, s'.chps[k].hb) {
      if k < |s.chps| {
        assert ChoiceOk(s, k) && SafeAt(s, s.chps[k].tr, s.chps[k].hb);
      } else {
        if k > 0 { assert ChoiceOk(s, k - 1); }
        assert s.trail[..|s.trail|] == s.trail;
        assert Unwind(s.heap, s.trail, |s.trail|)[..H(s)] == s.heap;
      }
    }
  }

  /** The state right after backtracking is as safe as the invariant promised. */
  lemma RetryInv(s: State)
    requires Inv(s) && |s.chps| > 0
    ensures Inv(Retry(s)) && H(Retry(s)) == s.HB
  {
    var s', t := Retry(s), TopTr(s);
    TopChoice(s);
    var un := Unwind(s.heap, s.trail, t);
    var rest := s.trail[..t];
    assert Fits(rest, s.HB) && WasBelow(rest, s.HB);
    forall k: nat | k < |s.chps| ensures ChoiceOk(s', k) && SafeAt(s', s.chps[k].tr, s.chps[k].hb) {
      SafeAfterRetry(s, k);
    }
    assert Unwind(s'.heap, s'.trail, t) == s'.heap && s'.heap[..s.HB] == s'.heap;
  }

  lemma SafeAfterRetry(s: State, k: nat)
    requires Inv(s) && k < |s.chps|
    ensures Fits(Retry(s).trail, s.HB)
    ensures ChoiceOk(Retry(s), k) && SafeAt(Retry(s), s.chps[k].tr, s.chps[k].hb)
  {
    var s', t, u, hb := Retry(s), TopTr(s), s.chps[k].tr, s.chps[k].hb;
    TopChoice(s);
    TrMonotone(s, k, |s.chps| - 1);
    assert ChoiceOk(s, k) && SafeAt(s, u, hb);
    UnwindTwice(s.heap, s.trail, t, u);
    UnwindTruncated(Unwind(s.heap, s.trail, t), s.trail[..t], u, s.HB);
    assert s.trail[..t][..u] == s.trail[..u];
    assert Unwind(s.heap, s.trail, u)[..s.HB][..hb] == Unwind(s.heap, s.trail, u)[..hb];
  }

  lemma {:induction false} TrMonotone(s: State, j: nat, k: nat)
    requires Inv(s) && j <= k < |s.chps|
    ensures s.chps[j].tr <= s.chps[k].tr && s.chps[j].hb <= s.chps[k].hb
  {
    if j < k {
      TrMonotone(s, j, k - 1);
      assert ChoiceOk(s, k);
    }
  }

  lemma TrustInv(s: State)
    requires Inv(s) && |s.chps| > 1
    ensures Inv(Trust(s))
  {
    RetryInv(s);
    var s1, s' := Retry(s), Trust(s);
    forall k: nat | k < |s'.chps| ensures ChoiceOk(s', k) && SafeAt(s', s'.chps[k].tr, s'.chps[k].hb) {
      assert ChoiceOk(s1, k) && SafeAt(s1, s1.chps[k].tr, s1.chps[k].hb);
      TrMonotone(s1, k, |s.chps| - 2);
    }
    assert ChoiceOk(s1, |s.chps| - 2);
  }

  // ---- cutting ----

  lemma {:induction false} CompactedFits(trail: seq<Entry>, t: nat, hb: nat, n: nat)
    requires t <= |trail|
    ensures Fits(trail, n) ==> Fits(Compacted(trail, t, hb), n)
    ensures WasBelow(trail, n) ==> WasBelow(Compacted(trail, t, hb), n)
    decreases |trail|
  {
    if |trail| > t {
      CompactedFits(trail[..|trail| - 1], t, hb, n);
    }
  }

  /** Of the entries from `t` on, exactly those for cells below `hb` are kept. */
  lemma {:induction false} CompactedExactly(trail: seq<Entry>, t: nat, hb: nat, e: Entry)
    requires t <= |trail|
    ensures |Compacted(trail, t, hb)| >= t
    ensures multiset(Compacted(trail, t, hb)[t..])[e] == if e.addr < hb then multiset(trail[t..])[e] else 0
    decreases |trail|
  {
    if |trail| > t {
      var n := |trail| - 1;
      var rest := Compacted(trail[..n], t, hb);
      CompactedExactly(trail[..n], t, hb, e);
      assert trail[t..] == trail[..n][t..] + [trail[n]];
      assert (rest + [trail[n]])[t..] == rest[t..] + [trail[n]];
    } else {
      assert trail[t..] == [];
    }
  }

  /** Dropping the entries at or above `hb` makes no difference below it. */
  lemma {:induction false} UnwindCompacted(heap: seq<Cell>, trail: seq<Entry>, t: nat, hb: nat, u: nat)
    requires Fits(trail, |heap|) && u <= t <= |trail| && hb <= |heap|
    ensures Fits(Compacted(trail, t, hb), |heap|)
    ensures Unwind(heap, Compacted(trail, t, hb), u)[..hb] == Unwind(heap, trail, u)[..hb]
    decreases |trail|
  {
    CompactedFits(trail, t, hb, |heap|);
    if |trail| > t {
      var e := trail[|trail| - 1];
      var rest := trail[..|trail| - 1];
      var kept := Compacted(rest, t, hb);
      UnwindCompacted(heap[e.addr := e.was], rest, t, hb, u);
      if e.addr < hb {
        assert (kept + [e])[..|kept|] == kept;
      } else {
        UnwindUntrailed(heap, kept, u, e.addr, e.was);
        assert Unwind(heap, kept, u)[e.addr := e.was][..hb] == Unwind(heap, kept, u)[..hb];
      }
    }
  }

  lemma CutInv(s: State, n: nat)
    requires Inv(s) && 0 < n <= |s.chps|
    ensures s.chps[n - 1].tr <= |s.trail| && Inv(Cut(s, n))
  {
    assert ChoiceOk(s, n - 1);
    if n < |s.chps| {
      var s', c := Cut(s, n), s.chps[n - 1];
      CompactedFits(s.trail, c.tr, c.hb, H(s));
      forall k: nat | k < n ensures ChoiceOk(s', k) && SafeAt(s', s.chps[k].tr, s.chps[k].hb) {
        CutChoice(s, n, k);
      }
      assert SafeAt(s, c.tr, c.hb);
      SafeAfterCut(s, c.tr, c.hb, c.tr, c.hb);
    }
  }

  lemma CutChoice(s: State, n: nat, k: nat)
    requires Inv(s) && k < n < |s.chps| && s.chps[n - 1].tr <= |s.trail|
    ensures Fits(Cut(s, n).trail, H(s)) && s.chps[k].hb <= H(s)
    ensures ChoiceOk(Cut(s, n), k) && SafeAt(Cut(s, n), s.chps[k].tr, s.chps[k].hb)
  {
    var s', c := Cut(s, n), s.chps[n - 1];
    CompactedFits(s.trail, c.tr, c.hb, H(s));
    assert ChoiceOk(s, k) && SafeAt(s, s.chps[k].tr, s.chps[k].hb);
    TrMonotone(s, k, n - 1);
    assert ChoiceOk(s, n - 1);
    assert s'.trail[..c.tr] == s.trail[..c.tr];
    assert s'.trail[..s.chps[k].tr] == s'.trail[..c.tr][..s.chps[k].tr];
    assert s.trail[..s.chps[k].tr] == s.trail[..c.tr][..s.chps[k].tr];
    SafeAfterCut(s, c.tr, c.hb, s.chps[k].tr, s.chps[k].hb);
  }

  lemma SafeAfterCut(s: State, t: nat, cut: nat, u: nat, hb: nat)
    requires Fits(s.trail, H(s)) && u <= t <= |s.trail| && hb <= cut <= H(s) && SafeAt(s, u, hb)
    ensures var s' := s.(trail := Compacted(s.trail, t, cut));
            Fits(s'.trail, H(s)) && SafeAt(s', u, hb)
  {
    UnwindCompacted(s.heap, s.trail, t, cut, u);
    var un, un' := Unwind(s.heap, s.trail, u), Unwind(s.heap, Compacted(s.trail, t, cut), u);
    assert un[..hb] == un[..cut][..hb] && un'[..hb] == un'[..cut][..hb];
  }

  // ---- destructive update ----

  /** The choice points that are raised are the newest ones, down to the first below the slot. */
  lemma {:induction false} RaisedFrom(chps: seq<Choice>, a: nat, hb: nat) returns (j: nat)
    ensures j <= |chps| && (j > 0 ==> chps[j - 1].hb < a) && (forall k | j <= k < |chps| :: chps[k].hb >= a)
    ensures forall k | 0 <= k < |chps| :: Raised(chps, a, hb)[k] == if k < j then chps[k] else chps[k].(hb := hb)
    decreases |chps|
  {
    if |chps| == 0 || chps[|chps| - 1].hb < a {
      j := |chps|;
    } else {
      j := RaisedFrom(chps[..|chps| - 1], a, hb);
    }
  }

  /** HB and the choice points that do not lie below `a` are at the top of the heap, or all are
      where they were. */
  predicate Lifted(was: State, now: State, a: nat, up: bool) {
    && |now.chps| == |was.chps|
    && (!up ==> now.HB == was.HB && now.chps == was.chps)
    && (up ==>
          && now.HB == |now.heap|
          && forall k | 0 <= k < |was.chps| ::
               now.chps[k] == if was.chps[k].hb >= a then Choice(|now.heap|, was.chps[k].tr) else was.chps[k])
  }

  lemma RaiseLifts(s: State, a: nat)
    requires forall k: nat | k < |s.chps| :: ChoiceOk(s, k)
    ensures Lifted(s, Raise(s, a), a, true)
  {
    var j := RaisedFrom(s.chps, a, H(s));
    forall k | 0 <= k < |s.chps|
      ensures Raise(s, a).chps[k] == if s.chps[k].hb >= a then Choice(H(s), s.chps[k].tr) else s.chps[k]
    {
      if k < j { HbMonotone(s, k, j - 1); }
    }
  }

  /** Replacing a word for good raises the choice points exactly if the new word is an address
      above the slot, and trails nothing. */
  lemma MangleExactly(s: State, a: nat, c: Cell)
    requires Inv(s) && a < H(s)
    ensures var s' := Mangle(s, a, c);
            s'.heap == s.heap[a := c] && s'.trail == s.trail && Lifted(s, s', a, c.Ptr? && c.addr > a)
  {
    hide Lifted, SafeAt;
    SameChoices(s, s.(heap := s.heap[a := c]));
    RaiseLifts(s.(heap := s.heap[a := c]), a);
    LiftedFrom(s, s.(heap := s.heap[a := c]), a);
  }

  lemma SameChoices(s: State, s': State)
    requires Inv(s) && s'.chps == s.chps && s'.HB == s.HB && s.trail <= s'.trail
    ensures forall k: nat | k < |s'.chps| :: ChoiceOk(s', k)
  {
    forall k: nat | k < |s'.chps| ensures ChoiceOk(s', k) {
      assert ChoiceOk(s, k) && s'.trail[..s.chps[k].tr] == s.trail[..s.chps[k].tr];
    }
  }

  lemma LiftedFrom(s: State, s': State, a: nat)
    requires s'.chps == s.chps && s'.HB == s.HB
    ensures Lifted(s', Raise(s', a), a, true) ==> Lifted(s, Raise(s', a), a, true)
    ensures Lifted(s, s', a, false)
  {
  }

  /** The trailed form trails the slot, and raises the choice points if the new word is an object,
      and it or what the old word stands for is one above the slot. */
  lemma TrailedMangleExactly(s: State, a: nat, c: Cell)
    requires Inv(s) && a < H(s)
    ensures var s' := TrailedMangle(s, a, c);
            var was := Deref(s.heap, s.heap[a], H(s));
            var above := (c.Ptr? && !c.tag.VAR? && c.addr > a) || (was.Ptr? && !was.tag.VAR? && was.addr > a);
            && s'.heap == s.heap[a := c] && s'.trail == s.trail + [Entry(a, s.heap[a])]
            && Lifted(s, s', a, c.Ptr? && above)
  {
    hide Lifted, SafeAt;
    var s1 := s.(heap := s.heap[a := c], trail := s.trail + [Entry(a, s.heap[a])]);
    SameChoices(s, s1);
    RaiseLifts(s1, a);
    LiftedFrom(s, s1, a);
  }

  /** All that is missing is safety for choice points that do not lie below `a`. */
  predicate AlmostInv(s: State, a: nat) {
    && s.HB <= H(s) && TopTr(s) <= |s.trail|
    && AllBelow(s.heap, H(s)) && Fits(s.trail, H(s)) && WasBelow(s.trail, H(s))
    && (forall k: nat | k < |s.chps| :: ChoiceOk(s, k) && (s.chps[k].hb < a ==> SafeAt(s, s.chps[k].tr, s.chps[k].hb)))
  }

  lemma RaiseInv(s: State, a: nat)
    requires AlmostInv(s, a)
    ensures Inv(Raise(s, a))
  {
    var s' := Raise(s, a);
    var j := RaisedFrom(s.chps, a, H(s));
    forall k: nat | k < |s'.chps| ensures ChoiceOk(s', k) && SafeAt(s', s'.chps[k].tr, s'.chps[k].hb) {
      RaisedChoice(s, a, j, k);
    }
    UnwindBelow(s.heap, s.trail, TopTr(s), H(s));
    assert TopTr(s') == TopTr(s);
    assert SafeAt(s', TopTr(s'), H(s));
  }

  lemma {:induction false} HbMonotone(s: State, j: nat, k: nat)
    requires j <= k < |s.chps| && forall i: nat | i < |s.chps| :: ChoiceOk(s, i)
    ensures s.chps[j].hb <= s.chps[k].hb
  {
    if j < k {
      HbMonotone(s, j, k - 1);
      assert ChoiceOk(s, k);
    }
  }

  lemma RaisedChoice(s: State, a: nat, j: nat, k: nat)
    requires AlmostInv(s, a) && k < |s.chps| && j <= |s.chps| && (j > 0 ==> s.chps[j - 1].hb < a)
    requires forall i | 0 <= i < |s.chps| ::
               Raised(s.chps, a, H(s))[i] == if i < j then s.chps[i] else s.chps[i].(hb := H(s))
    ensures ChoiceOk(Raise(s, a), k) && Raise(s, a).chps[k].hb <= H(s)
    ensures SafeAt(Raise(s, a), Raise(s, a).chps[k].tr, Raise(s, a).chps[k].hb)
  {
    assert ChoiceOk(s, k);
    if k < j {
      HbMonotone(s, k, j - 1);
    } else {
      UnwindBelow(s.heap, s.trail, s.chps[k].tr, H(s));
      var un := Unwind(s.heap, s.trail, s.chps[k].tr);
      assert un[..H(s)] == un;
    }
  }

  /** What an untrailed change to slot `a` can do to a choice point. */
  lemma SafeAfterMangle(s: State, a: nat, c: Cell, t: nat, hb: nat)
    requires Fits(s.trail, H(s)) && a < H(s) && hb <= H(s) && SafeAt(s, t, hb) && (hb > a ==> !PointsUp(a, c))
    ensures SafeAt(s.(heap := s.heap[a := c]), t, hb)
  {
    UnwindUntrailed(s.heap, s.trail, t, a, c);
    var un, un' := Unwind(s.heap, s.trail, t), Unwind(s.heap[a := c], s.trail, t);
    forall x | 0 <= x < hb ensures Below(un'[x], hb) {
      assert Below(un[..hb][x], hb);
    }
  }

  /** Replacing an argument in place is safe: whatever is raised, is raised far enough. */
  lemma MangleInv(s: State, a: nat, c: Cell)
    requires Inv(s) && a < H(s) && Below(c, H(s))
    ensures Inv(Mangle(s, a, c))
  {
    var s1 := s.(heap := s.heap[a := c]);
    forall k: nat | k < |s.chps|
      ensures ChoiceOk(s1, k)
      ensures s.chps[k].hb <= a || !PointsUp(a, c) ==> SafeAt(s1, s.chps[k].tr, s.chps[k].hb)
    {
      assert ChoiceOk(s, k) && SafeAt(s, s.chps[k].tr, s.chps[k].hb);
      if s.chps[k].hb <= a || !PointsUp(a, c) { SafeAfterMangle(s, a, c, s.chps[k].tr, s.chps[k].hb); }
    }
    if PointsUp(a, c) {
      RaiseInv(s1, a);
    } else {
      SafeAfterMangle(s, a, c, TopTr(s), s.HB);
    }
  }

  lemma TrailedMangleInv(s: State, a: nat, c: Cell)
    requires Inv(s) && a < H(s) && Below(c, H(s))
    ensures Inv(TrailedMangle(s, a, c))
  {
    var s1 := s.(heap := s.heap[a := c], trail := s.trail + [Entry(a, s.heap[a])]);
    forall k: nat | k < |s.chps| ensures ChoiceOk(s1, k) && SafeAt(s1, s.chps[k].tr, s.chps[k].hb) {
      assert ChoiceOk(s, k) && SafeAt(s, s.chps[k].tr, s.chps[k].hb);
      assert s1.trail[..s.chps[k].tr] == s.trail[..s.chps[k].tr];
      UnwindTrailed(s.heap, s.trail, s.chps[k].tr, a, c);
    }
    UnwindTrailed(s.heap, s.trail, TopTr(s), a, c);
    assert Inv(s1);
    RaiseInv(s1, a);
  }

  lemma DelayInv(s: State, dv: nat, delay: int, m: Cell, g: Cell)
    requires Inv(s) && dv < H(s) && Below(m, H(s)) && Below(g, H(s))
    ensures Inv(Delay(s, dv, delay, m, g))
  {
    var s' := Delay(s, dv, delay, m, g);
    hide SafeAt, Unwind;
    forall k: nat | k < |s.chps| ensures ChoiceOk(s', k) && SafeAt(s', s'.chps[k].tr, s'.chps[k].hb) {
      assert ChoiceOk(s, k);
      assert s'.trail[..s.chps[k].tr] == s.trail[..s.chps[k].tr];
      SafeAtTop(s', s'.chps[k].tr);
    }
    SafeAtTop(s', TopTr(s'));
    assert |s.chps| > 0 ==> ChoiceOk(s, |s.chps| - 1);
  }

  /** With everything below H, backtracking with `hb` at H is safe. */
  lemma SafeAtTop(s: State, t: nat)
    requires AllBelow(s.heap, H(s)) && Fits(s.trail, H(s)) && WasBelow(s.trail, H(s))
    ensures SafeAt(s, t, H(s))
  {
    UnwindBelow(s.heap, s.trail, t, H(s));
    var un := Unwind(s.heap, s.trail, t);
    assert un[..H(s)] == un;
  }

  // ---- runs ----

  datatype Op =
    | OAlloc(cells: seq<Cell>)
    | OBind(r: nat, c: Cell)
    | OTry
    | ORetry
    | OTrust
    | OCut(n: nat)
    | OMangle(a: nat, c: Cell)
    | OTrailedMangle(a: nat, c: Cell)
    | ODelay(dv: nat, delay: int, m: Cell, g: Cell)

  predicate Enabled(s: State, op: Op) {
    match op
    case OAlloc(cells) => AllBelow(cells, H(s) + |cells|)
    case OBind(r, c) => r < H(s) && s.heap[r] == Ptr(VAR, r) && Below(c, H(s))
    case OTry => true
    case ORetry => |s.chps| > 0
    case OTrust => |s.chps| > 1
    case OCut(n) => 0 < n <= |s.chps|
    case OMangle(a, c) => a < H(s) && Below(c, H(s))
    case OTrailedMangle(a, c) => a < H(s) && Below(c, H(s))
    case ODelay(dv, _, m, g) => dv < H(s) && Below(m, H(s)) && Below(g, H(s))
  }

  function Next(s: State, op: Op): State
    requires Inv(s) && Enabled(s, op)
  {
    match op
    case OAlloc(cells) => Alloc(s, cells)
    case OBind(r, c) => Bind(s, r, c)
    case OTry => Try(s)
    case ORetry => Retry(s)
    case OTrust => Trust(s)
    case OCut(n) => assert ChoiceOk(s, n - 1); Cut(s, n)
    case OMangle(a, c) => Mangle(s, a, c)
    case OTrailedMangle(a, c) => TrailedMangle(s, a, c)
    case ODelay(dv, delay, m, g) => Delay(s, dv, delay, m, g)
  }

  lemma NextInv(s: State, op: Op)
    requires Inv(s) && Enabled(s, op)
    ensures Inv(Next(s, op))
  {
    hide Inv, Alloc, Bind, Try, Retry, Trust, Cut, Mangle, TrailedMangle, Delay;
    match op
    case OAlloc(cells) => AllocInv(s, cells);
    case OBind(r, c) => BindInv(s, r, c);
    case OTry => TryInv(s);
    case ORetry => RetryInv(s);
    case OTrust => TrustInv(s);
    case OCut(n) => CutInv(s, n);
    case OMangle(a, c) => MangleInv(s, a, c);
    case OTrailedMangle(a, c) => TrailedMangleInv(s, a, c);
    case ODelay(dv, delay, m, g) => DelayInv(s, dv, delay, m, g);
  }

  predicate CanRun(s: State, ops: seq<Op>)
    requires Inv(s)
    decreases |ops|
  {
    ops == [] || (Enabled(s, ops[0]) && (NextInv(s, ops[0]); CanRun(Next(s, ops[0]), ops[1..])))
  }

  function After(s: State, ops: seq<Op>): State
    requires Inv(s) && CanRun(s, ops)
    decreases |ops|
  {
    if ops == [] then s else NextInv(s, ops[0]); After(Next(s, ops[0]), ops[1..])
  }

  /** In every run, every address on the heap lies in the heap: after each step, and so
      after each backtracking too. */
  lemma {:induction false} NeverDangles(s: State, ops: seq<Op>)
    requires Inv(s) && CanRun(s, ops)
    ensures Inv(After(s, ops)) && AllBelow(After(s, ops).heap, H(After(s, ops)))
    decreases |ops|
  {
    if ops != [] {
      NextInv(s, ops[0]);
      NeverDangles(Next(s, ops[0]), ops[1..]);
    }
  }
}
