/** The table of C constants: open addressing with a stride of the symbol's own. */
module SymbolTable {

  // ---- strides modulo a prime ----

  predicate Divides(d: nat, n: nat)
    requires d > 0
  {
    n % d == 0
  }

  predicate Prime(n: nat) {
    n >= 2 && forall d: nat | 1 < d < n :: !Divides(d, n)
  }

  /** None of the numbers from `d` on, in `k` groups of eight, divides `n`. */
  predicate NoDivisor(n: nat, d: nat, k: nat)
    requires d > 0
    decreases k
  {
    k == 0 ||
    (n % d != 0 && n % (d + 1) != 0 && n % (d + 2) != 0 && n % (d + 3) != 0
     && n % (d + 4) != 0 && n % (d + 5) != 0 && n % (d + 6) != 0 && n % (d + 7) != 0
     && NoDivisor(n, d + 8, k - 1))
  }

  lemma {:induction false} NoDivisorAt(n: nat, d: nat, k: nat, x: nat)
    requires 0 < d <= x < d + 8 * k && NoDivisor(n, d, k)
    ensures !Divides(x, n)
    decreases k
  {
    if x >= d + 8 { NoDivisorAt(n, d + 8, k - 1, x); }
  }

  /** It is enough to try divisors up to the square root. */
  lemma PrimeBySquareRoot(n: nat, k: nat, r: nat)
    requires n >= 2 && r == 8 * k + 1 && n < (r + 1) * (r + 1) && NoDivisor(n, 2, k)
    ensures Prime(n)
  {
    hide NoDivisor;
    forall d: nat | 1 < d < n ensures !Divides(d, n) {
      if d <= r {
        NoDivisorAt(n, 2, k, d);
      } else if Divides(d, n) {
        var q := n / d;
        assert n == q * d;
        Products(q, d, r + 1);
        assert q <= 1 ==> q * d <= d;
        DivideProduct(q, d);
        NoDivisorAt(n, 2, k, q);
      }
    }
  }

  lemma Products(a: nat, b: nat, c: nat)
    ensures a >= c && b >= c ==> a * b >= c * c
  {
  }

  lemma DivideProduct(d: nat, k: nat)
    ensures d > 0 ==> (k * d) / d == k && (k * d) % d == 0
  {
    if d > 0 { Remainder(k * d, d, k, 0); }
  }

  /** A quotient and a remainder are unique. */
  lemma Remainder(n: int, d: int, q: int, r: int)
    requires d > 0 && n == q * d + r && 0 <= r < d
    ensures n / d == q && n % d == r
  {
    var q', r' := n / d, n % d;
    assert n == q' * d + r';
    assert (q - q') * d == r' - r;
    assert q - q' >= 1 ==> (q - q') * d >= d;
    assert q - q' <= -1 ==> (q - q') * d <= -d;
  }

  /** The least positive multiplier that takes `a` to a multiple of `n`. */
  predicate Annuls(n: nat, a: nat, m: nat)
    requires n > 0
  {
    (m * a) % n == 0
  }

  lemma {:induction false} LeastAnnulling(n: nat, a: nat, m: nat) returns (l: nat)
    requires n > 0 && m > 0 && Annuls(n, a, m)
    ensures 0 < l <= m && Annuls(n, a, l) && forall k: nat | 0 < k < l :: !Annuls(n, a, k)
    decreases m
  {
    if k: nat :| 0 < k < m && Annuls(n, a, k) {
      l := LeastAnnulling(n, a, k);
    } else {
      l := m;
    }
  }

  /** The least such multiplier divides every other. */
  lemma LeastDivides(n: nat, a: nat, l: nat, k: nat)
    requires n > 0 && l > 0 && Annuls(n, a, l) && Annuls(n, a, k)
    requires forall j: nat | 0 < j < l :: !Annuls(n, a, j)
    ensures Divides(l, k)
  {
    var q, r := k / l, k % l;
    assert k == q * l + r;
    var x, y := (k * a) / n, (l * a) / n;
    assert k * a == x * n && l * a == y * n;
    assert r * a == k * a - q * (l * a) by { assert (q * l) * a == q * (l * a); }
    assert r * a == (x - q * y) * n by { assert q * (y * n) == (q * y) * n; }
    Remainder(r * a, n, x - q * y, 0);
    assert Annuls(n, a, r);
  }

  /** A prime does not divide a product of two smaller positive numbers. */
  lemma StrideNeverReturns(n: nat, inc: nat, k: nat)
    requires Prime(n) && 0 < inc < n && 0 < k < n
    ensures (k * inc) % n != 0
  {
    if Annuls(n, inc, k) {
      var l := LeastAnnulling(n, inc, k);
      DivideProduct(n, inc);
      assert Annuls(n, inc, n) by { assert n * inc == inc * n; }
      LeastDivides(n, inc, l, n);
    }
  }

  lemma SizesArePrime()
    ensures Size(4093) && Size(8191)
  {
    assert NoDivisor(4093, 50, 2) && NoDivisor(4093, 34, 4) && NoDivisor(4093, 18, 6);
    assert NoDivisor(4093, 2, 8);
    PrimeBySquareRoot(4093, 8, 65);
    assert NoDivisor(8191, 82, 2) && NoDivisor(8191, 66, 4) && NoDivisor(8191, 50, 6);
    assert NoDivisor(8191, 34, 8) && NoDivisor(8191, 18, 10) && NoDivisor(8191, 2, 12);
    PrimeBySquareRoot(8191, 12, 97);
  }

  // ---- probing ----

  /** The slot looked at after `j` strides. */
  function Probe(n: nat, start: nat, inc: nat, j: nat): (p: nat)
    requires n > 0
    ensures p < n
  {
    (start + j * inc) % n
  }

  lemma ModAdd(a: nat, b: nat, n: nat)
    requires n > 0
    ensures (a % n + b) % n == (a + b) % n
  {
    var q := a / n;
    var s := a % n + b;
    assert a + b == q * n + s;
    assert s == (s / n) * n + s % n;
    assert a + b == (q + s / n) * n + s % n;
    Remainder(a + b, n, q + s / n, s % n);
  }

  lemma ProbeNext(n: nat, start: nat, inc: nat, j: nat)
    requires n > 0
    ensures Probe(n, start, inc, j + 1) == (Probe(n, start, inc, j) + inc) % n
  {
    var a := start + j * inc;
    assert start + (j + 1) * inc == a + inc;
    ModAdd(a, inc, n);
  }

  /** Fewer than `n` strides apart, the probes differ. */
  lemma ProbesDiffer(n: nat, start: nat, inc: nat, i: nat, j: nat)
    requires Prime(n) && 0 < inc < n && i < j < i + n
    ensures Probe(n, start, inc, i) != Probe(n, start, inc, j)
  {
    var a, b := start + i * inc, start + j * inc;
    StrideNeverReturns(n, inc, j - i);
    assert b - a == (j - i) * inc;
    if a % n == b % n {
      assert b - a == (b / n - a / n) * n by {
        assert a == (a / n) * n + a % n && b == (b / n) * n + b % n;
      }
      Remainder(b - a, n, b / n - a / n, 0);
    }
  }

  lemma ProbeComesBack(n: nat, start: nat, inc: nat)
    requires n > 0 && start < n
    ensures Probe(n, start, inc, 0) == Probe(n, start, inc, n) == start
  {
    Remainder(start, n, 0, start);
    Remainder(start + n * inc, n, inc, start);
  }

  function Upto(n: nat): (s: set<nat>)
    ensures forall x: nat :: x in s <==> x < n
  {
    if n == 0 then {} else Upto(n - 1) + {n - 1}
  }

  lemma {:induction false} UptoSize(n: nat)
    ensures |Upto(n)| == n
  {
    if n > 0 { UptoSize(n - 1); }
  }

  function ProbeSet(n: nat, start: nat, inc: nat, k: nat): set<nat>
    requires n > 0
  {
    if k == 0 then {} else ProbeSet(n, start, inc, k - 1) + {Probe(n, start, inc, k - 1)}
  }

  lemma {:induction false} ProbeSetSize(n: nat, start: nat, inc: nat, k: nat)
    requires Prime(n) && 0 < inc < n && k <= n
    ensures |ProbeSet(n, start, inc, k)| == k && ProbeSet(n, start, inc, k) <= Upto(n)
    ensures forall p | p in ProbeSet(n, start, inc, k) :: exists j: nat :: j < k && Probe(n, start, inc, j) == p
  {
    hide Probe, Prime, Upto;
    if k > 0 {
      ProbeSetSize(n, start, inc, k - 1);
      var latest := Probe(n, start, inc, k - 1);
      forall j: nat | j < k - 1 ensures Probe(n, start, inc, j) != latest {
        ProbesDiffer(n, start, inc, j, k - 1);
      }
    }
  }

  lemma SubsetFull(a: set<nat>, b: set<nat>)
    requires a <= b && |a| == |b|
    ensures a == b
  {
    if x :| x in b && x !in a {
      assert |b - {x}| < |a|;
      assert a <= b - {x};
      SubsetSize(a, b - {x});
    }
  }

  lemma {:induction false} SubsetSize(a: set<nat>, b: set<nat>)
    requires a <= b
    ensures |a| <= |b|
  {
    if x :| x in a { SubsetSize(a - {x}, b - {x}); }
  }

  /** `n` strides visit every slot. */
  lemma ProbesCover(n: nat, start: nat, inc: nat, p: nat) returns (j: nat)
    requires Prime(n) && 0 < inc < n && p < n
    ensures j < n && Probe(n, start, inc, j) == p
  {
    ProbeSetSize(n, start, inc, n);
    UptoSize(n);
    SubsetFull(ProbeSet(n, start, inc, n), Upto(n));
    assert p in Upto(n);
    j :| j < n && Probe(n, start, inc, j) == p;
  }

  // ---- hashing ----

  /** The value of a character other than NUL, which is negative from 128 on where `char` is signed. */
  type Char = x: int | -128 <= x < 256 && x != 0 witness 1

  /** A C string, without the NUL at its end. */
  type Name = seq<Char>

  const WORD := 0x1_0000_0000_0000_0000
  const LONG_BYTES := 8

  /** A character widened to an unsigned word. */
  function AsWord(c: Char): nat { if c < 0 then WORD + c else c }

  /** `acc` shifted by eight bits, or-ed with the widened character, which is all ones above
      its own bits when it is negative. */
  function ShiftedIn(acc: nat, c: Char): nat {
    if c < 0 then WORD + c else (acc * 256 + c) % WORD
  }

  function Accumulate(acc: nat, s: Name): nat
    decreases |s|
  {
    if s == [] then acc else Accumulate(ShiftedIn(acc, s[0]), s[1..])
  }

  function ChunkLength(s: Name): nat { if |s| < LONG_BYTES then |s| else LONG_BYTES }

  /** The sum of the words that the characters make, eight at a time. */
  function WordSum(sum: nat, s: Name): nat
    decreases |s|
  {
    if s == [] then sum
    else WordSum((sum + Accumulate(0, s[..ChunkLength(s)])) % WORD, s[ChunkLength(s)..])
  }

  datatype Stride = Stride(start: nat, inc: nat)

  /** The sizes the table may have: a prime, larger than twice any character, that does not
      take a word to the double of a negative character. */
  predicate Size(n: nat) { Prime(n) && n > 511 && WORD % n >= 256 }

  /** Where a name's probes start and how far apart they are. */
  function StrideOf(n: nat, s: Name): (r: Stride)
    requires Size(n) && |s| <= n
  {
    if s == [] then Stride(n - 1, 12)
    else
      var sum := (WordSum(AsWord(s[0]), s) * |s|) % WORD;
      DivPositive(n, |s|);
      Stride(sum % n, sum % (n / |s|) + 1)
  }

  lemma DivPositive(n: nat, d: nat)
    requires 0 < d <= n
    ensures n / d > 0 && (d >= 2 ==> n / d <= n / 2)
  {
    assert n == (n / d) * d + n % d;
    assert n % d < d;
    assert d >= 2 ==> (n / d) * d >= (n / d) * 2;
  }

  /** The stride is never a multiple of the size, not even for one-character names. */
  lemma StrideInRange(n: nat, s: Name)
    requires Size(n) && |s| <= n
    ensures StrideOf(n, s).start < n && 0 < StrideOf(n, s).inc < n
  {
    hide WordSum;
    if |s| >= 2 {
      DivPositive(n, |s|);
    } else if |s| == 1 {
      OneCharacter(s);
      if s[0] < 0 { NegativeStride(n, s[0]); }
    }
  }

  lemma OneCharacter(s: Name)
    requires |s| == 1
    ensures var c: int := s[0];
            WordSum(AsWord(c), s) == if c < 0 then WORD + 2 * c else 2 * c
  {
    var c := AsWord(s[0]);
    assert ChunkLength(s) == 1 && s[..1] == s && s[1..] == [];
    assert Accumulate(0, s) == Accumulate(ShiftedIn(0, s[0]), []) == c;
    assert WordSum(c, s) == WordSum((c + c) % WORD, []);
  }

  lemma NegativeStride(n: nat, c: int)
    requires n > 0 && WORD % n >= 256 && -128 <= c < 0
    ensures (WORD + 2 * c) % n < n - 1
  {
    var q, r := WORD / n, WORD % n;
    assert WORD == q * n + r;
    Remainder(WORD + 2 * c, n, q, r + 2 * c);
  }

  // ---- the table ----

  datatype Value = Longs(val1: int, val2: int) | Dbl(val: real)

  datatype Slot = Empty | Full(name: Name, kind: int, value: Value)

  /** The slot is passed over when `name` is looked for. */
  predicate Passed(slots: seq<Slot>, name: Name, k: nat)
    requires Size(|slots|) && |name| <= |slots|
  {
    var r := StrideOf(|slots|, name);
    var slot := slots[Probe(|slots|, r.start, r.inc, k)];
    slot.Full? && slot.name != name
  }

  /** Probe `j` for `name` is at slot `p`, and all probes before are passed over. */
  predicate Reaches(slots: seq<Slot>, name: Name, j: nat, p: nat)
    requires Size(|slots|) && |name| <= |slots|
  {
    var r := StrideOf(|slots|, name);
    j < |slots| && Probe(|slots|, r.start, r.inc, j) == p && forall k: nat | k < j :: Passed(slots, name, k)
  }

  ghost predicate SlotSound(slots: seq<Slot>, contents: map<Name, (int, Value)>, p: nat)
    requires Size(|slots|) && p < |slots|
  {
    slots[p].Full? ==>
      && |slots[p].name| <= |slots| && slots[p].name in contents
      && contents[slots[p].name] == (slots[p].kind, slots[p].value)
      && exists j: nat :: Reaches(slots, slots[p].name, j, p)
  }

  predicate Holds(slots: seq<Slot>, name: Name, p: nat)
    requires p < |slots|
  {
    slots[p].Full? && slots[p].name == name
  }

  /** The table represents the map `contents`, and every name can be found. */
  ghost predicate Sound(slots: seq<Slot>, contents: map<Name, (int, Value)>)
    requires Size(|slots|)
  {
    && (forall p: nat | p < |slots| :: SlotSound(slots, contents, p))
    && (forall name | name in contents :: |name| <= |slots| && exists p: nat :: p < |slots| && Holds(slots, name, p))
  }

  lemma EmptyIsSound(slots: seq<Slot>)
    requires Size(|slots|) && forall p | 0 <= p < |slots| :: slots[p].Empty?
    ensures Sound(slots, map[])
  {
  }

  /** A search that stops at slot `p` stops at the right one. */
  lemma SearchIsRight(slots: seq<Slot>, contents: map<Name, (int, Value)>, name: Name, j: nat, p: nat)
    requires Size(|slots|) && |name| <= |slots| && Sound(slots, contents) && p < |slots|
    requires Reaches(slots, name, j, p) && (slots[p].Empty? || slots[p].name == name)
    ensures name in contents <==> slots[p].Full?
  {
    if name in contents {
      var q: nat :| q < |slots| && Holds(slots, name, q);
      assert SlotSound(slots, contents, q);
      var i: nat :| Reaches(slots, name, i, q);
      assert i < j ==> Passed(slots, name, i);
      assert j < i ==> Passed(slots, name, j);
    }
    if slots[p].Full? { assert SlotSound(slots, contents, p); }
  }

  /** A search that comes back to its start has seen every slot. */
  lemma SearchIsExhaustive(slots: seq<Slot>, contents: map<Name, (int, Value)>, name: Name)
    requires Size(|slots|) && |name| <= |slots| && Sound(slots, contents)
    requires forall k: nat | k < |slots| :: Passed(slots, name, k)
    ensures name !in contents && forall p | 0 <= p < |slots| :: slots[p].Full?
  {
    StrideInRange(|slots|, name);
    var r := StrideOf(|slots|, name);
    forall p | 0 <= p < |slots| ensures slots[p].Full? && slots[p].name != name {
      var j := ProbesCover(|slots|, r.start, r.inc, p);
      assert Passed(slots, name, j);
    }
    assert !exists q: nat :: q < |slots| && Holds(slots, name, q);
  }

  /** Writing an entry where the search for its name stopped. */
  lemma InsertIsSound(slots: seq<Slot>, contents: map<Name, (int, Value)>, entry: Slot, j: nat, p: nat)
    requires Size(|slots|) && entry.Full? && |entry.name| <= |slots| && Sound(slots, contents) && p < |slots|
    requires Reaches(slots, entry.name, j, p) && (slots[p].Empty? || slots[p].name == entry.name)
    ensures Sound(slots[p := entry], contents[entry.name := (entry.kind, entry.value)])
  {
    var slots', contents' := slots[p := entry], contents[entry.name := (entry.kind, entry.value)];
    SearchIsRight(slots, contents, entry.name, j, p);
    forall q: nat | q < |slots| ensures SlotSound(slots', contents', q) {
      assert SlotSound(slots, contents, q);
      if q == p {
        ReachesStill(slots, slots', entry.name, j, p);
      } else if slots[q].Full? {
        if slots[q].name == entry.name {
          OneSlotOnly(slots, contents, entry.name, j, p, q);
        }
        var i: nat :| Reaches(slots, slots[q].name, i, q);
        ReachesStill(slots, slots', slots[q].name, i, q);
      }
    }
    forall name | name in contents' ensures |name| <= |slots'| && exists q: nat :: q < |slots'| && Holds(slots', name, q) {
      if name == entry.name {
        assert Holds(slots', name, p);
      } else {
        var q: nat :| q < |slots| && Holds(slots, name, q);
        assert Holds(slots', name, q);
      }
    }
  }

  lemma OneSlotOnly(slots: seq<Slot>, contents: map<Name, (int, Value)>, name: Name, j: nat, p: nat, q: nat)
    requires Size(|slots|) && |name| <= |slots| && Sound(slots, contents) && p < |slots| && q < |slots|
    requires Reaches(slots, name, j, p) && (slots[p].Empty? || slots[p].name == name) && Holds(slots, name, q)
    ensures p == q
  {
    assert SlotSound(slots, contents, q);
    var i: nat :| Reaches(slots, name, i, q);
    assert i < j ==> Passed(slots, name, i);
    assert j < i ==> Passed(slots, name, j);
  }

  lemma ReachesStill(slots: seq<Slot>, slots': seq<Slot>, name: Name, j: nat, q: nat)
    requires Size(|slots|) && |slots'| == |slots| && |name| <= |slots| && Reaches(slots, name, j, q)
    requires forall p | 0 <= p < |slots| :: slots[p].Full? && slots[p].name != name ==> slots'[p].Full? && slots'[p].name != name
    ensures Reaches(slots', name, j, q)
  {
    forall k: nat | k < j ensures Passed(slots', name, k) {
      assert Passed(slots, name, k);
    }
  }

  class Table {
    const size: nat
    const slots: array<Slot>
    ghost var contents: map<Name, (int, Value)>

    ghost predicate Valid()
      reads this, slots
    {
      Size(size) && slots.Length == size && Sound(slots[..], contents)
    }

    constructor (n: nat)
      requires Size(n)
      ensures Valid() && fresh(slots) && size == n && contents == map[]
    {
      size, slots, contents := n, new Slot[n](_ => Empty), map[];
      new;
      EmptyIsSound(slots[..]);
    }

    /** The first slot for `symbol`, and how far apart its probes are. */
    method Hash(symbol: Name) returns (start: nat, inc: nat)
      requires Size(size) && |symbol| <= size
      ensures Stride(start, inc) == StrideOf(size, symbol)
    {
      if symbol == [] { return size - 1, 12; }
      var sum: nat, s, slen: nat := AsWord(symbol[0]), symbol, 0;
      while s != []
        invariant slen + |s| == |symbol| && WordSum(sum, s) == WordSum(AsWord(symbol[0]), symbol)
        decreases |s|
      {
        var acc: nat, i: nat := 0, 0;
        ghost var chunk, was := s[..ChunkLength(s)], s;
        while i < LONG_BYTES && s != []
          invariant i <= ChunkLength(was) && s == was[i..]
          invariant Accumulate(acc, chunk[i..]) == Accumulate(0, chunk)
          decreases |s|
        {
          assert chunk[i..][0] == s[0] && chunk[i..][1..] == chunk[i + 1..];
          acc := ShiftedIn(acc, s[0]);
          s := s[1..];
          i := i + 1;
        }
        sum := (sum + acc) % WORD;
        slen := slen + i;
      }
      sum := (sum * slen) % WORD;
      DivPositive(size, slen);
      inc := sum % (size / slen) + 1;
      start := sum % size;
    }

    /** The slot of `symbol`, or the empty slot where it belongs; -1 when the table is full. */
    method LookupCSym(symbol: Name) returns (i: int, ghost j: nat)
      requires Valid() && |symbol| <= size
      ensures -1 <= i < size
      ensures i == -1 ==> symbol !in contents && forall p | 0 <= p < size :: slots[p].Full?
      ensures i >= 0 ==> Reaches(slots[..], symbol, j, i) && (slots[i].Empty? || slots[i].name == symbol)
      ensures i >= 0 ==> (symbol in contents <==> slots[i].Full?)
      ensures i >= 0 && slots[i].Full? ==> contents[symbol] == (slots[i].kind, slots[i].value)
    {
      var start, inc := Hash(symbol);
      StrideInRange(size, symbol);
      ProbeComesBack(size, start, inc);
      i, j := start, 0;
      while slots[i].Full? && slots[i].name != symbol
        invariant 0 <= i < size && j < size && i == Probe(size, start, inc, j)
        invariant forall k: nat | k < j :: Passed(slots[..], symbol, k)
        decreases size - j
      {
        assert Passed(slots[..], symbol, j);
        ProbeNext(size, start, inc, j);
        i := (i + inc) % size;
        j := j + 1;
        if i == start {
          if j < size { ProbesDiffer(size, start, inc, 0, j); }
          SearchIsExhaustive(slots[..], contents, symbol);
          return -1, j;
        }
      }
      SearchIsRight(slots[..], contents, symbol, j, i);
      if slots[i].Full? { assert SlotSound(slots[..], contents, i); }
    }

    /** Enters or replaces a symbol; 0 when there is no room for it. */
    method SymInsert(symbol: Name, kind: int, value: Value) returns (ok: bool)
      requires Valid() && |symbol| <= size
      modifies slots, this`contents
      ensures Valid()
      ensures ok ==> contents == old(contents)[symbol := (kind, value)]
      ensures !ok ==> contents == old(contents) && slots[..] == old(slots[..])
      ensures !ok <==> symbol !in old(contents) && forall p | 0 <= p < size :: old(slots[p]).Full?
    {
      var i; ghost var j;
      i, j := LookupCSym(symbol);
      if i < 0 { return false; }
      InsertIsSound(slots[..], contents, Full(symbol, kind, value), j, i);
      slots[i] := Full(symbol, kind, value);
      contents := contents[symbol := (kind, value)];
      return true;
    }
  }
}
