/** The comparison of terms, and the identity test beside it. */
module TermOrder {
  import opened Wam

  /** Names of tokens, the two functors with a meaning of their own, and the number that the
      four words of a double stand for. */
  datatype Table = Table(name: int -> string, dot: int, ddouble: int, value: seq<Term> -> real)

  predicate IsDouble(e: Table, t: Term) {
    t.Struct? && t.functor == e.ddouble && |t.args| == 4
  }

  predicate Compound(e: Table, t: Term) {
    t.List? || (t.Struct? && !IsDouble(e, t))
  }

  predicate Atomic(t: Term) { t.Sym? || t.Uia? }

  /** The arguments, with a list seen as a structure. */
  function Args(t: Term): (args: seq<Term>)
    ensures forall k | 0 <= k < |args| :: args[k] < t
  {
    match t
    case List(car, cdr) => [car, cdr]
    case Struct(_, args) => args
    case _ => []
  }

  function FunctorOf(e: Table, t: Term): int {
    if t.List? then e.dot else if t.Struct? then t.functor else 0
  }

  function TextOf(e: Table, t: Term): string {
    match t
    case Sym(tok) => e.name(tok)
    case Uia(text) => text
    case _ => ""
  }

  function Strcmp(s: string, t: string): int {
    if s == [] then if t == [] then 0 else -1
    else if t == [] then 1
    else if s[0] < t[0] then -1
    else if s[0] > t[0] then 1
    else Strcmp(s[1..], t[1..])
  }

  function CompareInts(x: int, y: int): int { if x < y then -1 else if x > y then 1 else 0 }

  function CompareReals(x: real, y: real): int { if x < y then -1 else if x > y then 1 else 0 }

  function Termcmp(e: Table, a: Term, b: Term): int
    decreases a, |Args(a)| + 1
  {
    if a.Var? then
      if b.Var? then CompareInts(a.v, b.v) else -1
    else if IsDouble(e, a) then
      if b.Var? then 1
      else if IsDouble(e, b) then CompareReals(e.value(a.args), e.value(b.args))
      else -1
    else if a.Int? then
      if b.Var? || IsDouble(e, b) then 1
      else if b.Int? then CompareInts(a.i, b.i)
      else -1
    else if Atomic(a) then
      if b.Var? || IsDouble(e, b) || b.Int? then 1
      else if Atomic(b) then Strcmp(TextOf(e, a), TextOf(e, b))
      else -1
    else if b.Var? || IsDouble(e, b) || b.Int? || Atomic(b) then 1
    else if |Args(a)| < |Args(b)| then -1
    else if |Args(b)| < |Args(a)| then 1
    else
      var r := Strcmp(e.name(FunctorOf(e, a)), e.name(FunctorOf(e, b)));
      if r != 0 then r else ArgsCmp(e, a, b, 0)
  }

  /** The first argument from `i` on that differs decides. */
  function ArgsCmp(e: Table, a: Term, b: Term, i: nat): int
    requires i <= |Args(a)| == |Args(b)|
    decreases a, |Args(a)| - i
  {
    if i == |Args(a)| then 0
    else
      var r := Termcmp(e, Args(a)[i], Args(b)[i]);
      if r != 0 then r else ArgsCmp(e, a, b, i + 1)
  }

  function WmIdentical(e: Table, a: Term, b: Term): bool
    decreases a, |Args(a)| + 1
  {
    match a
    case Var(v) => b.Var? && v == b.v
    case Int(i) => b.Int? && i == b.i
    case Sym(tok) => if b.Sym? then tok == b.tok else b.Uia? && e.name(tok) == b.name
    case Uia(text) => if b.Uia? then text == b.name else b.Sym? && text == e.name(b.tok)
    case List(car, cdr) => b.List? && WmIdentical(e, car, b.car) && WmIdentical(e, cdr, b.cdr)
    case Struct(f, args) => b.Struct? && f == b.functor && |args| == |b.args| && ArgsIdentical(e, a, b, 0)
  }

  function ArgsIdentical(e: Table, a: Term, b: Term, i: nat): bool
    requires i <= |Args(a)| == |Args(b)|
    decreases a, |Args(a)| - i
  {
    i == |Args(a)| || (WmIdentical(e, Args(a)[i], Args(b)[i]) && ArgsIdentical(e, a, b, i + 1))
  }

  // ---- the standard order, section 7.2 of ISO/IEC 13211-1 ----

  /** What a term is for the order: lists are structures, and atoms are their texts. */
  datatype Key =
    | KVar(v: int)
    | KFloat(r: real)
    | KInt(i: int)
    | KAtom(text: string)
    | KCompound(name: string, args: seq<Key>)

  function KeyOf(e: Table, t: Term): Key {
    match t
    case Var(v) => KVar(v)
    case Int(i) => KInt(i)
    case Sym(tok) => KAtom(e.name(tok))
    case Uia(text) => KAtom(text)
    case List(car, cdr) => KCompound(e.name(e.dot), [KeyOf(e, car), KeyOf(e, cdr)])
    case Struct(f, args) =>
      if IsDouble(e, t) then KFloat(e.value(args))
      else KCompound(e.name(f), seq(|args|, i requires 0 <= i < |args| => KeyOf(e, args[i])))
  }

  /** Variables, floats, integers, atoms, compound terms. */
  function Rank(k: Key): nat {
    match k
    case KVar(_) => 0
    case KFloat(_) => 1
    case KInt(_) => 2
    case KAtom(_) => 3
    case KCompound(_, _) => 4
  }

  /** The texts agree up to a character that comes earlier in `s`, or `s` ends first. */
  predicate TextPrecedes(s: string, t: string) {
    exists i :: 0 <= i <= |s| && TextPrecedesAt(s, t, i)
  }

  predicate TextPrecedesAt(s: string, t: string, i: nat)
    requires i <= |s|
  {
    i < |t| && s[..i] == t[..i] && (i == |s| || s[i] < t[i])
  }

  /** Compound terms go by arity, then name, then their arguments from the left. */
  predicate Precedes(x: Key, y: Key)
    decreases x, 1
  {
    if Rank(x) != Rank(y) then Rank(x) < Rank(y)
    else
      match x
      case KVar(v) => v < y.v
      case KFloat(r) => r < y.r
      case KInt(i) => i < y.i
      case KAtom(text) => TextPrecedes(text, y.text)
      case KCompound(name, args) =>
        if |args| != |y.args| then |args| < |y.args|
        else if name != y.name then TextPrecedes(name, y.name)
        else exists i :: 0 <= i < |args| && ArgPrecedes(x, y, i)
  }

  /** Argument `i` is the first that differs, and decides for `x`. */
  predicate ArgPrecedes(x: Key, y: Key, i: nat)
    requires x.KCompound? && y.KCompound? && i < |x.args| == |y.args|
    decreases x, 0
  {
    x.args[..i] == y.args[..i] && Precedes(x.args[i], y.args[i])
  }

  // ---- texts ----

  lemma {:induction false} StrcmpIsOrder(s: string, t: string)
    ensures Strcmp(s, t) == 0 <==> s == t
    ensures Strcmp(s, t) < 0 <==> TextPrecedes(s, t)
    ensures Strcmp(s, t) > 0 <==> TextPrecedes(t, s)
  {
    if s != [] && t != [] && s[0] == t[0] {
      StrcmpIsOrder(s[1..], t[1..]);
      assert s == [s[0]] + s[1..] && t == [t[0]] + t[1..];
      PrecedesCons(s, t);
      PrecedesCons(t, s);
    } else {
      assert s != [] ==> t != [] ==> s[0] != t[0];
      assert TextPrecedesAt(s, t, 0) || TextPrecedesAt(t, s, 0) || s == t == [];
      NotBothWays(s, t);
    }
  }

  lemma PrecedesCons(s: string, t: string)
    requires s != [] && t != [] && s[0] == t[0]
    ensures TextPrecedes(s, t) <==> TextPrecedes(s[1..], t[1..])
  {
    if i :| 0 <= i <= |s| && TextPrecedesAt(s, t, i) {
      assert i > 0;
      assert s[1..][..i - 1] == s[..i][1..] && t[1..][..i - 1] == t[..i][1..];
      assert TextPrecedesAt(s[1..], t[1..], i - 1);
    }
    if i :| 0 <= i <= |s[1..]| && TextPrecedesAt(s[1..], t[1..], i) {
      assert s[..i + 1] == [s[0]] + s[1..][..i] && t[..i + 1] == [t[0]] + t[1..][..i];
      assert TextPrecedesAt(s, t, i + 1);
    }
  }

  lemma PrecedesLater(s: string, t: string, i: nat)
    requires 0 < i <= |s| && TextPrecedesAt(s, t, i)
    ensures s != [] && t != [] && s[0] == t[0]
  {
    assert s[..i][0] == t[..i][0];
  }

  lemma NotBothWays(s: string, t: string)
    requires s == [] || t == [] || s[0] != t[0]
    ensures TextPrecedes(s, t) <==> TextPrecedesAt(s, t, 0)
    ensures TextPrecedes(t, s) <==> TextPrecedesAt(t, s, 0)
  {
    forall i | 0 <= i <= |s| && TextPrecedesAt(s, t, i) ensures i == 0 {
      if i > 0 { PrecedesLater(s, t, i); }
    }
    forall i | 0 <= i <= |t| && TextPrecedesAt(t, s, i) ensures i == 0 {
      if i > 0 { PrecedesLater(t, s, i); }
    }
  }

  lemma TextTransitive(s: string, t: string, u: string)
    requires TextPrecedes(s, t) && TextPrecedes(t, u)
    ensures TextPrecedes(s, u)
  {
    var i :| 0 <= i <= |s| && TextPrecedesAt(s, t, i);
    var j :| 0 <= j <= |t| && TextPrecedesAt(t, u, j);
    var k := if i < j then i else j;
    assert s[..k] == s[..i][..k] == t[..i][..k] == t[..k];
    assert t[..k] == t[..j][..k] == u[..j][..k] == u[..k];
    assert i < j ==> t[i] == t[..j][i] == u[..j][i] == u[i];
    assert j < i ==> s[j] == s[..i][j] == t[..i][j] == t[j];
    assert TextPrecedesAt(s, u, k);
  }

  // ---- keys ----

  function KeyCmp(x: Key, y: Key): int
    decreases x, 1, 0
  {
    if Rank(x) != Rank(y) then CompareInts(Rank(x), Rank(y))
    else
      match x
      case KVar(v) => CompareInts(v, y.v)
      case KFloat(r) => CompareReals(r, y.r)
      case KInt(i) => CompareInts(i, y.i)
      case KAtom(text) => Strcmp(text, y.text)
      case KCompound(name, args) =>
        if |args| != |y.args| then CompareInts(|args|, |y.args|)
        else if Strcmp(name, y.name) != 0 then Strcmp(name, y.name)
        else KeyArgsCmp(x, y, 0)
  }

  function KeyArgsCmp(x: Key, y: Key, i: nat): int
    requires x.KCompound? && y.KCompound? && i <= |x.args| == |y.args|
    decreases x, 0, |x.args| - i
  {
    if i == |x.args| then 0
    else
      var r := KeyCmp(x.args[i], y.args[i]);
      if r != 0 then r else KeyArgsCmp(x, y, i + 1)
  }

  lemma {:induction false} Irreflexive(x: Key)
    ensures !Precedes(x, x)
    decreases x
  {
    match x
    case KVar(_) =>
    case KFloat(_) =>
    case KInt(_) =>
    case KAtom(text) => StrcmpIsOrder(text, text);
    case KCompound(_, args) =>
      forall i | 0 <= i < |args| ensures !ArgPrecedes(x, x, i) { Irreflexive(args[i]); }
  }

  lemma SameKeys(x: Key, y: Key)
    requires x == y
    ensures !Precedes(x, y)
  {
    Irreflexive(x);
  }

  lemma CompoundPrecedes(x: Key, y: Key)
    requires x.KCompound? && y.KCompound? && x.name == y.name && |x.args| == |y.args|
    ensures (forall k | 0 <= k < |x.args| :: !ArgPrecedes(x, y, k)) ==> !Precedes(x, y)
    ensures forall k | 0 <= k < |x.args| && ArgPrecedes(x, y, k) :: Precedes(x, y)
  {
  }

  /** Only the first argument that differs can decide. */
  lemma FirstDifference(x: Key, y: Key, i: nat)
    requires x.KCompound? && y.KCompound? && i < |x.args| == |y.args|
    requires x.args[..i] == y.args[..i] && x.args[i] != y.args[i]
    requires x.name == y.name
    ensures Precedes(x, y) <==> Precedes(x.args[i], y.args[i])
  {
    CompoundPrecedes(x, y);
    forall k | 0 <= k < |x.args| && k != i ensures !ArgPrecedes(x, y, k) {
      if k < i {
        assert x.args[k] == x.args[..i][k] == y.args[..i][k] == y.args[k];
        Irreflexive(x.args[k]);
      } else {
        assert x.args[i] == x.args[..k][i] && y.args[i] == y.args[..k][i];
      }
    }
    assert Precedes(x.args[i], y.args[i]) ==> ArgPrecedes(x, y, i);
  }

  /** The comparison is the order: 0 for equal keys, otherwise the sign tells which precedes. */
  lemma {:induction false} KeyCmpIsOrder(x: Key, y: Key)
    ensures KeyCmp(x, y) == 0 <==> x == y
    ensures KeyCmp(x, y) < 0 <==> Precedes(x, y)
    ensures KeyCmp(x, y) > 0 <==> Precedes(y, x)
    decreases x, 1, 0
  {
    if Rank(x) == Rank(y) {
      match x
      case KVar(_) =>
      case KFloat(_) =>
      case KInt(_) =>
      case KAtom(text) => StrcmpIsOrder(text, y.text);
      case KCompound(name, args) =>
        StrcmpIsOrder(name, y.name);
        if |args| == |y.args| && name == y.name { KeyArgsCmpIsOrder(x, y, 0); }
    }
  }

  lemma {:induction false} KeyArgsCmpIsOrder(x: Key, y: Key, i: nat)
    requires x.KCompound? && y.KCompound? && x.name == y.name
    requires i <= |x.args| == |y.args| && x.args[..i] == y.args[..i]
    ensures KeyArgsCmp(x, y, i) == 0 <==> x == y
    ensures KeyArgsCmp(x, y, i) < 0 <==> Precedes(x, y)
    ensures KeyArgsCmp(x, y, i) > 0 <==> Precedes(y, x)
    decreases x, 0, |x.args| - i
  {
    if i == |x.args| {
      assert x.args[..i] == x.args && y.args[..i] == y.args;
      SameKeys(x, y);
      SameKeys(y, x);
    } else {
      KeyCmpIsOrder(x.args[i], y.args[i]);
      if x.args[i] == y.args[i] {
        assert x.args[..i + 1] == x.args[..i] + [x.args[i]] && y.args[..i + 1] == y.args[..i] + [y.args[i]];
        KeyArgsCmpIsOrder(x, y, i + 1);
      } else {
        FirstDifference(x, y, i);
        FirstDifference(y, x, i);
      }
    }
  }

  /** The order is transitive. */
  lemma {:induction false} PrecedesTransitive(x: Key, y: Key, z: Key)
    requires Precedes(x, y) && Precedes(y, z)
    ensures Precedes(x, z)
    decreases x
  {
    if Rank(x) == Rank(y) == Rank(z) {
      match x
      case KVar(_) =>
      case KFloat(_) =>
      case KInt(_) =>
      case KAtom(text) => TextTransitive(text, y.text, z.text);
      case KCompound(name, args) =>
        if |args| == |y.args| == |z.args| {
          if name == y.name == z.name {
            ArgsTransitive(x, y, z);
          } else if name != y.name && y.name != z.name {
            TextTransitive(name, y.name, z.name);
            StrcmpIsOrder(name, z.name);
          }
        }
    }
  }

  lemma {:induction false} ArgsTransitive(x: Key, y: Key, z: Key)
    requires x.KCompound? && y.KCompound? && z.KCompound? && |x.args| == |y.args| == |z.args| && x.name == y.name == z.name
    requires Precedes(x, y) && Precedes(y, z)
    ensures Precedes(x, z)
    decreases x, 0
  {
    var i :| 0 <= i < |x.args| && ArgPrecedes(x, y, i);
    var j :| 0 <= j < |y.args| && ArgPrecedes(y, z, j);
    var k := if i < j then i else j;
    assert x.args[..k] == x.args[..i][..k] == y.args[..i][..k] == y.args[..k];
    assert y.args[..k] == y.args[..j][..k] == z.args[..j][..k] == z.args[..k];
    if i < j {
      assert y.args[i] == y.args[..j][i] == z.args[..j][i] == z.args[i];
    } else if j < i {
      assert x.args[j] == x.args[..i][j] == y.args[..i][j] == y.args[j];
    } else {
      PrecedesTransitive(x.args[i], y.args[i], z.args[i]);
    }
    assert ArgPrecedes(x, z, k);
  }

  // ---- the comparison of terms ----

  function KeyArgs(e: Table, t: Term): (keys: seq<Key>)
    ensures |keys| == |Args(t)|
  {
    seq(|Args(t)|, i requires 0 <= i < |Args(t)| => KeyOf(e, Args(t)[i]))
  }

  lemma CompoundKey(e: Table, t: Term)
    requires Compound(e, t)
    ensures KeyOf(e, t) == KCompound(e.name(FunctorOf(e, t)), KeyArgs(e, t))
  {
  }

  lemma {:induction false} TermcmpIsKeyCmp(e: Table, a: Term, b: Term)
    ensures Termcmp(e, a, b) == KeyCmp(KeyOf(e, a), KeyOf(e, b))
    decreases a, |Args(a)| + 1
  {
    if Compound(e, a) { CompoundKey(e, a); }
    if Compound(e, b) { CompoundKey(e, b); }
    if Compound(e, a) && Compound(e, b) && |Args(a)| == |Args(b)| { ArgsCmpIsKeyCmp(e, a, b, 0); }
  }

  lemma {:induction false} ArgsCmpIsKeyCmp(e: Table, a: Term, b: Term, i: nat)
    requires Compound(e, a) && Compound(e, b) && i <= |Args(a)| == |Args(b)|
    ensures KeyOf(e, a).KCompound? && KeyOf(e, b).KCompound? && |KeyOf(e, a).args| == |Args(a)| == |KeyOf(e, b).args|
    ensures ArgsCmp(e, a, b, i) == KeyArgsCmp(KeyOf(e, a), KeyOf(e, b), i)
    decreases a, |Args(a)| - i
  {
    CompoundKey(e, a);
    CompoundKey(e, b);
    if i < |Args(a)| {
      TermcmpIsKeyCmp(e, Args(a)[i], Args(b)[i]);
      ArgsCmpIsKeyCmp(e, a, b, i + 1);
    }
  }

  /** The comparison of terms is the standard order. */
  lemma TermcmpIsStandardOrder(e: Table, a: Term, b: Term)
    ensures Termcmp(e, a, b) < 0 <==> Precedes(KeyOf(e, a), KeyOf(e, b))
    ensures Termcmp(e, a, b) == 0 <==> KeyOf(e, a) == KeyOf(e, b)
    ensures Termcmp(e, a, b) > 0 <==> Precedes(KeyOf(e, b), KeyOf(e, a))
  {
    TermcmpIsKeyCmp(e, a, b);
    KeyCmpIsOrder(KeyOf(e, a), KeyOf(e, b));
  }

  /** Variables come first, then doubles, integers, atoms and compound terms. */
  lemma ClassesInOrder(e: Table, a: Term, b: Term)
    ensures a.Var? && !b.Var? ==> Termcmp(e, a, b) < 0 && Termcmp(e, b, a) > 0
    ensures IsDouble(e, a) && !IsDouble(e, b) && !b.Var? ==> Termcmp(e, a, b) < 0 && Termcmp(e, b, a) > 0
    ensures a.Int? && (b.Sym? || b.Uia? || b.List?) ==> Termcmp(e, a, b) < 0 && Termcmp(e, b, a) > 0
    ensures a.Int? && b.Struct? && !(b.functor == e.ddouble && |b.args| == 4) ==>
              Termcmp(e, a, b) < 0 && Termcmp(e, b, a) > 0
    ensures (a.Sym? || a.Uia?) && b.List? ==> Termcmp(e, a, b) < 0 && Termcmp(e, b, a) > 0
    ensures (a.Sym? || a.Uia?) && b.Struct? && !(b.functor == e.ddouble && |b.args| == 4) ==>
              Termcmp(e, a, b) < 0 && Termcmp(e, b, a) > 0
  {
  }

  /** Two terms of one class that is not compound: by age, value or text. */
  lemma WithinClass(e: Table, a: Term, b: Term)
    ensures a.Var? && b.Var? ==> (Termcmp(e, a, b) < 0 <==> a.v < b.v)
    ensures a.Int? && b.Int? ==> (Termcmp(e, a, b) < 0 <==> a.i < b.i)
    ensures a.Struct? && b.Struct? && a.functor == b.functor == e.ddouble && |a.args| == |b.args| == 4 ==>
              (Termcmp(e, a, b) < 0 <==> e.value(a.args) < e.value(b.args))
    ensures a.Sym? && b.Sym? ==> (Termcmp(e, a, b) < 0 <==> TextPrecedes(e.name(a.tok), e.name(b.tok)))
    ensures a.Uia? && b.Uia? ==> (Termcmp(e, a, b) < 0 <==> TextPrecedes(a.name, b.name))
    ensures a.Sym? && b.Uia? ==> (Termcmp(e, a, b) < 0 <==> TextPrecedes(e.name(a.tok), b.name))
    ensures a.Uia? && b.Sym? ==> (Termcmp(e, a, b) < 0 <==> TextPrecedes(a.name, e.name(b.tok)))
  {
    StrcmpIsOrder(TextOf(e, a), TextOf(e, b));
  }

  /** Compound terms go by arity first, then by name; a list has two arguments and the name `.`. */
  lemma CompoundInOrder(e: Table, a: Term, b: Term)
    requires Compound(e, a) && Compound(e, b)
    ensures var m := if a.List? then 2 else |a.args|;
            var n := if b.List? then 2 else |b.args|;
            var s := e.name(if a.List? then e.dot else a.functor);
            var t := e.name(if b.List? then e.dot else b.functor);
            && (m < n ==> Termcmp(e, a, b) < 0)
            && (m == n && TextPrecedes(s, t) ==> Termcmp(e, a, b) < 0)
            && (Termcmp(e, a, b) < 0 ==> m < n || (m == n && (TextPrecedes(s, t) || s == t)))
  {
    StrcmpIsOrder(e.name(FunctorOf(e, a)), e.name(FunctorOf(e, b)));
  }

  /** Then the head of a list decides before the tail, ... */
  lemma ListsInOrder(e: Table, a: Term, b: Term)
    requires a.List? && b.List?
    ensures Termcmp(e, a, b) == if Termcmp(e, a.car, b.car) != 0 then Termcmp(e, a.car, b.car)
                                else Termcmp(e, a.cdr, b.cdr)
  {
    StrcmpIsOrder(e.name(e.dot), e.name(e.dot));
    assert Args(a)[0] == a.car && Args(a)[1] == a.cdr && Args(b)[0] == b.car && Args(b)[1] == b.cdr;
    ArgsFrom(e, a, b, 0);
    ArgsFrom(e, a, b, 1);
  }

  lemma ArgsFrom(e: Table, a: Term, b: Term, i: nat)
    requires i < |Args(a)| == |Args(b)|
    ensures ArgsCmp(e, a, b, i) == if Termcmp(e, Args(a)[i], Args(b)[i]) != 0 then Termcmp(e, Args(a)[i], Args(b)[i])
                                   else ArgsCmp(e, a, b, i + 1)
  {
  }

  /** ... and of the arguments of a structure the first that differs. */
  lemma StructsInOrder(e: Table, a: Term, b: Term, k: nat)
    requires a.Struct? && b.Struct? && Compound(e, a) && a.functor == b.functor && |a.args| == |b.args| && k < |a.args|
    requires forall i | 0 <= i < k :: Termcmp(e, a.args[i], b.args[i]) == 0
    requires Termcmp(e, a.args[k], b.args[k]) != 0
    ensures Termcmp(e, a, b) == Termcmp(e, a.args[k], b.args[k])
  {
    StrcmpIsOrder(e.name(a.functor), e.name(a.functor));
    FirstDecides(e, a, b, 0, k);
  }

  lemma {:induction false} FirstDecides(e: Table, a: Term, b: Term, i: nat, k: nat)
    requires a.Struct? && b.Struct? && |a.args| == |b.args| && i <= k < |a.args|
    requires forall j | i <= j < k :: Termcmp(e, a.args[j], b.args[j]) == 0
    requires Termcmp(e, a.args[k], b.args[k]) != 0
    ensures ArgsCmp(e, a, b, i) == Termcmp(e, a.args[k], b.args[k])
    decreases k - i
  {
    ArgsFrom(e, a, b, i);
    if i < k { FirstDecides(e, a, b, i + 1, k); }
  }

  /** A total preorder: reflexive, total, antisymmetric up to 0, and transitive. */
  lemma TermcmpIsTotalPreorder(e: Table, a: Term, b: Term, c: Term)
    ensures Termcmp(e, a, a) == 0
    ensures Termcmp(e, a, b) == 0 <==> Termcmp(e, b, a) == 0
    ensures Termcmp(e, a, b) < 0 <==> Termcmp(e, b, a) > 0
    ensures Termcmp(e, a, b) <= 0 && Termcmp(e, b, c) <= 0 ==>
              Termcmp(e, a, c) <= 0 && (Termcmp(e, a, c) == 0 <==> Termcmp(e, a, b) == 0 && Termcmp(e, b, c) == 0)
  {
    hide Termcmp, KeyOf, Precedes;
    var x, y, z := KeyOf(e, a), KeyOf(e, b), KeyOf(e, c);
    TermcmpIsStandardOrder(e, a, a);
    TermcmpIsStandardOrder(e, a, b);
    TermcmpIsStandardOrder(e, b, a);
    TermcmpIsStandardOrder(e, b, c);
    TermcmpIsStandardOrder(e, a, c);
    if Precedes(x, y) && Precedes(y, z) { PrecedesTransitive(x, y, z); }
  }

  // ---- identity ----

  /** Tokens are interned: different tokens have different names. */
  ghost predicate Interned(e: Table) {
    forall s, t :: e.name(s) == e.name(t) ==> s == t
  }

  predicate NoDoubles(e: Table, t: Term)
    decreases t, 1
  {
    !IsDouble(e, t) && ArgsNoDoubles(e, t, 0)
  }

  predicate ArgsNoDoubles(e: Table, t: Term, i: nat)
    requires i <= |Args(t)|
    decreases t, 0, |Args(t)| - i
  {
    i == |Args(t)| || (NoDoubles(e, Args(t)[i]) && ArgsNoDoubles(e, t, i + 1))
  }

  /** Lists stand where lists stand, as far as the terms have the same shape. */
  predicate SameForms(a: Term, b: Term)
    decreases a, |Args(a)| + 1
  {
    (a.List? <==> b.List?) && (|Args(a)| == |Args(b)| ==> ArgsSameForms(a, b, 0))
  }

  predicate ArgsSameForms(a: Term, b: Term, i: nat)
    requires i <= |Args(a)| == |Args(b)|
    decreases a, |Args(a)| - i
  {
    i == |Args(a)| || (SameForms(Args(a)[i], Args(b)[i]) && ArgsSameForms(a, b, i + 1))
  }

  /** The identity test agrees with the comparison exactly when both terms use the list form in
      the same places. */
  lemma {:induction false} IdenticalExactly(e: Table, a: Term, b: Term)
    requires Interned(e) && NoDoubles(e, a) && NoDoubles(e, b)
    ensures WmIdentical(e, a, b) <==> Termcmp(e, a, b) == 0 && SameForms(a, b)
    decreases a, |Args(a)| + 1
  {
    if Atomic(a) && Atomic(b) {
      StrcmpIsOrder(TextOf(e, a), TextOf(e, b));
    } else if Compound(e, a) && Compound(e, b) && |Args(a)| == |Args(b)| {
      StrcmpIsOrder(e.name(FunctorOf(e, a)), e.name(FunctorOf(e, b)));
      ArgsIdenticalExactly(e, a, b, 0);
      if a.List? && b.List? { ListArgs(e, a, b); }
    }
  }

  lemma {:induction false} ArgsIdenticalExactly(e: Table, a: Term, b: Term, i: nat)
    requires Interned(e) && i <= |Args(a)| == |Args(b)| && ArgsNoDoubles(e, a, i) && ArgsNoDoubles(e, b, i)
    ensures ArgsIdentical(e, a, b, i) <==> ArgsCmp(e, a, b, i) == 0 && ArgsSameForms(a, b, i)
    decreases a, |Args(a)| - i
  {
    if i < |Args(a)| {
      IdenticalExactly(e, Args(a)[i], Args(b)[i]);
      ArgsIdenticalExactly(e, a, b, i + 1);
    }
  }

  lemma ListArgs(e: Table, a: Term, b: Term)
    requires a.List? && b.List?
    ensures ArgsIdentical(e, a, b, 0) <==> WmIdentical(e, a.car, b.car) && WmIdentical(e, a.cdr, b.cdr)
  {
    assert ArgsIdentical(e, a, b, 2);
    assert ArgsIdentical(e, a, b, 1) <==> WmIdentical(e, a.cdr, b.cdr);
  }

  /** No doubles, and every cell with the list functor is in list form. */
  predicate Normal(e: Table, t: Term)
    decreases t, 1
  {
    && !IsDouble(e, t) && (t.Struct? ==> t.functor != e.dot || |t.args| != 2)
    && ArgsNormal(e, t, 0)
  }

  predicate ArgsNormal(e: Table, t: Term, i: nat)
    requires i <= |Args(t)|
    decreases t, 0, |Args(t)| - i
  {
    i == |Args(t)| || (Normal(e, Args(t)[i]) && ArgsNormal(e, t, i + 1))
  }

  /** Equal terms that have no other form of lists use the list form in the same places. */
  lemma {:induction false} NormalSameForms(e: Table, a: Term, b: Term)
    requires Interned(e) && Normal(e, a) && Normal(e, b)
    ensures NoDoubles(e, a) && NoDoubles(e, b)
    ensures Termcmp(e, a, b) == 0 ==> SameForms(a, b)
    decreases a, |Args(a)| + 1
  {
    NormalNoDoubles(e, a);
    NormalNoDoubles(e, b);
    if Termcmp(e, a, b) == 0 && Compound(e, a) {
      StrcmpIsOrder(e.name(FunctorOf(e, a)), e.name(FunctorOf(e, b)));
      ArgsNormalSameForms(e, a, b, 0);
    }
  }

  lemma {:induction false} ArgsNormalSameForms(e: Table, a: Term, b: Term, i: nat)
    requires Interned(e) && i <= |Args(a)| == |Args(b)| && ArgsNormal(e, a, i) && ArgsNormal(e, b, i)
    requires ArgsCmp(e, a, b, i) == 0
    ensures ArgsSameForms(a, b, i)
    decreases a, |Args(a)| - i
  {
    if i < |Args(a)| {
      NormalSameForms(e, Args(a)[i], Args(b)[i]);
      ArgsNormalSameForms(e, a, b, i + 1);
    }
  }

  lemma {:induction false} NormalNoDoubles(e: Table, t: Term)
    requires Normal(e, t)
    ensures NoDoubles(e, t)
    decreases t, 1
  {
    ArgsNormalNoDoubles(e, t, 0);
  }

  lemma {:induction false} ArgsNormalNoDoubles(e: Table, t: Term, i: nat)
    requires i <= |Args(t)| && ArgsNormal(e, t, i)
    ensures ArgsNoDoubles(e, t, i)
    decreases t, 0, |Args(t)| - i
  {
    if i < |Args(t)| {
      NormalNoDoubles(e, Args(t)[i]);
      ArgsNormalNoDoubles(e, t, i + 1);
    }
  }

  /** On terms whose lists are all in list form the two tests agree. */
  lemma IdenticalIsEqual(e: Table, a: Term, b: Term)
    requires Interned(e) && Normal(e, a) && Normal(e, b)
    ensures WmIdentical(e, a, b) <==> Termcmp(e, a, b) == 0
  {
    NormalSameForms(e, a, b);
    IdenticalExactly(e, a, b);
  }

  /** The same list in the two forms: equal for the comparison, never identical. */
  lemma TwoFormsOfAList(e: Table, car: Term, cdr: Term)
    ensures Termcmp(e, Struct(e.dot, [car, cdr]), List(car, cdr)) == 0
    ensures !SameForms(Struct(e.dot, [car, cdr]), List(car, cdr))
    ensures !WmIdentical(e, Struct(e.dot, [car, cdr]), List(car, cdr))
  {
    var s, l := Struct(e.dot, [car, cdr]), List(car, cdr);
    CompoundKey(e, s);
    CompoundKey(e, l);
    assert KeyArgs(e, s) == KeyArgs(e, l);
    TermcmpIsStandardOrder(e, s, l);
  }
}
