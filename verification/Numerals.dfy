/** The two readers of numbers: `string_to_number` for whole strings, `decimal` in the lexer.
    Values are exact. */
module Numerals {
  import opened Options

  const NUL: char := '\0'

  predicate IsDigit(c: char) {
    '0' <= c <= '9'
  }

  function DigitValue(c: char): nat
    requires IsDigit(c)
  {
    c as int - '0' as int
  }

  predicate AllDigits(s: string) {
    forall i | 0 <= i < |s| :: IsDigit(s[i])
  }

  /** The number that digits stand for. */
  function Num(ds: string): nat
    requires AllDigits(ds)
  {
    if ds == "" then 0 else 10 * Num(ds[..|ds| - 1]) + DigitValue(ds[|ds| - 1])
  }

  function Pow(b: real, n: nat): (r: real)
    requires b > 0.0
    ensures r > 0.0
  {
    if n == 0 then 1.0 else b * Pow(b, n - 1)
  }

  /** The exponent's letter, its sign if written, and its digits. */
  datatype Exponent = Exponent(letter: char, sign: string, digits: string)

  datatype Numeral = Numeral(digits: string, fraction: Option<string>, exponent: Option<Exponent>)

  predicate OkExponent(e: Exponent) {
    && (e.letter == 'e' || e.letter == 'E') && (e.sign == "" || e.sign == "+" || e.sign == "-")
    && e.digits != "" && AllDigits(e.digits)
  }

  predicate OkNumeral(n: Numeral) {
    && n.digits != "" && AllDigits(n.digits)
    && (n.fraction.Some? ==> AllDigits(n.fraction.value))
    && (n.exponent.Some? ==> OkExponent(n.exponent.value))
  }

  function FractionText(f: Option<string>): string {
    if f.Some? then "." + f.value else ""
  }

  function ExponentText(e: Option<Exponent>): string {
    if e.Some? then [e.value.letter] + e.value.sign + e.value.digits else ""
  }

  function Text(n: Numeral): string {
    n.digits + FractionText(n.fraction) + ExponentText(n.exponent)
  }

  function FractionValue(f: string): real
    requires AllDigits(f)
  {
    Num(f) as real / Pow(10.0, |f|)
  }

  function Scale(x: real, e: Option<Exponent>): real
    requires e.Some? ==> OkExponent(e.value)
  {
    if e.None? then x
    else if e.value.sign == "-" then x / Pow(10.0, Num(e.value.digits))
    else x * Pow(10.0, Num(e.value.digits))
  }

  function Mantissa(digits: string, f: Option<string>): real
    requires AllDigits(digits) && (f.Some? ==> AllDigits(f.value))
  {
    Num(digits) as real + if f.Some? then FractionValue(f.value) else 0.0
  }

  /** What the numeral means. */
  function Value(n: Numeral): real
    requires OkNumeral(n)
  {
    Scale(Mantissa(n.digits, n.fraction), n.exponent)
  }

  // ---- powers ----

  lemma {:induction false} PowSquare(b: real, q: real, n: nat)
    requires b > 0.0 && q > 0.0 && q == b * b
    ensures Pow(q, n) == Pow(b, 2 * n)
  {
    if n > 0 {
      PowSquare(b, q, n - 1);
      assert Pow(b, 2 * n) == b * (b * Pow(b, 2 * n - 2));
    }
  }

  lemma Positive(z: real)
    requires z > 0.0
    ensures z * z > 0.0
  {
  }

  /** Square and multiply: the loop computes a power of ten, and ends. */
  method PowerOfTen(exp0: nat) returns (m: real)
    ensures m == Pow(10.0, exp0)
  {
    var exp := exp0;
    m := 1.0;
    var z := 10.0;
    while exp != 0
      invariant z > 0.0 && m * Pow(z, exp) == Pow(10.0, exp0)
    {
      if exp % 2 == 1 {
        assert m * Pow(z, exp) == m * z * Pow(z, exp - 1);
        m := m * z;
        exp := exp - 1;
      } else {
        Positive(z);
        PowSquare(z, z * z, exp / 2);
        z := z * z;
        exp := exp / 2;
      }
    }
  }

  // ---- the scale-back of a fraction, and the fold from the right ----

  lemma PowStep(n: nat)
    ensures Pow(10.0, n + 1) == 10.0 * Pow(10.0, n)
  {
  }

  lemma Shifted(x: real, a: real, p: real, b: real, d: real, x': real, p': real, b': real)
    requires x == a * p + b && x' == 10.0 * x + d && p' == 10.0 * p && b' == 10.0 * b + d
    ensures x' == a * p' + b'
  {
    assert a * p' == 10.0 * (a * p);
  }

  lemma {:induction false} NumAppend(a: string, b: string)
    requires AllDigits(a) && AllDigits(b)
    ensures AllDigits(a + b) && Num(a + b) as real == Num(a) as real * Pow(10.0, |b|) + Num(b) as real
  {
    hide Pow, Num;
    if b == "" {
      assert a + b == a;
      NumOne();
    } else {
      var n := |b| - 1;
      NumAppend(a, b[..n]);
      NumSnoc(a + b[..n], b[n]);
      NumSnoc(b[..n], b[n]);
      assert a + b[..n] + [b[n]] == a + b && b[..n] + [b[n]] == b;
      PowStep(n);
      Shifted(Num(a + b[..n]) as real, Num(a) as real, Pow(10.0, n), Num(b[..n]) as real, DigitValue(b[n]) as real,
              Num(a + b) as real, Pow(10.0, n + 1), Num(b) as real);
    }
  }

  lemma NumOne()
    ensures Num("") == 0 && Pow(10.0, 0) == 1.0
  {
  }

  lemma NumSnoc(a: string, c: char)
    requires AllDigits(a) && IsDigit(c)
    ensures AllDigits(a + [c]) && Num(a + [c]) as real == 10.0 * (Num(a) as real) + DigitValue(c) as real
  {
    assert (a + [c])[..|a|] == a;
  }

  /** Reading on through the point and dividing once gives the same as adding the fraction. */
  lemma ScaledBack(a: string, f: string)
    requires AllDigits(a) && AllDigits(f)
    ensures AllDigits(a + f)
    ensures Num(a + f) as real / Pow(10.0, |f|) == Num(a) as real + FractionValue(f)
  {
    hide Pow, Num;
    NumAppend(a, f);
    Quotient(Num(a + f) as real, Num(a) as real, Num(f) as real, Pow(10.0, |f|));
  }

  lemma Unique(x: real, p: real, q: real)
    requires p > 0.0 && q * p == x
    ensures x / p == q
  {
  }

  lemma Quotient(x: real, a: real, b: real, p: real)
    requires p > 0.0 && x == a * p + b
    ensures x / p == a + b / p
  {
    var q := b / p;
    assert q * p == b;
    assert (a + q) * p == a * p + q * p;
    Unique(x, p, a + q);
  }

  lemma Tenth(x: real, p: real, p': real)
    requires p > 0.0 && p' == 10.0 * p
    ensures x / p' == x / p / 10.0
  {
    var y := x / p;
    assert y * p == x;
    var z := y / 10.0;
    assert z * p' == 10.0 * z * p;
    Unique(x, p', z);
  }

  /** The fold from the right: a digit and a tenth of what follows. */
  lemma FoldStep(f: string)
    requires AllDigits(f) && f != ""
    ensures AllDigits(f[1..]) && FractionValue(f) == (DigitValue(f[0]) as real + FractionValue(f[1..])) / 10.0
  {
    hide Pow, Num;
    var d, rest := [f[0]], f[1..];
    assert f == d + rest;
    NumOne();
    NumSnoc("", f[0]);
    assert "" + [f[0]] == d;
    NumAppend(d, rest);
    PowStep(|rest|);
    Quotient(Num(f) as real, DigitValue(f[0]) as real, Num(rest) as real, Pow(10.0, |rest|));
    Tenth(Num(f) as real, Pow(10.0, |rest|), Pow(10.0, |f|));
  }

  // ---- the exponent moves the point ----

  lemma {:induction false} PowSum(m: nat, n: nat)
    ensures Pow(10.0, m + n) == Pow(10.0, m) * Pow(10.0, n)
  {
    if m > 0 {
      PowSum(m - 1, n);
      PowStep(m - 1 + n);
      PowStep(m - 1);
    }
  }

  lemma MantissaIs(a: string, f: string)
    requires AllDigits(a) && AllDigits(f)
    ensures AllDigits(a + f) && Mantissa(a, Some(f)) == Num(a + f) as real / Pow(10.0, |f|)
  {
    ScaledBack(a, f);
  }

  /** Reading `f` behind the point or before it differs by a power of ten. */
  lemma PointShift(a: string, f: string, g: string)
    requires AllDigits(a) && AllDigits(f) && AllDigits(g)
    ensures AllDigits(a + f) && AllDigits(f + g)
    ensures Mantissa(a, Some(f + g)) * Pow(10.0, |f|) == Mantissa(a + f, Some(g))
    ensures Mantissa(a + f, Some(g)) / Pow(10.0, |f|) == Mantissa(a, Some(f + g))
  {
    hide Pow, Num, Mantissa;
    assert AllDigits(a + f) && AllDigits(f + g);
    MantissaIs(a, f + g);
    MantissaIs(a + f, g);
    assert a + (f + g) == a + f + g && |f + g| == |f| + |g|;
    PowSum(|f|, |g|);
    TwoQuotients(Num(a + f + g) as real, Pow(10.0, |f|), Pow(10.0, |g|));
  }

  lemma TwoQuotients(x: real, p: real, q: real)
    requires p > 0.0 && q > 0.0
    ensures p * q > 0.0 && x / (p * q) * p == x / q && x / q / p == x / (p * q)
  {
    var y := x / (p * q);
    assert y * (p * q) == x;
    assert y * (p * q) == (y * p) * q;
    Unique(x, q, y * p);
    Unique(x / q, p, y);
  }

  /** An exponent moves the point to the right by as many digits as it says, a negative one to
      the left; `1.5e1` is `15`, and `15e-1` is `1.5`. */
  lemma ExponentMovesPoint(a: string, f: string, g: string, letter: char, digits: string)
    requires a != "" && AllDigits(a) && AllDigits(f) && AllDigits(g)
    requires OkExponent(Exponent(letter, "", digits)) && Num(digits) == |f|
    ensures AllDigits(a + f) && AllDigits(f + g)
    ensures Value(Numeral(a, Some(f + g), Some(Exponent(letter, "", digits)))) == Value(Numeral(a + f, Some(g), None))
    ensures Value(Numeral(a, Some(f + g), Some(Exponent(letter, "+", digits)))) == Value(Numeral(a + f, Some(g), None))
    ensures Value(Numeral(a + f, Some(g), Some(Exponent(letter, "-", digits)))) == Value(Numeral(a, Some(f + g), None))
  {
    hide Pow, Num, Mantissa;
    PointShift(a, f, g);
  }

  /** With nothing left behind the point, that is an integer. */
  lemma ExponentMakesInteger(a: string, f: string, letter: char, digits: string)
    requires a != "" && AllDigits(a) && AllDigits(f)
    requires OkExponent(Exponent(letter, "", digits)) && Num(digits) == |f|
    ensures AllDigits(a + f)
    ensures Value(Numeral(a, Some(f), Some(Exponent(letter, "", digits)))) == Num(a + f) as real
    ensures Value(Numeral(a + f, None, Some(Exponent(letter, "-", digits)))) == Value(Numeral(a, Some(f), None))
  {
    hide Pow, Num;
    ExponentMovesPoint(a, f, "", letter, digits);
    assert f + "" == f;
    NumOne();
  }

  // ---- the text of a numeral ----

  /** The end of the run of digits that starts at `i`. */
  function DigitsEnd(s: string, i: nat): (j: nat)
    requires i <= |s|
    ensures i <= j <= |s| && (forall x | i <= x < j :: IsDigit(s[x])) && (j < |s| ==> !IsDigit(s[j]))
    decreases |s| - i
  {
    if i < |s| && IsDigit(s[i]) then DigitsEnd(s, i + 1) else i
  }

  lemma {:induction false} DigitsEndIs(s: string, i: nat, j: nat)
    requires i <= j <= |s| && (forall x | i <= x < j :: IsDigit(s[x])) && (j < |s| ==> !IsDigit(s[j]))
    ensures DigitsEnd(s, i) == j
    decreases j - i
  {
    if i < j { DigitsEndIs(s, i + 1, j); }
  }

  predicate IsE(c: char) {
    c == 'e' || c == 'E'
  }

  function SignText(neg: bool): string {
    if neg then "-" else ""
  }

  predicate CString(s: string) {
    0 < |s| && s[|s| - 1] == NUL && forall i | 0 <= i < |s| - 1 :: s[i] != NUL
  }

  /** In a C string a run of digits ends before the string does. */
  function RunEnd(s: string, i: nat): (j: nat)
    requires CString(s) && i < |s|
    ensures j == DigitsEnd(s, i) < |s|
  {
    DigitsEnd(s, i)
  }

  /** Where the digits of an exponent start. */
  function ExponentStart(s: string, k: nat): (r: nat)
    requires k < |s|
    ensures k <= r <= k + 1
  {
    if s[k] == '+' || s[k] == '-' then k + 1 else k
  }

  /** Where the fraction at `i` ends. */
  function FractionEnd(s: string, i: nat): (j: nat)
    requires CString(s) && i < |s|
    ensures i <= j < |s|
  {
    if s[i] == '.' then RunEnd(s, i + 1) else i
  }

  function FractionAt(s: string, i: nat): (f: Option<string>)
    requires CString(s) && i < |s|
    ensures f.Some? ==> AllDigits(f.value)
    ensures FractionText(f) == s[i..FractionEnd(s, i)]
  {
    if s[i] == '.' then
      var j := RunEnd(s, i + 1);
      assert s[i..j] == "." + s[i + 1..j];
      Some(s[i + 1..j])
    else None
  }

  /** The exponent at `i` if the rest of the string is one. */
  function ExponentAt(s: string, i: nat): (e: Option<Exponent>)
    requires CString(s) && i < |s|
    ensures e.Some? ==> OkExponent(e.value) && ExponentText(e) == s[i..|s| - 1]
  {
    if !IsE(s[i]) then None
    else
      var k := ExponentStart(s, i + 1);
      var j := RunEnd(s, k);
      if j == k || j != |s| - 1 then None
      else
        assert s[i..|s| - 1] == [s[i]] + s[i + 1..k] + s[k..j];
        Some(Exponent(s[i], s[i + 1..k], s[k..j]))
  }

  function Start(s: string): nat
    requires 0 < |s|
  {
    if s[0] == '-' then 1 else 0
  }

  /** The whole string as a number, if it is one. */
  function Scan(s: string): Option<Numeral>
    requires CString(s)
  {
    var i0 := Start(s);
    var i1 := RunEnd(s, i0);
    if i1 == i0 then None
    else
      var i2 := FractionEnd(s, i1);
      var e := ExponentAt(s, i2);
      if e.None? && i2 != |s| - 1 then None
      else Some(Numeral(s[i0..i1], FractionAt(s, i1), e))
  }

  lemma Pieces(s: string, i0: nat, i1: nat, i2: nat)
    requires CString(s) && i0 <= i1 <= i2 < |s|
    ensures s == s[..i0] + (s[i0..i1] + s[i1..i2] + s[i2..|s| - 1]) + [NUL]
  {
  }

  /** What is accepted is the text of a numeral. */
  lemma ScanIsText(s: string)
    requires CString(s) && Scan(s).Some?
    ensures OkNumeral(Scan(s).value) && s == SignText(s[0] == '-') + Text(Scan(s).value) + [NUL]
  {
    hide ExponentAt, FractionAt, FractionText, ExponentText, RunEnd, FractionEnd;
    var n := Scan(s).value;
    var i0 := Start(s);
    var i1 := RunEnd(s, i0);
    var i2 := FractionEnd(s, i1);
    Pieces(s, i0, i1, i2);
    NoExponent();
    assert s[..i0] == SignText(s[0] == '-');
    if n.exponent.None? { assert s[i2..|s| - 1] == ""; }
  }

  lemma NoExponent()
    ensures ExponentText(None) == ""
  {
  }

  /** Where the parts of a numeral lie in its text. */
  ghost predicate Layout(neg: bool, n: Numeral, s: string, i0: nat, i1: nat, i2: nat) {
    && i0 <= i1 <= i2 < |s| && s[..i0] == SignText(neg) && s[i0..i1] == n.digits
    && s[i1..i2] == FractionText(n.fraction) && s[i2..|s| - 1] == ExponentText(n.exponent)
  }

  lemma Slices(a: string, d: string, f: string, e: string, s: string)
    requires s == a + (d + f + e) + [NUL]
    ensures |s| == |a| + |d| + |f| + |e| + 1 && s[|s| - 1] == NUL
    ensures s[..|a|] == a && s[|a|..|a| + |d|] == d
    ensures s[|a| + |d|..|a| + |d| + |f|] == f && s[|a| + |d| + |f|..|s| - 1] == e
  {
    var t := a + d;
    assert s == t + (f + e + [NUL]);
    assert s[..|t|] == t;
    assert s == t + f + (e + [NUL]);
  }

  lemma TextLayout(neg: bool, n: Numeral, s: string) returns (i0: nat, i1: nat, i2: nat)
    requires s == SignText(neg) + Text(n) + [NUL]
    ensures Layout(neg, n, s, i0, i1, i2) && s[|s| - 1] == NUL
  {
    hide SignText, FractionText, ExponentText;
    i0 := |SignText(neg)|;
    i1 := i0 + |n.digits|;
    i2 := i1 + |FractionText(n.fraction)|;
    Slices(SignText(neg), n.digits, FractionText(n.fraction), ExponentText(n.exponent), s);
  }

  lemma DigitsScanned(neg: bool, n: Numeral, s: string, i0: nat, i1: nat, i2: nat)
    requires OkNumeral(n) && CString(s) && Layout(neg, n, s, i0, i1, i2)
    ensures Start(s) == i0 && RunEnd(s, i0) == i1 && i0 < i1 && (s[0] == '-') == neg
    ensures IsE(s[i2]) || s[i2] == NUL
  {
    assert s[i0] == s[i0..i1][0];
    assert forall x | i0 <= x < i1 :: s[x] == s[i0..i1][x - i0];
    if neg { assert s[0] == s[..i0][0]; }
    if i2 < |s| - 1 { assert s[i2] == s[i2..|s| - 1][0]; }
    if i1 < i2 { assert s[i1] == s[i1..i2][0]; }
    DigitsEndIs(s, i0, i1);
  }

  /** Every text of a numeral is accepted, as that numeral. */
  lemma TextIsScanned(neg: bool, n: Numeral, s: string)
    requires OkNumeral(n) && s == SignText(neg) + Text(n) + [NUL]
    ensures CString(s) && Scan(s) == Some(n) && (s[0] == '-') == neg
  {
    NoNul(neg, n, s);
    var i0, i1, i2 := TextLayout(neg, n, s);
    hide Text, SignText, FractionText, ExponentText;
    DigitsScanned(neg, n, s, i0, i1, i2);
    FractionScanned(n.fraction, s, i1, i2);
    ExponentScanned(n.exponent, s, i2);
  }

  lemma NoNul(neg: bool, n: Numeral, s: string)
    requires OkNumeral(n) && s == SignText(neg) + Text(n) + [NUL]
    ensures CString(s)
  {
    PartsNulFree(n);
    hide NulFree, FractionText, ExponentText, SignText, OkNumeral;
    NulFreeBoth(n.digits, FractionText(n.fraction));
    NulFreeBoth(n.digits + FractionText(n.fraction), ExponentText(n.exponent));
    SignNulFree(neg);
    NulFreeBoth(SignText(neg), Text(n));
    NulEnds(SignText(neg) + Text(n));
  }

  predicate NulFree(s: string) {
    forall i | 0 <= i < |s| :: s[i] != NUL
  }

  lemma NulFreeBoth(s: string, t: string)
    requires NulFree(s) && NulFree(t)
    ensures NulFree(s + t)
  {
  }

  lemma NulEnds(s: string)
    requires NulFree(s)
    ensures CString(s + [NUL])
  {
  }

  lemma SignNulFree(neg: bool)
    ensures NulFree(SignText(neg))
  {
  }

  lemma PartsNulFree(n: Numeral)
    requires OkNumeral(n)
    ensures NulFree(n.digits) && NulFree(FractionText(n.fraction)) && NulFree(ExponentText(n.exponent))
  {
  }

  lemma FractionScanned(f: Option<string>, s: string, i: nat, j: nat)
    requires CString(s) && i <= j < |s| && s[i..j] == FractionText(f) && (f.Some? ==> AllDigits(f.value))
    requires IsE(s[j]) || s[j] == NUL
    ensures FractionEnd(s, i) == j && FractionAt(s, i) == f
  {
    if f.Some? {
      assert s[i] == s[i..j][0];
      assert s[i + 1..j] == s[i..j][1..] == f.value;
      assert forall x | i + 1 <= x < j :: s[x] == f.value[x - i - 1];
      DigitsEndIs(s, i + 1, j);
    }
  }

  lemma ExponentSlices(s: string, i: nat, x: Exponent)
    requires i < |s| && s[i..|s| - 1] == [x.letter] + x.sign + x.digits && s != ""
    ensures var k := i + 1 + |x.sign|;
            k + |x.digits| == |s| - 1 && s[i] == x.letter && s[i + 1..k] == x.sign && s[k..|s| - 1] == x.digits
  {
    var t, k := s[i..|s| - 1], i + 1 + |x.sign|;
    assert |t| == |s| - 1 - i == 1 + |x.sign| + |x.digits|;
    assert t == [x.letter] + (x.sign + x.digits);
    assert s[i] == t[0];
    assert s[i + 1..k] == x.sign by {
      forall y | 0 <= y < |x.sign| ensures s[i + 1..k][y] == x.sign[y] { assert t[y + 1] == x.sign[y]; }
    }
    assert s[k..|s| - 1] == t[1 + |x.sign|..];
  }

  lemma ExponentScanned(e: Option<Exponent>, s: string, i: nat)
    requires CString(s) && i < |s| && s[i..|s| - 1] == ExponentText(e) && (e.Some? ==> OkExponent(e.value))
    ensures ExponentAt(s, i) == e && (e.None? ==> i == |s| - 1)
  {
    if e.Some? {
      var x := e.value;
      var k := i + 1 + |x.sign|;
      ExponentSlices(s, i, x);
      SignRead(s, i, k, x);
      assert forall y | k <= y < |s| - 1 :: s[y] == s[k..|s| - 1][y - k];
      DigitsEndIs(s, k, |s| - 1);
    }
  }

  lemma SignRead(s: string, i: nat, k: nat, x: Exponent)
    requires OkExponent(x) && i + 1 <= k < |s| - 1 && s[i + 1..k] == x.sign && s[k..|s| - 1] == x.digits
    ensures ExponentStart(s, i + 1) == k
  {
    assert s[k] == x.digits[0];
    if x.sign != "" { assert s[i + 1] == x.sign[0]; }
  }

  // ---- string_to_number ----

  /** Consumes digits and the character after them. */
  method ReadDigits(str: string, start: nat, v0: real, ghost before: string) returns (v: real, scaleback: real, c: char, p: nat)
    requires CString(str) && start < |str| && AllDigits(before) && v0 == Num(before) as real
    ensures p == RunEnd(str, start) + 1 && c == str[p - 1] && AllDigits(str[start..p - 1])
    ensures AllDigits(before + str[start..p - 1]) && v == Num(before + str[start..p - 1]) as real
    ensures scaleback == Pow(10.0, p - 1 - start)
  {
    hide Num, Pow;
    v, scaleback, p := v0, 1.0, start;
    ghost var ds := before;
    assert before + str[start..start] == before;
    NumOne();
    while true
      invariant start <= p < |str| && (forall x | start <= x < p :: IsDigit(str[x]))
      invariant ds == before + str[start..p] && AllDigits(ds) && v == Num(ds) as real
      invariant scaleback == Pow(10.0, p - start)
      decreases |str| - p
    {
      c := str[p];
      p := p + 1;
      if IsDigit(c) {
        NumSnoc(ds, c);
        PowStep(p - 1 - start);
        ds := ds + [c];
        v := v * 10.0 + DigitValue(c) as real;
        scaleback := scaleback * 10.0;
      } else {
        DigitsEndIs(str, start, p - 1);
        return;
      }
    }
  }

  /** The digits of an exponent as a whole number. */
  method ReadExponent(str: string, start: nat) returns (exp: nat, c: char, p: nat)
    requires CString(str) && start < |str| && IsDigit(str[start])
    ensures p == RunEnd(str, start) + 1 && c == str[p - 1] && AllDigits(str[start..p - 1]) && exp == Num(str[start..p - 1])
  {
    hide Num;
    exp, p := DigitValue(str[start]), start + 1;
    NumSnoc("", str[start]);
    NumOne();
    assert "" + [str[start]] == str[start..p];
    while true
      invariant start < p < |str| && (forall x | start <= x < p :: IsDigit(str[x]))
      invariant AllDigits(str[start..p]) && exp == Num(str[start..p])
      decreases |str| - p
    {
      c := str[p];
      p := p + 1;
      if IsDigit(c) {
        NumSnoc(str[start..p - 1], c);
        assert str[start..p - 1] + [c] == str[start..p];
        exp := 10 * exp + DigitValue(c);
      } else {
        DigitsEndIs(str, start, p - 1);
        return;
      }
    }
  }

  /** The part after the digits: a fraction, if there is a point. */
  method ReadFraction(str: string, p0: nat, v0: real, ghost digits: string) returns (v: real, c: char, p: nat)
    requires CString(str) && 0 < p0 <= |str| && AllDigits(digits) && v0 == Num(digits) as real
    ensures p - 1 == FractionEnd(str, p0 - 1) && c == str[p - 1] && v == Mantissa(digits, FractionAt(str, p0 - 1))
  {
    hide Num, Pow, FractionValue;
    v, c, p := v0, str[p0 - 1], p0;
    if c == '.' {
      var scaleback;
      v, scaleback, c, p := ReadDigits(str, p, v, digits);
      ScaledBack(digits, str[p0..p - 1]);
      v := v / scaleback;
    }
  }

  /** An exponent, if there is one; nothing may follow. */
  method ReadScale(str: string, p0: nat, v0: real) returns (ok: bool, v: real)
    requires CString(str) && 0 < p0 <= |str|
    ensures ok <==> ExponentAt(str, p0 - 1).Some? || p0 == |str|
    ensures ok ==> v == Scale(v0, ExponentAt(str, p0 - 1))
  {
    hide Num, Pow;
    var p, c := p0, str[p0 - 1];
    v := v0;
    if c == 'e' || c == 'E' {
      var neg := false;
      if str[p] == '-' {
        neg, p := true, p + 1;
      } else if str[p] == '+' {
        p := p + 1;
      }
      if !IsDigit(str[p]) { return false, v; }
      var exp;
      exp, c, p := ReadExponent(str, p);
      var m := PowerOfTen(exp);
      v := if neg then v / m else v * m;
    }
    ok := c == NUL;
  }

  /** Accepts exactly the texts of numerals, with a minus sign or without, and gives their value. */
  method StringToNumber(str: string) returns (ok: bool, d: real)
    requires CString(str)
    ensures ok <==> Scan(str).Some?
    ensures ok ==> OkNumeral(Scan(str).value) && d == if str[0] == '-' then -Value(Scan(str).value) else Value(Scan(str).value)
  {
    hide Num, Pow, FractionValue, ExponentAt, FractionAt, FractionEnd, Scale, DigitsEnd;
    var p, sign := 0, 1.0;
    if str[p] == '-' { p, sign := 1, -1.0; }
    if !IsDigit(str[p]) {
      NoRun(str, p);
      return false, 0.0;
    }
    ghost var i0 := p;
    NumOne();
    var v, scaleback, c;
    v, scaleback, c, p := ReadDigits(str, p, 0.0, "");
    ghost var digits := str[i0..p - 1];
    assert "" + digits == digits;
    v, c, p := ReadFraction(str, p, v, digits);
    ok, v := ReadScale(str, p, v);
    d := v * sign;
    ScanParts(str, i0);
  }

  lemma NoRun(s: string, i: nat)
    requires CString(s) && i < |s|
    ensures RunEnd(s, i) > i <==> IsDigit(s[i])
  {
  }

  /** The parts of a numeral that is scanned. */
  lemma ScanParts(s: string, i0: nat)
    requires CString(s) && i0 == Start(s) < |s| && IsDigit(s[i0])
    ensures Scan(s).Some? <==> ExponentAt(s, FractionEnd(s, RunEnd(s, i0))).Some? || FractionEnd(s, RunEnd(s, i0)) == |s| - 1
    ensures Scan(s).Some? ==> OkNumeral(Scan(s).value) && AllDigits(s[i0..RunEnd(s, i0)])
    ensures Scan(s).Some? ==> Value(Scan(s).value) == Scale(Mantissa(s[i0..RunEnd(s, i0)], FractionAt(s, RunEnd(s, i0))),
                                                            ExponentAt(s, FractionEnd(s, RunEnd(s, i0))))
  {
    hide FractionAt, FractionEnd, ExponentAt, Scale, Num, Pow;
    if Scan(s).Some? { ScanIsText(s); }
  }

  /** A string is accepted exactly when it is the text of a numeral, with a minus sign or without. */
  lemma AcceptsNumerals(s: string)
    requires CString(s)
    ensures Scan(s).Some? <==> exists neg, n :: IsTextOf(s, neg, n)
  {
    if Scan(s).Some? {
      ScanIsText(s);
      assert IsTextOf(s, s[0] == '-', Scan(s).value);
    }
    if neg, n :| IsTextOf(s, neg, n) { TextIsScanned(neg, n, s); }
  }

  predicate IsTextOf(s: string, neg: bool, n: Numeral) {
    OkNumeral(n) && s == SignText(neg) + Text(n) + [NUL]
  }

  // ---- decimal ----

  /** In the lexer a point belongs to a number only before a digit. */
  predicate PointAt(s: string, i: nat)
    requires CString(s) && i < |s|
  {
    s[i] == '.' && IsDigit(s[i + 1])
  }

  /** And an exponent must be complete. */
  predicate ExponentStarts(s: string, i: nat)
    requires CString(s) && i < |s|
  {
    IsE(s[i]) && (((s[i + 1] == '+' || s[i + 1] == '-') && IsDigit(s[i + 2])) || IsDigit(s[i + 1]))
  }

  function LexFractionEnd(s: string, i: nat): (j: nat)
    requires CString(s) && i < |s|
    ensures i <= j < |s|
  {
    if PointAt(s, i) then RunEnd(s, i + 1) else i
  }

  function LexFraction(s: string, i: nat): (f: Option<string>)
    requires CString(s) && i < |s|
    ensures f.Some? ==> AllDigits(f.value)
  {
    if PointAt(s, i) then Some(s[i + 1..RunEnd(s, i + 1)]) else None
  }

  function LexExponent(s: string, i: nat): (e: Option<Exponent>)
    requires CString(s) && i < |s|
    ensures e.Some? ==> OkExponent(e.value)
  {
    if ExponentStarts(s, i) then
      var k := ExponentStart(s, i + 1);
      Some(Exponent(s[i], s[i + 1..k], s[k..RunEnd(s, k)]))
    else None
  }

  function LexEnd(s: string, i: nat): (j: nat)
    requires CString(s) && i < |s|
    ensures i <= j < |s|
  {
    if ExponentStarts(s, i) then RunEnd(s, ExponentStart(s, i + 1)) else i
  }

  /** The longest numeral at `i`. */
  function LexNumeral(s: string, i: nat): (n: Numeral)
    requires CString(s) && i < |s| && IsDigit(s[i])
    ensures OkNumeral(n)
  {
    var i1 := RunEnd(s, i);
    Numeral(s[i..i1], LexFraction(s, i1), LexExponent(s, LexFractionEnd(s, i1)))
  }

  function LexNumeralEnd(s: string, i: nat): nat
    requires CString(s) && i < |s|
  {
    LexEnd(s, LexFractionEnd(s, RunEnd(s, i)))
  }

  /** The digits behind the point, folded from the right. */
  method FoldFraction(s: string, point: nat, end: nat) returns (frac: real)
    requires point + 1 < end <= |s| && s[point] == '.' && forall x | point < x < end :: IsDigit(s[x])
    ensures AllDigits(s[point + 1..end]) && frac / 10.0 == FractionValue(s[point + 1..end])
  {
    hide FractionValue;
    var q := end - 1;
    frac := DigitValue(s[q]) as real;
    NoFraction();
    FoldStep(s[q..end]);
    assert s[q..end][1..] == "";
    q := q - 1;
    while s[q] != '.'
      invariant point <= q < end - 1 && frac == 10.0 * FractionValue(s[q + 1..end])
      decreases q
    {
      FoldStep(s[q..end]);
      assert s[q..end][1..] == s[q + 1..end];
      frac := frac / 10.0 + DigitValue(s[q]) as real;
      q := q - 1;
    }
  }

  lemma NoFraction()
    ensures FractionValue("") == 0.0
  {
  }

  /** Reads the longest numeral at `start`.  Fails only where more of the text has to be read
      to tell whether a point or an exponent belongs to it. */
  method Decimal(s: string, start: nat, lim: nat) returns (success: bool, d: real, isDouble: bool, p: nat)
    requires CString(s) && start < |s| && IsDigit(s[start])
    ensures success ==> d == Value(LexNumeral(s, start)) && p == LexNumeralEnd(s, start)
    ensures success ==> isDouble == LexNumeral(s, start).fraction.Some?
    ensures var i1 := RunEnd(s, start); var i2 := LexFractionEnd(s, i1);
            !success <==> (s[i1] == '.' && i1 == i2 && i1 + 1 >= lim) || (IsE(s[i2]) && !ExponentStarts(s, i2) && i2 + 2 >= lim)
  {
    hide Num, Pow, FractionValue, DigitsEnd;
    success, isDouble := true, false;
    NumOne();
    var scaleback, c;
    d, scaleback, c, p := ReadDigits(s, start, 0.0, "");
    ghost var i1 := p - 1;
    p := p - 1;
    assert "" + s[start..i1] == s[start..i1];
    if s[p] == '.' {
      if IsDigit(s[p + 1]) {
        isDouble := true;
        ghost var q := p;
        var end := p + 1;
        while IsDigit(s[end])
          invariant p < end < |s| && forall x | p < x < end :: IsDigit(s[x])
          decreases |s| - end
        {
          end := end + 1;
        }
        DigitsEndIs(s, p + 1, end);
        var frac := FoldFraction(s, p, end);
        d := d + frac / 10.0;
        p := end;
      } else if p + 1 >= lim {
        success := false;
      }
    }
    assert p == LexFractionEnd(s, i1) && d == Mantissa(s[start..i1], LexFraction(s, i1));
    var fits;
    fits, d, p := LexScale(s, p, d, lim);
    success := success && fits;
  }

  /** The exponent of a number, if a complete one follows. */
  method LexScale(s: string, p0: nat, d0: real, lim: nat) returns (fits: bool, d: real, p: nat)
    requires CString(s) && p0 < |s|
    ensures d == Scale(d0, LexExponent(s, p0)) && p == LexEnd(s, p0)
    ensures !fits <==> IsE(s[p0]) && !ExponentStarts(s, p0) && p0 + 2 >= lim
  {
    hide Num, Pow, DigitsEnd;
    fits, d, p := true, d0, p0;
    if IsE(s[p]) {
      if ((s[p + 1] == '+' || s[p + 1] == '-') && IsDigit(s[p + 2])) || IsDigit(s[p + 1]) {
        var neg := false;
        p := p + 1;
        if s[p] == '-' {
          neg, p := true, p + 1;
        } else if s[p] == '+' {
          p := p + 1;
        }
        var expnt, c;
        expnt, c, p := ReadExponent(s, p);
        p := p - 1;
        var m := PowerOfTen(expnt);
        d := if neg then d / m else d * m;
      } else if p + 2 >= lim {
        fits := false;
      }
    }
  }

  /** Both readers take the same number from a numeral without sign, unless it ends in a bare
      point or has one before its exponent: then the lexer stops before the point. */
  lemma ReadersAgree(s: string)
    requires CString(s) && Scan(s).Some? && s[0] != '-'
    ensures IsDigit(s[0])
    ensures Scan(s).value.fraction != Some("") ==> LexNumeral(s, 0) == Scan(s).value && LexNumeralEnd(s, 0) == |s| - 1
    ensures Scan(s).value.fraction == Some("") ==> LexNumeralEnd(s, 0) < |s| - 1
  {
    var i1 := RunEnd(s, 0);
    var i2 := FractionEnd(s, i1);
    NoRun(s, 0);
    PointAgrees(s, i1);
    ExponentAgrees(s, i2);
  }

  lemma PointAgrees(s: string, i: nat)
    requires CString(s) && i < |s|
    ensures FractionAt(s, i) != Some("") ==> LexFraction(s, i) == FractionAt(s, i) && LexFractionEnd(s, i) == FractionEnd(s, i)
    ensures FractionAt(s, i) == Some("") ==> LexFractionEnd(s, i) == i < |s| - 1 && s[i] == '.'
  {
    if s[i] == '.' { NoRun(s, i + 1); }
  }

  lemma ExponentAgrees(s: string, i: nat)
    requires CString(s) && i < |s| && (ExponentAt(s, i).Some? || i == |s| - 1)
    ensures LexExponent(s, i) == ExponentAt(s, i) && LexEnd(s, i) == |s| - 1
  {
    if ExponentAt(s, i).Some? { NoRun(s, ExponentStart(s, i + 1)); }
  }

  // ---- integers ----

  /** An integer as it is printed. */
  function Print(n: nat): (ds: string)
    ensures ds != "" && AllDigits(ds)
  {
    var d := [('0' as int + n % 10) as char];
    if n < 10 then d else Print(n / 10) + d
  }

  lemma {:induction false} NumOfPrint(n: nat)
    ensures Num(Print(n)) == n
  {
    var d := ('0' as int + n % 10) as char;
    if n < 10 {
      NumSnoc("", d);
      assert "" + [d] == Print(n);
    } else {
      NumOfPrint(n / 10);
      NumSnoc(Print(n / 10), d);
    }
  }

  /** Reading an integer back gives the integer. */
  lemma IntegerRoundTrip(n: nat, neg: bool)
    ensures var s := SignText(neg) + Print(n) + [NUL]; CString(s) && Scan(s).Some? && Value(Scan(s).value) == n as real
  {
    var num := Numeral(Print(n), None, None);
    assert Text(num) == Print(n);
    TextIsScanned(neg, num, SignText(neg) + Print(n) + [NUL]);
    NumOfPrint(n);
  }
}
