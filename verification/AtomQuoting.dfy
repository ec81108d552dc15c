/** Atoms are written in quotes, and quoted atoms are read back.  Characters are bytes. */
module AtomQuoting {
  import opened LineReader

  const NUL := 0 as char
  const BEL := 7 as char
  const BS := 8 as char
  const TAB := 9 as char
  const VT := 11 as char
  const FF := 12 as char
  const QUOTE := '\''
  const BSLASH := '\\'

  // ---- the character table ----

  predicate EscChar(c: char) { BEL <= c <= CR || c == QUOTE || c == BSLASH }

  predicate WhiteSpace(c: char) { c <= ' ' || c == 127 as char }

  predicate Lowercase(c: char) { 'a' <= c <= 'z' || c >= 128 as char }

  predicate Decimal(c: char) { '0' <= c <= '9' }

  predicate Octal(c: char) { '0' <= c <= '7' }

  predicate AlphaNumeric(c: char) { Lowercase(c) || 'A' <= c <= 'Z' || c == '_' || Decimal(c) }

  predicate Graphic(c: char) { c in "#$&*+-./:<=>?@\\^`~" }

  predicate HexDigit(c: char) { Decimal(c) || 'a' <= c <= 'f' || 'A' <= c <= 'F' }

  predicate Bytes(s: string) { forall i | 0 <= i < |s| :: NUL < s[i] < 256 as char }

  // ---- writing ----

  function EscapeLetter(c: char): char {
    if c == BEL then 'a' else if c == BS then 'b' else if c == FF then 'f' else if c == LF then 'n'
    else if c == CR then 'r' else if c == TAB then 't' else if c == VT then 'v' else c
  }

  function OctalDigit(c: char, unit: nat): char
    requires unit > 0
  {
    '0' + ((c as int / unit) % 8) as char
  }

  predicate ByOctal(c: char) { !EscChar(c) && c != ' ' && WhiteSpace(c) }

  function Escaped(c: char): string {
    if EscChar(c) then [BSLASH, EscapeLetter(c)]
    else if ByOctal(c) then [BSLASH, OctalDigit(c, 64), OctalDigit(c, 8), OctalDigit(c, 1)]
    else [c]
  }

  function EscapedAll(atom: string): string {
    if atom == [] then [] else Escaped(atom[0]) + EscapedAll(atom[1..])
  }

  function Quoted(atom: string): string { [QUOTE] + EscapedAll(atom) + [QUOTE] }

  // ---- reading ----

  predicate AllOctal(t: string) { forall i | 0 <= i < |t| :: Octal(t[i]) }

  function OctalRun(t: string): (n: nat)
    ensures n <= |t| && AllOctal(t[..n]) && (n < |t| ==> !Octal(t[n]))
  {
    if t == [] || !Octal(t[0]) then 0 else 1 + OctalRun(t[1..])
  }

  /** The octal digits at the front. */
  function OctalPart(t: string): (digits: string)
    ensures AllOctal(digits) && |digits| == OctalRun(t)
  {
    t[..OctalRun(t)]
  }

  function OctalValue(t: string, start: nat): nat
    requires AllOctal(t)
  {
    if t == [] then start else assert Octal(t[0]); OctalValue(t[1..], start * 8 + (t[0] as int - '0' as int))
  }

  predicate AllHex(t: string) { forall i | 0 <= i < |t| :: HexDigit(t[i]) }

  function HexRun(t: string): (n: nat)
    ensures n <= |t| && AllHex(t[..n]) && (n < |t| ==> !HexDigit(t[n]))
  {
    if t == [] || !HexDigit(t[0]) then 0 else 1 + HexRun(t[1..])
  }

  function HexDigitValue(c: char): nat
    requires HexDigit(c)
  {
    if Decimal(c) then c as int - '0' as int
    else if c <= 'F' then c as int - 'A' as int + 10
    else c as int - 'a' as int + 10
  }

  function HexValue(t: string, start: nat): nat
    requires AllHex(t)
  {
    if t == [] then start else HexValue(t[1..], start * 16 + HexDigitValue(t[0]))
  }

  /** What one step of the scan finds at the front of the text. */
  datatype Item =
    | Close
    | Partial
    | Newline
    | Skip(n: nat)
    | Char(c: char, n: nat)

  function Byte(v: nat): char { (v % 256) as char }

  /** The character after a backslash, and how far its escape reaches. */
  function EscapeItem(t: string): (item: Item)
    requires |t| >= 2
    ensures item.Char? && 2 <= item.n <= |t|
  {
    var c := t[1];
    if c == 'a' then Char(BEL, 2)
    else if c == 'b' then Char(BS, 2)
    else if c == 'f' then Char(FF, 2)
    else if c == 'n' then Char(LF, 2)
    else if c == 'r' then Char(CR, 2)
    else if c == 't' then Char(TAB, 2)
    else if c == 'v' then Char(VT, 2)
    else if c == 'x' then
      var n := HexRun(t[2..]);
      assert t[2..2 + n] == t[2..][..n];
      Char(Byte(HexValue(t[2..2 + n], 0)), 2 + n)
    else if Octal(c) then
      Char(Byte(OctalValue(OctalPart(t[1..]), 0)), 1 + OctalRun(t[1..]))
    else Char(c, 2)
  }

  function NextItem(mode: Mode, eof: bool, t: string): (item: Item)
    requires t != []
    ensures item.Skip? || item.Char? ==> 0 < item.n <= |t|
  {
    if t[0] == BSLASH then
      if |t| == 1 then Partial
      else
        var nl := EolnLen(mode, t, 1, eof);
        if nl == -1 then Partial
        else if nl > 0 then Skip(1 + nl)
        else
          var item := EscapeItem(t);
          if item.n >= |t| then Partial else item
    else if t[0] == QUOTE then
      if |t| == 1 then Partial else if t[1] == QUOTE then Char(QUOTE, 2) else Close
    else
      var nl := EolnLen(mode, t, 0, eof);
      if nl == -1 then Partial else if nl > 0 then Newline else Char(t[0], 1)
  }

  datatype Scanned =
    | Closed(text: string, len: nat)
    | Long(text: string, len: nat)
    | Unterminated

  function More(c: string, n: nat, r: Scanned): Scanned {
    match r
    case Closed(text, len) => Closed(c + text, n + len)
    case Long(text, len) => Long(c + text, n + len)
    case Unterminated => Unterminated
  }

  /** The text of a quoted atom after the opening quote, up to the closing one or as far as it goes. */
  function Scan(mode: Mode, eof: bool, t: string): (r: Scanned)
    ensures !r.Unterminated? ==> r.len <= |t|
    decreases |t|
  {
    if t == [] then Long([], 0)
    else
      match NextItem(mode, eof, t)
      case Close => Closed([], 0)
      case Partial => Long([], 0)
      case Newline => Unterminated
      case Skip(n) => More([], n, Scan(mode, eof, t[n..]))
      case Char(c, n) => More([c], n, Scan(mode, eof, t[n..]))
  }

  // ---- the round trip ----

  /** How many octal digits the escape of the first character takes along. */
  function Taken(atom: string): (n: nat)
    requires atom != []
    ensures 1 + n <= |atom|
  {
    if ByOctal(atom[0]) then OctalRun(atom[1..]) else 0
  }

  /** The character they make together. */
  function TakenChar(atom: string): char
    requires atom != []
  {
    if ByOctal(atom[0]) then Byte(OctalValue(OctalPart(atom[1..]), atom[0] as int)) else atom[0]
  }

  /** What reading makes of an atom: an octal escape takes the octal digits after it along. */
  function ReadBack(atom: string): string
    decreases |atom|
  {
    if atom == [] then [] else [TakenChar(atom)] + ReadBack(atom[1 + Taken(atom)..])
  }

  /** No character that is written in octal stands before an octal digit. */
  predicate Clean(atom: string) {
    forall i | 0 <= i < |atom| - 1 :: ByOctal(atom[i]) ==> !Octal(atom[i + 1])
  }

  lemma {:induction false} ReadBackShort(atom: string)
    requires Bytes(atom)
    ensures |ReadBack(atom)| <= |atom|
    ensures if Clean(atom) then ReadBack(atom) == atom else |ReadBack(atom)| < |atom|
    decreases |atom|
  {
    if atom != [] {
      var n := Taken(atom);
      var rest := atom[1 + n..];
      assert Bytes(rest);
      ReadBackShort(rest);
      CleanTaken(atom);
      if n == 0 {
        CleanRest(atom);
        assert atom == [atom[0]] + rest;
      }
    }
  }

  lemma CleanTaken(atom: string)
    requires atom != [] && Bytes(atom)
    ensures Taken(atom) > 0 ==> !Clean(atom)
    ensures Taken(atom) == 0 ==> TakenChar(atom) == atom[0] && (ByOctal(atom[0]) && |atom| > 1 ==> !Octal(atom[1]))
  {
    if |atom| > 1 { assert atom[1..][0] == atom[1]; }
    if ByOctal(atom[0]) && Taken(atom) > 0 { assert Octal(atom[1..][..Taken(atom)][0]); }
    if Taken(atom) == 0 && ByOctal(atom[0]) { assert OctalPart(atom[1..]) == []; }
  }

  lemma CleanRest(atom: string)
    requires atom != [] && (ByOctal(atom[0]) && |atom| > 1 ==> !Octal(atom[1]))
    ensures Clean(atom) <==> Clean(atom[1..])
  {
    if Clean(atom[1..]) {
      forall i | 0 <= i < |atom| - 1 ensures ByOctal(atom[i]) ==> !Octal(atom[i + 1]) {
        if i > 0 { assert ByOctal(atom[1..][i - 1]) ==> !Octal(atom[1..][i - 1 + 1]); }
      }
    }
    if Clean(atom) {
      forall i | 0 <= i < |atom[1..]| - 1 ensures ByOctal(atom[1..][i]) ==> !Octal(atom[1..][i + 1]) {
        assert ByOctal(atom[i + 1]) ==> !Octal(atom[i + 1 + 1]);
      }
    }
  }

  lemma FirstEscaped(c: char)
    ensures Octal(c) ==> Escaped(c) == [c]
    ensures Escaped(c) != [] && (!Octal(c) ==> !Octal(Escaped(c)[0]))
  {
  }

  /** Octal digits are written as they are, and nothing else looks like one. */
  lemma {:induction false} OctalRunQuoted(atom: string, r: string)
    requires r != [] && !Octal(r[0])
    ensures var n := OctalRun(atom);
            var t := EscapedAll(atom) + r;
            && OctalRun(t) == n && t[..n] == atom[..n] && t[n..] == EscapedAll(atom[n..]) + r
    decreases |atom|
  {
    hide Escaped;
    var t := EscapedAll(atom) + r;
    if atom == [] {
      assert t == r;
    } else {
      FirstEscaped(atom[0]);
      var t1 := EscapedAll(atom[1..]) + r;
      assert t == Escaped(atom[0]) + t1;
      if Octal(atom[0]) {
        OctalRunQuoted(atom[1..], r);
        OneMoreOctal(atom, t, t1, OctalRun(atom[1..]));
      } else {
        assert t[0] == Escaped(atom[0])[0];
      }
    }
  }

  lemma OneMoreOctal(atom: string, t: string, t1: string, n: nat)
    requires atom != [] && Octal(atom[0]) && t == [atom[0]] + t1
    requires n == OctalRun(atom[1..]) == OctalRun(t1) && t1[..n] == atom[1..][..n]
    ensures OctalRun(atom) == OctalRun(t) == 1 + n && t[..1 + n] == atom[..1 + n]
    ensures t[1 + n..] == t1[n..] && atom[1 + n..] == atom[1..][n..]
  {
    assert t[1..] == t1;
    assert t[..1 + n] == [atom[0]] + t1[..n] && atom[..1 + n] == [atom[0]] + atom[1..][..n];
  }

  lemma OctalOnce(d: char, t: string, start: nat)
    requires Octal(d) && AllOctal(t)
    ensures AllOctal([d] + t) && OctalValue([d] + t, start) == OctalValue(t, start * 8 + (d as int - '0' as int))
  {
    assert ([d] + t)[1..] == t;
  }

  lemma ThreeDigits(c: char, run: string)
    requires c < 256 as char && AllOctal(run)
    ensures Octal(OctalDigit(c, 64)) && Octal(OctalDigit(c, 8)) && Octal(OctalDigit(c, 1))
    ensures var t := [OctalDigit(c, 64), OctalDigit(c, 8), OctalDigit(c, 1)] + run;
            AllOctal(t) && OctalValue(t, 0) == OctalValue(run, c as int)
  {
    hide OctalValue, AllOctal;
    var a, b, d := OctalDigit(c, 64), OctalDigit(c, 8), OctalDigit(c, 1);
    OctalOnce(d, run, (a as int - '0' as int) * 8 + (b as int - '0' as int));
    OctalOnce(b, [d] + run, a as int - '0' as int);
    OctalOnce(a, [b] + ([d] + run), 0);
    assert [a] + ([b] + ([d] + run)) == [a, b, d] + run;
  }

  /** One character, or one octal escape with the digits behind it, is read back. */
  lemma ItemQuoted(mode: Mode, eof: bool, atom: string, r: string)
    requires atom != [] && Bytes(atom) && r != [] && !Octal(r[0])
    ensures var len := |Escaped(atom[0])| + Taken(atom);
            var t := EscapedAll(atom) + r;
            && NextItem(mode, eof, t) == Char(TakenChar(atom), len) && len <= |t|
            && t[len..] == EscapedAll(atom[1 + Taken(atom)..]) + r
  {
    hide NextItem, Escaped, EscapedAll, Taken, TakenChar, ByOctal, Bytes, Octal;
    EscapedFirst(atom, r);
    if ByOctal(atom[0]) { ItemQuotedOctal(mode, eof, atom, r); } else { ItemQuotedPlain(mode, eof, atom, r); }
  }

  lemma EscapedFirst(atom: string, r: string)
    requires atom != []
    ensures EscapedAll(atom) + r == Escaped(atom[0]) + (EscapedAll(atom[1..]) + r)
  {
    hide Escaped;
    var a, b := Escaped(atom[0]), EscapedAll(atom[1..]);
    assert EscapedAll(atom) == a + b;
    Associates(a, b, r);
  }

  lemma Associates(a: string, b: string, r: string)
    ensures a + b + r == a + (b + r)
  {
  }

  /** The escape of the first character, before what else was written. */
  lemma ItemQuotedPlain(mode: Mode, eof: bool, atom: string, r: string)
    requires atom != [] && Bytes(atom) && r != [] && !ByOctal(atom[0])
    ensures var len, t := |Escaped(atom[0])| + Taken(atom), Escaped(atom[0]) + (EscapedAll(atom[1..]) + r);
            && NextItem(mode, eof, t) == Char(TakenChar(atom), len) && len <= |t|
            && t[len..] == EscapedAll(atom[1 + Taken(atom)..]) + r
  {
    hide NextItem, Escaped, EscapedAll, EscChar, WhiteSpace;
    var rest := EscapedAll(atom[1..]) + r;
    ItemPlain(mode, eof, atom[0], rest);
  }

  lemma ItemQuotedOctal(mode: Mode, eof: bool, atom: string, r: string)
    requires atom != [] && Bytes(atom) && r != [] && !Octal(r[0]) && ByOctal(atom[0])
    ensures var len, t := |Escaped(atom[0])| + Taken(atom), Escaped(atom[0]) + (EscapedAll(atom[1..]) + r);
            && NextItem(mode, eof, t) == Char(TakenChar(atom), len) && len <= |t|
            && t[len..] == EscapedAll(atom[1 + Taken(atom)..]) + r
  {
    hide NextItem, Escaped, OctalRun, OctalValue, AllOctal, EscapedAll;
    var tail := atom[1..];
    OctalRunQuoted(tail, r);
    var n, rest := OctalRun(tail), EscapedAll(tail) + r;
    assert tail[n..] == atom[1 + n..];
    assert OctalPart(rest) == OctalPart(tail);
    ItemOctal(mode, eof, atom[0], OctalPart(tail), rest);
  }

  lemma ItemPlain(mode: Mode, eof: bool, c: char, rest: string)
    requires !ByOctal(c) && NUL < c && rest != []
    ensures NextItem(mode, eof, Escaped(c) + rest) == Char(c, |Escaped(c)|)
    ensures (Escaped(c) + rest)[|Escaped(c)|..] == rest
  {
    var t := Escaped(c) + rest;
    if EscChar(c) {
      var l := EscapeLetter(c);
      assert t[0] == BSLASH && t[1] == l && l != CR && l != LF && l != 'x' && !Octal(l);
      assert EolnLen(mode, t, 1, eof) == 0;
      assert EscapeItem(t) == Char(c, 2);
    } else {
      assert t[0] == c && c != CR && c != LF;
      assert EolnLen(mode, t, 0, eof) == 0;
    }
  }

  lemma ItemOctal(mode: Mode, eof: bool, c: char, run: string, rest: string)
    requires ByOctal(c) && c < 256 as char && OctalPart(rest) == run && |run| < |rest| && AllOctal(run)
    ensures |Escaped(c)| == 4
    ensures NextItem(mode, eof, Escaped(c) + rest) == Char(Byte(OctalValue(run, c as int)), 4 + |run|)
    ensures (Escaped(c) + rest)[4 + |run|..] == rest[|run|..]
  {
    hide OctalDigit, OctalRun, OctalValue, AllOctal;
    var digits := [OctalDigit(c, 64), OctalDigit(c, 8), OctalDigit(c, 1)];
    var t := Escaped(c) + rest;
    ThreeDigits(c, run);
    OctalRunAfter(digits, rest);
    assert t == [BSLASH] + digits + rest;
    EscapeOctal(t, digits, run, rest);
    assert t[0] == BSLASH && t[1] == digits[0];
    assert EolnLen(mode, t, 1, eof) == 0;
    assert t[4 + |run|..] == rest[|run|..];
  }

  lemma EscapeOctal(t: string, digits: string, run: string, rest: string)
    requires |digits| == 3 && t == [BSLASH] + digits + rest && OctalPart(rest) == run
    requires Octal(digits[0]) && OctalRun(digits + rest) == 3 + |run| && AllOctal(digits + run)
    ensures EscapeItem(t) == Char(Byte(OctalValue(digits + run, 0)), 4 + |run|)
  {
    hide OctalRun, OctalValue, AllOctal;
    assert t[1] == digits[0];
    assert t[1..] == digits + rest;
    assert OctalPart(t[1..]) == digits + run;
  }

  lemma OctalRunAfter(digits: string, rest: string)
    requires |digits| == 3 && Octal(digits[0]) && Octal(digits[1]) && Octal(digits[2])
    ensures OctalRun(digits + rest) == 3 + OctalRun(rest)
  {
    var t := digits + rest;
    assert t[1..][1..][1..] == rest;
    assert t[1..][0] == digits[1] && t[1..][1..][0] == digits[2];
  }

  lemma ScanChar(mode: Mode, eof: bool, t: string, c: char, n: nat)
    requires t != [] && NextItem(mode, eof, t) == Char(c, n)
    ensures n <= |t| && Scan(mode, eof, t) == More([c], n, Scan(mode, eof, t[n..]))
  {
  }

  lemma ScanClose(mode: Mode, eof: bool, t: string)
    requires t != [] && NextItem(mode, eof, t) == Close
    ensures Scan(mode, eof, t) == Closed([], 0)
  {
  }

  /** What was written is read back, whatever comes behind it that is no octal digit. */
  lemma {:induction false} ScanWritten(mode: Mode, eof: bool, atom: string, r: string)
    requires Bytes(atom) && r != [] && !Octal(r[0])
    ensures Scan(mode, eof, EscapedAll(atom) + r) == More(ReadBack(atom), |EscapedAll(atom)|, Scan(mode, eof, r))
    decreases |atom|
  {
    hide NextItem, Escaped, EscapedAll, Taken, TakenChar, Scan;
    var t := EscapedAll(atom) + r;
    if atom == [] {
      NothingWritten(t, r, Scan(mode, eof, r));
    } else {
      ItemQuoted(mode, eof, atom, r);
      var len := |Escaped(atom[0])| + Taken(atom);
      var rest := atom[1 + Taken(atom)..];
      assert Bytes(rest) && |t| == |EscapedAll(atom)| + |r|;
      ScanWritten(mode, eof, rest, r);
      ScanChar(mode, eof, t, TakenChar(atom), len);
      assert |t[len..]| == |EscapedAll(rest)| + |r|;
      MoreAgain([TakenChar(atom)], ReadBack(rest), len, |EscapedAll(rest)|, Scan(mode, eof, r));
    }
  }

  lemma NothingWritten(t: string, r: string, scanned: Scanned)
    requires t == EscapedAll([]) + r
    ensures t == r && More(ReadBack([]), |EscapedAll([])|, scanned) == scanned
  {
    if !scanned.Unterminated? { assert [] + scanned.text == scanned.text; }
  }

  lemma MoreAgain(a: string, b: string, n: nat, k: nat, r: Scanned)
    ensures More(a, n, More(b, k, r)) == More(a + b, n + k, r)
  {
    if !r.Unterminated? { assert a + (b + r.text) == a + b + r.text; }
  }

  /** Reading what was written gives the atom as read back, and stops at the closing quote. */
  lemma ScanQuoted(mode: Mode, eof: bool, atom: string, r: string)
    requires Bytes(atom) && |r| > 1 && r[0] == QUOTE && r[1] != QUOTE
    ensures Scan(mode, eof, EscapedAll(atom) + r) == Closed(ReadBack(atom), |EscapedAll(atom)|)
  {
    hide EscapedAll, Scan;
    ScanWritten(mode, eof, atom, r);
    ScanClose(mode, eof, r);
    assert ReadBack(atom) + [] == ReadBack(atom);
  }

  /** The round trip: an atom written in quotes and read back, before any other character, is the
      same atom exactly when no octal escape runs into an octal digit. */
  lemma QuotedRoundTrip(mode: Mode, eof: bool, atom: string, rest: string)
    requires Bytes(atom) && rest != [] && rest[0] != QUOTE
    ensures (Quoted(atom) + rest)[0] == QUOTE
    ensures var r := Scan(mode, eof, (Quoted(atom) + rest)[1..]);
            && r.Closed? && 1 + r.len + 1 == |Quoted(atom)|
            && (r.text == atom <==> Clean(atom))
  {
    hide EscapedAll, Scan;
    assert (Quoted(atom) + rest)[1..] == EscapedAll(atom) + ([QUOTE] + rest);
    ScanQuoted(mode, eof, atom, [QUOTE] + rest);
    ReadBackShort(atom);
  }

  /** Character 1 before the digit 1 is written '\0011', and what is read back is a tab. */
  lemma EscapeRunsOn(mode: Mode, eof: bool)
    ensures var atom := [1 as char, '1'];
            && Bytes(atom) && !Clean(atom) && Quoted(atom) == "'\\0011'"
            && Scan(mode, eof, (Quoted(atom) + " ")[1..]) == Closed([TAB], 5)
  {
    hide Scan;
    var atom, r := [1 as char, '1'], [QUOTE, ' '];
    OneEscaped();
    OneReadBack();
    ScanQuoted(mode, eof, atom, r);
    assert (Quoted(atom) + " ")[1..] == EscapedAll(atom) + r;
  }

  lemma OneEscaped()
    ensures var atom := [1 as char, '1'];
            Bytes(atom) && !Clean(atom) && EscapedAll(atom) == ['\\', '0', '0', '1', '1']
  {
    var atom := [1 as char, '1'];
    assert ByOctal(atom[0]) && Octal(atom[0 + 1]);
    assert atom[1..] == ['1'] && atom[1..][1..] == [];
    assert EscapedAll(['1']) == ['1'] + EscapedAll([]) == ['1'];
  }

  lemma OneReadBack()
    ensures ReadBack([1 as char, '1']) == [TAB]
  {
    var atom := [1 as char, '1'];
    assert atom[1..] == ['1'] && atom[2..] == [];
    assert OctalRun(['1']) == 1 && OctalPart(['1']) == ['1'];
    assert OctalValue(['1'], 1) == OctalValue([], 9) == 9;
    assert ReadBack(atom) == [TAB] + ReadBack([]);
  }

  // ---- the writer ----

  /** The class of characters that an atom starting like this may consist of without quotes. */
  datatype Mask = NoMask | AlnumMask | GraphicMask

  function MaskOf(atom: string): Mask {
    if atom == [] then NoMask
    else if Lowercase(atom[0]) then AlnumMask
    else if Graphic(atom[0]) then GraphicMask
    else NoMask
  }

  predicate InMask(mask: Mask, c: char) {
    (mask.AlnumMask? && AlphaNumeric(c)) || (mask.GraphicMask? && Graphic(c))
  }

  /** May the atom be written as it is? */
  predicate Plain(atom: string) {
    atom == "!" || atom == "[]" ||
    (atom != [] && forall i | 0 <= i < |atom| :: PlainAt(MaskOf(atom), atom, i))
  }

  predicate PlainAt(mask: Mask, atom: string, i: nat)
    requires i < |atom|
  {
    && InMask(mask, atom[i]) && atom[i] != '.'
    && !(atom[i] == '/' && i + 1 < |atom| && atom[i + 1] == '*')
  }

  predicate AllAlphaNumeric(atom: string) {
    forall i | 0 <= i < |atom| :: AlphaNumeric(atom[i])
  }

  predicate AllGraphic(atom: string) {
    forall i | 0 <= i < |atom| :: Graphic(atom[i])
  }

  /** It may exactly if it is a word that starts with a small letter, or consists of graphic
      characters without a point and without the start of a comment, or is one of two others. */
  lemma PlainExactly(atom: string)
    ensures Plain(atom) <==>
              || atom == "!" || atom == "[]"
              || (atom != "" && Lowercase(atom[0]) && AllAlphaNumeric(atom))
              || (atom != "" && AllGraphic(atom) && '.' !in atom
                  && forall i | 0 <= i < |atom| - 1 :: !(atom[i] == '/' && atom[i + 1] == '*'))
  {
    if atom != "" {
      LettersApart(atom[0]);
      forall i: nat | i < |atom| ensures AlphaNumeric(atom[i]) ==> atom[i] != '.' && atom[i] != '/' { }
      if Plain(atom) && atom != "!" && atom != "[]" {
        assert PlainAt(MaskOf(atom), atom, 0);
        forall i | 0 <= i < |atom| ensures InMask(MaskOf(atom), atom[i]) && atom[i] != '.' {
          assert PlainAt(MaskOf(atom), atom, i);
        }
        forall i | 0 <= i < |atom| - 1 ensures !(atom[i] == '/' && atom[i + 1] == '*') {
          assert PlainAt(MaskOf(atom), atom, i);
        }
      }
    }
  }

  lemma LettersApart(c: char)
    ensures !(Lowercase(c) && Graphic(c))
  {
  }

  lemma MaskedLength(mask: Mask, c: char)
    requires InMask(mask, c)
    ensures |Escaped(c)| == if c == BSLASH then 2 else 1
  {
  }

  lemma {:induction false} EscapedSnoc(s: string, c: char)
    ensures EscapedAll(s + [c]) == EscapedAll(s) + Escaped(c)
  {
    if s == [] {
      assert (s + [c])[1..] == [];
    } else {
      assert (s + [c])[0] == s[0] && (s + [c])[1..] == s[1..] + [c];
      EscapedSnoc(s[1..], c);
    }
  }

  /** The atom as it is, or in quotes; `count` is the number of characters of the result. */
  method SioQatom(atom: string) returns (out: string, count: int)
    requires Bytes(atom)
    ensures out == if Plain(atom) then atom else Quoted(atom)
    ensures count == |out|
  {
    hide EscapedAll;
    var mask := MaskOf(atom);
    var a, bscnt;
    a, count, bscnt := PlainPart(atom, mask);
    if atom == "!" { return atom, 1; }
    if atom == "[]" { return atom, 2; }
    if atom != "." && !mask.NoMask? && !(a < |atom| || a == 0) {
      return atom, count;
    }
    assert a < |atom| ==> !PlainAt(mask, atom, a);
    assert a > 0 ==> PlainAt(mask, atom, 0);
    count := count + bscnt;
    count := CountQuoted(atom, a, count);
    out := PutQuoted(atom);
  }

  /** The characters at the front that need no quotes: their number, and that of the backslashes. */
  method PlainPart(atom: string, mask: Mask) returns (a: nat, count: nat, bscnt: nat)
    ensures a <= |atom| && count == a && count + bscnt == |EscapedAll(atom[..a])|
    ensures forall i | 0 <= i < a :: PlainAt(mask, atom, i)
    ensures a < |atom| ==> !PlainAt(mask, atom, a)
  {
    hide Escaped;
    a, count, bscnt := 0, 0, 0;
    while a < |atom| && InMask(mask, atom[a])
      invariant 0 <= a <= |atom| && count == a
      invariant count + bscnt == |EscapedAll(atom[..a])|
      invariant forall i | 0 <= i < a :: PlainAt(mask, atom, i)
    {
      if atom[a] == '/' && a + 1 < |atom| && atom[a + 1] == '*' { break; }
      if atom[a] == '.' { break; }
      assert atom[..a + 1] == atom[..a] + [atom[a]];
      EscapedSnoc(atom[..a], atom[a]);
      MaskedLength(mask, atom[a]);
      if atom[a] == BSLASH { bscnt := bscnt + 1; }
      a := a + 1;
      count := count + 1;
    }
  }

  method CountQuoted(atom: string, start: nat, before: nat) returns (count: nat)
    requires start <= |atom| && before == |EscapedAll(atom[..start])|
    ensures count == |EscapedAll(atom)| + 2
  {
    var a := start;
    count := before;
    while a < |atom|
      invariant start <= a <= |atom| && count == |EscapedAll(atom[..a])|
    {
      assert atom[..a + 1] == atom[..a] + [atom[a]];
      EscapedSnoc(atom[..a], atom[a]);
      if EscChar(atom[a]) { count := count + 2; }
      else if atom[a] != ' ' && WhiteSpace(atom[a]) { count := count + 4; }
      else { count := count + 1; }
      a := a + 1;
    }
    assert atom[..a] == atom;
    count := count + 2;
  }

  method PutQuoted(atom: string) returns (out: string)
    requires Bytes(atom)
    ensures out == Quoted(atom)
  {
    hide Escaped, EscapedAll;
    EscapedNothing();
    out := [QUOTE];
    var a := 0;
    while a < |atom|
      invariant 0 <= a <= |atom| && out == [QUOTE] + EscapedAll(atom[..a])
    {
      assert atom[..a + 1] == atom[..a] + [atom[a]];
      EscapedSnoc(atom[..a], atom[a]);
      out := PutChar(out, atom[a]);
      a := a + 1;
    }
    assert atom[..a] == atom;
    out := out + [QUOTE];
  }

  /** One character, escaped where it has to be. */
  method PutChar(sofar: string, c: char) returns (out: string)
    ensures out == sofar + Escaped(c)
  {
    out := sofar;
    if EscChar(c) {
      out := out + [BSLASH];
      out := out + [EscapeLetter(c)];
    } else if c != ' ' && WhiteSpace(c) {
      out := out + [BSLASH];
      out := out + ['0' + ((c as int / 64) % 8) as char];
      out := out + ['0' + ((c as int / 8) % 8) as char];
      out := out + ['0' + ((c as int) % 8) as char];
    } else {
      out := out + [c];
    }
  }

  lemma EscapedNothing()
    ensures EscapedAll([]) == []
  {
  }
}
