/** What the reader of atoms makes of escapes, ends of lines and atoms without quotes, by the
    characters they are written with. */
module AtomReading {
  import opened LineReader
  import opened AtomQuoting

  // ---- numbers in escapes ----

  predicate IsDigit(c: char, d: int) {
    0 <= d < 16 && (c == "0123456789abcdef"[d] || c == "0123456789ABCDEF"[d])
  }

  /** `t` is a way of writing `v`, in letters of either case and with any number of zeros in front. */
  predicate Writes(t: string, v: nat, base: int)
    requires 2 <= base <= 16
  {
    if t == "" then v == 0
    else IsDigit(t[|t| - 1], v % base) && Writes(t[..|t| - 1], v / base, base)
  }

  /** One of them, by dividing by 16. */
  function PrintHex(v: nat): (t: string)
    ensures t != "" && Writes(t, v, 16)
  {
    if v < 16 then
      var t := ["0123456789abcdef"[v]];
      assert t[..0] == "" && v % 16 == v && v / 16 == 0;
      t
    else
      var front, last := PrintHex(v / 16), "0123456789ABCDEF"[v % 16];
      assert (front + [last])[..|front|] == front;
      front + [last]
  }

  lemma {:induction false} HexSnoc(t: string, c: char, start: nat)
    requires AllHex(t) && HexDigit(c)
    ensures AllHex(t + [c]) && HexValue(t + [c], start) == HexValue(t, start) * 16 + HexDigitValue(c)
    decreases |t|
  {
    if t == "" {
      assert (t + [c])[1..] == "";
    } else {
      assert (t + [c])[1..] == t[1..] + [c];
      HexSnoc(t[1..], c, start * 16 + HexDigitValue(t[0]));
    }
  }

  lemma {:induction false} HexWritten(t: string, v: nat)
    requires Writes(t, v, 16)
    ensures AllHex(t) && HexValue(t, 0) == v
    decreases |t|
  {
    if t != "" {
      var n := |t| - 1;
      HexWritten(t[..n], v / 16);
      assert IsDigit(t[n], v % 16);
      assert HexDigit(t[n]) && HexDigitValue(t[n]) == v % 16;
      HexSnoc(t[..n], t[n], 0);
      assert t == t[..n] + [t[n]];
    }
  }

  lemma {:induction false} HexRunOver(t: string, rest: string)
    requires AllHex(t) && rest != "" && !HexDigit(rest[0])
    ensures HexRun(t + rest) == |t|
    decreases |t|
  {
    if t == "" {
      assert t + rest == rest;
    } else {
      assert (t + rest)[1..] == t[1..] + rest;
      HexRunOver(t[1..], rest);
    }
  }

  /** A byte in hexadecimal, however it is written, is read as that byte. */
  lemma HexEscape(mode: Mode, eof: bool, t: string, v: nat, rest: string)
    requires Writes(t, v, 16) && v < 256 && rest != "" && rest[0] !in "0123456789abcdefABCDEF"
    ensures NextItem(mode, eof, "\\x" + t + rest) == Char(v as char, 2 + |t|)
  {
    hide HexRun, HexValue, Writes;
    HexWritten(t, v);
    NoDigit(rest[0]);
    HexRunOver(t, rest);
    var s := "\\x" + t + rest;
    assert s[2..] == t + rest && s[2..2 + |t|] == t;
    assert s[0] == BSLASH && s[1] == 'x' && EolnLen(mode, s, 1, eof) == 0;
    assert EscapeItem(s) == Char(v as char, 2 + |t|);
  }

  lemma NoDigit(c: char)
    ensures HexDigit(c) ==> c in "0123456789abcdefABCDEF"
  {
    if HexDigit(c) {
      var k := if Decimal(c) then c as int - '0' as int
               else if c <= 'F' then c as int - 'A' as int + 16 else c as int - 'a' as int + 10;
      assert "0123456789abcdefABCDEF"[k] == c;
    }
  }

  lemma {:induction false} OctalSnoc(t: string, c: char, start: nat)
    requires AllOctal(t) && Octal(c)
    ensures AllOctal(t + [c]) && OctalValue(t + [c], start) == OctalValue(t, start) * 8 + (c as int - '0' as int)
    decreases |t|
  {
    if t == "" {
      assert (t + [c])[1..] == "";
    } else {
      assert (t + [c])[1..] == t[1..] + [c];
      OctalSnoc(t[1..], c, start * 8 + (t[0] as int - '0' as int));
    }
  }

  lemma {:induction false} OctalWritten(t: string, v: nat)
    requires Writes(t, v, 8)
    ensures AllOctal(t) && OctalValue(t, 0) == v
    decreases |t|
  {
    if t != "" {
      var n := |t| - 1;
      OctalWritten(t[..n], v / 8);
      assert IsDigit(t[n], v % 8);
      assert Octal(t[n]) && t[n] as int - '0' as int == v % 8;
      OctalSnoc(t[..n], t[n], 0);
      assert t == t[..n] + [t[n]];
    }
  }

  lemma {:induction false} OctalRunOver(t: string, rest: string)
    requires AllOctal(t) && rest != "" && !Octal(rest[0])
    ensures OctalRun(t + rest) == |t|
    decreases |t|
  {
    if t == "" {
      assert t + rest == rest;
    } else {
      assert (t + rest)[1..] == t[1..] + rest;
      OctalRunOver(t[1..], rest);
    }
  }

  /** A byte in octal, with any number of digits. */
  lemma OctalEscape(mode: Mode, eof: bool, t: string, v: nat, rest: string)
    requires t != "" && Writes(t, v, 8) && v < 256 && rest != "" && rest[0] !in "01234567"
    ensures NextItem(mode, eof, "\\" + t + rest) == Char(v as char, 1 + |t|)
  {
    hide OctalRun, OctalValue, Writes;
    OctalWritten(t, v);
    NoOctal(rest[0]);
    OctalRunOver(t, rest);
    var s := "\\" + t + rest;
    assert s[1..] == t + rest && s[1..][..|t|] == t;
    assert s[0] == BSLASH && s[1] == t[0] && Octal(s[1]) && EolnLen(mode, s, 1, eof) == 0;
    assert EscapeItem(s) == Char(v as char, 1 + |t|);
  }

  lemma NoOctal(c: char)
    ensures Octal(c) ==> c in "01234567"
  {
    if Octal(c) { assert "01234567"[c as int - '0' as int] == c; }
  }

  /** The escapes that are letters; any other character stands for itself. */
  lemma LetterEscape(mode: Mode, eof: bool, c: char, rest: string)
    requires rest != "" && c !in "01234567x\r\n"
    ensures NextItem(mode, eof, ['\\', c] + rest)
            == Char(if c == 'a' then 7 as char else if c == 'b' then 8 as char else if c == 't' then 9 as char
                    else if c == 'n' then 10 as char else if c == 'v' then 11 as char
                    else if c == 'f' then 12 as char else if c == 'r' then 13 as char else c, 2)
  {
    var t := ['\\', c] + rest;
    assert "01234567x\r\n"[8] == 'x' && "01234567x\r\n"[9] == '\r' && "01234567x\r\n"[10] == '\n';
    assert c !in "01234567" by {
      forall i | 0 <= i < 8 ensures "01234567"[i] != c { assert "01234567x\r\n"[i] == "01234567"[i]; }
    }
    NoOctal(c);
    assert t[0] == BSLASH && t[1] == c && EolnLen(mode, t, 1, eof) == 0;
  }

  // ---- quotes and ends of lines ----

  predicate StartsEnd(mode: Mode, t: string) {
    exists n :: 0 < n <= |t| && IsEnd(mode, t[..n])
  }

  lemma QuoteItem(mode: Mode, eof: bool, t: string)
    requires t != "" && t[0] == '\''
    ensures NextItem(mode, eof, t) == if |t| == 1 then Partial else if t[1] == '\'' then Char('\'', 2) else Close
  {
  }

  /** An end-of-line that is not behind a backslash; what may become one cannot be decided yet. */
  lemma PlainItem(mode: Mode, eof: bool, t: string)
    requires t != "" && t[0] != '\\' && t[0] != '\''
    ensures NextItem(mode, eof, t) == if StartsEnd(mode, t) then Newline
                                      else if mode.READ_CRLF? && t == "\r" && !eof then Partial
                                      else Char(t[0], 1)
  {
    hide IsEnd;
    EolIsEnd(mode, t, 0);
    assert t[0..] == t;
  }

  /** Behind a backslash an end-of-line is passed over. */
  lemma ContinuedItem(mode: Mode, eof: bool, end: string, rest: string)
    requires IsEnd(mode, end) && !(mode.READ_UNIV? && end == "\r" && StartsWithLf(rest))
    ensures NextItem(mode, eof, "\\" + end + rest) == Skip(1 + |end|)
  {
    var t := "\\" + end + rest;
    assert |end| > 0 && t[1] == end[0] && (|end| > 1 ==> t[2] == end[1]);
    assert |end| == 1 && rest != "" ==> t[2] == rest[0];
  }

  /** The scan comes to `k` after whole items. */
  predicate ComesTo(mode: Mode, eof: bool, t: string, k: nat)
    decreases |t|
  {
    k == 0 ||
    (t != "" &&
     var item := NextItem(mode, eof, t);
     (item.Char? || item.Skip?) && item.n <= k && ComesTo(mode, eof, t[item.n..], k - item.n))
  }

  /** There an end-of-line is met that no backslash goes before. */
  predicate MeetsEnd(mode: Mode, eof: bool, t: string, k: nat) {
    k < |t| && ComesTo(mode, eof, t, k) && t[k] != '\\' && t[k] != '\'' && StartsEnd(mode, t[k..])
  }

  /** At once exactly if the first item is that end-of-line. */
  lemma MeetsHere(mode: Mode, eof: bool, t: string)
    requires t != ""
    ensures MeetsEnd(mode, eof, t, 0) <==> NextItem(mode, eof, t).Newline?
  {
    assert t[0..] == t;
    if t[0] != '\\' && t[0] != '\'' { PlainItem(mode, eof, t); }
  }

  lemma MeetsLater(mode: Mode, eof: bool, t: string, k: nat)
    requires t != "" && (NextItem(mode, eof, t).Char? || NextItem(mode, eof, t).Skip?)
    ensures var n := NextItem(mode, eof, t).n;
            MeetsEnd(mode, eof, t, k) <==> k >= n && MeetsEnd(mode, eof, t[n..], k - n)
  {
    hide NextItem, StartsEnd;
    var n := NextItem(mode, eof, t).n;
    if k == 0 {
      MeetsHere(mode, eof, t);
    } else if n <= k <= |t| {
      assert t[n..][k - n..] == t[k..];
    }
  }

  ghost predicate EndIsMet(mode: Mode, eof: bool, t: string) {
    exists k: nat :: MeetsEnd(mode, eof, t, k)
  }

  /** That is the one thing that makes a quoted atom an error. */
  lemma {:induction false} UnterminatedExactly(mode: Mode, eof: bool, t: string)
    ensures Scan(mode, eof, t).Unterminated? <==> EndIsMet(mode, eof, t)
    decreases |t|
  {
    hide NextItem, EndIsMet;
    if t == "" {
      NoEnd(mode, eof);
    } else {
      var item := NextItem(mode, eof, t);
      if item.Char? || item.Skip? {
        UnterminatedExactly(mode, eof, t[item.n..]);
        EndLater(mode, eof, t);
      } else {
        EndHere(mode, eof, t);
      }
    }
  }

  lemma NoEnd(mode: Mode, eof: bool)
    ensures !EndIsMet(mode, eof, "")
  {
  }

  lemma EndLater(mode: Mode, eof: bool, t: string)
    requires t != "" && (NextItem(mode, eof, t).Char? || NextItem(mode, eof, t).Skip?)
    ensures EndIsMet(mode, eof, t) <==> EndIsMet(mode, eof, t[NextItem(mode, eof, t).n..])
  {
    hide MeetsEnd, NextItem;
    var n := NextItem(mode, eof, t).n;
    var rest := t[n..];
    if EndIsMet(mode, eof, t) {
      var k: nat :| MeetsEnd(mode, eof, t, k);
      MeetsLater(mode, eof, t, k);
      assert MeetsEnd(mode, eof, rest, k - n);
    }
    if EndIsMet(mode, eof, rest) {
      var k: nat :| MeetsEnd(mode, eof, rest, k);
      MeetsLater(mode, eof, t, n + k);
      assert n + k - n == k && MeetsEnd(mode, eof, t, n + k);
    }
  }

  lemma EndHere(mode: Mode, eof: bool, t: string)
    requires t != "" && !NextItem(mode, eof, t).Char? && !NextItem(mode, eof, t).Skip?
    ensures EndIsMet(mode, eof, t) <==> NextItem(mode, eof, t).Newline?
  {
    hide NextItem, StartsEnd;
    MeetsHere(mode, eof, t);
    if EndIsMet(mode, eof, t) {
      var k: nat :| MeetsEnd(mode, eof, t, k);
      assert k == 0;
    }
  }

  /** An end-of-line put into a written atom makes it an error, ... */
  lemma RawEndIsError(mode: Mode, eof: bool, atom: string, end: string, rest: string)
    requires Bytes(atom) && IsEnd(mode, end)
    ensures Scan(mode, eof, EscapedAll(atom) + (end + rest)) == Unterminated
  {
    hide Scan, EscapedAll;
    var r := end + rest;
    assert |end| > 0 && r[0] == end[0] && !Octal(r[0]) && r[..|end|] == end;
    ScanWritten(mode, eof, atom, r);
    PlainItem(mode, eof, r);
    assert StartsEnd(mode, r);
    ScanNewline(mode, eof, r);
  }

  lemma ScanNewline(mode: Mode, eof: bool, t: string)
    requires t != "" && NextItem(mode, eof, t) == Newline
    ensures Scan(mode, eof, t) == Unterminated
  {
  }

  /** ... and behind a backslash continues it on the next line. */
  lemma ContinuedLine(mode: Mode, eof: bool, one: string, end: string, two: string, rest: string)
    requires Bytes(one) && Bytes(two) && IsEnd(mode, end) && rest != "" && rest[0] != '\''
    ensures Scan(mode, eof, EscapedAll(one) + ("\\" + end + (EscapedAll(two) + ("'" + rest))))
            == Closed(ReadBack(one) + ReadBack(two), |EscapedAll(one)| + 1 + |end| + |EscapedAll(two)|)
  {
    hide Scan, EscapedAll, ReadBack;
    var close := "'" + rest;
    var tail := EscapedAll(two) + close;
    var r := "\\" + end + tail;
    ScanWritten(mode, eof, one, r);
    NoLfFirst(two, close);
    ContinuedItem(mode, eof, end, tail);
    ScanSkip(mode, eof, r, 1 + |end|);
    assert r[1 + |end|..] == tail;
    ScanQuoted(mode, eof, two, close);
    assert [] + ReadBack(two) == ReadBack(two);
  }

  lemma ScanSkip(mode: Mode, eof: bool, t: string, n: nat)
    requires t != "" && NextItem(mode, eof, t) == Skip(n)
    ensures n <= |t| && Scan(mode, eof, t) == More([], n, Scan(mode, eof, t[n..]))
  {
  }

  lemma NoLfFirst(atom: string, close: string)
    requires close != "" && close[0] == '\''
    ensures !StartsWithLf(EscapedAll(atom) + close)
  {
    if atom == "" {
      assert EscapedAll(atom) + close == close;
    } else {
      EscapedFirst(atom, close);
      assert Escaped(atom[0])[0] != LF;
    }
  }

  // ---- atoms without quotes ----

  /** What the lexer makes of a text that does not start with layout, a number or a quote. */
  datatype Word =
    | NeedMore
    | Comment
    | FullStop
    | Variable(text: string)
    | Symbol(text: string)
    | Other

  function AlnumRun(t: string): (n: nat)
    ensures n <= |t|
  {
    if t == "" || !AlphaNumeric(t[0]) then 0 else 1 + AlnumRun(t[1..])
  }

  function GraphicRun(t: string): (n: nat)
    ensures n <= |t|
  {
    if t == "" || !Graphic(t[0]) then 0 else 1 + GraphicRun(t[1..])
  }

  predicate CommentAt(t: string) {
    t != "" && (t[0] == '%' || (t[0] == '/' && |t| > 1 && t[1] == '*'))
  }

  predicate Uppercase(c: char) { 'A' <= c <= 'Z' || c == '_' }

  /** A symbol may go on behind the buffer, unless that is the end of the file. */
  function ReadWord(eof: bool, t: string): Word {
    if t == "" then NeedMore
    else if CommentAt(t) then Comment
    else if t[0] in "!;" then Symbol([t[0]])
    else if Graphic(t[0]) then
      var n := GraphicRun(t);
      if n == |t| && !eof then NeedMore
      else if t[..n] == "." && (n == |t| || WhiteSpace(t[n]) || CommentAt(t[n..])) then FullStop
      else Symbol(t[..n])
    else if Lowercase(t[0]) then
      if AlnumRun(t) == |t| && !eof then NeedMore else Symbol(t[..AlnumRun(t)])
    else if Uppercase(t[0]) then
      if AlnumRun(t) == |t| && !eof then NeedMore else Variable(t[..AlnumRun(t)])
    else Other
  }

  /** `rest` does not go on with what the atom consists of. */
  predicate Apart(atom: string, rest: string)
    requires atom != ""
  {
    rest != "" && (Lowercase(atom[0]) ==> !AlphaNumeric(rest[0])) && (Graphic(atom[0]) ==> !Graphic(rest[0]))
  }

  /** An atom that is written without quotes is read as that atom; the empty list is the one
      that takes two words. */
  lemma PlainIsRead(eof: bool, atom: string, rest: string)
    requires Plain(atom) && atom != "[]" && Apart(atom, rest)
    ensures ReadWord(eof, atom + rest) == Symbol(atom)
  {
    hide AlnumRun, GraphicRun, PlainAt;
    var t := atom + rest;
    assert t[0] == atom[0] && t[..|atom|] == atom && t[|atom|..] == rest;
    if atom == "!" {
      assert "!;"[0] == '!';
    } else {
      assert PlainAt(MaskOf(atom), atom, 0);
      FirstChar(atom, rest);
      forall i | 0 <= i < |atom| ensures InMask(MaskOf(atom), atom[i]) {
        assert PlainAt(MaskOf(atom), atom, i);
        InMaskAt(MaskOf(atom), atom, i);
      }
      if Lowercase(atom[0]) { AlnumRunOver(atom, rest); } else { GraphicRunOver(atom, rest); }
    }
  }

  lemma InMaskAt(mask: Mask, atom: string, i: nat)
    requires i < |atom| && PlainAt(mask, atom, i)
    ensures InMask(mask, atom[i])
  {
  }

  /** It starts neither a comment nor anything else. */
  lemma FirstChar(atom: string, rest: string)
    requires atom != "" && PlainAt(MaskOf(atom), atom, 0) && Apart(atom, rest)
    ensures !CommentAt(atom + rest) && atom[0] !in "!;" && atom != "." && (Lowercase(atom[0]) || Graphic(atom[0]))
    ensures Lowercase(atom[0]) ==> !Graphic(atom[0]) && !Uppercase(atom[0])
  {
    hide Graphic;
    assert Lowercase(atom[0]) || Graphic(atom[0]);
    GraphicOnly(atom[0]);
    NoComment(atom, rest);
  }

  lemma GraphicOnly(c: char)
    ensures Graphic('*') && Graphic('/')
    ensures Graphic(c) ==> !Lowercase(c) && c != '%' && c !in "!;"
  {
    var graphic := "#$&*+-./:<=>?@\\^`~";
    assert graphic[3] == '*' && graphic[7] == '/';
  }

  lemma NoComment(atom: string, rest: string)
    requires atom != "" && PlainAt(MaskOf(atom), atom, 0) && Apart(atom, rest)
    ensures !CommentAt(atom + rest)
  {
    hide Graphic;
    GraphicOnly(atom[0]);
    var t := atom + rest;
    assert t[1] == if |atom| > 1 then atom[1] else rest[0];
  }

  lemma {:induction false} AlnumRunOver(t: string, rest: string)
    requires (forall i | 0 <= i < |t| :: AlphaNumeric(t[i])) && (rest == "" || !AlphaNumeric(rest[0]))
    ensures AlnumRun(t + rest) == |t|
    decreases |t|
  {
    if t == "" {
      assert t + rest == rest;
    } else {
      assert (t + rest)[1..] == t[1..] + rest;
      AlnumRunOver(t[1..], rest);
    }
  }

  lemma {:induction false} GraphicRunOver(t: string, rest: string)
    requires (forall i | 0 <= i < |t| :: Graphic(t[i])) && (rest == "" || !Graphic(rest[0]))
    ensures GraphicRun(t + rest) == |t|
    decreases |t|
  {
    if t == "" {
      assert t + rest == rest;
    } else {
      assert (t + rest)[1..] == t[1..] + rest;
      GraphicRunOver(t[1..], rest);
    }
  }
}
