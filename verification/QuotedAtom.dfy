/** Reading a quoted atom in place: the end is found first, then the text is decoded up to a
    NUL that is put there for the time being. */
module QuotedAtoms {
  import opened LineReader
  import opened AtomQuoting

  datatype Token = LexError | LongSymbol(text: string) | FunctorToken(text: string) | SymbolToken(text: string)

  /** What the scan of the whole text gives, once it has come to a suffix. */
  predicate Underway(mode: Mode, eof: bool, t: string, text: string, n: nat) {
    n <= |t| && Scan(mode, eof, t) == More(text, n, Scan(mode, eof, t[n..]))
  }

  lemma ScanStarts(mode: Mode, eof: bool, t: string)
    ensures Underway(mode, eof, t, [], 0)
  {
    assert t[0..] == t;
    assert forall s: string :: [] + s == s;
  }

  lemma ScanGoesOn(mode: Mode, eof: bool, t: string, text: string, n: nat)
    requires Underway(mode, eof, t, text, n) && n < |t|
    ensures var item := NextItem(mode, eof, t[n..]);
            && (item.Char? ==> Underway(mode, eof, t, text + [item.c], n + item.n))
            && (item.Skip? ==> Underway(mode, eof, t, text, n + item.n))
            && (item.Close? ==> Scan(mode, eof, t) == Closed(text, n))
            && (item.Partial? ==> Scan(mode, eof, t) == Long(text, n))
            && (item.Newline? ==> Scan(mode, eof, t) == Unterminated)
  {
    hide NextItem, Scan, More;
    NothingMore(text, n);
    ScanOnce(mode, eof, t[n..]);
    var item := NextItem(mode, eof, t[n..]);
    if item.Char? || item.Skip? {
      assert t[n..][item.n..] == t[n + item.n..];
      assert text + [] == text;
      MoreAgain(text, if item.Char? then [item.c] else [], n, item.n, Scan(mode, eof, t[n + item.n..]));
    }
  }

  lemma NothingMore(text: string, n: nat)
    ensures More(text, n, Closed([], 0)) == Closed(text, n) && More(text, n, Long([], 0)) == Long(text, n)
    ensures More(text, n, Unterminated) == Unterminated
  {
    assert text + [] == text;
  }

  lemma ScanOnce(mode: Mode, eof: bool, t: string)
    requires t != []
    ensures var item, r := NextItem(mode, eof, t), Scan(mode, eof, t);
            && (item.Char? ==> r == More([item.c], item.n, Scan(mode, eof, t[item.n..])))
            && (item.Skip? ==> r == More([], item.n, Scan(mode, eof, t[item.n..])))
            && (item.Close? ==> r == Closed([], 0))
            && (item.Partial? ==> r == Long([], 0))
            && (item.Newline? ==> r == Unterminated)
  {
    hide NextItem;
  }

  lemma ScanRunsOut(mode: Mode, eof: bool, t: string, text: string, n: nat)
    requires Underway(mode, eof, t, text, n) && n == |t|
    ensures Scan(mode, eof, t) == Long(text, n)
  {
    assert text + [] == text;
  }

  lemma ItemMeans(mode: Mode, eof: bool, t: string)
    requires t != []
    ensures var item := NextItem(mode, eof, t);
            && (item.Char? && item.n == 1 ==> item.c == t[0])
            && (item.Close? ==> |t| > 1 && t[0] == QUOTE)
  {
  }

  // ---- decoding up to the NUL ----

  /** An end-of-line at `i` of a text that ends with a NUL. */
  function ScanEoln(mode: Mode, u: string, i: nat): nat {
    if i < |u| then EolAt(mode, u, i) else 0
  }

  lemma {:induction false} OctalRunPrefix(t: string, k: nat)
    requires OctalRun(t) <= k <= |t|
    ensures OctalRun(t[..k]) == OctalRun(t)
    decreases |t|
  {
    if t != [] && Octal(t[0]) {
      OctalRunPrefix(t[1..], k - 1);
      assert t[..k][1..] == t[1..][..k - 1];
    }
  }

  lemma {:induction false} HexRunPrefix(t: string, k: nat)
    requires HexRun(t) <= k <= |t|
    ensures HexRun(t[..k]) == HexRun(t)
    decreases |t|
  {
    if t != [] && HexDigit(t[0]) {
      HexRunPrefix(t[1..], k - 1);
      assert t[..k][1..] == t[1..][..k - 1];
    }
  }

  /** An escape that ends within `t[..k]` is read the same there. */
  lemma EscapePrefix(t: string, k: nat)
    requires 2 <= |t| && EscapeItem(t).n <= k <= |t|
    ensures k >= 2 && EscapeItem(t[..k]) == EscapeItem(t)
  {
    var u := t[..k];
    assert u[1] == t[1];
    if t[1] == 'x' {
      HexRunPrefix(t[2..], k - 2);
      assert u[2..] == t[2..][..k - 2];
      assert u[2..2 + HexRun(t[2..])] == t[2..2 + HexRun(t[2..])];
    } else if Octal(t[1]) {
      OctalRunPrefix(t[1..], k - 1);
      assert u[1..] == t[1..][..k - 1];
      assert OctalPart(u[1..]) == OctalPart(t[1..]);
    }
  }

  /** Decoding takes the same steps as the scan did. */
  lemma SecondLook(mode: Mode, eof: bool, t: string, k: nat)
    requires t != [] && k <= |t|
    requires (NextItem(mode, eof, t).Char? || NextItem(mode, eof, t).Skip?) && NextItem(mode, eof, t).n <= k
    ensures var item, u := NextItem(mode, eof, t), t[..k];
            if t[0] == BSLASH then
              && k >= 2 && ScanEoln(mode, u, 1) == (if item.Skip? then item.n - 1 else 0) && (item.Skip? ==> item.n > 1)
              && (item.Char? ==> EscapeItem(u) == item)
            else if t[0] == QUOTE then item == Char(QUOTE, 2)
            else item == Char(t[0], 1)
  {
    hide EscapeItem;
    if t[0] == BSLASH {
      if NextItem(mode, eof, t).Char? { EscapePrefix(t, k); }
    }
  }

  /** A NUL that is not part of an escape stands in the atom. */
  predicate BareNul(mode: Mode, eof: bool, t: string)
    decreases |t|
  {
    t != [] &&
    (t[0] == NUL ||
     (var item := NextItem(mode, eof, t);
      (item.Char? || item.Skip?) && BareNul(mode, eof, t[item.n..])))
  }

  /** As far as there was none, it is still to come or there is none. */
  predicate NulAhead(mode: Mode, eof: bool, t: string, n: nat) {
    n <= |t| && (BareNul(mode, eof, t) <==> BareNul(mode, eof, t[n..]))
  }

  lemma NulAheadStarts(mode: Mode, eof: bool, t: string)
    ensures NulAhead(mode, eof, t, 0)
  {
    assert t[0..] == t;
  }

  lemma NulAheadGoesOn(mode: Mode, eof: bool, t: string, n: nat)
    requires NulAhead(mode, eof, t, n) && n < |t|
    ensures t[n] == NUL ==> BareNul(mode, eof, t) && NextItem(mode, eof, t[n..]) == Char(NUL, 1)
    ensures t[n] != NUL && (NextItem(mode, eof, t[n..]).Char? || NextItem(mode, eof, t[n..]).Skip?) ==>
              NulAhead(mode, eof, t, n + NextItem(mode, eof, t[n..]).n)
    ensures t[n] != NUL && !(NextItem(mode, eof, t[n..]).Char? || NextItem(mode, eof, t[n..]).Skip?) ==>
              !BareNul(mode, eof, t)
  {
    var item := NextItem(mode, eof, t[n..]);
    if item.Char? || item.Skip? { assert t[n..][item.n..] == t[n + item.n..]; }
  }

  lemma NoNulAtEnd(mode: Mode, eof: bool, t: string)
    requires NulAhead(mode, eof, t, |t|)
    ensures !BareNul(mode, eof, t)
  {
  }

  /** What has been found before a bare NUL is not all. */
  lemma CutShort(mode: Mode, eof: bool, t: string, text: string, n: nat)
    requires Underway(mode, eof, t, text, n) && n < |t| && NextItem(mode, eof, t[n..]) == Char(NUL, 1)
    ensures !Scan(mode, eof, t).Unterminated? ==> |text| < |Scan(mode, eof, t).text|
  {
    hide NextItem, Scan;
    ScanGoesOn(mode, eof, t, text, n);
  }

  class Lexer {
    const mode: Mode
    const buf: array<char>
    var eof: bool

    constructor (m: Mode, b: array<char>)
      ensures mode == m && buf == b
    {
      mode, buf, eof := m, b, false;
    }

    /** Finds the end of the atom from `start` on.  `count` is the number of characters it will
        have; `escapes` tells whether any of them is written specially. */
    method FindEnd(start: nat, lim: nat) returns (p: nat, count: nat, escapes: bool, status: Item, ghost text: string)
      requires start <= lim <= buf.Length
      ensures start <= p <= lim && count == |text|
      ensures !escapes && !status.Newline? ==>
                text == buf[start..p] && (BareNul(mode, eof, buf[start..lim]) <==> NUL in buf[start..p])
      ensures Scan(mode, eof, buf[start..lim]) == if status.Close? then Closed(text, p - start)
                                                  else if status.Newline? then Unterminated
                                                  else Long(text, p - start)
      ensures status.Close? ==> p + 1 < lim && buf[p] == QUOTE
      ensures status.Close? || status.Newline? || status.Partial?
    {
      hide NextItem, Scan, Underway, BareNul, NulAhead;
      ghost var t := buf[start..lim];
      p, count, escapes, status, text := start, 0, false, Partial, [];
      ScanStarts(mode, eof, t);
      NulAheadStarts(mode, eof, t);
      while p < lim
        invariant start <= p <= lim && count == |text| && status == Partial
        invariant Underway(mode, eof, t, text, p - start)
        invariant !escapes ==> text == buf[start..p]
        invariant !escapes ==> if NUL in buf[start..p] then BareNul(mode, eof, t) else NulAhead(mode, eof, t, p - start)
      {
        ScanGoesOn(mode, eof, t, text, p - start);
        if !escapes && NUL !in buf[start..p] { NulAheadGoesOn(mode, eof, t, p - start); }
        assert t[p - start..] == buf[p..lim] && buf[p..lim][0] == buf[p];
        var item := NextItem(mode, eof, buf[p..lim]);
        ItemMeans(mode, eof, buf[p..lim]);
        if item.Close? || item.Partial? || item.Newline? { status := item; return; }
        if item.Char? {
          if item.n > 1 { escapes := true; }
          count := count + 1;
          text := text + [item.c];
        } else {
          escapes := true;
        }
        p := p + item.n;
      }
      ScanRunsOut(mode, eof, t, text, p - start);
      if !escapes && NUL !in buf[start..p] { NoNulAtEnd(mode, eof, t); }
    }

    /** Decodes from `start` up to a NUL: the one at `end`, or a bare one before it. */
    method Decode(start: nat, end: nat, ghost t: string) returns (text: string, p: nat)
      requires start <= end < buf.Length && buf[end] == NUL && end - start <= |t|
      requires buf[start..end] == t[..end - start]
      requires var r := Scan(mode, eof, t); !r.Unterminated? && r.len == end - start
      ensures start <= p <= end && (p < end <==> BareNul(mode, eof, t))
      ensures if p == end then text == Scan(mode, eof, t).text else |text| < |Scan(mode, eof, t).text|
    {
      hide NextItem, Scan, Underway, EscapeItem, BareNul, NulAhead;
      ghost var n := 0;
      p, text := start, [];
      ScanStarts(mode, eof, t);
      NulAheadStarts(mode, eof, t);
      forall i | start <= i < end ensures buf[i] == t[i - start] {
        assert buf[start..end][i - start] == t[..end - start][i - start];
      }
      while buf[p] != NUL
        invariant start <= p <= end && n == p - start
        invariant Underway(mode, eof, t, text, n) && NulAhead(mode, eof, t, n)
        decreases end - p
      {
        StepAhead(mode, eof, t, text, n, end - start);
        NulAheadGoesOn(mode, eof, t, n);
        ghost var u := t[n..][..end - start - n];
        assert u == t[..end - start][n..] == buf[start..end][n..] == buf[p..end];
        assert u[0] == t[n] == buf[p];
        if buf[p] == BSLASH {
          var nl := ScanEoln(mode, buf[p..end], 1);
          if nl > 0 {
            p := p + 1 + nl;
          } else {
            var item := EscapeItem(buf[p..end]);
            text := text + [item.c];
            p := p + item.n;
          }
        } else if buf[p] == QUOTE {
          text := text + [buf[p]];
          p := p + 2;
        } else {
          text := text + [buf[p]];
          p := p + 1;
        }
        n := p - start;
      }
      if p == end {
        AllDecoded(mode, eof, t, text, n);
        NoneBefore(mode, eof, t, text, n);
      } else {
        NulAheadGoesOn(mode, eof, t, n);
        CutShort(mode, eof, t, text, n);
      }
    }

    /** The characters from `start` up to the first NUL. */
    method CString(start: nat, end: nat) returns (text: string)
      requires start <= end < buf.Length && buf[end] == NUL
      ensures if NUL in buf[start..end] then |text| < end - start else text == buf[start..end]
    {
      var p := start;
      while buf[p] != NUL
        invariant start <= p <= end && NUL !in buf[start..p]
        decreases end - p
      {
        p := p + 1;
      }
      text := buf[start..p];
      if p < end { assert buf[start..end][p - start] == NUL; }
    }

    /** Reads the quoted atom whose opening quote is at `pp`.  All is well exactly when no bare
        NUL stands in it; otherwise the atom comes out short. */
    method QuotedAtom(pp: nat, lim: nat) returns (tok: Token, next: nat, count: nat)
      requires pp < lim < buf.Length && buf[pp] == QUOTE
      modifies buf
      ensures !BareNul(mode, eof, old(buf[pp + 1..lim])) ==> buf[..] == old(buf[..])
      ensures var r := Scan(mode, eof, old(buf[pp + 1..lim]));
              if r.Unterminated? then tok == LexError && next == pp + 1 && buf[..] == old(buf[..])
              else if BareNul(mode, eof, old(buf[pp + 1..lim])) then
                && count == |r.text| && tok != LexError && |tok.text| < count
              else
                && count == |r.text| && pp + 1 + r.len <= lim
                && (r.Long? ==> tok == LongSymbol(r.text) && next == pp + 1 + r.len)
                && (r.Closed? ==> pp + r.len + 2 < lim + 1 && next == pp + 1 + r.len + 1
                                  && tok == if buf[next] == '(' then FunctorToken(r.text) else SymbolToken(r.text))
    {
      hide Scan, BareNul;
      ghost var before := buf[..];
      var atomStart := pp + 1;
      ghost var t := buf[atomStart..lim];
      var p, escapes, status; ghost var found;
      p, count, escapes, status, found := FindEnd(atomStart, lim);
      if status.Newline? { return LexError, pp + 1, count; }
      var lim' := if status.Close? then lim else p;
      var saved := buf[p];
      ghost var body := buf[atomStart..p];
      FrontOf(before, atomStart, p, lim);
      buf[p] := NUL;
      assert buf[atomStart..p] == body;
      var text, q := [], p;
      if escapes {
        text, q := Decode(atomStart, p, t);
      } else {
        text := CString(atomStart, p);
      }
      buf[q] := saved;
      assert q == p ==> buf[..] == before;
      if q >= lim' {
        tok, next := LongSymbol(text), q;
      } else {
        tok := if buf[q + 1] == '(' then FunctorToken(text) else SymbolToken(text);
        next := q + 1;
      }
    }
  }

  /** Before the end, the next item is one that can be decoded, and does not reach past the end. */
  lemma StepAhead(mode: Mode, eof: bool, t: string, text: string, n: nat, end: nat)
    requires Underway(mode, eof, t, text, n) && n < end <= |t|
    requires var r := Scan(mode, eof, t); !r.Unterminated? && r.len == end
    ensures var item, u := NextItem(mode, eof, t[n..]), t[n..][..end - n];
            && (item.Char? || item.Skip?) && n + item.n <= end
            && (item.Char? ==> Underway(mode, eof, t, text + [item.c], n + item.n))
            && (item.Skip? ==> Underway(mode, eof, t, text, n + item.n))
            && if t[n] == BSLASH then
                 && end - n >= 2 && ScanEoln(mode, u, 1) == (if item.Skip? then item.n - 1 else 0) && (item.Skip? ==> item.n > 1)
                 && (item.Char? ==> EscapeItem(u) == item)
               else if t[n] == QUOTE then item == Char(QUOTE, 2)
               else item == Char(t[n], 1)
  {
    hide NextItem, Scan, EscapeItem;
    ScanGoesOn(mode, eof, t, text, n);
    SecondLook(mode, eof, t[n..], end - n);
  }

  lemma AllDecoded(mode: Mode, eof: bool, t: string, text: string, n: nat)
    requires Underway(mode, eof, t, text, n)
    requires var r := Scan(mode, eof, t); !r.Unterminated? && r.len == n
    ensures Scan(mode, eof, t).text == text
  {
    if n < |t| {
      ScanGoesOn(mode, eof, t, text, n);
    } else {
      ScanRunsOut(mode, eof, t, text, n);
    }
  }

  /** At the end of the atom no bare NUL has been met. */
  lemma NoneBefore(mode: Mode, eof: bool, t: string, text: string, n: nat)
    requires Underway(mode, eof, t, text, n) && NulAhead(mode, eof, t, n)
    requires var r := Scan(mode, eof, t); !r.Unterminated? && r.len == n
    ensures !BareNul(mode, eof, t)
  {
    hide NextItem, Scan;
    if n < |t| {
      ScanGoesOn(mode, eof, t, text, n);
      NulAheadGoesOn(mode, eof, t, n);
    } else {
      NoNulAtEnd(mode, eof, t);
    }
  }

  lemma FrontOf(s: string, a: nat, b: nat, c: nat)
    requires a <= b <= c <= |s|
    ensures s[a..c][..b - a] == s[a..b]
  {
  }

  /** An atom with a NUL in the middle is one that comes out short. */
  lemma AtomWithNul(mode: Mode, eof: bool)
    ensures var t := ['a', NUL, 'b', QUOTE, ' '];
            BareNul(mode, eof, t) && Scan(mode, eof, t) == Closed(['a', NUL, 'b'], 3)
  {
    hide Scan, NextItem;
    var t := ['a', NUL, 'b', QUOTE, ' '];
    var t1, t2, t3 := [NUL, 'b', QUOTE, ' '], ['b', QUOTE, ' '], [QUOTE, ' '];
    assert t[1..] == t1 && t1[1..] == t2 && t2[1..] == t3;
    ItemsAre(mode, eof);
    ScanChar(mode, eof, t, 'a', 1);
    ScanChar(mode, eof, t1, NUL, 1);
    ScanChar(mode, eof, t2, 'b', 1);
    ScanClose(mode, eof, t3);
  }

  lemma ItemsAre(mode: Mode, eof: bool)
    ensures NextItem(mode, eof, ['a', NUL, 'b', QUOTE, ' ']) == Char('a', 1)
    ensures NextItem(mode, eof, [NUL, 'b', QUOTE, ' ']) == Char(NUL, 1)
    ensures NextItem(mode, eof, ['b', QUOTE, ' ']) == Char('b', 1)
    ensures NextItem(mode, eof, [QUOTE, ' ']) == Close
  {
  }
}
