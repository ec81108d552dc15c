/** Reading lines through a buffer that is refilled in arbitrary pieces. */
module LineReader {
  import opened Options

  const CR := '\r'
  const LF := '\n'

  datatype Mode = READ_CRLF | READ_CR | READ_LF | READ_UNIV

  // ---- lines of a text that is there as a whole ----

  /** The length of the end-of-line that starts at `i`, or 0. */
  function EolAt(mode: Mode, s: string, i: nat): nat
    requires i < |s|
  {
    match mode
    case READ_CR => if s[i] == CR then 1 else 0
    case READ_LF => if s[i] == LF then 1 else 0
    case READ_CRLF => if s[i] == CR && i + 1 < |s| && s[i + 1] == LF then 2 else 0
    case READ_UNIV =>
      if s[i] == LF then 1
      else if s[i] == CR then if i + 1 < |s| && s[i + 1] == LF then 2 else 1
      else 0
  }

  /** Where the first end-of-line at or after `i` starts; the end of the text if there is none. */
  function FirstEol(mode: Mode, s: string, i: nat): (e: nat)
    requires i <= |s|
    ensures i <= e <= |s| && (e < |s| ==> 0 < EolAt(mode, s, e) <= |s| - e)
    ensures forall j | i <= j < e :: EolAt(mode, s, j) == 0
    decreases |s| - i
  {
    if i == |s| || EolAt(mode, s, i) > 0 then i else FirstEol(mode, s, i + 1)
  }

  /** The lines of a text.  What follows the last end-of-line is a line if it is not empty. */
  function Lines(mode: Mode, s: string): seq<string>
    decreases |s|
  {
    if s == [] then []
    else
      var e := FirstEol(mode, s, 0);
      if e == |s| then [s] else [s[..e]] + Lines(mode, s[e + EolAt(mode, s, e)..])
  }

  /** The ends-of-line that separate the lines. */
  function Ends(mode: Mode, s: string): seq<string>
    decreases |s|
  {
    if s == [] then []
    else
      var e := FirstEol(mode, s, 0);
      if e == |s| then [""] else [s[e..e + EolAt(mode, s, e)]] + Ends(mode, s[e + EolAt(mode, s, e)..])
  }

  /** How many lines are ended by an end-of-line. */
  function EolCount(mode: Mode, s: string): nat
    decreases |s|
  {
    if s == [] then 0
    else
      var e := FirstEol(mode, s, 0);
      if e == |s| then 0 else 1 + EolCount(mode, s[e + EolAt(mode, s, e)..])
  }

  function Weave(lines: seq<string>, ends: seq<string>): string
    requires |lines| == |ends|
  {
    if lines == [] then "" else lines[0] + ends[0] + Weave(lines[1..], ends[1..])
  }

  /** No character is lost, and no line holds an end-of-line. */
  lemma {:induction false} LinesAreAll(mode: Mode, s: string)
    ensures |Lines(mode, s)| == |Ends(mode, s)| && Weave(Lines(mode, s), Ends(mode, s)) == s
    ensures forall k | 0 <= k < |Lines(mode, s)| :: FirstEol(mode, Lines(mode, s)[k], 0) == |Lines(mode, s)[k]|
    decreases |s|
  {
    hide EolAt, FirstEol;
    if s != [] {
      var e := FirstEol(mode, s, 0);
      if e == |s| {
        assert Lines(mode, s)[1..] == [] && Ends(mode, s)[1..] == [];
      } else {
        var n := EolAt(mode, s, e);
        LinesAreAll(mode, s[e + n..]);
        assert s == s[..e] + s[e..e + n] + s[e + n..];
        assert Lines(mode, s)[1..] == Lines(mode, s[e + n..]) && Ends(mode, s)[1..] == Ends(mode, s[e + n..]);
        NoEolBefore(mode, s, e);
      }
    }
  }

  // ---- the same by the characters alone ----

  predicate HoldsAt(s: string, sep: string, i: nat) {
    i + |sep| <= |s| && s[i..i + |sep|] == sep
  }

  predicate Holds(s: string, sep: string) {
    exists i :: 0 <= i <= |s| && HoldsAt(s, sep, i)
  }

  function Join(lines: seq<string>, sep: string): string {
    if lines == [] then "" else if |lines| == 1 then lines[0] else lines[0] + sep + Join(lines[1..], sep)
  }

  /** `text` is `lines`, none of which holds `sep`, with `sep` between them and possibly behind
      the last one; a last line that `sep` does not end is not empty. */
  predicate Split(lines: seq<string>, sep: string, text: string) {
    && (forall k | 0 <= k < |lines| :: !Holds(lines[k], sep))
    && (if lines == [] then text == ""
        else text == Join(lines, sep) + sep || (text == Join(lines, sep) && lines[|lines| - 1] != ""))
  }

  predicate StartsWithLf(s: string) {
    s != "" && s[0] == '\n'
  }

  /** An end-of-line of any system, or what may follow the last line. */
  predicate AnyEnd(lines: seq<string>, ends: seq<string>, k: nat)
    requires k < |lines| == |ends|
  {
    && '\r' !in lines[k] && '\n' !in lines[k]
    && (|| ends[k] == "\n" || ends[k] == "\r\n"
        || (ends[k] == "\r" && (k + 1 < |lines| ==> !StartsWithLf(lines[k + 1] + ends[k + 1])))
        || (ends[k] == "" && lines[k] != "" && k == |lines| - 1))
  }

  /** `text` is `lines` with ends of lines of any kind between them, each as long as it can be. */
  ghost predicate SplitAnywhere(lines: seq<string>, text: string) {
    exists ends :: |ends| == |lines| && Weave(lines, ends) == text && AllEnds(lines, ends)
  }

  predicate AllEnds(lines: seq<string>, ends: seq<string>)
    requires |lines| == |ends|
  {
    forall k | 0 <= k < |lines| :: AnyEnd(lines, ends, k)
  }

  /** What ends a line in each mode. */
  predicate IsEnd(mode: Mode, t: string) {
    match mode
    case READ_CR => t == "\r"
    case READ_LF => t == "\n"
    case READ_CRLF => t == "\r\n"
    case READ_UNIV => t in {"\n", "\r", "\r\n"}
  }

  /** An end of length `len` starts the text, the longest there is; or for 0 none does. */
  predicate EndIs(mode: Mode, t: string, len: nat) {
    && len <= |t| && (len > 0 ==> IsEnd(mode, t[..len]))
    && forall n | len < n <= |t| :: !IsEnd(mode, t[..n])
  }

  lemma EolIsEnd(mode: Mode, s: string, i: nat)
    requires i < |s|
    ensures EndIs(mode, s[i..], EolAt(mode, s, i))
  {
    var t := s[i..];
    assert t[..1] == [s[i]];
    if |t| > 1 { assert t[..2] == [s[i], s[i + 1]]; }
    forall n | EolAt(mode, s, i) < n <= |t| ensures !IsEnd(mode, t[..n]) {
      assert |t[..n]| == n && t[..n][0] == s[i];
    }
  }

  function Separator(mode: Mode): string {
    match mode
    case READ_CR => "\r"
    case READ_CRLF => "\r\n"
    case _ => "\n"
  }

  lemma EolIsSeparator(mode: Mode, s: string, i: nat)
    requires i < |s| && !mode.READ_UNIV?
    ensures EolAt(mode, s, i) == if HoldsAt(s, Separator(mode), i) then |Separator(mode)| else 0
  {
    assert i + 1 <= |s| && s[i..i + 1] == [s[i]];
    if i + 1 < |s| { assert s[i..i + 2] == [s[i], s[i + 1]]; }
  }

  lemma FirstHoldsNone(mode: Mode, s: string, e: nat)
    requires !mode.READ_UNIV? && e <= FirstEol(mode, s, 0)
    ensures !Holds(s[..e], Separator(mode))
  {
    hide EolAt, Separator;
    forall i: nat | i <= e ensures !HoldsAt(s[..e], Separator(mode), i) { NotHeldAt(mode, s, e, i); }
  }

  lemma NotHeldAt(mode: Mode, s: string, e: nat, i: nat)
    requires !mode.READ_UNIV? && i <= e <= FirstEol(mode, s, 0)
    ensures !HoldsAt(s[..e], Separator(mode), i)
  {
    hide EolAt;
    var sep := Separator(mode);
    if i + |sep| <= e {
      assert s[..e][i..i + |sep|] == s[i..i + |sep|];
      EolIsSeparator(mode, s, i);
    }
  }

  /** The lines by one kind of end-of-line. */
  lemma {:induction false} LinesSplit(mode: Mode, s: string)
    requires !mode.READ_UNIV?
    ensures Split(Lines(mode, s), Separator(mode), s)
    ensures s == "" <==> Lines(mode, s) == []
    decreases |s|
  {
    hide EolAt, FirstEol, Separator, Holds, HoldsAt, Split;
    if s == [] {
      JoinNone(Separator(mode));
    } else {
      LinesOnce(mode, s);
      var e, sep := FirstEol(mode, s, 0), Separator(mode);
      FirstEolInside(mode, s);
      FirstHoldsNone(mode, s, e);
      if e == |s| {
        assert s[..e] == s;
        JoinOne(s, sep);
      } else {
        var n := EolAt(mode, s, e);
        SeparatorThere(mode, s, e);
        LinesSplit(mode, s[e + n..]);
        assert s == s[..e] + s[e..e + n] + s[e + n..];
        JoinStep(s, s[..e], sep, s[e + n..], Lines(mode, s[e + n..]));
      }
    }
  }

  lemma JoinNone(sep: string)
    ensures Split([], sep, "")
  {
  }

  lemma JoinOne(s: string, sep: string)
    requires s != "" && !Holds(s, sep)
    ensures Split([s], sep, s)
  {
  }

  lemma FirstEolInside(mode: Mode, s: string)
    ensures FirstEol(mode, s, 0) <= |s|
    ensures FirstEol(mode, s, 0) < |s| ==>
              0 < EolAt(mode, s, FirstEol(mode, s, 0)) <= |s| - FirstEol(mode, s, 0)
  {
  }

  lemma SeparatorThere(mode: Mode, s: string, e: nat)
    requires !mode.READ_UNIV? && e < |s| && EolAt(mode, s, e) > 0
    ensures EolAt(mode, s, e) == |Separator(mode)| <= |s| - e && s[e..e + EolAt(mode, s, e)] == Separator(mode)
  {
    EolIsSeparator(mode, s, e);
  }

  lemma JoinStep(s: string, line: string, sep: string, rest: string, lines: seq<string>)
    requires s == line + sep + rest && Split(lines, sep, rest) && !Holds(line, sep) && (lines == [] <==> rest == "")
    ensures Split([line] + lines, sep, s)
  {
    hide Holds;
    assert ([line] + lines)[1..] == lines;
    if lines == [] {
      assert rest == "" && s == line + sep && Join([line] + lines, sep) == line;
    } else {
      assert Join([line] + lines, sep) == line + sep + Join(lines, sep);
      if rest == Join(lines, sep) + sep {
        assert s == Join([line] + lines, sep) + sep;
      }
    }
  }

  /** The lines by any kind of end-of-line. */
  lemma {:induction false} LinesSplitAnywhere(s: string)
    ensures |Ends(READ_UNIV, s)| == |Lines(READ_UNIV, s)| && AllEnds(Lines(READ_UNIV, s), Ends(READ_UNIV, s))
    ensures s == "" <==> Lines(READ_UNIV, s) == []
    ensures s != "" ==> StartsWithLf(Lines(READ_UNIV, s)[0] + Ends(READ_UNIV, s)[0]) == StartsWithLf(s)
    decreases |s|
  {
    hide FirstEol, AllEnds, StartsWithLf, EolAt;
    if s == [] {
      NoEnds();
    } else {
      var e := FirstEol(READ_UNIV, s, 0);
      NoEndBefore(s);
      if e == |s| {
        LastLine(s);
      } else {
        var n := EolAt(READ_UNIV, s, e);
        var rest := s[e + n..];
        LinesSplitAnywhere(rest);
        LongestEnd(s, e);
        OneMoreEnd(s[..e], s[e..e + n], Lines(READ_UNIV, rest), Ends(READ_UNIV, rest), rest);
        SameStart(s, e + n);
        assert s[..e] + s[e..e + n] == s[..e + n];
      }
    }
  }

  lemma NoEnds()
    ensures AllEnds([], [])
  {
  }

  lemma LastLine(s: string)
    requires s != "" && '\r' !in s && '\n' !in s
    ensures AllEnds([s], [""]) && StartsWithLf([s][0] + [""][0]) == StartsWithLf(s)
  {
    assert [s][0] + [""][0] == s;
  }

  lemma SameStart(s: string, n: nat)
    requires 0 < n <= |s|
    ensures StartsWithLf(s[..n]) == StartsWithLf(s)
  {
  }

  lemma LongestEnd(s: string, e: nat)
    requires e < |s| && EolAt(READ_UNIV, s, e) > 0
    ensures var n := EolAt(READ_UNIV, s, e);
            && e + n <= |s| && s[e..e + n] in {"\n", "\r\n", "\r"}
            && (s[e..e + n] == "\r" ==> !StartsWithLf(s[e + n..]))
  {
    var n := EolAt(READ_UNIV, s, e);
    assert n == 1 ==> s[e..e + n] == [s[e]];
    assert n == 2 ==> s[e..e + n] == [s[e], s[e + 1]];
  }

  lemma OneMoreEnd(line: string, end: string, lines: seq<string>, ends: seq<string>, rest: string)
    requires |ends| == |lines| && AllEnds(lines, ends) && '\r' !in line && '\n' !in line
    requires end in {"\n", "\r\n", "\r"} && (end == "\r" ==> !StartsWithLf(rest))
    requires lines != [] ==> StartsWithLf(lines[0] + ends[0]) == StartsWithLf(rest)
    ensures AllEnds([line] + lines, [end] + ends)
  {
    hide StartsWithLf;
    var lines', ends' := [line] + lines, [end] + ends;
    forall k | 0 <= k < |lines'| ensures AnyEnd(lines', ends', k) {
      if k > 0 {
        assert AnyEnd(lines, ends, k - 1);
        assert k + 1 < |lines'| ==> lines'[k + 1] == lines[k] && ends'[k + 1] == ends[k];
      } else if lines != [] {
        assert lines'[1] == lines[0] && ends'[1] == ends[0];
      }
    }
  }

  lemma NoEndBefore(s: string)
    ensures var e := FirstEol(READ_UNIV, s, 0);
            && e <= |s| && '\r' !in s[..e] && '\n' !in s[..e]
            && (e < |s| ==> 0 < EolAt(READ_UNIV, s, e) <= |s| - e)
  {
    var e := FirstEol(READ_UNIV, s, 0);
    forall i | 0 <= i < e ensures s[..e][i] != CR && s[..e][i] != LF {
      assert EolAt(READ_UNIV, s, i) == 0;
    }
  }

  /** Every line is counted but a last one that no end-of-line ends. */
  lemma {:induction false} LinesCounted(mode: Mode, s: string)
    ensures |Ends(mode, s)| == |Lines(mode, s)| && (s == "" <==> Lines(mode, s) == [])
    ensures EolCount(mode, s) == if s != "" && Ends(mode, s)[|Lines(mode, s)| - 1] == "" then |Lines(mode, s)| - 1
                                 else |Lines(mode, s)|
    decreases |s|
  {
    hide EolAt, FirstEol, Lines, EolCount;
    NoLines(mode);
    if s != "" {
      LinesOnce(mode, s);
      CountOnce(mode, s);
      var e := FirstEol(mode, s, 0);
      FirstEolInside(mode, s);
      if e < |s| {
        var n := EolAt(mode, s, e);
        var rest := s[e + n..];
        LinesCounted(mode, rest);
        assert |s[e..e + n]| == n > 0;
        assert Ends(mode, s) == [s[e..e + n]] + Ends(mode, rest);
      }
    }
  }

  lemma LinesAreSplit(mode: Mode, s: string)
    ensures mode.READ_LF? ==> Split(Lines(mode, s), "\n", s)
    ensures mode.READ_CR? ==> Split(Lines(mode, s), "\r", s)
    ensures mode.READ_CRLF? ==> Split(Lines(mode, s), "\r\n", s)
    ensures mode.READ_UNIV? ==> SplitAnywhere(Lines(mode, s), s)
  {
    hide Lines, Ends, Split, AllEnds;
    if mode.READ_UNIV? {
      LinesAreAll(mode, s);
      LinesSplitAnywhere(s);
    } else {
      LinesSplit(mode, s);
    }
  }

  // ---- taking a text apart ----

  lemma NoEolBefore(mode: Mode, s: string, e: nat)
    requires e <= FirstEol(mode, s, 0)
    ensures FirstEol(mode, s[..e], 0) == e
  {
    var f := FirstEol(mode, s[..e], 0);
    assert f < e ==> EolAt(mode, s, f) == 0;
  }

  lemma EolAtSuffix(mode: Mode, s: string, k: nat, i: nat)
    requires k <= i < |s|
    ensures EolAt(mode, s[k..], i - k) == EolAt(mode, s, i)
  {
  }

  lemma {:induction false} FirstEolSuffix(mode: Mode, s: string, k: nat, i: nat)
    requires k <= i <= |s|
    ensures FirstEol(mode, s[k..], i - k) == FirstEol(mode, s, i) - k
    decreases |s| - i
  {
    if i < |s| {
      EolAtSuffix(mode, s, k, i);
      FirstEolSuffix(mode, s, k, i + 1);
    }
  }

  lemma {:induction false} FirstEolSkip(mode: Mode, s: string, i: nat, k: nat)
    requires i <= |s| && i <= k <= FirstEol(mode, s, i)
    ensures FirstEol(mode, s, k) == FirstEol(mode, s, i)
    decreases k - i
  {
    if i < k { FirstEolSkip(mode, s, i + 1, k); }
  }

  /** A line may be taken in two pieces, as long as no end-of-line starts in the first. */
  lemma LinePieces(mode: Mode, s: string, k: nat)
    requires 0 < k <= FirstEol(mode, s, 0)
    ensures k <= |s| && (k < |s| ==> |Lines(mode, s[k..])| > 0)
    ensures Lines(mode, s) == if k == |s| then [s]
                              else [s[..k] + Lines(mode, s[k..])[0]] + Lines(mode, s[k..])[1..]
  {
    var e := FirstEol(mode, s, 0);
    FirstEolSkip(mode, s, 0, k);
    FirstEolSuffix(mode, s, k, k);
    if k < |s| { RestOfLine(mode, s, k, e); }
  }

  lemma RestOfLine(mode: Mode, s: string, k: nat, e: nat)
    requires 0 < k < |s| && k <= e == FirstEol(mode, s, 0) && FirstEol(mode, s[k..], 0) == e - k
    ensures Lines(mode, s[k..]) != []
    ensures Lines(mode, s) == [s[..k] + Lines(mode, s[k..])[0]] + Lines(mode, s[k..])[1..]
  {
    hide Lines, EolAt, FirstEol;
    var r := s[k..];
    LinesOnce(mode, s);
    LinesOnce(mode, r);
    assert s[..k] + r[..e - k] == s[..e];
    if e < |s| {
      EolAtSuffix(mode, s, k, e);
      var n := EolAt(mode, s, e);
      var l := Lines(mode, s[e + n..]);
      assert r[e - k + n..] == s[e + n..];
      assert Lines(mode, r) == [r[..e - k]] + l;
    } else {
      assert r[..e - k] == r && Lines(mode, r) == [r];
      assert s[..e] == s && Lines(mode, s) == [s];
      assert [r][1..] == [];
    }
  }

  lemma CountPieces(mode: Mode, s: string, k: nat)
    requires 0 < k <= FirstEol(mode, s, 0)
    ensures k <= |s| && EolCount(mode, s[k..]) == EolCount(mode, s)
  {
    hide EolAt, EolCount;
    var e := FirstEol(mode, s, 0);
    FirstEolSkip(mode, s, 0, k);
    FirstEolSuffix(mode, s, k, k);
    CountOnce(mode, s);
    CountOnce(mode, s[k..]);
    if e < |s| {
      EolAtSuffix(mode, s, k, e);
      assert s[k..][e - k + EolAt(mode, s, e)..] == s[e + EolAt(mode, s, e)..];
    }
  }

  lemma {:induction false} CountOnce(mode: Mode, s: string)
    ensures EolCount(mode, s) ==
              var e := FirstEol(mode, s, 0);
              if e == |s| then 0 else 1 + EolCount(mode, s[e + EolAt(mode, s, e)..])
  {
  }

  lemma {:induction false} LinesOnce(mode: Mode, s: string)
    requires s != []
    ensures Lines(mode, s) == var e := FirstEol(mode, s, 0);
                              if e == |s| then [s] else [s[..e]] + Lines(mode, s[e + EolAt(mode, s, e)..])
  {
    hide EolAt, FirstEol;
  }

  // ---- the stream ----

  datatype Result = NEED_READ | LINE(text: string, eoln: bool)

  class Stream {
    const mode: Mode
    const buffer: array<char>
    var cpos: int
    var lpos: int
    var bufPos: int
    var lineNum: int
    var column: int
    var eof: bool
    var gotCr: bool

    // What the operating system has not delivered yet, and all that was ever there.
    ghost const input: string
    var source: string

    ghost predicate Valid()
      reads `cpos, `lpos, `bufPos, `eof, `source, buffer
    {
      && buffer.Length >= (if mode.READ_CRLF? then 2 else 1)
      && 0 <= cpos <= lpos <= buffer.Length
      && (eof ==> source == [])
      && 0 <= bufPos && bufPos + cpos <= |input| && input[bufPos + cpos..] == Pending()
    }

    /** What has not been read yet, buffered or not. */
    ghost function Pending(): string
      requires 0 <= cpos <= lpos <= buffer.Length
      reads `cpos, `lpos, `source, buffer
    {
      buffer[cpos..lpos] + source
    }

    /** The line feed after a carriage return that ended a line belongs to that end-of-line. */
    ghost function Rest(): string
      requires 0 <= cpos <= lpos <= buffer.Length
      reads `cpos, `lpos, `source, `gotCr, buffer
    {
      AfterCr(mode, gotCr, Pending())
    }

    constructor (m: Mode, text: string, size: nat)
      requires size >= if m.READ_CRLF? then 2 else 1
      ensures Valid() && fresh(buffer) && Pending() == Rest() == text && mode == m && input == text
      ensures lineNum == 1 && column == 0
    {
      mode, buffer, input, source := m, new char[size], text, text;
      cpos, lpos, bufPos, lineNum, column, eof, gotCr := 0, 0, 0, 1, 0, false, false;
    }

    /** The end-of-line at buffer position `p`, as far as the buffer tells: its length, 0, or -1. */
    method GetEoln(p: int) returns (len: int)
      requires Valid() && cpos <= p <= lpos
      modifies this`gotCr
      ensures len == EolnLen(mode, buffer[cpos..lpos], p - cpos, eof)
      ensures len >= 0 ==> p < lpos && EndIs(mode, buffer[p..lpos], len)
      ensures len < 0 <==> p == lpos || (mode.READ_CRLF? && p == lpos - 1 && buffer[p] == '\r' && !eof)
      ensures gotCr == if mode.READ_UNIV? then len == 1 && buffer[p] == CR else old(gotCr)
    {
      hide EndIs;
      assert forall i | 0 <= i < lpos - cpos :: buffer[cpos..lpos][i] == buffer[cpos + i];
      if p < lpos {
        EolIsEnd(mode, buffer[cpos..lpos], p - cpos);
        assert buffer[cpos..lpos][p - cpos..] == buffer[p..lpos];
      }
      match mode
      case READ_CR => len := if p < lpos then if buffer[p] == CR then 1 else 0 else -1;
      case READ_LF => len := if p < lpos then if buffer[p] == LF then 1 else 0 else -1;
      case READ_CRLF =>
        len := if p < lpos - 1 then if buffer[p] == CR && buffer[p + 1] == LF then 2 else 0
               else if p == lpos - 1 && (buffer[p] != CR || eof) then 0 else -1;
      case READ_UNIV =>
        if p < lpos {
          if buffer[p] == LF { len := 1; }
          else if buffer[p] == CR { len := if p < lpos - 1 && buffer[p + 1] == LF then 2 else 1; }
          else { len := 0; }
        } else {
          len := -1;
        }
        gotCr := false;
        gotCr := len == 1 && buffer[p] == CR;
    }

    method SkipTrailingLf()
      requires Valid()
      modifies this`cpos, this`gotCr
      ensures Valid() && Rest() == old(Rest()) && |Pending()| <= |old(Pending())|
      ensures mode.READ_UNIV? && gotCr && cpos < lpos ==> buffer[cpos] != LF
    {
      assert cpos < lpos ==> Pending()[0] == buffer[cpos] && Pending()[1..] == buffer[cpos + 1..lpos] + source;
      if mode.READ_UNIV? && gotCr && cpos < lpos && buffer[cpos] == LF {
        assert input[bufPos + cpos + 1..] == Pending()[1..];
        cpos := cpos + 1;
        gotCr := false;
      }
    }

    /** As much of the current line as the buffer holds. */
    method SioReadln() returns (r: Result)
      requires Valid()
      modifies this`cpos, this`gotCr, this`lineNum, this`column
      ensures Valid() && |Pending()| <= |old(Pending())|
      ensures r.NEED_READ? ==> Rest() == old(Rest()) && lineNum == old(lineNum) && (eof ==> cpos == lpos)
      ensures r.NEED_READ? ==> lpos - cpos <= (if mode.READ_CRLF? then 1 else 0)
      ensures r.LINE? && r.eoln ==> TookLine(mode, old(Rest()), r.text, Rest()) && lineNum == old(lineNum) + 1
      ensures r.LINE? && !r.eoln ==> TookPiece(mode, old(Rest()), r.text, Rest()) && lineNum == old(lineNum)
      ensures r.LINE? ==> |Pending()| < |old(Pending())|
      ensures column == if r.NEED_READ? then old(column) else if r.eoln then 0 else old(column) + |r.text|
    {
      hide EolAt, Clear, EolnLen, FirstEol, TookLine, TookPiece, AfterCr;
      SkipTrailingLf();
      var start := cpos;
      if start >= lpos { return NEED_READ; }
      ghost var s := buffer[start..lpos];
      NothingToSkip(mode, gotCr, s, source);
      var wpos, nl := ScanLine();
      if wpos == start && nl <= 0 {
        NothingToSkip(mode, gotCr, s, source);
        return NEED_READ;
      }
      r := TakeLine(wpos, nl);
    }

    /** Looks for the end of the line from `cpos` on: found at `wpos` with length `nl`, or not. */
    method ScanLine() returns (wpos: int, nl: int)
      requires Valid() && cpos < lpos && Rest() == Pending()
      modifies this`gotCr
      ensures cpos <= wpos <= lpos && Clear(mode, Pending(), wpos - cpos)
      ensures nl == 0 ==> wpos == lpos && (mode.READ_UNIV? ==> !gotCr)
      ensures nl != 0 ==> wpos < lpos && nl == EolnLen(mode, buffer[cpos..lpos], wpos - cpos, eof)
      ensures nl != 0 && mode.READ_UNIV? ==> gotCr == (nl == 1 && buffer[wpos] == CR)
      ensures nl < 0 ==> wpos == lpos - 1 && !eof && mode.READ_CRLF?
      ensures !mode.READ_UNIV? ==> gotCr == old(gotCr)
    {
      hide EolAt, Clear, EolnLen;
      ghost var s := buffer[cpos..lpos];
      wpos, nl := cpos, 0;
      ClearStart(mode, Pending());
      while wpos < lpos
        invariant cpos <= wpos <= lpos && nl == 0 && Clear(mode, Pending(), wpos - cpos)
        invariant mode.READ_UNIV? && wpos > cpos ==> !gotCr
        invariant !mode.READ_UNIV? ==> gotCr == old(gotCr)
        decreases lpos - wpos
      {
        nl := GetEoln(wpos);
        EolnMeans(mode, s, source, wpos - cpos, eof);
        if nl != 0 { break; }
        ClearOneMore(mode, Pending(), wpos - cpos);
        wpos := wpos + 1;
      }
    }

    /** Hands out the text up to `wpos` and moves past it, and past the end-of-line if there is one. */
    method TakeLine(wpos: int, nl: int) returns (r: Result)
      requires Valid() && cpos <= wpos <= lpos && Clear(mode, Pending(), wpos - cpos)
      requires nl <= 0 ==> wpos > cpos && (mode.READ_UNIV? ==> !gotCr)
      requires nl > 0 ==> wpos < lpos && nl == EolnLen(mode, buffer[cpos..lpos], wpos - cpos, eof)
      requires nl > 0 && mode.READ_UNIV? ==> gotCr == (nl == 1 && buffer[wpos] == CR)
      modifies this`cpos, this`lineNum, this`column
      ensures Valid() && r.LINE? && r.eoln == (nl > 0) && |Pending()| < |old(Pending())|
      ensures r.eoln ==> TookLine(mode, old(Pending()), r.text, Rest()) && lineNum == old(lineNum) + 1
      ensures !r.eoln ==> TookPiece(mode, old(Pending()), r.text, Rest()) && lineNum == old(lineNum)
      ensures column == if r.eoln then 0 else old(column) + |r.text|
    {
      hide EolAt, Clear, EolnLen, FirstEol, TookLine, TookPiece, AfterCr;
      ghost var s := buffer[cpos..lpos];
      var eolnRead := wpos <= lpos && nl > 0;
      var readLength := wpos - cpos;
      r := LINE(buffer[cpos..wpos], eolnRead);
      assert r.text == s[..readLength] && |r.text| == readLength;
      if eolnRead {
        LineTaken(mode, s, source, readLength, nl, eof, gotCr);
        TakeAt(wpos + nl);
        lineNum := lineNum + 1;
        column := 0;
      } else {
        PieceTaken(mode, s, source, readLength, gotCr);
        TakeAt(wpos);
        column := column + readLength;
      }
    }

    method TakeAt(p: int)
      requires Valid() && cpos <= p <= lpos
      modifies this`cpos
      ensures Valid() && cpos == p
      ensures Pending() == old(buffer[cpos..lpos])[p - old(cpos)..] + source
      ensures |Pending()| == |old(Pending())| - (p - old(cpos))
    {
      assert buffer[p..lpos] == buffer[cpos..lpos][p - cpos..];
      assert buffer[p..lpos] + source == Pending()[p - cpos..];
      assert input[bufPos + p..] == input[bufPos + cpos..][p - cpos..];
      cpos := p;
    }

    /** What has been read is dropped from the buffer. */
    method ShiftBuffer()
      requires Valid()
      modifies this`cpos, this`lpos, this`bufPos, buffer
      ensures Valid() && Pending() == old(Pending()) && cpos == 0 && lpos == old(lpos - cpos)
    {
      ghost var pending := Pending();
      var count := lpos - cpos;
      if count <= 0 {
        bufPos := bufPos + lpos;
        cpos, lpos := 0, 0;
      } else {
        bufPos := bufPos + cpos;
        ghost var kept := buffer[cpos..lpos];
        forall i | 0 <= i < count { buffer[i] := buffer[cpos + i]; }
        cpos := 0;
        lpos := count;
        assert buffer[..count] == kept;
      }
      assert Pending() == pending;
    }

    /** The operating system delivers at least one character, as long as it has any and there
        is room. */
    method OsRead(at: int, max: int) returns (nchars: int)
      requires 0 <= at <= buffer.Length && 0 <= max == buffer.Length - at
      modifies this`source, buffer
      ensures 0 <= nchars <= max && nchars <= |old(source)| && (nchars == 0 <==> max == 0 || old(source) == [])
      ensures source == old(source)[nchars..] && buffer[..at] == old(buffer[..at])
      ensures buffer[at..at + nchars] == old(source)[..nchars]
    {
      var wish: int := *;
      nchars := if wish < 1 then 1 else wish;
      if nchars > max { nchars := max; }
      if nchars > |source| { nchars := |source|; }
      var text := source[..nchars];
      source := source[nchars..];
      forall i | 0 <= i < nchars { buffer[at + i] := text[i]; }
    }

    /** Reads more characters behind those that are left; false after the end of the file.  When
        the buffer is full already, that is taken for the end of the file: the text that has not
        been delivered is then lost. */
    method SioReadbuffer() returns (ok: bool)
      requires Valid()
      modifies this`cpos, this`lpos, this`bufPos, this`source, this`eof, buffer
      ensures 0 <= cpos <= lpos <= buffer.Length && Pending() == old(Pending()) && (ok <==> !old(eof))
      ensures !ok ==> source == old(source) && eof && lpos - cpos == old(lpos - cpos)
      ensures ok ==> Measure() < old(Measure())
      ensures Valid() <==> old(lpos - cpos) < buffer.Length || old(source) == []
      ensures old(lpos - cpos) == buffer.Length ==> eof && source == old(source)
    {
      if eof { return false; }
      ghost var pending := Pending();
      ShiftBuffer();
      ghost var left, before := buffer[..lpos], source;
      var nchars := OsRead(lpos, buffer.Length - lpos);
      assert buffer[..lpos + nchars] == left + before[..nchars];
      assert before == before[..nchars] + source;
      lpos := lpos + nchars;
      if nchars == 0 { eof := true; }
      assert Pending() == pending;
      return true;
    }

    ghost function Measure(): nat
      reads `source, `eof
    {
      |source| + if eof then 0 else 1
    }

    /** A piece of a line, read again whenever the buffer has to be filled first. */
    method GetLine0() returns (r: Option<Result>)
      requires Valid()
      modifies this, buffer
      ensures Valid() && |Pending()| <= |old(Pending())|
      ensures r.None? ==> old(Rest()) == Rest() == [] && lineNum == old(lineNum)
      ensures r.Some? ==> r.value.LINE? && |Pending()| < |old(Pending())|
      ensures r.Some? && r.value.eoln ==>
                TookLine(mode, old(Rest()), r.value.text, Rest()) && lineNum == old(lineNum) + 1
      ensures r.Some? && !r.value.eoln ==>
                TookPiece(mode, old(Rest()), r.value.text, Rest()) && lineNum == old(lineNum)
      ensures column == if r.None? then old(column) else if r.value.eoln then 0 else old(column) + |r.value.text|
    {
      hide TookLine, TookPiece;
      while true
        invariant Valid() && Rest() == old(Rest()) && |Pending()| <= |old(Pending())|
        invariant lineNum == old(lineNum) && column == old(column)
        decreases Measure()
      {
        var line := SioReadln();
        if line.LINE? { return Some(line); }
        var ok := Refill();
        if !ok { return None; }
      }
    }

    /** The answer to a demand for more: the text to come is the same, and after the end of the
        file nothing is left of it. */
    method Refill() returns (ok: bool)
      requires Valid() && lpos - cpos <= (if mode.READ_CRLF? then 1 else 0) && (eof ==> cpos == lpos)
      modifies this`cpos, this`lpos, this`bufPos, this`source, this`eof, buffer
      ensures Valid() && Rest() == old(Rest()) && Pending() == old(Pending())
      ensures if ok then Measure() < old(Measure()) else Rest() == []
    {
      ok := SioReadbuffer();
    }

    /** The next line of the text, however its pieces arrive. */
    method GetLine() returns (line: Option<string>)
      requires Valid()
      modifies this, buffer
      decreases |Pending()|
      ensures Valid() && |Pending()| <= |old(Pending())|
      ensures line.None? <==> Lines(mode, old(Rest())) == []
      ensures line.None? ==> Rest() == []
      ensures line.Some? ==> line.value == Lines(mode, old(Rest()))[0] && |Pending()| < |old(Pending())|
      ensures line.Some? ==> Lines(mode, Rest()) == Lines(mode, old(Rest()))[1..]
      ensures lineNum + EolCount(mode, Rest()) == old(lineNum + EolCount(mode, Rest()))
      ensures line.Some? ==> column == if lineNum > old(lineNum) then 0 else old(column) + |line.value|
      ensures line.None? ==> column == old(column)
    {
      hide Lines, EolCount, TookLine, TookPiece, FirstEol;
      ghost var rest := Rest();
      var r := GetLine0();
      NoLines(mode);
      if r.None? { return None; }
      var text := r.value.text;
      if r.value.eoln {
        LineStep(mode, rest, text, Rest());
        return Some(text);
      }
      PieceStep(mode, rest, text, Rest());
      var more := GetLine();
      match more
      case None => line := Some(text);
      case Some(t) => line := Some(text + t);
    }

    /** Reading to the end gives the lines of the text, whatever the operating system delivers
        at a time. */
    method GetLines() returns (lines: seq<string>)
      requires Valid()
      modifies this, buffer
      ensures Valid() && lines == Lines(mode, old(Rest())) && Rest() == []
      ensures mode.READ_LF? ==> Split(lines, "\n", old(Rest()))
      ensures mode.READ_CR? ==> Split(lines, "\r", old(Rest()))
      ensures mode.READ_CRLF? ==> Split(lines, "\r\n", old(Rest()))
      ensures mode.READ_UNIV? ==> SplitAnywhere(lines, old(Rest()))
      ensures lineNum == old(lineNum) + EolCount(mode, old(Rest()))
      ensures lineNum == old(lineNum) + |lines| || (lines != [] && lineNum == old(lineNum) + |lines| - 1)
    {
      hide Lines, Ends, EolCount, Split, SplitAnywhere;
      NoLines(mode);
      ghost var text := Rest();
      lines := [];
      var line := GetLine();
      while line.Some?
        invariant Valid() && (line.None? ==> Rest() == [])
        invariant lines + (if line.Some? then [line.value] else []) + Lines(mode, Rest()) == Lines(mode, old(Rest()))
        invariant lineNum + EolCount(mode, Rest()) == old(lineNum + EolCount(mode, Rest()))
        decreases |Pending()|, line.Some?
      {
        ghost var rest := Lines(mode, Rest());
        lines := lines + [line.value];
        line := GetLine();
        assert line.Some? ==> rest == [line.value] + Lines(mode, Rest());
      }
      assert lines == Lines(mode, text);
      LinesAreSplit(mode, text);
      LinesCounted(mode, text);
    }
  }

  lemma NoLines(mode: Mode)
    ensures Lines(mode, []) == [] && EolCount(mode, []) == 0
  {
  }

  lemma LineStep(mode: Mode, was: string, text: string, now: string)
    requires TookLine(mode, was, text, now)
    ensures Lines(mode, was) == [text] + Lines(mode, now) && EolCount(mode, was) == 1 + EolCount(mode, now)
  {
  }

  lemma PieceStep(mode: Mode, was: string, text: string, now: string)
    requires TookPiece(mode, was, text, now)
    ensures Lines(mode, was) == if now == [] then [text] else [text + Lines(mode, now)[0]] + Lines(mode, now)[1..]
    ensures EolCount(mode, was) == EolCount(mode, now)
    ensures Lines(mode, now) == [] <==> now == []
  {
    hide Lines, EolCount;
    LinePieces(mode, was, |text|);
    CountPieces(mode, was, |text|);
    NoLines(mode);
    if now != [] { LinesOnce(mode, now); }
    if |text| == |was| { assert was[..|text|] == was; }
  }

  /** No end-of-line starts among the first `n` characters. */
  predicate Clear(mode: Mode, s: string, n: nat) {
    n <= |s| && forall j | 0 <= j < n :: EolAt(mode, s, j) == 0
  }

  lemma ClearStart(mode: Mode, s: string)
    ensures Clear(mode, s, 0)
  {
  }

  lemma ClearOneMore(mode: Mode, s: string, n: nat)
    requires n < |s| && Clear(mode, s, n) && EolAt(mode, s, n) == 0
    ensures Clear(mode, s, n + 1)
  {
  }

  lemma ClearIsFirst(mode: Mode, s: string, n: nat)
    requires Clear(mode, s, n)
    ensures n <= FirstEol(mode, s, 0)
    ensures n < |s| && EolAt(mode, s, n) > 0 ==> FirstEol(mode, s, 0) == n
  {
    ClearFrom(mode, s, 0, n);
  }

  lemma {:induction false} ClearFrom(mode: Mode, s: string, i: nat, n: nat)
    requires Clear(mode, s, n) && i <= n
    ensures n <= FirstEol(mode, s, i)
    decreases n - i
  {
    if i < n { ClearFrom(mode, s, i + 1, n); }
  }

  /** What the buffer tells about an end-of-line, and what the whole text does. */
  lemma EolnMeans(mode: Mode, s: string, source: string, p: nat, eof: bool)
    requires p < |s| && (eof ==> source == [])
    ensures var len, n := EolnLen(mode, s, p, eof), EolAt(mode, s + source, p);
            && (len == 0 ==> n == 0) && (len > 0 ==> n > 0) && (len < 0 ==> p == |s| - 1 && !eof && mode.READ_CRLF?)
  {
  }

  /** A line feed that is still to come is dealt with by remembering the carriage return. */
  lemma Taken(mode: Mode, s: string, source: string, p: nat, len: nat, eof: bool, gotCr: bool)
    requires p < |s| && 0 < len == EolnLen(mode, s, p, eof) && (eof ==> source == [])
    requires mode.READ_UNIV? ==> gotCr == (len == 1 && s[p] == CR)
    ensures len <= |s| - p
    ensures AfterCr(mode, gotCr, s[p + len..] + source) == (s + source)[p + EolAt(mode, s + source, p)..]
  {
  }

  /** What `get_eoln` finds at `p` when the buffer ends with `s`. */
  function EolnLen(mode: Mode, s: string, p: int, eof: bool): int
    requires 0 <= p <= |s|
  {
    if p == |s| then -1
    else if mode.READ_CRLF? && p == |s| - 1 && s[p] == CR && !eof then -1
    else EolAt(mode, s, p)
  }

  function AfterCr(mode: Mode, gotCr: bool, s: string): string {
    if mode.READ_UNIV? && gotCr && s != [] && s[0] == LF then s[1..] else s
  }

  /** The whole first line was taken, with its end-of-line. */
  predicate TookLine(mode: Mode, was: string, text: string, now: string) {
    var e := FirstEol(mode, was, 0);
    e < |was| && text == was[..e] && now == was[e + EolAt(mode, was, e)..]
  }

  lemma NothingToSkip(mode: Mode, gotCr: bool, s: string, source: string)
    requires s != [] && (mode.READ_UNIV? && gotCr ==> s[0] != LF)
    ensures AfterCr(mode, gotCr, s + source) == s + source
  {
  }

  lemma LineTaken(mode: Mode, s: string, source: string, n: nat, nl: int, eof: bool, gotCr: bool)
    requires n < |s| && Clear(mode, s + source, n) && (eof ==> source == [])
    requires 0 < nl == EolnLen(mode, s, n, eof) && (mode.READ_UNIV? ==> gotCr == (nl == 1 && s[n] == CR))
    ensures n + nl <= |s|
    ensures TookLine(mode, s + source, s[..n], AfterCr(mode, gotCr, s[n + nl..] + source))
  {
    EolnMeans(mode, s, source, n, eof);
    Taken(mode, s, source, n, nl, eof, gotCr);
    ClearIsFirst(mode, s + source, n);
    assert (s + source)[..n] == s[..n];
  }

  lemma PieceTaken(mode: Mode, s: string, source: string, n: nat, gotCr: bool)
    requires 0 < n <= |s| && Clear(mode, s + source, n) && (mode.READ_UNIV? ==> !gotCr)
    ensures TookPiece(mode, s + source, s[..n], AfterCr(mode, gotCr, s[n..] + source))
  {
    ClearIsFirst(mode, s + source, n);
    assert (s + source)[..n] == s[..n] && (s + source)[n..] == s[n..] + source;
  }

  /** A part of the first line was taken. */
  predicate TookPiece(mode: Mode, was: string, text: string, now: string) {
    0 < |text| <= FirstEol(mode, was, 0) && text == was[..|text|] && now == was[|text|..]
  }
}
