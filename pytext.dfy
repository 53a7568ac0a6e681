/**
  The two methods of Python's built-in `str` that keyword search relies on:
  `str.strip()` with no argument, which drops leading and trailing white
  space, and `str.splitlines()` without `keepends`, which cuts a text into
  lines and drops their terminators.
 */
module PyText {

  /** `str.isspace()` for one character: the characters CPython treats as
      white space, which are also the ones `str.strip()` removes. */
  predicate IsSpace(c: char) {
    || ('\t' <= c <= '\r')            // tab, line feed, vertical tab, form feed, carriage return
    || ('\U{1C}' <= c <= ' ')         // the four information separators and space
    || c == '\U{85}' || c == '\U{A0}' || c == '\U{1680}'
    || ('\U{2000}' <= c <= '\U{200A}')
    || c == '\U{2028}' || c == '\U{2029}' || c == '\U{202F}' || c == '\U{205F}' || c == '\U{3000}'
  }

  /** Every character of `s` is white space; true of the empty string. */
  predicate IsBlank(s: string) {
    forall k :: 0 <= k < |s| ==> IsSpace(s[k])
  }

  /** `s` without its leading white space (`str.lstrip()`): the longest
      suffix of `s` that does not start with white space, everything cut
      off being white space. */
  function TrimStart(s: string): (r: string)
    ensures |r| <= |s| && r == s[|s| - |r|..]
    ensures IsBlank(s[..|s| - |r|])
    ensures r == [] || !IsSpace(r[0])
    decreases |s|
  {
    if s != [] && IsSpace(s[0]) then
      var t := TrimStart(s[1..]);
      assert s[..|s| - |t|] == [s[0]] + s[1..][..|s| - 1 - |t|];
      t
    else
      s
  }

  /** `s` without its trailing white space (`str.rstrip()`): the longest
      prefix of `s` that does not end with white space, everything cut
      off being white space. */
  function TrimEnd(s: string): (r: string)
    ensures |r| <= |s| && r == s[..|r|]
    ensures IsBlank(s[|r|..])
    ensures r == [] || !IsSpace(r[|r| - 1])
    decreases |s|
  {
    if s != [] && IsSpace(s[|s| - 1]) then
      var t := TrimEnd(s[..|s| - 1]);
      assert s[|t|..] == s[..|s| - 1][|t|..] + [s[|s| - 1]];
      t
    else
      s
  }

  /** Number of white-space characters `str.strip()` removes from the front of `s`. */
  function LeadingSpace(s: string): (n: nat)
    ensures n <= |s|
  {
    |s| - |TrimStart(s)|
  }

  /**
    `str.strip()`: `s` with white space removed at both ends. The result
    neither starts nor ends with white space, and it is empty exactly when
    `s` is blank.
   */
  function Strip(s: string): (r: string)
    ensures r != [] ==> !IsSpace(r[0]) && !IsSpace(r[|r| - 1])
    ensures r == [] <==> IsBlank(s)
  {
    var t := TrimStart(s);
    var r := TrimEnd(t);
    if r == [] then
      BlankJoin(s[..|s| - |t|], t);
      assert s[..|s| - |t|] + t == s;
      r
    else
      assert r[0] == t[0];
      r
  }

  /** The blank strings are closed under concatenation. */
  lemma BlankJoin(a: string, b: string)
    requires IsBlank(a) && IsBlank(b)
    ensures IsBlank(a + b)
  {
  }

  /** What `str.strip()` keeps is one slice of `s`: it starts after the leading
      white space, and everything before and after it is white space. */
  lemma StripIsSlice(s: string)
    ensures LeadingSpace(s) + |Strip(s)| <= |s|
    ensures Strip(s) == s[LeadingSpace(s)..LeadingSpace(s) + |Strip(s)|]
    ensures IsBlank(s[..LeadingSpace(s)]) && IsBlank(s[LeadingSpace(s) + |Strip(s)|..])
  {
    var t := TrimStart(s);
    var r := Strip(s);
    var i := LeadingSpace(s);
    assert t == s[i..];
    assert s[i + |r|..] == t[|r|..];
  }

  /** A line boundary of `str.splitlines()`. */
  predicate IsLineBreak(c: char) {
    || c == '\n' || c == '\r'
    || c == '\U{0B}' || c == '\U{0C}'     // vertical tab, form feed
    || ('\U{1C}' <= c <= '\U{1E}')        // file, group and record separators
    || c == '\U{85}' || c == '\U{2028}' || c == '\U{2029}'
  }

  /** `s` holds no line boundary. */
  predicate NoLineBreak(s: string) {
    forall k :: 0 <= k < |s| ==> !IsLineBreak(s[k])
  }

  /** Index of the first line boundary in `s` at or after `i`, or `|s|` when there is none. */
  function LineEnd(s: string, i: nat): (e: nat)
    requires i <= |s|
    ensures i <= e <= |s|
    ensures e < |s| ==> IsLineBreak(s[e])
    ensures NoLineBreak(s[i..e])
    decreases |s| - i
  {
    if i == |s| || IsLineBreak(s[i]) then
      i
    else
      var e := LineEnd(s, i + 1);
      assert s[i..e] == [s[i]] + s[i + 1..e];
      e
  }

  /** Length of the terminator that starts at `s[e]`: "\r\n" is one terminator of two characters. */
  function BreakLength(s: string, e: nat): (n: nat)
    requires e < |s|
    ensures n == 1 || n == 2
    ensures e + n <= |s|
  {
    if s[e] == '\r' && e + 1 < |s| && s[e + 1] == '\n' then 2 else 1
  }

  /**
    `str.splitlines()`: the lines of `s` in order, each without its
    terminator. Empty lines are kept; a final terminator does not start an
    extra empty line, and the empty text has no lines. No line holds a line
    boundary, so nothing found on one line can reach into another.
   */
  function SplitLines(s: string): (lines: seq<string>)
    ensures forall n :: 0 <= n < |lines| ==> NoLineBreak(lines[n])
    ensures |lines| <= |s|
    ensures s != [] <==> |lines| > 0
    decreases |s|
  {
    if s == [] then
      []
    else
      var e := LineEnd(s, 0);
      if e == |s| then [s] else [s[..e]] + SplitLines(s[e + BreakLength(s, e)..])
  }

  /** A line terminator `str.splitlines()` recognises: "\r\n", or one line-boundary character. */
  predicate IsTerminator(t: string) {
    t == "\r\n" || (|t| == 1 && IsLineBreak(t[0]))
  }

  /** The text made of each line followed by its end. */
  function Joined(lines: seq<string>, ends: seq<string>): string
    requires |lines| == |ends|
  {
    if lines == [] then [] else lines[0] + ends[0] + Joined(lines[1..], ends[1..])
  }

  /**
    `lines` with `ends` describe a text the way `str.splitlines()` reads it:
    no line holds a line boundary; every line ends with a terminator, except
    that the last, when it is not empty, may end the text with no terminator;
    and a lone "\r" is never directly followed by "\n", which would make the
    two one terminator.
   */
  predicate WellEnded(lines: seq<string>, ends: seq<string>)
    requires |lines| == |ends|
    decreases |lines|
  {
    lines != [] ==>
      && NoLineBreak(lines[0])
      && (if |lines| == 1 then IsTerminator(ends[0]) || (ends[0] == [] && lines[0] != [])
          else IsTerminator(ends[0]) && WellEnded(lines[1..], ends[1..]))
      && (ends[0] == "\r" ==> Joined(lines[1..], ends[1..]) == [] || Joined(lines[1..], ends[1..])[0] != '\n')
  }

  /** `str.splitlines()` gives back the lines a text was made of, whatever their terminators,
      empty lines included and an unterminated last line kept. */
  lemma {:induction false} SplitJoined(lines: seq<string>, ends: seq<string>)
    requires |lines| == |ends| && WellEnded(lines, ends)
    ensures SplitLines(Joined(lines, ends)) == lines
    decreases |lines|
  {
    if lines != [] {
      var l, e := lines[0], ends[0];
      var rest := Joined(lines[1..], ends[1..]);
      var s := Joined(lines, ends);
      assert s == l + e + rest;
      if e == [] {
        assert rest == [] && s == l;
        LineEndNone(s);
      } else {
        assert s[..|l|] == l && s[|l|] == e[0];
        LineEndAt(s, l);
        TerminatorLength(s, l, e, rest);
        assert s[|l| + |e|..] == rest;
        if |lines| > 1 {
          SplitJoined(lines[1..], ends[1..]);
        }
        assert lines == [l] + lines[1..];
      }
    }
  }

  /** Every text is made of its `str.splitlines()` lines, each followed by the terminator it had. */
  lemma {:induction false} JoinedSplit(s: string) returns (ends: seq<string>)
    ensures |ends| == |SplitLines(s)|
    ensures WellEnded(SplitLines(s), ends)
    ensures Joined(SplitLines(s), ends) == s
    decreases |s|
  {
    if s == [] {
      ends := [];
    } else {
      var e := LineEnd(s, 0);
      if e == |s| {
        ends := [[]];
        assert s[0..e] == s;
        assert Joined([s], ends) == s + [] + [];
      } else {
        var n := BreakLength(s, e);
        var rest := s[e + n..];
        var restEnds := JoinedSplit(rest);
        BreakIsTerminator(s, e);
        assert s[0..e] == s[..e];
        WellEndedCons(s[..e], s[e..e + n], SplitLines(rest), restEnds);
        ends := [s[e..e + n]] + restEnds;
        assert s == s[..e] + s[e..e + n] + rest;
      }
    }
  }

  /** A line with its terminator put in front of a well-ended text is again one. */
  lemma WellEndedCons(l: string, e: string, lines: seq<string>, ends: seq<string>)
    requires |lines| == |ends| && WellEnded(lines, ends)
    requires NoLineBreak(l) && IsTerminator(e)
    requires e == "\r" ==> Joined(lines, ends) == [] || Joined(lines, ends)[0] != '\n'
    ensures WellEnded([l] + lines, [e] + ends)
    ensures Joined([l] + lines, [e] + ends) == l + e + Joined(lines, ends)
  {
    assert ([l] + lines)[1..] == lines && ([e] + ends)[1..] == ends;
  }

  /** The terminator `splitlines()` reads at a line boundary is a terminator, and a
      lone "\r" it reads is not followed by "\n". */
  lemma BreakIsTerminator(s: string, e: nat)
    requires e < |s| && IsLineBreak(s[e])
    ensures var n := BreakLength(s, e);
      && IsTerminator(s[e..e + n])
      && (s[e..e + n] == "\r" ==> s[e + n..] == [] || s[e + n..][0] != '\n')
  {
    var n := BreakLength(s, e);
    if n == 2 {
      assert s[e..e + n] == [s[e], s[e + 1]];
    } else {
      assert s[e..e + n] == [s[e]];
    }
  }

  /** A text with no line boundary ends its own first line. */
  lemma LineEndNone(s: string)
    requires NoLineBreak(s)
    ensures LineEnd(s, 0) == |s|
  {
  }

  /** The terminator `e` found after line `l` is read whole, and only it. */
  lemma TerminatorLength(s: string, l: string, e: string, rest: string)
    requires IsTerminator(e) && s == l + e + rest
    requires e == "\r" ==> rest == [] || rest[0] != '\n'
    ensures |l| < |s| && BreakLength(s, |l|) == |e|
  {
    assert s[|l|] == e[0];
    if e == "\r\n" {
      assert s[|l| + 1] == '\n';
    } else if |l| + 1 < |s| {
      assert s[|l| + 1] == rest[0];
    }
  }

  /** The first line boundary of `l + t` is at `|l|` when `l` has none and `t` starts with one. */
  lemma LineEndAt(s: string, l: string)
    requires |l| < |s| && s[..|l|] == l && NoLineBreak(l) && IsLineBreak(s[|l|])
    ensures LineEnd(s, 0) == |l|
  {
  }
}
