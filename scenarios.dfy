/**
  Worked examples of keyword search on small inputs: the non-overlap rule,
  case sensitivity, literal treatment of pattern characters, keyword
  trimming and a whole two-line file.
 */
module SearchScenarios {
  import opened PyText
  import opened LiteralMatch
  import opened KeywordSearch

  /** Scanning resumes at the end of a match: "aa" occurs twice in "aaaa", at 0..2
      and 2..4, and once in "aaa", at 0..2. */
  lemma NonOverlappingScan()
    ensures FindIter("aaaa", "aa", true, 0) == [0, 2]
    ensures FindIter("aaa", "aa", true, 0) == [0]
  {
    assert MatchesAt("aaaa", "aa", 0, true) && MatchesAt("aaaa", "aa", 2, true);
    assert MatchesAt("aaa", "aa", 0, true);
  }

  /** "Hello" matches "hello world" when case is ignored, and nowhere in it when case counts. */
  lemma CaseSensitivity()
    ensures FindIter("hello world", "Hello", false, 0) == [0]
    ensures FindIter("hello world", "Hello", true, 0) == []
  {
    assert MatchesAt("hello world", "Hello", 0, false);
    assert !MatchesAt("hello world", "Hello", 0, true);
  }

  /** The dot of "a.b" is an ordinary character: it does not match the "x" of "axb". */
  lemma PatternCharactersAreLiteral(caseSensitive: bool)
    ensures FindIter("axb", "a.b", caseSensitive, 0) == []
  {
    assert !MatchesAt("axb", "a.b", 0, caseSensitive);
  }

  /** A keyword of blanks strips to nothing, so the search refuses it. */
  lemma BlankKeyword()
    ensures Strip(" \t ") == []
  {
    assert IsBlank(" \t ");
  }

  /** "\r\n" ends a line as one terminator, a lone "\r" ends another, and the empty
      line between them is kept. */
  lemma MixedLineEndings()
    ensures SplitLines("a\r\n\rb") == ["a", "", "b"]
  {
    var s := "a\r\n\rb";
    assert LineEnd("b", 0) == 1;
    assert SplitLines("b") == ["b"];
    assert LineEnd("\rb", 0) == 0 && BreakLength("\rb", 0) == 1;
    assert "\rb"[1..] == "b" && "\rb"[..0] == "";
    assert SplitLines("\rb") == ["", "b"];
    assert LineEnd(s, 0) == 1 && BreakLength(s, 1) == 2;
    assert s[3..] == "\rb" && s[..1] == "a";
  }

  /** The second line holds "hello" twice when case is ignored: at 4..9 and at 10..15. */
  lemma TwoMatchesOnALine()
    ensures FindIter("say hello Hello", "hello", false, 0) == [4, 10]
  {
    var line := "say hello Hello";
    MatchesFromCharwise(line, "hello", 4, 0, false);
    MatchesFromCharwise(line, "hello", 10, 0, false);
    assert MatchesAt(line, "hello", 4, false) && MatchesAt(line, "hello", 10, false);
  }

  /** Both matches of the two-line file are reported on line 2, in order, and each
      snippet is the whole line, which is shorter than the context on either side. */
  lemma TwoLineFile()
    ensures Occurrences(["first", "say hello Hello"], "hello", false)
         == [Occurrence(2, 4, 9, "say hello Hello"), Occurrence(2, 10, 15, "say hello Hello")]
  {
    var line := "say hello Hello";
    TwoMatchesOnALine();
    assert FindIter("first", "hello", false, 0) == [];
    assert Snippet(line, 4, 9) == line && Snippet(line, 10, 15) == line;
    assert ["first", "say hello Hello"][..1] == ["first"];
  }
}
