/**
  What `search_file` promises about the occurrences it returns, proved of
  `KeywordSearch.Occurrences`, the list `SearchFile` is shown to build:
  every occurrence locates a real match on its own line, the list runs in
  line order and left to right without overlap, and no match is missed.
 */
module SearchProperties {
  import opened PyText
  import opened LiteralMatch
  import opened KeywordSearch

  /** `o` reports a match of `kw` in `line`: offsets inside the line and exactly the
      keyword's length apart, a match of the keyword at `start`, and its snippet. */
  ghost predicate Locates(o: Occurrence, line: string, kw: string, caseSensitive: bool) {
    && o.start < o.end <= |line|
    && o.end - o.start == |kw|
    && MatchesAt(line, kw, o.start, caseSensitive)
    && o.snippet == Snippet(line, o.start, o.end)
  }

  /** `x` comes before `y`: on an earlier line, or on the same line and ending where `y` starts or earlier. */
  predicate Precedes(x: Occurrence, y: Occurrence) {
    x.lineNumber < y.lineNumber || (x.lineNumber == y.lineNumber && x.end <= y.start)
  }

  /** Every occurrence found on one line carries that line's number, locates a match on
      that line, and the occurrences run left to right without overlapping. */
  lemma LineOccurrencesLocated(line: string, lineNumber: nat, kw: string, caseSensitive: bool)
    requires |kw| > 0
    ensures forall k :: 0 <= k < |LineOccurrences(line, lineNumber, kw, caseSensitive)| ==>
      LineOccurrences(line, lineNumber, kw, caseSensitive)[k].lineNumber == lineNumber &&
      Locates(LineOccurrences(line, lineNumber, kw, caseSensitive)[k], line, kw, caseSensitive)
    ensures forall a, b :: 0 <= a < b < |LineOccurrences(line, lineNumber, kw, caseSensitive)| ==>
      LineOccurrences(line, lineNumber, kw, caseSensitive)[a].end <= LineOccurrences(line, lineNumber, kw, caseSensitive)[b].start
  {
    FindIterSound(line, kw, caseSensitive, 0);
  }

  /**
    Every occurrence has a line number between 1 and the number of lines
    and locates a match of the keyword on the line of that number: its
    offsets lie inside that line, `end - start` is the keyword's length,
    and its snippet is taken from that line.
   */
  lemma {:induction false} OccurrencesLocated(lines: seq<string>, kw: string, caseSensitive: bool)
    requires |kw| > 0
    ensures forall k :: 0 <= k < |Occurrences(lines, kw, caseSensitive)| ==>
      1 <= Occurrences(lines, kw, caseSensitive)[k].lineNumber <= |lines| &&
      Locates(Occurrences(lines, kw, caseSensitive)[k], lines[Occurrences(lines, kw, caseSensitive)[k].lineNumber - 1], kw, caseSensitive)
  {
    if lines != [] {
      var n := |lines|;
      var init := lines[..n - 1];
      var earlier := Occurrences(init, kw, caseSensitive);
      var last := LineOccurrences(lines[n - 1], n, kw, caseSensitive);
      OccurrencesLocated(init, kw, caseSensitive);
      LineOccurrencesLocated(lines[n - 1], n, kw, caseSensitive);
      var occs := Occurrences(lines, kw, caseSensitive);
      assert occs == earlier + last;
      forall k | 0 <= k < |occs|
        ensures 1 <= occs[k].lineNumber <= n && Locates(occs[k], lines[occs[k].lineNumber - 1], kw, caseSensitive)
      {
        if k < |earlier| {
          assert occs[k] == earlier[k];
          assert init[occs[k].lineNumber - 1] == lines[occs[k].lineNumber - 1];
        } else {
          assert occs[k] == last[k - |earlier|];
        }
      }
    }
  }

  /** Occurrences are ordered by line number, then by offset within a line, and two
      occurrences on the same line never overlap. */
  lemma {:induction false} OccurrencesInOrder(lines: seq<string>, kw: string, caseSensitive: bool)
    requires |kw| > 0
    ensures forall a, b :: 0 <= a < b < |Occurrences(lines, kw, caseSensitive)| ==>
      Precedes(Occurrences(lines, kw, caseSensitive)[a], Occurrences(lines, kw, caseSensitive)[b])
  {
    if lines != [] {
      var n := |lines|;
      var init := lines[..n - 1];
      var earlier := Occurrences(init, kw, caseSensitive);
      var last := LineOccurrences(lines[n - 1], n, kw, caseSensitive);
      OccurrencesInOrder(init, kw, caseSensitive);
      OccurrencesLocated(init, kw, caseSensitive);
      LineOccurrencesLocated(lines[n - 1], n, kw, caseSensitive);
      var occs := Occurrences(lines, kw, caseSensitive);
      assert occs == earlier + last;
      forall a, b | 0 <= a < b < |occs| ensures Precedes(occs[a], occs[b]) {
        if b < |earlier| {
          assert occs[a] == earlier[a] && occs[b] == earlier[b];
        } else if a < |earlier| {
          assert occs[a] == earlier[a] && occs[b] == last[b - |earlier|];
        } else {
          assert occs[a] == last[a - |earlier|] && occs[b] == last[b - |earlier|];
        }
      }
    }
  }

  /** `o` is on the line numbered `lineNumber` and spans offset `p`. */
  predicate Covers(o: Occurrence, lineNumber: nat, p: nat) {
    o.lineNumber == lineNumber && o.start <= p < o.end
  }

  /** On one line, every match offset `p` is covered by the occurrence of index `j`. */
  lemma LineOccurrencesComplete(line: string, lineNumber: nat, kw: string, caseSensitive: bool, p: nat)
      returns (j: nat)
    requires |kw| > 0
    requires MatchesAt(line, kw, p, caseSensitive)
    ensures j < |LineOccurrences(line, lineNumber, kw, caseSensitive)|
    ensures Covers(LineOccurrences(line, lineNumber, kw, caseSensitive)[j], lineNumber, p)
  {
    j := FindIterCovers(line, kw, caseSensitive, 0, p);
    FindIterSound(line, kw, caseSensitive, 0);
  }

  /**
    No match is missed: wherever the keyword matches on line `n` (counted
    from 0) at offset `p`, some occurrence on line `n + 1` (counted from 1)
    either starts at `p` or started earlier and still covers `p`. The
    result `k` is that occurrence's index.
   */
  lemma {:induction false} OccurrencesComplete(lines: seq<string>, kw: string, caseSensitive: bool, n: nat, p: nat)
      returns (k: nat)
    requires |kw| > 0
    requires n < |lines| && MatchesAt(lines[n], kw, p, caseSensitive)
    ensures k < |Occurrences(lines, kw, caseSensitive)|
    ensures Covers(Occurrences(lines, kw, caseSensitive)[k], n + 1, p)
  {
    var m := |lines|;
    var init := lines[..m - 1];
    var earlier := Occurrences(init, kw, caseSensitive);
    var last := LineOccurrences(lines[m - 1], m, kw, caseSensitive);
    assert Occurrences(lines, kw, caseSensitive) == earlier + last;
    if n == m - 1 {
      var j := LineOccurrencesComplete(lines[n], m, kw, caseSensitive, p);
      k := |earlier| + j;
      CoversInAppend(earlier, last, k, m, p);
    } else {
      assert init[n] == lines[n];
      k := OccurrencesComplete(init, kw, caseSensitive, n, p);
      CoversInAppend(earlier, last, k, n + 1, p);
    }
  }

  /** An occurrence of one part of a list is the occurrence of the same index
      shifted past the part before it. */
  lemma CoversInAppend(earlier: seq<Occurrence>, last: seq<Occurrence>, k: nat, lineNumber: nat, p: nat)
    requires k < |earlier| + |last|
    requires k < |earlier| ==> Covers(earlier[k], lineNumber, p)
    requires |earlier| <= k ==> Covers(last[k - |earlier|], lineNumber, p)
    ensures Covers((earlier + last)[k], lineNumber, p)
  {
  }

  /** The search finds nothing exactly when the keyword matches nowhere on any line. */
  lemma NoOccurrencesIffNoMatch(lines: seq<string>, kw: string, caseSensitive: bool)
    requires |kw| > 0
    ensures Occurrences(lines, kw, caseSensitive) == [] <==>
      forall n, p :: 0 <= n < |lines| ==> !MatchesAt(lines[n], kw, p, caseSensitive)
  {
    var occs := Occurrences(lines, kw, caseSensitive);
    if occs == [] {
      forall n, p | 0 <= n < |lines| ensures !MatchesAt(lines[n], kw, p, caseSensitive) {
        if MatchesAt(lines[n], kw, p, caseSensitive) {
          var k := OccurrencesComplete(lines, kw, caseSensitive, n, p);
          assert false;
        }
      }
    } else {
      OccurrencesLocated(lines, kw, caseSensitive);
      var o := occs[0];
      assert MatchesAt(lines[o.lineNumber - 1], kw, o.start, caseSensitive);
    }
  }

  /**
    The text an occurrence points at is the keyword itself when the search
    is case-sensitive, and equal to it after case folding otherwise; the
    occurrence's snippet holds that text, with at most 40 characters of the
    line on each side of it.
   */
  lemma LocatedText(o: Occurrence, line: string, kw: string, caseSensitive: bool)
    requires Locates(o, line, kw, caseSensitive)
    ensures caseSensitive ==> line[o.start..o.end] == kw
    ensures !caseSensitive ==> FoldAll(line[o.start..o.end]) == FoldAll(kw)
    ensures ContextBefore(o.start) + |kw| <= |o.snippet| <= |kw| + 2 * ContextWidth
    ensures o.snippet[ContextBefore(o.start)..ContextBefore(o.start) + |kw|] == line[o.start..o.end]
  {
    ExactMatch(line, kw, o.start);
    FoldedMatch(line, kw, o.start);
    SnippetAroundMatch(line, o.start, o.end);
  }
}
