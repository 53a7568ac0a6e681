/**
  What `re.compile(re.escape(keyword), flags).finditer(line)` does for a
  non-empty keyword. `re.escape` turns every character of the keyword into
  a literal, so the pattern matches exactly the substrings of the same
  length whose characters equal the keyword's one by one (under
  `re.IGNORECASE`, equal after case folding). `finditer` reports the
  leftmost match, resumes the scan where that match ends, and repeats.
 */
module LiteralMatch {

  /** Case folding: 'A'..'Z' become 'a'..'z'; every other character is kept. */
  function Fold(c: char): (f: char)
    ensures f == c || ('A' <= c <= 'Z' && f as int == c as int + 32)
    ensures !('A' <= f <= 'Z')
  {
    if 'A' <= c <= 'Z' then (c as int + 32) as char else c
  }

  /** `s` with every character case-folded. */
  function FoldAll(s: string): (f: string)
    ensures |f| == |s|
    ensures forall k :: 0 <= k < |s| ==> f[k] == Fold(s[k])
  {
    seq(|s|, k requires 0 <= k < |s| => Fold(s[k]))
  }

  /** Subject character `c` matches keyword character `p`. */
  predicate CharsMatch(c: char, p: char, caseSensitive: bool) {
    if caseSensitive then c == p else Fold(c) == Fold(p)
  }

  /** The keyword characters from index `j` on each match the line character
      `i` places further on, compared one after the other. */
  predicate MatchesFrom(line: string, kw: string, i: nat, j: nat, caseSensitive: bool)
    requires i + |kw| <= |line| && j <= |kw|
    decreases |kw| - j
  {
    j == |kw| || (CharsMatch(line[i + j], kw[j], caseSensitive) && MatchesFrom(line, kw, i, j + 1, caseSensitive))
  }

  /** The escaped keyword `kw` matches `line` at offset `i`: the keyword fits in
      the line there and each of its characters matches the line's in turn. */
  predicate MatchesAt(line: string, kw: string, i: nat, caseSensitive: bool) {
    i + |kw| <= |line| && MatchesFrom(line, kw, i, 0, caseSensitive)
  }

  /** The step-by-step comparison from keyword index `j` succeeds exactly when every
      keyword character from `j` on matches its line character. */
  lemma {:induction false} MatchesFromCharwise(line: string, kw: string, i: nat, j: nat, caseSensitive: bool)
    requires i + |kw| <= |line| && j <= |kw|
    ensures MatchesFrom(line, kw, i, j, caseSensitive) <==>
      forall m :: j <= m < |kw| ==> CharsMatch(line[i + m], kw[m], caseSensitive)
    decreases |kw| - j
  {
    if j < |kw| {
      MatchesFromCharwise(line, kw, i, j + 1, caseSensitive);
    }
  }

  /** A case-sensitive match is the keyword itself, character for character, and nothing else is one. */
  lemma ExactMatch(line: string, kw: string, i: nat)
    ensures MatchesAt(line, kw, i, true) <==> i + |kw| <= |line| && line[i..i + |kw|] == kw
  {
    if i + |kw| <= |line| {
      MatchesFromCharwise(line, kw, i, 0, true);
      var slice := line[i..i + |kw|];
      assert forall j :: 0 <= j < |kw| ==> slice[j] == line[i + j];
    }
  }

  /** A case-insensitive match is a slice of the line that folds to the folded keyword, and nothing else is one. */
  lemma FoldedMatch(line: string, kw: string, i: nat)
    ensures MatchesAt(line, kw, i, false) <==> i + |kw| <= |line| && FoldAll(line[i..i + |kw|]) == FoldAll(kw)
  {
    if i + |kw| <= |line| {
      MatchesFromCharwise(line, kw, i, 0, false);
      var slice := line[i..i + |kw|];
      assert forall j :: 0 <= j < |kw| ==> slice[j] == line[i + j];
      if FoldAll(slice) == FoldAll(kw) {
        forall j | 0 <= j < |kw| ensures CharsMatch(line[i + j], kw[j], false) {
          assert FoldAll(slice)[j] == FoldAll(kw)[j];
        }
      }
    }
  }

  /** `starts` are matches of `kw` in `line` at or after `pos`, each at or beyond
      the end of the one before, so that no two overlap. */
  ghost predicate Ordered(line: string, kw: string, caseSensitive: bool, pos: nat, starts: seq<nat>) {
    && (forall k :: 0 <= k < |starts| ==> pos <= starts[k] && MatchesAt(line, kw, starts[k], caseSensitive))
    && (forall a, b :: 0 <= a < b < |starts| ==> starts[a] + |kw| <= starts[b])
  }

  /** The start offsets `finditer` reports when it scans `line` from offset `pos`:
      try each offset in turn; on a match, report it and go on at its end. */
  function FindIter(line: string, kw: string, caseSensitive: bool, pos: nat): seq<nat>
    requires |kw| > 0
    decreases |line| - pos
  {
    if pos + |kw| > |line| then
      []
    else if MatchesAt(line, kw, pos, caseSensitive) then
      [pos] + FindIter(line, kw, caseSensitive, pos + |kw|)
    else
      FindIter(line, kw, caseSensitive, pos + 1)
  }

  /** Every offset `finditer` reports from `pos` is a match at or after `pos`, and each
      lies at or beyond the end of the one before: matches never overlap and come
      strictly left to right. */
  lemma {:induction false} FindIterSound(line: string, kw: string, caseSensitive: bool, pos: nat)
    requires |kw| > 0
    ensures Ordered(line, kw, caseSensitive, pos, FindIter(line, kw, caseSensitive, pos))
    decreases |line| - pos
  {
    if pos + |kw| <= |line| {
      if MatchesAt(line, kw, pos, caseSensitive) {
        var rest := FindIter(line, kw, caseSensitive, pos + |kw|);
        FindIterSound(line, kw, caseSensitive, pos + |kw|);
        OrderedCons(line, kw, caseSensitive, pos, rest);
        assert FindIter(line, kw, caseSensitive, pos) == [pos] + rest;
      } else {
        var rest := FindIter(line, kw, caseSensitive, pos + 1);
        FindIterSound(line, kw, caseSensitive, pos + 1);
        OrderedFromEarlier(line, kw, caseSensitive, pos, rest);
        assert FindIter(line, kw, caseSensitive, pos) == rest;
      }
    }
  }

  /** A match at `pos` followed by ordered matches from its end are ordered matches from `pos`. */
  lemma OrderedCons(line: string, kw: string, caseSensitive: bool, pos: nat, rest: seq<nat>)
    requires MatchesAt(line, kw, pos, caseSensitive)
    requires Ordered(line, kw, caseSensitive, pos + |kw|, rest)
    ensures Ordered(line, kw, caseSensitive, pos, [pos] + rest)
  {
    var starts := [pos] + rest;
    forall k | 0 <= k < |starts|
      ensures pos <= starts[k] && MatchesAt(line, kw, starts[k], caseSensitive)
    {
      if k > 0 { assert starts[k] == rest[k - 1]; }
    }
    forall a, b | 0 <= a < b < |starts| ensures starts[a] + |kw| <= starts[b] {
      assert starts[b] == rest[b - 1];
      if a > 0 { assert starts[a] == rest[a - 1]; }
    }
  }

  /** Ordered matches from `pos + 1` are ordered matches from `pos`. */
  lemma OrderedFromEarlier(line: string, kw: string, caseSensitive: bool, pos: nat, starts: seq<nat>)
    requires Ordered(line, kw, caseSensitive, pos + 1, starts)
    ensures Ordered(line, kw, caseSensitive, pos, starts)
  {
  }

  /**
    No match is skipped: every offset at or after `pos` where the keyword
    matches either starts a reported match or lies inside one that starts
    before it. The result `k` is the index of that reported match.
   */
  lemma {:induction false} FindIterCovers(line: string, kw: string, caseSensitive: bool, pos: nat, p: nat)
      returns (k: nat)
    requires |kw| > 0
    requires pos <= p && MatchesAt(line, kw, p, caseSensitive)
    ensures k < |FindIter(line, kw, caseSensitive, pos)|
    ensures FindIter(line, kw, caseSensitive, pos)[k] <= p < FindIter(line, kw, caseSensitive, pos)[k] + |kw|
    decreases |line| - pos
  {
    if MatchesAt(line, kw, pos, caseSensitive) {
      if p < pos + |kw| {
        k := 0;
      } else {
        var k' := FindIterCovers(line, kw, caseSensitive, pos + |kw|, p);
        k := k' + 1;
      }
    } else {
      var k' := FindIterCovers(line, kw, caseSensitive, pos + 1, p);
      k := k';
    }
  }

  /** Offset `p` lies inside one of the matches of width `width` that start at `starts`. */
  predicate Covered(starts: seq<nat>, width: nat, p: nat) {
    starts != [] && (starts[0] <= p < starts[0] + width || Covered(starts[1..], width, p))
  }

  /** A match that holds `p` makes `p` covered. */
  lemma {:induction false} CoveredByIndex(starts: seq<nat>, width: nat, p: nat, k: nat)
    requires k < |starts| && starts[k] <= p < starts[k] + width
    ensures Covered(starts, width, p)
  {
    if k > 0 {
      CoveredByIndex(starts[1..], width, p, k - 1);
    }
  }

  /** Matches that all start at or after `m` cover nothing before `m`. */
  lemma {:induction false} CoveredAbove(starts: seq<nat>, width: nat, p: nat, m: nat)
    requires forall k :: 0 <= k < |starts| ==> m <= starts[k]
    requires Covered(starts, width, p)
    ensures m <= p
  {
    if !(starts[0] <= p < starts[0] + width) {
      assert forall k :: 0 <= k < |starts[1..]| ==> starts[1..][k] == starts[k + 1];
      CoveredAbove(starts[1..], width, p, m);
    }
  }

  /**
    What a leftmost, non-overlapping scan from `pos` may report, stated
    without saying how the scan runs: matches at or after `pos`, each at or
    beyond the end of the one before, that together cover every match
    offset at or after `pos`.
   */
  ghost predicate GreedyScan(line: string, kw: string, caseSensitive: bool, pos: nat, starts: seq<nat>) {
    && Ordered(line, kw, caseSensitive, pos, starts)
    && (forall p :: pos <= p && MatchesAt(line, kw, p, caseSensitive) ==> Covered(starts, |kw|, p))
  }

  /** `finditer`'s offsets are a greedy scan, and they are the only one: any list of
      offsets with the three properties of `GreedyScan` is exactly what `finditer` reports. */
  lemma {:induction false} FindIterIsTheGreedyScan(line: string, kw: string, caseSensitive: bool, pos: nat, starts: seq<nat>)
    requires |kw| > 0
    ensures GreedyScan(line, kw, caseSensitive, pos, FindIter(line, kw, caseSensitive, pos))
    ensures GreedyScan(line, kw, caseSensitive, pos, starts) <==> starts == FindIter(line, kw, caseSensitive, pos)
  {
    var found := FindIter(line, kw, caseSensitive, pos);
    FindIterSound(line, kw, caseSensitive, pos);
    forall p | pos <= p && MatchesAt(line, kw, p, caseSensitive)
      ensures Covered(found, |kw|, p)
    {
      var k := FindIterCovers(line, kw, caseSensitive, pos, p);
      CoveredByIndex(found, |kw|, p, k);
    }
    if GreedyScan(line, kw, caseSensitive, pos, starts) {
      GreedyScanIsUnique(line, kw, caseSensitive, pos, starts);
    }
  }

  /** A greedy scan from `pos` is `finditer`'s, by induction on what is left of the line. */
  lemma {:induction false} GreedyScanIsUnique(line: string, kw: string, caseSensitive: bool, pos: nat, starts: seq<nat>)
    requires |kw| > 0
    requires GreedyScan(line, kw, caseSensitive, pos, starts)
    ensures starts == FindIter(line, kw, caseSensitive, pos)
    decreases |line| - pos
  {
    if pos + |kw| > |line| {
      GreedyScanEnds(line, kw, caseSensitive, pos, starts);
    } else if MatchesAt(line, kw, pos, caseSensitive) {
      GreedyScanTakes(line, kw, caseSensitive, pos, starts);
      GreedyScanIsUnique(line, kw, caseSensitive, pos + |kw|, starts[1..]);
      assert starts == [pos] + starts[1..];
      assert FindIter(line, kw, caseSensitive, pos) == [pos] + FindIter(line, kw, caseSensitive, pos + |kw|);
    } else {
      GreedyScanSkips(line, kw, caseSensitive, pos, starts);
      GreedyScanIsUnique(line, kw, caseSensitive, pos + 1, starts);
      assert FindIter(line, kw, caseSensitive, pos) == FindIter(line, kw, caseSensitive, pos + 1);
    }
  }

  /** Where no offset from `pos` on leaves room for the keyword, both a greedy scan
      and `finditer` report nothing. */
  lemma GreedyScanEnds(line: string, kw: string, caseSensitive: bool, pos: nat, starts: seq<nat>)
    requires |kw| > 0
    requires GreedyScan(line, kw, caseSensitive, pos, starts)
    requires pos + |kw| > |line|
    ensures starts == [] == FindIter(line, kw, caseSensitive, pos)
  {
    assert starts != [] ==> MatchesAt(line, kw, starts[0], caseSensitive);
  }

  /** When the keyword matches at `pos`, a greedy scan from `pos` reports `pos` first
      and then a greedy scan from the end of that match. */
  lemma GreedyScanTakes(line: string, kw: string, caseSensitive: bool, pos: nat, starts: seq<nat>)
    requires |kw| > 0
    requires GreedyScan(line, kw, caseSensitive, pos, starts)
    requires MatchesAt(line, kw, pos, caseSensitive)
    ensures starts != [] && starts[0] == pos
    ensures GreedyScan(line, kw, caseSensitive, pos + |kw|, starts[1..])
  {
    assert Covered(starts, |kw|, pos);
    var rest := starts[1..];
    forall k | 0 <= k < |rest| ensures starts[0] + |kw| <= rest[k] {
      assert rest[k] == starts[k + 1];
    }
    if !(starts[0] <= pos < starts[0] + |kw|) {
      CoveredAbove(rest, |kw|, pos, starts[0] + |kw|);
    }
    forall p | pos + |kw| <= p && MatchesAt(line, kw, p, caseSensitive)
      ensures Covered(rest, |kw|, p)
    {
      assert Covered(starts, |kw|, p);
    }
  }

  /** When the keyword does not match at `pos`, a greedy scan from `pos` is one from `pos + 1`. */
  lemma GreedyScanSkips(line: string, kw: string, caseSensitive: bool, pos: nat, starts: seq<nat>)
    requires GreedyScan(line, kw, caseSensitive, pos, starts)
    requires !MatchesAt(line, kw, pos, caseSensitive)
    ensures GreedyScan(line, kw, caseSensitive, pos + 1, starts)
  {
    forall k | 0 <= k < |starts| ensures pos + 1 <= starts[k] {
      assert MatchesAt(line, kw, starts[k], caseSensitive);
    }
  }
}
