/**
  The `search_file` tool of the keyword-search server (mcp_server.py): it
  validates and trims the keyword, reads the file through the `read_file`
  resource, and scans the text line by line for non-overlapping literal
  matches, recording for each its 1-based line number, its offsets within
  the line and a snippet of up to 40 characters of context on either side.
 */
module KeywordSearch {
  import opened Wrappers
  import opened PyText
  import opened LiteralMatch

  /** Characters of context a snippet keeps on each side of a match. */
  const ContextWidth: nat := 40

  /** One match: its line (counted from 1), its offsets in that line, end exclusive, and its context. */
  datatype Occurrence = Occurrence(lineNumber: nat, start: nat, end: nat, snippet: string)

  /** What `search_file` returns: the path as given, the trimmed keyword and the matches in order. */
  datatype SearchResult = SearchResult(file: string, keyword: string, totalOccurrences: nat, occurrences: seq<Occurrence>)

  /** The `ValueError` raised for a blank keyword and the `FileNotFoundError` raised by `read_file`. */
  datatype SearchError = InvalidKeyword | FileNotFound(path: string)

  function Message(e: SearchError): string {
    match e
    case InvalidKeyword => "Keyword cannot be empty or whitespace only."
    case FileNotFound(path) => "File not found: " + path
  }

  /** The file system as `read_file` sees it: each path naming a regular file that `open` can read, mapped to its decoded text. */
  type FileSystem = map<string, string>

  /** The `read_file` resource: the whole text of the regular file at `path`,
      or a not-found error whose message names `path` as it was given. */
  function ReadFile(fs: FileSystem, path: string): (r: Result<string, SearchError>)
    ensures r.Ok? <==> path in fs
    ensures r.Ok? ==> r.value == fs[path]
    ensures r.Err? ==> r.error == FileNotFound(path) && Message(r.error) == "File not found: " + path
  {
    if path in fs then Ok(fs[path]) else Err(FileNotFound(path))
  }

  function Min(a: int, b: int): int { if a <= b then a else b }

  function Max(a: int, b: int): int { if a <= b then b else a }

  /** How many characters of context a snippet has before a match at `start`. */
  function ContextBefore(start: nat): nat {
    Min(start, ContextWidth)
  }

  /** How many characters of context a snippet has after a match ending at `end` in a line of `lineLength`. */
  function ContextAfter(lineLength: nat, end: nat): nat
    requires end <= lineLength
  {
    Min(lineLength - end, ContextWidth)
  }

  /** The context snippet of `search_file` for the match `start..end` of `line`:
      the slice from 40 characters before the match to 40 after it, clipped to the line. */
  function Snippet(line: string, start: nat, end: nat): string
    requires start <= end <= |line|
  {
    line[Max(0, start - ContextWidth)..Min(|line|, end + ContextWidth)]
  }

  /**
    A snippet is the match itself, preceded by the 40 characters before it
    and followed by the 40 after it, or by as many as the line has on that
    side: it never reaches outside the line, always contains the matched
    text, and is at most 80 characters longer than the match.
   */
  lemma SnippetAroundMatch(line: string, start: nat, end: nat)
    requires start <= end <= |line|
    ensures var s := Snippet(line, start, end);
      && |s| == ContextBefore(start) + (end - start) + ContextAfter(|line|, end)
      && |s| <= (end - start) + 2 * ContextWidth
      && s[..ContextBefore(start)] == line[start - ContextBefore(start)..start]
      && s[ContextBefore(start)..ContextBefore(start) + (end - start)] == line[start..end]
      && s[ContextBefore(start) + (end - start)..] == line[end..end + ContextAfter(|line|, end)]
  {
    var b, a := ContextBefore(start), ContextAfter(|line|, end);
    var lo, hi := start - b, end + a;
    assert Max(0, start - ContextWidth) == lo && Min(|line|, end + ContextWidth) == hi;
    SliceOfSlice(line, lo, hi, 0, b);
    SliceOfSlice(line, lo, hi, b, b + (end - start));
    SliceOfSlice(line, lo, hi, b + (end - start), hi - lo);
  }

  /** A slice of a slice is a slice of the original. */
  lemma SliceOfSlice(s: string, lo: nat, hi: nat, a: nat, b: nat)
    requires lo <= hi <= |s| && a <= b <= hi - lo
    ensures s[lo..hi][a..b] == s[lo + a..lo + b]
  {
    forall m | 0 <= m < b - a ensures s[lo..hi][a..b][m] == s[lo + a..lo + b][m] {
      assert s[lo..hi][a..b][m] == s[lo..hi][a + m] == s[lo + a + m];
    }
  }

  /** The occurrence recorded for a match of width `width` at `start` on line `lineNumber`. */
  function Record(line: string, lineNumber: nat, width: nat, start: nat): Occurrence
    requires start + width <= |line|
  {
    Occurrence(lineNumber, start, start + width, Snippet(line, start, start + width))
  }

  /** The occurrences recorded, in order, for matches of width `width` at each of `starts`. */
  function Records(line: string, lineNumber: nat, width: nat, starts: seq<nat>): (occs: seq<Occurrence>)
    requires forall k :: 0 <= k < |starts| ==> starts[k] + width <= |line|
    ensures |occs| == |starts|
    ensures forall k :: 0 <= k < |starts| ==> occs[k] == Record(line, lineNumber, width, starts[k])
  {
    seq(|starts|, k requires 0 <= k < |starts| => Record(line, lineNumber, width, starts[k]))
  }

  /** The occurrences of `kw` in `line`, the line numbered `lineNumber`, in `finditer` order. */
  function LineOccurrences(line: string, lineNumber: nat, kw: string, caseSensitive: bool): seq<Occurrence>
    requires |kw| > 0
  {
    FindIterSound(line, kw, caseSensitive, 0);
    Records(line, lineNumber, |kw|, FindIter(line, kw, caseSensitive, 0))
  }

  /** The occurrences of `kw` in `lines`, line by line, the first line numbered 1. */
  function Occurrences(lines: seq<string>, kw: string, caseSensitive: bool): seq<Occurrence>
    requires |kw| > 0
  {
    if lines == [] then
      []
    else
      Occurrences(lines[..|lines| - 1], kw, caseSensitive) + LineOccurrences(lines[|lines| - 1], |lines|, kw, caseSensitive)
  }

  /**
    The `search_file` tool. A keyword that is empty or all white space is
    refused before the file is read, whatever the path; otherwise a path
    that names no regular file fails with `read_file`'s error. On success
    the result echoes the path unchanged and the stripped keyword, and
    lists the occurrences of the stripped keyword in the file's lines,
    their number in `totalOccurrences`.
   */
  method SearchFile(keyword: string, path: string, caseSensitive: bool, fs: FileSystem)
      returns (r: Result<SearchResult, SearchError>)
    ensures IsBlank(keyword) ==> r == Err(InvalidKeyword)
    ensures !IsBlank(keyword) && path !in fs ==> r == Err(FileNotFound(path))
    ensures !IsBlank(keyword) && path in fs ==> r.Ok?
    ensures r.Ok? ==> path in fs && Strip(keyword) != []
    ensures r.Ok? ==> r.value.file == path && r.value.keyword == Strip(keyword)
    ensures r.Ok? ==> r.value.totalOccurrences == |r.value.occurrences|
    ensures r.Ok? ==> r.value.occurrences == Occurrences(SplitLines(fs[path]), Strip(keyword), caseSensitive)
  {
    var kw := Strip(keyword);
    if kw == [] {
      return Err(InvalidKeyword);
    }

    var read := ReadFile(fs, path);
    if read.Err? {
      return Err(read.error);
    }
    var lines := SplitLines(read.value);

    var occurrences: seq<Occurrence> := [];
    for i := 0 to |lines|
      invariant occurrences == Occurrences(lines[..i], kw, caseSensitive)
    {
      occurrences := ScanLine(occurrences, lines[i], i + 1, kw, caseSensitive);
      assert lines[..i + 1][..i] == lines[..i];
    }
    assert lines[..|lines|] == lines;

    return Ok(SearchResult(path, kw, |occurrences|, occurrences));
  }

  /**
    The inner loop of `search_file`: `finditer` over one line, appending an
    occurrence for each match to `occurrences`. What it appends is exactly
    the line's occurrences in scan order.
   */
  method ScanLine(occurrences: seq<Occurrence>, line: string, lineNumber: nat, kw: string, caseSensitive: bool)
      returns (result: seq<Occurrence>)
    requires |kw| > 0
    ensures result == occurrences + LineOccurrences(line, lineNumber, kw, caseSensitive)
  {
    result := occurrences;
    ghost var found: seq<nat> := [];
    var pos := 0;
    while pos + |kw| <= |line|
      invariant Scanned(occurrences, line, lineNumber, kw, caseSensitive, pos, found, result)
      decreases |line| - pos
    {
      if MatchesAt(line, kw, pos, caseSensitive) {
        var start, end := pos, pos + |kw|;
        ScanMatch(occurrences, line, lineNumber, kw, caseSensitive, pos, found, result);
        result := result + [Occurrence(lineNumber, start, end, Snippet(line, start, end))];
        found := found + [start];
        pos := end;
      } else {
        ScanSkip(occurrences, line, lineNumber, kw, caseSensitive, pos, found, result);
        pos := pos + 1;
      }
    }
    FindIterSound(line, kw, caseSensitive, 0);
  }

  /**
    The state of `ScanLine` after scanning `line` up to `pos`: the matches
    `found` so far followed by those `finditer` reports from `pos` on are
    all of the line's matches, and `result` holds an occurrence for each
    match found, after the occurrences of earlier lines.
   */
  ghost predicate Scanned(prefix: seq<Occurrence>, line: string, lineNumber: nat, kw: string, caseSensitive: bool,
                          pos: nat, found: seq<nat>, result: seq<Occurrence>)
    requires |kw| > 0
  {
    && pos <= |line|
    && (forall k :: 0 <= k < |found| ==> found[k] + |kw| <= |line|)
    && found + FindIter(line, kw, caseSensitive, pos) == FindIter(line, kw, caseSensitive, 0)
    && result == prefix + Records(line, lineNumber, |kw|, found)
  }

  /** A match at `pos` is recorded, and scanning goes on at its end. */
  lemma ScanMatch(prefix: seq<Occurrence>, line: string, lineNumber: nat, kw: string, caseSensitive: bool,
                  pos: nat, found: seq<nat>, result: seq<Occurrence>)
    requires |kw| > 0
    requires Scanned(prefix, line, lineNumber, kw, caseSensitive, pos, found, result)
    requires MatchesAt(line, kw, pos, caseSensitive)
    ensures Scanned(prefix, line, lineNumber, kw, caseSensitive, pos + |kw|, found + [pos],
                    result + [Occurrence(lineNumber, pos, pos + |kw|, Snippet(line, pos, pos + |kw|))])
  {
    var end := pos + |kw|;
    RecordsSnoc(prefix, line, lineNumber, |kw|, found, pos);
    var rest := FindIter(line, kw, caseSensitive, end);
    assert FindIter(line, kw, caseSensitive, pos) == [pos] + rest;
    assert (found + [pos]) + rest == found + ([pos] + rest);
  }

  /** Where the keyword does not match at `pos`, scanning goes on at `pos + 1`. */
  lemma ScanSkip(prefix: seq<Occurrence>, line: string, lineNumber: nat, kw: string, caseSensitive: bool,
                 pos: nat, found: seq<nat>, result: seq<Occurrence>)
    requires |kw| > 0
    requires Scanned(prefix, line, lineNumber, kw, caseSensitive, pos, found, result)
    requires pos + |kw| <= |line| && !MatchesAt(line, kw, pos, caseSensitive)
    ensures Scanned(prefix, line, lineNumber, kw, caseSensitive, pos + 1, found, result)
  {
    assert FindIter(line, kw, caseSensitive, pos) == FindIter(line, kw, caseSensitive, pos + 1);
  }

  /** Recording one more match appends its occurrence to those recorded before. */
  lemma RecordsSnoc(prefix: seq<Occurrence>, line: string, lineNumber: nat, width: nat, starts: seq<nat>, start: nat)
    requires forall k :: 0 <= k < |starts| ==> starts[k] + width <= |line|
    requires start + width <= |line|
    ensures prefix + Records(line, lineNumber, width, starts) + [Record(line, lineNumber, width, start)]
         == prefix + Records(line, lineNumber, width, starts + [start])
  {
    assert Records(line, lineNumber, width, starts + [start])
        == Records(line, lineNumber, width, starts) + [Record(line, lineNumber, width, start)];
  }
}
