# Keyword search over a text file

A Dafny model of the keyword-search server in `mcp_server.py`. The server
has two parts:

- the `read_file` resource, which returns the whole text of a file;
- the `search_file` tool, which does the work modelled here.

`search_file` proceeds in four steps:

1. It refuses a keyword that is empty or all white space (`ValueError`).
2. It trims the keyword with `str.strip()` and reads the file through
   `read_file`, which fails with `FileNotFoundError` when the path names no
   regular file.
3. It cuts the text into lines with `str.splitlines()` and numbers them from 1.
4. On each line it lists every non-overlapping match of the keyword, taken
   literally (`re.escape`), scanning left to right as `finditer` does. The
   match is case-insensitive unless `case_sensitive` is set.

Each match becomes an occurrence. An occurrence holds the line number, the
start and end offsets (end exclusive) and a snippet running from 40
characters before the match to 40 characters after it, clipped to the line.
The result echoes the path as given and the trimmed keyword, and holds the
occurrence count and the occurrences in order.

The project has these modules:

- `Wrappers` — the `Result` datatype used for the tool's two error cases.
- `PyText` — Python's `str.isspace`, `str.strip()` and `str.splitlines()`.
  They use CPython's full sets of white-space characters and line boundaries.
- `LiteralMatch` — the match of an escaped keyword at one offset, and
  `FindIter`, the offsets a `finditer` scan reports. It proves that these
  offsets are exactly the greedy left-to-right scan and that no other list
  of offsets is one.
- `KeywordSearch` — the data model, `ReadFile`, `Snippet`, the specification
  function `Occurrences`, and the imperative `SearchFile`. `SearchFile` is
  the source's nested loop: its outer loop goes over the lines, and its
  inner loop over one line is the method `ScanLine`. Both are proved to
  build exactly `Occurrences`.
- `SearchProperties` — what the occurrences promise:
  - each one locates a real match on its own line;
  - they are in line order, then left to right, without overlap;
  - no match is missed;
  - the list is empty exactly when the keyword matches nowhere.
- `SearchScenarios` — worked examples:
  - overlapping text ("aa" in "aaaa");
  - case sensitivity;
  - pattern characters taken literally;
  - a blank keyword;
  - mixed line endings;
  - a whole two-line file.

The file system is a parameter: a map from each path that names a readable regular
file to its decoded text.

The NotFound message names the path exactly as the caller gave it, because
`read_file` formats the path it received without resolving it. The model
follows the code here.

## Model

| member | source | states |
|---|---|---|
| KeywordSearch.SearchFile | mcp_server.py:37-77 | A blank keyword gives `InvalidKeyword` whatever the path. A valid keyword on a missing path gives `FileNotFound(path)`. Otherwise the result is `Ok`, echoes the path and the stripped keyword, has a count equal to the number of occurrences, and lists exactly `Occurrences` of the stripped keyword over the file's `splitlines()` |
| KeywordSearch.ScanLine | mcp_server.py:62-70 | The inner loop appends to the list exactly the occurrences of the keyword on that line, in `finditer` order, each with its line number, offsets and snippet |
| KeywordSearch.ScanMatch | mcp_server.py:62-70 | After a match at the scan position, the list gains exactly that occurrence (its line, its offsets and its snippet), and scanning resumes at the end of the match with every reported match still accounted for |
| KeywordSearch.ScanSkip | mcp_server.py:62 | Where the keyword does not match at the scan position, scanning one position further on loses no match |
| KeywordSearch.ReadFile | mcp_server.py:24-34 | Succeeds exactly when the path is one of the readable regular files in `fs`, and then returns that file's whole text; otherwise the error is `FileNotFound` of the path as given, with message "File not found: " + path |
| KeywordSearch.SnippetAroundMatch | mcp_server.py:64 | The snippet is the matched text with min(start, 40) characters of the line before it and min(len - end, 40) after it. It stays inside the line and is at most 80 characters longer than the match |
| KeywordSearch.RecordsSnoc | mcp_server.py:65-70 | Appending the occurrence of one more match gives the same list as recording all the match offsets at once |
| PyText.Strip | mcp_server.py:49-51 | The stripped keyword neither starts nor ends with white space, and it is empty exactly when the keyword is empty or all white space (the guard `not keyword or not keyword.strip()`) |
| PyText.StripIsSlice | mcp_server.py:51 | `strip()` keeps one contiguous slice of the keyword; everything before and after that slice is white space |
| PyText.TrimStart | mcp_server.py:51 | Leading-space removal returns a suffix that does not start with white space; what it removes is all white space |
| PyText.TrimEnd | mcp_server.py:51 | Trailing-space removal returns a prefix that does not end with white space; what it removes is all white space |
| PyText.LineEnd | mcp_server.py:61 | The first line boundary at or after an offset: everything between holds no boundary, and the character found is a boundary |
| PyText.SplitLines | mcp_server.py:61 | `splitlines()` yields lines that hold no line boundary, at most one line per character, and none for the empty text |
| PyText.SplitJoined | mcp_server.py:61 | For any lines without boundaries, each followed by a terminator ("\r\n", or one boundary character, a lone "\r" never directly before "\n"), the last possibly unterminated if it is not empty, `splitlines()` of the joined text gives back exactly those lines |
| PyText.JoinedSplit | mcp_server.py:61 | Every text is its `splitlines()` lines, each followed by the terminator it had, in that form; with `SplitJoined` this fixes `splitlines()` as the one way to cut a text into lines |
| PyText.BreakIsTerminator | mcp_server.py:61 | At a line boundary, "\r\n" is read as one terminator, and a lone "\r" that is read is not followed by "\n" |
| LiteralMatch.Fold | mcp_server.py:57 | Case folding for `re.IGNORECASE`: it maps an upper-case ASCII letter to its lower-case letter, leaves every other character alone, and never yields an upper-case letter |
| LiteralMatch.MatchesFromCharwise | mcp_server.py:57-58 | The keyword matches at an offset exactly when every keyword character matches the line character it lies over, case-folded when case is ignored |
| LiteralMatch.ExactMatch | mcp_server.py:57-58 | A case-sensitive match at `i` holds exactly when the slice of the line at `i` is the keyword itself, so pattern characters are taken literally |
| LiteralMatch.FoldedMatch | mcp_server.py:57-58 | A case-insensitive match at `i` holds exactly when the slice at `i` and the keyword are equal after case folding |
| LiteralMatch.FindIterSound | mcp_server.py:62 | Every offset the scan reports is a match, at or after where scanning began, and successive matches do not overlap |
| LiteralMatch.FindIterCovers | mcp_server.py:62 | Every offset where the keyword matches lies inside some reported match |
| LiteralMatch.FindIterIsTheGreedyScan | mcp_server.py:62 | `finditer`'s offsets are sound, non-overlapping and cover every match, and a list of offsets has these properties exactly when it is `finditer`'s list |
| LiteralMatch.GreedyScanIsUnique | mcp_server.py:62 | Any sound, non-overlapping list of match offsets that covers every match equals the scan's list |
| LiteralMatch.GreedyScanEnds | mcp_server.py:62 | Once too little of the line is left for the keyword, both `finditer` and any greedy scan report nothing |
| LiteralMatch.OrderedCons | mcp_server.py:62 | A match followed by non-overlapping matches that start at its end or later is again a non-overlapping list of matches |
| LiteralMatch.GreedyScanTakes | mcp_server.py:62 | In any greedy scan, a match at the scan position is reported first, and the rest is a greedy scan from the end of that match |
| LiteralMatch.GreedyScanSkips | mcp_server.py:62 | Where the keyword does not match at the scan position, a greedy scan from that position is also one from the next position |
| SearchProperties.LineOccurrencesLocated | mcp_server.py:62-70 | Each occurrence found on a line carries that line's number and locates a match there, with its snippet; those occurrences run left to right without overlap |
| SearchProperties.OccurrencesLocated | mcp_server.py:61-70 | Every occurrence has a line number from 1 to the number of lines and locates a match on the line of that number: `end - start` is the keyword's length, the keyword matches at `start`, and the snippet comes from that line |
| SearchProperties.OccurrencesInOrder | mcp_server.py:61-70 | Occurrences are in line order, then in offset order within a line, and never overlap on one line |
| SearchProperties.LineOccurrencesComplete | mcp_server.py:62-70 | Every match on a line lies inside one of that line's occurrences |
| SearchProperties.OccurrencesComplete | mcp_server.py:61-70 | No match is missed: a match on line n at offset p lies inside some occurrence reported for line n + 1 (lines numbered from 1) |
| SearchProperties.NoOccurrencesIffNoMatch | mcp_server.py:61-77 | The search reports no occurrence exactly when the keyword matches nowhere on any line |
| SearchProperties.LocatedText | mcp_server.py:57-64 | A located occurrence points at the keyword itself when case-sensitive, or at text equal to it after folding otherwise. Its snippet contains that text after min(start, 40) characters of context and is at most 80 characters longer than the keyword |
| SearchScenarios.NonOverlappingScan | mcp_server.py:62 | "aa" is found at 0 and 2 in "aaaa" and only at 0 in "aaa": scanning resumes at the end of a match |
| SearchScenarios.CaseSensitivity | mcp_server.py:57 | "Hello" is found in "hello world" when case is ignored, and not found when case counts |
| SearchScenarios.PatternCharactersAreLiteral | mcp_server.py:58 | The "." of "a.b" matches only a dot, so "a.b" is not found in "axb" |
| SearchScenarios.BlankKeyword | mcp_server.py:49-50 | A keyword of spaces and tabs strips to nothing and is refused |
| SearchScenarios.MixedLineEndings | mcp_server.py:61 | "a\r\n\rb" splits into "a", "" and "b": "\r\n" is one terminator, and a lone "\r" ends a line too |
| SearchScenarios.TwoMatchesOnALine | mcp_server.py:62 | Ignoring case, "hello" is found in "say hello Hello" at 4 and at 10 |
| SearchScenarios.TwoLineFile | mcp_server.py:61-70 | Searching the lines "first" and "say hello Hello" for "hello", ignoring case, gives two occurrences on line 2 (offsets 4..9 and 10..15); each snippet is the whole line |

## Left out

- LiteralMatch.Fold: `re.IGNORECASE` on `str` patterns uses full Unicode simple case folding, but the model folds ASCII letters only. So non-ASCII letters match case-insensitively only when they are identical, and equivalences such as KELVIN SIGN with "k" or LONG S with "s" are not modelled.
- Regular-expression engine: the keyword always passes through `re.escape`, so the model replaces `re.compile` and `finditer` with a direct literal matcher. A non-empty literal never gives an empty match, so the scan resumes at the end of each match.
- File access: `os.path.isfile`, opening the file and decoding it as UTF-8 (with invalid bytes replaced) are I/O. They become the `FileSystem` map from each path that names a regular file to its decoded text.
- KeywordSearch.ReadFile: the map `fs` stands for the regular files that `open` can read. An `OSError` that `open` raises after `os.path.isfile` has succeeded is not modelled. That covers a `PermissionError` for an unreadable file and a `FileNotFoundError` without the custom message for a file removed in between. Either would leave `search_file` at the read.
- Default argument: `case_sensitive` defaults to `False` in the source; `SearchFile` always takes the flag explicitly, so a call that omits it corresponds to passing `false`.
- Path resolution: the model does no resolution. A path is looked up exactly as given, as the code does.
- Server plumbing: the FastMCP application, the resource and tool registration, the `file://{path}` URI and the serialisation of the result dictionary are not modelled.
- Python exceptions: `ValueError` and `FileNotFoundError` become the `SearchError` cases of a `Result`. `Message` gives each error's message text.
- Mutation of the Python list: the `occurrences` list is a sequence that the methods reassign, not a list object updated in place.
