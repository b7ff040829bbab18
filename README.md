# wall_of_shame: undocumented public PHP methods and who wrote them

`scripts/blame.py` looks for PHP methods that are public and have no
documentation. For each one it asks `git blame` who wrote the line, and it
appends a row naming that person to `blames.csv`. This project models that
script in Dafny, piece by piece, and proves what each piece computes:

- **Detector** (`detector.dfy`): the loop of `gen_undocumented_public_methods`,
  as a method over the file's lines. A `has_comment` flag is set by a line
  that strips to `*/` and cleared after every other line. A line is yielded
  with its 0-based index when three things hold: the flag is clear, its first
  token is `public`, and it has a `function` token and no token starting with
  `__`. The method is proved to yield exactly the reported lines, in
  increasing order. Lemmas cover the comment rule and its one-line reach.
- **Python text operations** (`pytext.dfy`): the parts of Python 2's `str`
  and `os.path` that the script relies on. These are `strip()`, `split()`,
  `split(sep)`, `"%d"` formatting and POSIX `os.path.join`. Whitespace is the
  set Python 2 uses (`' '` and `'\t'` to `'\r'`). Each comes with its
  round-trip or shape lemmas.
- **git blame** (`gitblame.dfy`): the argument list `get_blame` builds, and
  `get_email_from_blame`. The latter finds the first output line matching
  `^author-mail <(.+)>$` and otherwise fails with
  `ValueError("Could not get email")`. Python's `$` also matches before a
  final line break, and the greedy `.+` runs to the last `>`; both are
  modelled.
- **Sink** (`sink.dfy`): the row `mailworker` writes. It holds the address
  before the first `@`, the path with its first character replaced by
  `www`, and the line number, separated by commas and ended by a line break.
- **Scanner** (`scanner.dfy`): the two nested loops at the start of `main`.
  They join every file of every directory of the walk and queue the paths
  that end in `.php`.
- **Pipeline** (`pipeline.dfy`): a finding's index is handed to
  `git blame -L`. It also holds the off-by-one listed under Findings below.
- **Examples** (`detector_examples.dfy`, `pipeline_examples.dfy`): proofs of
  the detector's result on two files. One is `scripts/test.php`, where only
  `add` is reported, at index 13. The other is a four-line file with a
  documented method, an undocumented one and a magic one. For
  `scripts/test.php`, the requests sent to git, as written and corrected.

Scope of the model:

- The walk of the file tree, the output of `git blame` and the lines of a
  file are parameters. The model does not read them from disk or from a
  subprocess.
- The script's one error path is modelled as a `Result` value: the
  `ValueError` that `get_email_from_blame` raises when no `author-mail` line
  matches. `GitBlame.RangeStart` is not an error path of the script, which
  never parses the range. It is the reading of the `-L "<start>,+1"` range,
  which states which line a request asks git about, so the off-by-one below
  can be stated.
- Line indices are 0-based, as `enumerate` yields them. The code's index for
  the declaration of `add` in `scripts/test.php` is therefore 13, although
  that declaration is on the file's fourteenth line.

## Model

| member | source | states |
|---|---|---|
| Detector.Tokens | scripts/blame.py:78-83 | `line.strip().split()`: the tokens the three tests read. `CommentEndTokens` and `DetectorExamples.LineTokens` characterise them |
| Detector.ClosesComment | scripts/blame.py:79 | the branch `stripped == COMMENT_END`. `CommentEndTokens` gives its tokens and `DeclarationIsNotCommentEnd` separates it from declarations |
| Detector.DeclaresPublicFunction | scripts/blame.py:84-86 | the three token tests: the first token is `public`, some token is `function`, no token starts with `__`. See `FindingsDeclarePublicFunctions` |
| Detector.Documented | scripts/blame.py:70-71 | the docstring's "documented": the line before closes a comment. A loop invariant of `GenUndocumentedPublicMethods` proves that `has_comment` holds exactly this as each line is read |
| Detector.Reported | scripts/blame.py:79-87 | whether line `i` is yielded: it is not a comment close, it is not documented, and it passes the token tests. See `ReportedExactlyWhenUndocumented` |
| Detector.FindingsIn | scripts/blame.py:77-87 | what the generator yields over the first `n` lines, in order: the reference the loop is proved equal to. See `FindingsInExactly` and `FindingsInIncreasing` |
| Detector.Findings | scripts/blame.py:67-88 | what the generator yields over the whole file. See `FindingsExactly` and `FindingsIncreasing` |
| Detector.GenUndocumentedPublicMethods | scripts/blame.py:67-88 | the loop over the lines, carrying the comment flag, yields exactly `Findings(lines)`: the reported lines with their indices, in file order |
| Detector.FindingsInExactly | scripts/blame.py:77-87 | over the first `n` lines, a finding is yielded iff its index is below `n`, that line is reported and it carries that line's text |
| Detector.FindingsExactly | scripts/blame.py:77-87 | a finding `(i, line)` is yielded iff `i` is a line index, `line` is line `i`, and line `i` is reported |
| Detector.FindingsInIncreasing | scripts/blame.py:77-87 | the findings among the first `n` lines have indices below `n`, in strictly increasing order |
| Detector.FindingsIncreasing | scripts/blame.py:77-87 | the findings come out in strictly increasing index order, each index is a line of the file, and there are at most as many findings as lines |
| Detector.IncreasingBound | scripts/blame.py:77 | strictly increasing indices below `n` are at most `n` in number (the counting step behind the bound above) |
| Detector.FindingsDeclarePublicFunctions | scripts/blame.py:83-87 | every yielded line's tokens are non-empty, start with `public`, include `function` and have no token starting with `__` |
| Detector.CommentEndTokens | scripts/blame.py:25 | a line that strips to `*/` has the single token `*/` |
| Detector.DeclarationIsNotCommentEnd | scripts/blame.py:79-86 | a line that passes the three token tests never strips to `*/`, so it reaches the `else` branch |
| Detector.CommentEndHidesNextLine | scripts/blame.py:79-82 | neither a `*/` line nor the line right after it is ever yielded |
| Detector.ReportedExactlyWhenUndocumented | scripts/blame.py:68-88 | a line passing the three token tests is yielded iff the line before it does not strip to `*/` (the docstring's definition of documented) |
| Detector.CommentEndHidesOnlyOneLine | scripts/blame.py:80-88 | the flag is cleared after the line following `*/`: a declaration two lines below `*/`, after a line that does not close a comment, is yielded |
| PyText.TrimLeft | scripts/blame.py:78 | `s.lstrip()`, characterised by `TrimLeftDrops` and `TrimLeftPadded` |
| PyText.TrimRight | scripts/blame.py:78 | `s.rstrip()`, characterised by `TrimRightDrops` and `TrimRightPadded` |
| PyText.Strip | scripts/blame.py:78 | `s.strip()`, characterised by `StripDrops` and `StripPadded` |
| PyText.Split | scripts/blame.py:83 | `s.split()` with no argument: the maximal runs of non-whitespace. Characterised by `SplitWords`, `SplitAfterSpace`, `SplitWord`, `SplitSpace` and `SplitJoin` |
| PyText.StartsWith | scripts/blame.py:86 | `s.startswith(prefix)` |
| PyText.EndsWith | scripts/blame.py:138 | `s.endswith(suffix)` |
| PyText.JoinPath | scripts/blame.py:56 | POSIX `os.path.join(a, b)`, also used at scripts/blame.py:137. Characterised by `JoinPathShape` |
| PyText.TrimLeftDrops | scripts/blame.py:78 | `lstrip` removes a prefix of whitespace and leaves a string that is empty or starts with non-whitespace |
| PyText.TrimRightDrops | scripts/blame.py:78 | `rstrip` removes a suffix of whitespace and leaves a string that is empty or ends with non-whitespace |
| PyText.StripDrops | scripts/blame.py:78 | `strip()` returns a substring of the line with whitespace only around it, and no whitespace at either end |
| PyText.TrimLeftPadded | scripts/blame.py:78 | `lstrip` of whitespace followed by text starting with non-whitespace is that text |
| PyText.TrimRightPadded | scripts/blame.py:78 | `rstrip` of text ending with non-whitespace followed by whitespace is that text |
| PyText.StripPadded | scripts/blame.py:78 | `strip()` of text padded with whitespace on both sides gives the text back |
| PyText.WordLength | scripts/blame.py:83 | the leading run of non-whitespace is maximal: all of it is non-whitespace and the next character, if any, is whitespace |
| PyText.SplitWords | scripts/blame.py:83 | every token `split()` returns is non-empty and free of whitespace |
| PyText.SplitAfterSpace | scripts/blame.py:83 | leading whitespace does not change the tokens |
| PyText.WordLengthOf | scripts/blame.py:83 | a word followed by whitespace or by nothing is the whole leading run |
| PyText.SplitWord | scripts/blame.py:83 | a word followed by whitespace or by nothing is split off as the first token |
| PyText.SplitSpace | scripts/blame.py:83 | whitespace alone has no tokens |
| PyText.SplitWordSpace | scripts/blame.py:83 | a word and one space are split off whatever follows |
| PyText.SplitJoin | scripts/blame.py:83 | `split()` of words joined by single spaces, with trailing whitespace, gives the words back |
| PyText.IndexOf | scripts/blame.py:129 | the first index of the character, or the length when it does not occur: no occurrence before it |
| PyText.SplitOn | scripts/blame.py:36 | `split(sep)` returns at least one piece |
| PyText.SplitOnPieces | scripts/blame.py:36 | no piece of `split(sep)` contains `sep` |
| PyText.JoinSplitOn | scripts/blame.py:36 | joining the pieces of `split(sep)` with `sep` gives the string back |
| PyText.SplitOnJoin | scripts/blame.py:36 | `split(sep)` of pieces joined with `sep` gives the pieces back when none contains `sep` |
| PyText.IndexOfAbsent | scripts/blame.py:129 | a character that does not occur is found at the end |
| PyText.IndexOfFirst | scripts/blame.py:129 | the first occurrence is found after a prefix that does not contain it |
| PyText.DigitChar | scripts/blame.py:58 | a digit's character lies in `'0'..'9'` and stands for the digit |
| PyText.NatToDecimal | scripts/blame.py:58 | `"%d"` of a natural number is non-empty decimal digits with no leading zero |
| PyText.DecimalRoundTrip | scripts/blame.py:58 | reading back the decimal digits gives the number |
| PyText.FormatInt | scripts/blame.py:58 | `"%d"` of an integer is non-empty and made of digits and minus signs |
| PyText.FormatIntRoundTrip | scripts/blame.py:58 | the formatted integer is a minus sign and digits, or digits only, and parses back to the integer |
| PyText.JoinPathShape | scripts/blame.py:56 | `os.path.join(a, b)` ends with `b`. When `b` is relative, it starts with `a`, and it is `a`, `/`, `b` when `a` is non-empty and does not end in `/` |
| GitBlame.BeforeEnd | scripts/blame.py:28 | the line with at most one trailing line break removed, which is where `$` may match |
| GitBlame.MatchAuthorMail | scripts/blame.py:28 | a captured address is non-empty and has no line break |
| GitBlame.MatchAuthorMailExactly | scripts/blame.py:28 | the pattern captures `e` iff `e` is non-empty, has no line break, and the line is `author-mail <e>` with or without a final line break |
| GitBlame.FirstAuthorMail | scripts/blame.py:36-39 | an address the loop returns is non-empty and has no line break |
| GitBlame.FirstAuthorMailAt | scripts/blame.py:36-39 | when line `i` matches and no earlier line does, the loop returns line `i`'s capture |
| GitBlame.FirstAuthorMailFrom | scripts/blame.py:36-39 | a returned address is the capture of some line with no match before it |
| GitBlame.FirstAuthorMailNone | scripts/blame.py:36-40 | the loop finds nothing iff no line matches |
| GitBlame.EmailFromBlame | scripts/blame.py:35-40 | the address is non-empty and has no line break, and the only error is `ValueError("Could not get email")` |
| GitBlame.EmailFromBlameFails | scripts/blame.py:35-40 | the error is raised iff no line of `blame.split("\n")` matches |
| GitBlame.EmailFromEmptyBlame | scripts/blame.py:35-40 | an empty output raises the error |
| GitBlame.EmailFromBlameLines | scripts/blame.py:35-40 | for output made of lines, the address is the capture of the first matching line, whatever follows it |
| GitBlame.EmailRoundTrip | scripts/blame.py:28-39 | the line `author-mail <e>` yields `e` for every non-empty `e` without a line break |
| GitBlame.BlameArgs | scripts/blame.py:49-59 | seven arguments: `git blame -p -l`, the joined path, `-L`, and the range |
| GitBlame.RangeStart | scripts/blame.py:58 | not code of the script: how `git blame` reads the range `"<start>,+1"` that line 58 builds, an optional minus sign and digits before the comma and a count of one after it. See `BlameRangeRoundTrip` |
| GitBlame.BlameRangeRoundTrip | scripts/blame.py:58 | the range argument parses back to the line number it was built from, with a count of one |
| GitBlame.BlameArgsPath | scripts/blame.py:56 | an absolute file name is used as it is; a relative one starts with `local_path` and ends with the file name |
| GitBlame.BlameArgsDefaultPath | scripts/blame.py:49-56 | with the default `local_path`, a relative file name becomes `./<filename>` |
| Sink.Recipient | scripts/blame.py:129 | `email.split('@')[0]` is a prefix of the address without `@`, ending at the first `@` or at the end |
| Sink.RecipientOfAddress | scripts/blame.py:129 | the recipient of `user@domain` is `user` when `user` has no `@` |
| Sink.WwwPath | scripts/blame.py:129 | `'www' + filename[1:]` starts with `www`, is two characters longer (three for an empty name), and keeps every character after the first |
| Sink.WwwPathOfScanned | scripts/blame.py:129 | a scanned path `./<rest>` becomes `www/<rest>` |
| Sink.WwwPathInjective | scripts/blame.py:129 | paths starting with the same character map to the same name iff they are equal |
| Sink.FormatRow | scripts/blame.py:132 | the row ends with a line break |
| Sink.FormatRowOneLine | scripts/blame.py:132 | when the recipient and path have no line break, the row's only line break is its last character |
| Sink.FormatRowFields | scripts/blame.py:132 | when the recipient and path have no comma, the row before its line break splits on commas into recipient, path and line number |
| Sink.MailRow | scripts/blame.py:127-132 | the worker fails iff `get_email_from_blame` does, with its error, and then writes nothing |
| Sink.MailRowOfAuthor | scripts/blame.py:127-132 | for the output `author-mail <user@domain>` and the path `./<rest>`, the row is `user,www/<rest>,<line>` followed by a line break, for every `@`-free `user`. An empty `user` is included, and it gives an empty first field |
| Scanner.PhpPaths | scripts/blame.py:138-139 | the `.php` filter: the given paths that end in `.php`, in order. See `PhpPathsExactly` and `PhpPathsShorter` |
| Scanner.PhpFiles | scripts/blame.py:135-139 | the paths the scan queues for a prefix of the walk, in order: the reference `ScanPhpFiles` is proved equal to. See `PhpFilesExactly` |
| Scanner.Joined | scripts/blame.py:136-137 | one joined path per file |
| Scanner.ScanPhpFiles | scripts/blame.py:135-139 | the nested loops queue exactly `PhpFiles(walk)`, in walk order |
| Scanner.PhpPathsExactly | scripts/blame.py:138 | the filter keeps a path iff it is among the given ones and ends with `.php` |
| Scanner.PhpPathsShorter | scripts/blame.py:138-139 | the filter never queues more paths than it is given |
| Scanner.PhpFilesExactly | scripts/blame.py:135-139 | a path is queued iff it ends with `.php` and is a file of some directory of the walk joined to it |
| Scanner.JoinedUnderRoot | scripts/blame.py:135-137 | a relative name joined to `.` or to a path below it starts with `./` |
| Scanner.QueuedUnderRoot | scripts/blame.py:135-139 | when every directory is `.` or below it and no file name is absolute, every queued path starts with `./` |
| Pipeline.BlamedIndex | scripts/blame.py:51-58 | not code of the script: the 0-based index git reads from an argument list, one less than the start of its `-L` range. See `BlameAsWritten` and `BlameForFindingExact` |
| Pipeline.BlameAsWritten | scripts/blame.py:114-121 | as written, git is asked about the index one before the finding, and for index 0 about a line 0 that does not exist |
| PipelineExamples.TestPhpBlamesBlankLine | scripts/test.php:13-14 | on `scripts/test.php` the only finding is index 13, and as written git is asked about index 12, a blank line |
| Pipeline.BlameArgsForFinding | scripts/blame.py:49-59 | the corrected request differs from the one as written only in its range |
| Pipeline.BlameForFindingExact | scripts/blame.py:58 | the corrected request asks about exactly the finding's line, one-based |
| Pipeline.BlameRequests | scripts/blame.py:111-122 | corrected pipeline: one corrected request (index + 1) per finding, in detector order. As written, `blameworker` passes the 0-based index unchanged |
| Pipeline.BlameRequestsReported | scripts/blame.py:111-122 | corrected pipeline: each corrected request asks about a line the detector reports, and the requests ask about strictly increasing lines. As written, each asks about the line before, as `BlameAsWritten` states |
| PipelineExamples.TestPhpBlamesAdd | scripts/test.php:14 | on `scripts/test.php` the corrected pipeline makes the single request with range `14,+1`, the declaration of `add` |
| DetectorExamples.JoinEnds | scripts/test.php:1-20 | a helper for the rendered fixture lines: their text, words joined by single spaces, is empty only for no words, and otherwise starts with the first word's first character and ends with the last word's last character, so it has no whitespace at either end |
| DetectorExamples.LineTokens | scripts/blame.py:78-83 | an indented line of words separated by single spaces tokenises to exactly its words |
| DetectorExamples.LineClass | scripts/blame.py:79-86 | such a line closes a comment iff its only word is `*/`, and passes the token tests iff its words do |
| DetectorExamples.RenderReported | scripts/blame.py:77-87 | on a file of such lines, whether line `i` is reported is decided by the words of line `i` and of the line before it |
| DetectorExamples.NoDunder | scripts/blame.py:86 | words that do not start with `_` have no token starting with `__` |
| DetectorExamples.FindingsInSingle | scripts/blame.py:77-87 | when exactly one line is reported, it is the only finding |
| DetectorExamples.TestPhpLine2 | scripts/test.php:3 | `public $self = array();` starts with `public` but has no `function` token, so it is not reported |
| DetectorExamples.TestPhpLine3 | scripts/test.php:4 | the constructor's line starts with `public` and has `function`, but it has a token starting with `__`, so it is not reported |
| DetectorExamples.TestPhpLine9 | scripts/test.php:10 | the `__get` line starts with `public` and has `function`, but it has a token starting with `__`, so it is not reported |
| DetectorExamples.TestPhpLine13 | scripts/test.php:14 | the `add` line is a list of words that passes all three token tests |
| DetectorExamples.TestPhpLines | scripts/test.php:1-20 | every line of `scripts/test.php` is a list of words, and only index 13 passes the detector's tests |
| DetectorExamples.TestPhpFindings | scripts/test.php:1-20 | on `scripts/test.php` the detector yields only the declaration of `add` at index 13. The constructor and `__get` are excluded by the `__` test |
| DetectorExamples.TestPhpFindingIndex | scripts/test.php:14 | every finding on `scripts/test.php` has index 13 |
| DetectorExamples.FourLinesWordsReported | scripts/blame.py:79-87 | in the four-line file only entry 2 is reported |
| DetectorExamples.FourLinesFindings | scripts/blame.py:68-88 | on a file with `*/`, a documented method, an undocumented one and a magic one, only the undocumented method is yielded, at index 2 |

## Left out

- Threads, queues, the lock and the daemons (`_start_daemons`, the three workers' `while True` loops, and the `join` calls, scripts/blame.py:91-99, 105-147). The model follows one item through the queues in order. It does not model interleaving, and it does not model the order in which rows from different files reach the output.
- `_raw_run` and the `git` subprocess (scripts/blame.py:43-46). The output of `git blame` is a parameter of `EmailFromBlame`. The model does not decide what git prints for a given range. This includes the line 0 that the range as written names for a finding at index 0, which git rejects.
- The `blame is None` branch of `get_blame` (scripts/blame.py:61-62). `stdout.read()` returns a string, so this branch never runs. `BlameArgs` models the argument list, not that call.
- File I/O. Reading the PHP file (scripts/blame.py:76) is replaced by its lines as a parameter, each ending in its line break. Appending to `blames.csv` under the lock (scripts/blame.py:130-132) is replaced by the row as a value.
- `os.walk` (scripts/blame.py:135). The walk is a parameter, the sequence of `(dirpath, dirnames, filenames)` triples. Directory traversal order and symlinks are not modelled.
- An exception in a worker: a `ValueError` from `get_email_from_blame` ends that worker's thread. `MailRow` returns the error, and nothing about the thread is modelled.
- The regular-expression engine. `MatchAuthorMail` is written for the one pattern the script compiles, not for regular expressions in general.
- The CSV row keeps the 0-based index that the script passes around (scripts/blame.py:132). The Findings row below concerns only the range sent to git. The model does not change what the CSV reports.
- build.py is not part of this model.

## Findings

| source | as written | input that shows it | evidently intended | confidence | as-written member | corrected member |
|---|---|---|---|---|---|---|
| scripts/blame.py:77, scripts/blame.py:114-121, scripts/blame.py:58 | the 0-based index from `enumerate` is passed unchanged as the start of `git blame -L "<n>,+1"`, and git counts lines from 1 | `scripts/test.php`: `add` is found at index 13 (the file's fourteenth line), so git is asked about line 13, the blank line above it; a finding on a file's first line asks for line 0 | blame the line of the finding: start the range at index + 1 | not executed | GitBlame.BlameArgs, Pipeline.BlameAsWritten, PipelineExamples.TestPhpBlamesBlankLine | Pipeline.BlameArgsForFinding, Pipeline.BlameForFindingExact, Pipeline.BlameRequests, Pipeline.BlameRequestsReported, PipelineExamples.TestPhpBlamesAdd |
