# filter_precommit, modelled in Dafny

`filter_precommit.py` narrows the output of a commit's pre-commit hooks
down to the findings that concern lines being committed. It has two pure
parts, and this project models both as pure Dafny functions with proofs
about them.

- **The diff scan** is the loop of `get_changed_lines`. It reads the lines
  of `git diff --staged` and builds a map from each file named by a
  `+++ b/<path>` header to the set of new-file line numbers of its `+`
  lines. It keeps a running line counter that hunk headers
  (`@@ -a,b +s,c @@`) set. The model is a fold of one `Step` over the
  lines (`DiffScan`). The hunk-header regex is a hand-written matcher
  (`HunkHeader`).
- **The log filter** is `filter_logs`. It keeps, in order and unaltered,
  the log lines that refer to a changed line:
  - a line of the form `path:line:[col:] message` is looked up by its
    path, cut back to start at `src/`, and by its line number;
  - any other line is kept when it mentions a changed path.

  The structured-line regex and the path normalisation are in `LogLine`,
  and the loop is in `LogFilter`.

The `str` operations these parts rely on are in `Text`: `startswith`,
`strip()`, `in`, `index` and `int()` of a digit run. `Wrappers` holds
`Option` and `Result`.

The diff scan has two places where the code does not give the new-file line
numbers of the unified diff format (see "Findings"). Those are the numbers
that filter_precommit.py:33 and :45 say the counter holds: the number of
the current line in the file. The comment at filter_precommit.py:51 says
that deletions advance the counter, which contradicts that numbering. The
model follows the numbering:

- `DiffScan` keeps the code as written.
- `IntendedScan` is the corrected scan, and the two are compared in
  `Discrepancies`.

The filter takes the changed-line map as a parameter, so everything proved
about it holds whichever scan produced the map. `Scenarios` works through
concrete diffs and log lines.

Some conventions of the model:

- `current_file` is `None` before the first header and may be `""` after a
  header with an empty path. The code tells the two apart only by truth
  tests (filter_precommit.py:44 and :48). It uses the value as a map key at
  :39, where it is always a string, and at :49 only after the truth test at
  :48. The model therefore uses the empty string for both.
- `index("src/")` raises `ValueError` when the path has no `src/`, and the
  exception ends the whole call. The filter therefore returns a
  `Result`, whose error names the offending line. The model follows the
  code here: it does not skip such a line and carry on, although skipping
  would be the more robust behaviour.

## Model

| member | source | states |
|---|---|---|
| Text.Strip | filter_precommit.py:38 | `strip()`: the result starts and ends with a non-whitespace character, and the input is whitespace, then the result, then whitespace |
| Text.IndexOf | filter_precommit.py:80 | the first index at which the substring occurs, and none exactly when it does not occur at all |
| Text.DigitsValueDecimal | filter_precommit.py:81 | `int()` reads the canonical decimal spelling of every number back to that number |
| Text.DecimalDigitsValue | filter_precommit.py:81 | a digit run without a leading zero is the canonical spelling of the number `int()` reads from it, so no two such runs have the same value |
| Text.DigitRunUnique | filter_precommit.py:43 | a digit run that ends at a non-digit is the longest digit run there, which is where a greedy `\d+` stops |
| HunkHeader.Number | filter_precommit.py:43 | `\d+`: splits the text into a non-empty digit run and a rest that does not start with a digit, and fails exactly when the text does not start with a digit |
| HunkHeader.Match | filter_precommit.py:43 | a match starts the line with `@@ -` followed by a rendered header with four non-empty digit runs |
| HunkHeader.NewStartMeaning | filter_precommit.py:43-46 | `int(match.group(1))` is defined exactly for the lines that begin with a header `@@ -a,b +c,d @@` of four digit runs, and is then the value of `c` |
| HunkHeader.MatchRender | filter_precommit.py:43 | every header `@@ -a,b +c,d @@` matches whatever follows it, giving back its four digit runs and new start `c` |
| HunkHeader.MissingCountsRejected | filter_precommit.py:43 | `@@ -1 +1 @@`, which has no counts, does not match |
| DiffScan.HeaderPath | filter_precommit.py:38 | a header's path is no longer than the text after `+++ b/`, and neither starts nor ends with whitespace |
| DiffScan.HeaderPathShape | filter_precommit.py:38 | after its `+++ b/`, a file header is whitespace, then the path, then whitespace |
| DiffScan.Run | filter_precommit.py:35-53 | the loop never reaches a state with a current file that has no entry in the map, so `changed_lines[current_file]` never fails |
| DiffScan.Classify | filter_precommit.py:37-53 | the `if`/`elif` chain sorts each line into exactly one kind, and each kind is exactly the lines its prefix test accepts |
| DiffScan.Step | filter_precommit.py:35-53 | one iteration keeps the current file's entry present; a `+++ b/` header adds its stripped path as a key with an empty set and resets the counter; no other line adds a key |
| DiffScan.StepEntry | filter_precommit.py:37-50 | apart from a header for the same path, an entry only gains the counter, and only on an added line while a current file is set and is that entry |
| DiffScan.CounterRules | filter_precommit.py:40-53 | a header sets the counter to 0; a matching hunk header with a current file sets it to the new start; `+`, ` ` and `-` lines advance it by one; every other line, including a rejected or premature hunk header, leaves the state alone |
| DiffScan.HeaderPathsNamed | filter_precommit.py:37-39 | a path is a header path exactly when some `+++ b/` line names it |
| DiffScan.ScanDiff | filter_precommit.py:31-55 | the map's keys are exactly the paths of the diff's `+++ b/` headers, a header without added lines included |
| DiffScan.RecordedOnlyAddedLines | filter_precommit.py:44-53 | a number is recorded for a path exactly when an added line was read with that path current and the counter at that number, and no later header for the path followed |
| DiffScan.RepeatedHeaderForgets | filter_precommit.py:37-40 | the set recorded for a path depends only on the lines from its last header on; earlier entries are discarded |
| DiffScan.RunAppend | filter_precommit.py:35 | scanning `a + b` is scanning `a` and then `b` from the state `a` leaves |
| DiffScan.RunAgreeOn | filter_precommit.py:35-53 | the entry for a path never depends on the other entries |
| DiffScan.HunkThenAdded | filter_precommit.py:42-50 | after a hunk header with new start `s`, `k` added lines record exactly `s .. s+k-1` for the current file and leave the counter at `s + k` |
| HunkBody.AddedNumbers | filter_precommit.py:47-53 | the numbers `s + j` of the added lines `side[j]`, and no others |
| HunkBody.HunkAsWritten | filter_precommit.py:42-53 | as written, the added lines of a hunk body are numbered from the new start by their index in the body, deletions included |
| HunkBody.NewSideKeepsAdded | filter_precommit.py:51-53 | the new side of a hunk body holds every line that is not a deletion, and only lines of the body |
| LogLine.FindSeparator | filter_precommit.py:73 | the first index, from a starting point on, at which `:<digits>:` matches, and none when there is no such index |
| LogLine.SepAtIsSeparator | filter_precommit.py:73 | trying only the longest digit run after a colon finds exactly the places where `:(\d+):` matches for some digit count |
| LogLine.MatchLocationIsPattern | filter_precommit.py:73-78 | the pattern matches exactly when the line holds `:<digits>:`; the path group is the text before the first such occurrence and the line number is the value of its digits |
| LogLine.MatchLocation | filter_precommit.py:73-78 | a match's path group is a proper prefix of the line, since the `:<digits>:` after it is still to come |
| LogLine.MatchAt | filter_precommit.py:73-78 | a line whose first `:<digits>:` is at `p` has the path `l[..p]` and those digits' value |
| LogLine.Normalise | filter_precommit.py:79-80 | a normalised path starts with `src/` |
| LogLine.NormaliseCutsAtFirstRoot | filter_precommit.py:79-80 | normalisation fails exactly when the stripped path holds no `src/`, and otherwise is the stripped path's suffix from its first `src/` |
| LogFilter.MentionsChangedPathMeaning | filter_precommit.py:86 | `any(file_path in log ...)` holds exactly when some changed path is a piece of the line, and always when the empty path is a key |
| LogFilter.Judge | filter_precommit.py:76-87 | a line's verdict can only fail with the error that names that line |
| LogFilter.Sift | filter_precommit.py:71-89 | the loop's output is a subsequence of the logs holding exactly the kept lines, and it fails exactly when some line's verdict fails |
| LogFilter.FilterLogs | filter_precommit.py:66-89 | with no changed lines the result is empty; otherwise an order-preserving subsequence holding exactly the kept lines, or an error exactly when some line raises |
| LogFilter.FirstErrorReported | filter_precommit.py:75-80 | the error reported is that of the first line whose path cannot be normalised |
| LogFilter.FilterAppend | filter_precommit.py:75-87 | filtering `a + b` is filtering `a` and then `b` and joining the results, the first error winning |
| LogFilter.FilterIdempotent | filter_precommit.py:66-89 | filtering the output again gives the same output |
| LogFilter.FilterOne | filter_precommit.py:75-87 | a single line is kept, dropped or raises according to its own verdict |
| LogFilter.StructuredRule | filter_precommit.py:76-84 | a structured line raises when its path has no `src/`, and is otherwise kept exactly when the normalised path is a key whose set holds the line number; it never falls back to the substring test |
| LogFilter.UnstructuredRule | filter_precommit.py:85-87 | a line without `:<digits>:` is kept exactly when some changed path occurs in it |
| IntendedScan.ReadRange | filter_precommit.py:41-46 | `\d+(?:,\d+)?` reads a well-formed range and the text after it |
| IntendedScan.LenientNewStartMeaning | filter_precommit.py:41-46 | with the counts optional, a line has a new start exactly when it begins with a header `@@ -a[,b] +c[,d] @@`, and the new start is then the value of `c` |
| IntendedScan.LenientRender | filter_precommit.py:41-46 | every header git writes, with counts present or left out, is accepted with its new side's start |
| IntendedScan.LenientExtends | filter_precommit.py:43 | wherever the source's pattern matches, the lenient one matches with the same new start |
| IntendedScan.IntendedStep | filter_precommit.py:35-53 | the corrected iteration adds exactly the keys the source's does |
| IntendedScan.IntendedScanDiff | filter_precommit.py:31-55 | the corrected map has the same keys as the map as written |
| IntendedScan.IntendedAgrees | filter_precommit.py:41-53 | on a diff whose deletions are each followed at once by a file header, as git's `--- a/<path>` lines are, and whose hunk headers the lenient and strict patterns read alike, the corrected scan has the same current file and map as the scan as written, and the same counter too unless the last line read is a deletion |
| IntendedScan.IntendedScanAgrees | filter_precommit.py:31-55 | on such a diff, which includes every diff that only adds lines in hunks whose headers carry both counts, the corrected map equals the map as written |
| IntendedScan.IntendedBody | filter_precommit.py:51-53 | in the corrected scan a body's added lines are numbered by their index on the new side, deletions skipped |
| IntendedScan.IntendedHunk | filter_precommit.py:41-53 | in the corrected scan a hunk's added lines are numbered from the header's new start by their position among the lines of the new file |
| Discrepancies.DeletionShiftsAddedLine | filter_precommit.py:51-53 | as written, a line replaced after `k` context lines of a hunk with new start `s` is recorded as `s + k + 1`, one past its place |
| Discrepancies.ReplacementKeepsNumber | filter_precommit.py:41-53 | in the corrected scan the same replacement is recorded as `s + k`, its line in the new file |
| Discrepancies.ReplacedLine | filter_precommit.py:41-53 | in the hunk `@@ -3,4 +3,4 @@` with three context lines, replacing line 6 of `a.py` records line 7 as written and line 6 as intended |
| Discrepancies.OneLineHeaderRejected | filter_precommit.py:43 | the header `@@ -0,0 +1 @@`, which git writes for a new one-line file, does not match the source's pattern |
| Discrepancies.OneLineHeaderAccepted | filter_precommit.py:41-46 | the lenient pattern reads that header as starting at new line 1 |
| Discrepancies.SkippedHeader | filter_precommit.py:42-50 | after a rejected hunk header the next added line takes the counter the file header left, 0; the corrected scan records the header's start, 1 |
| Discrepancies.NewOneLineFile | filter_precommit.py:37-50 | adding the one-line file `a.py` records line 0 as written and line 1 as intended |
| Scenarios.StagedAdditions | filter_precommit.py:31-55 | the staged diff `diff --git …`, `--- a/src/a.py`, `+++ b/src/a.py`, `@@ -9,0 +10,2 @@` and two added lines gives `{"src/a.py": {10, 11}}` |
| Scenarios.StagedAdditionsIntended | filter_precommit.py:31-55 | the corrected scan gives the same map for that diff, whose only deletion is its `--- a/src/a.py` header |
| Scenarios.ChangedLineKept | filter_precommit.py:66-89 | with lines 10 and 11 of `src/a.py` changed, `src/a.py:10:5: unused import` is kept and `src/a.py:99: other` dropped |
| Scenarios.AbsolutePathKept | filter_precommit.py:76-84 | `/home/user/project/src/a.py:10: msg` is normalised to `src/a.py` and kept |
| Scenarios.ReformattedKept | filter_precommit.py:85-87 | `black: reformatted src/a.py` has no location and is kept because it mentions a changed path |
| Scenarios.OutsideRootRaises | filter_precommit.py:79-80 | `lib/b.py:3: x` ends the filter with an error |

## Left out

- Running `git diff --staged` and the exit on `CalledProcessError`
  (filter_precommit.py:19-29) are process I/O. The scan takes the diff's
  lines as its input.
- `read_saved_logs` (filter_precommit.py:57-64) is file I/O and
  `sys.exit`. The filter takes the log lines as its input.
- `main`, `output_path` and the printing (filter_precommit.py:15, 91-105)
  are console output and exit codes only.
- `str.splitlines` is left out. Both inputs are sequences of lines that
  hold no line break. On such lines the `.` of `(.*?)` and `(.*)` matches
  every character, and `$` matches at the end.
- Python's Unicode digits are left out. `\d` and `int()` are modelled for
  the ASCII digits `0`-`9` only, so a line number or hunk start written in
  other Unicode decimal digits is not matched.
- Whitespace is the exact set of characters `str.isspace` accepts, written
  out in `Text.Whitespace`. It is used for `strip()`.
- The message group `(.*)` and the optional column `(?:\d+:)?` of the
  log pattern are not captured. The code never uses them, and on a
  single line they always match, so they cannot make the match fail.
- Text.DigitsValue: reads a digit run of any length. Python's `int()`
  raises `ValueError` on a run longer than `sys.get_int_max_str_digits()`
  (4300 digits by default since CPython 3.11). The model has no such error
  path, because that limit is an interpreter setting and no real diff or
  log line comes near it.

## Findings

Two places where the diff scan as written disagrees with the new-file
numbering that filter_precommit.py:33 and :45 say the counter holds. In both, the wrong numbers then make the filter keep the
wrong findings.

| source | as written | input that shows it | evidently intended | confidence | as-written member | corrected member |
|---|---|---|---|---|---|---|
| filter_precommit.py:51-53 | a `-` line advances the new-file counter, although a deleted line has no number in the new file | `+++ b/a.py`, `@@ -3,4 +3,4 @@`, ` a`, ` b`, ` c`, `-old`, `+new` records `{"a.py": {7}}` | the replacing line is line 6 of the new file: `{"a.py": {6}}` | not executed | Discrepancies.DeletionShiftsAddedLine, Discrepancies.ReplacedLine | IntendedScan.IntendedHunk, Discrepancies.ReplacementKeepsNumber |
| filter_precommit.py:43 | the hunk pattern wants both counts, but git leaves a count of 1 out (`@@ -0,0 +1 @@`), so such a header is skipped and the counter keeps its old value | `+++ b/a.py`, `@@ -0,0 +1 @@`, `+x` records `{"a.py": {0}}` | the added line is line 1: `{"a.py": {1}}` | not executed | Discrepancies.OneLineHeaderRejected, Discrepancies.NewOneLineFile | IntendedScan.LenientRender, IntendedScan.LenientExtends |

The corrected scan (`IntendedScan.IntendedStep`) reads hunk headers with
`\d+(?:,\d+)?` on each side and leaves the counter alone on a deletion.
Every other line is handled as in the source. `IntendedScan.IntendedScanAgrees`
shows that the correction gives the same map on every diff whose only
deletions are git's `--- a/<path>` file headers and whose hunk headers carry
both counts. `Scenarios.StagedAdditionsIntended` applies it to a staged
diff of two added lines.
