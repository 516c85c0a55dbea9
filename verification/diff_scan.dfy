/**
 * The diff-scanning loop of `get_changed_lines` (filter_precommit.py:31-55):
 * a fold of `Step` over the lines of `git diff --staged`, building, for each
 * `+++ b/<path>` header, the set of new-file line numbers of its `+` lines.
 */
module DiffScan {
  import opened Wrappers
  import opened Text
  import HunkHeader

  /** File path to the line numbers recorded for it (`Dict[str, Set[int]]`). */
  type ChangedLines = map<string, set<nat>>

  /**
   * The loop's three variables. The empty `file` stands for both `None` and
   * an empty path: the loop only ever tests `current_file` for truth.
   */
  datatype ScanState = ScanState(file: string, line: nat, changed: ChangedLines)

  const Start := ScanState("", 0, map[])

  /** `line.startswith("+++ b/")` */
  predicate IsFileHeader(l: string) {
    StartsWith(l, "+++ b/")
  }

  /** `line[6:].strip()`: the path never begins or ends with whitespace. */
  function HeaderPath(l: string): (p: string)
    requires IsFileHeader(l)
    ensures |p| + 6 <= |l|
    ensures |p| > 0 ==> !IsSpace(p[0]) && !IsSpace(p[|p| - 1])
  {
    Strip(l[6..])
  }

  /** After its `+++ b/`, a file header is whitespace, the path, whitespace. */
  lemma HeaderPathShape(l: string)
    requires IsFileHeader(l)
    ensures exists a, b :: AllSpace(a) && AllSpace(b) && l[6..] == a + HeaderPath(l) + b
  {
    var s := l[6..];
    assert HeaderPath(l) == Strip(s);
    StripPadding(s);
  }

  predicate HeaderFor(l: string, path: string) {
    IsFileHeader(l) && HeaderPath(l) == path
  }

  /** `line.startswith("@@")` */
  predicate IsHunkLine(l: string) {
    StartsWith(l, "@@")
  }

  /** A `+` line that is not a `+++` header. */
  predicate IsAddedLine(l: string) {
    StartsWith(l, "+") && !StartsWith(l, "+++")
  }

  /** A context line or a deletion, including a `---` header. */
  predicate IsContextOrRemoved(l: string) {
    StartsWith(l, " ") || StartsWith(l, "-")
  }

  /** What the loop's `if`/`elif` chain makes of a line, tested in the source's order. */
  datatype LineKind =
    | FileHeader(path: string)
    | Hunk(start: Option<nat>)
    | Added
    | ContextOrRemoved
    | Other

  /** The first character of each kind of line tells the kinds apart. */
  lemma FirstCharacters(l: string)
    ensures IsFileHeader(l) ==> |l| > 0 && l[0] == '+' && StartsWith(l, "+++")
    ensures IsHunkLine(l) ==> |l| > 0 && l[0] == '@'
    ensures IsAddedLine(l) ==> |l| > 0 && l[0] == '+' && !IsFileHeader(l)
    ensures IsContextOrRemoved(l) ==> |l| > 0 && (l[0] == ' ' || l[0] == '-')
  {
    if IsFileHeader(l) {
      StartsWithFirst(l, "+++ b/");
      StartsWithPrefix(l, "+++ b/", "+++");
    }
    if IsHunkLine(l) {
      StartsWithFirst(l, "@@");
    }
    if IsAddedLine(l) {
      StartsWithFirst(l, "+");
      if IsFileHeader(l) {
        StartsWithPrefix(l, "+++ b/", "+++");
      }
    }
    if StartsWith(l, " ") {
      StartsWithFirst(l, " ");
    }
    if StartsWith(l, "-") {
      StartsWithFirst(l, "-");
    }
  }

  /**
   * The kind of a line. The five kinds partition all lines, and each kind is
   * exactly the lines its prefix test accepts.
   */
  function Classify(l: string): (k: LineKind)
    ensures k.FileHeader? <==> IsFileHeader(l)
    ensures k.FileHeader? ==> k.path == HeaderPath(l)
    ensures k.Hunk? <==> IsHunkLine(l)
    ensures k.Hunk? ==> k.start == HunkHeader.NewStart(l)
    ensures k.Added? <==> IsAddedLine(l)
    ensures k.ContextOrRemoved? <==> IsContextOrRemoved(l)
  {
    FirstCharacters(l);
    if IsFileHeader(l) then FileHeader(HeaderPath(l))
    else if IsHunkLine(l) then Hunk(HunkHeader.NewStart(l))
    else if IsAddedLine(l) then Added
    else if IsContextOrRemoved(l) then ContextOrRemoved
    else Other
  }

  /** The current file, when there is one, already has an entry. */
  predicate Valid(st: ScanState) {
    st.file == "" || st.file in st.changed
  }

  /**
   * One iteration of the loop body. An added line records the counter only
   * while there is a current file; without one it falls through the rest of
   * the chain, which it matches no branch of.
   */
  function Step(st: ScanState, l: string): (r: ScanState)
    requires Valid(st)
    ensures Valid(r)
    ensures r.changed.Keys == st.changed.Keys + (if IsFileHeader(l) then {HeaderPath(l)} else {})
    ensures IsFileHeader(l) ==> r.file == HeaderPath(l) && r.line == 0 && r.changed[HeaderPath(l)] == {}
  {
    match Classify(l)
    case FileHeader(path) => ScanState(path, 0, st.changed[path := {}])
    case Hunk(start) => if start.Some? && st.file != "" then st.(line := start.value) else st
    case Added =>
      if st.file != "" then
        st.(line := st.line + 1, changed := st.changed[st.file := st.changed[st.file] + {st.line}])
      else st
    case ContextOrRemoved => st.(line := st.line + 1)
    case Other => st
  }

  /** Whether `l`, read in state `st`, records the counter for `path`. */
  predicate Records(st: ScanState, l: string, path: string) {
    IsAddedLine(l) && st.file != "" && path == st.file
  }

  /**
   * Apart from a header resetting its own path, an entry only ever gains the
   * counter, and only for the current file on an added line.
   */
  lemma StepEntry(st: ScanState, l: string, path: string)
    requires Valid(st) && path in st.changed && !HeaderFor(l, path)
    ensures path in Step(st, l).changed
    ensures Step(st, l).changed[path] == st.changed[path] + (if Records(st, l, path) then {st.line} else {})
  {
  }

  /** The paths named by the file headers among `lines`. */
  function HeaderPaths(lines: seq<string>): set<string> {
    if |lines| == 0 then {}
    else
      var l := lines[|lines| - 1];
      HeaderPaths(lines[..|lines| - 1]) + (if IsFileHeader(l) then {HeaderPath(l)} else {})
  }

  /** A path is a header path exactly when some header line names it. */
  lemma HeaderPathsNamed(lines: seq<string>, path: string)
    ensures path in HeaderPaths(lines) <==> exists i :: 0 <= i < |lines| && HeaderFor(lines[i], path)
  {
    if path in HeaderPaths(lines) {
      HeaderPathsSound(lines, path);
    }
    if exists i :: 0 <= i < |lines| && HeaderFor(lines[i], path) {
      var i :| 0 <= i < |lines| && HeaderFor(lines[i], path);
      HeaderPathsComplete(lines, i, path);
    }
  }

  lemma {:induction false} HeaderPathsSound(lines: seq<string>, path: string)
    requires path in HeaderPaths(lines)
    ensures exists i :: 0 <= i < |lines| && HeaderFor(lines[i], path)
    decreases |lines|
  {
    var m := |lines| - 1;
    var pre := lines[..m];
    if path in HeaderPaths(pre) {
      HeaderPathsSound(pre, path);
      var i :| 0 <= i < |pre| && HeaderFor(pre[i], path);
      assert lines[i] == pre[i];
    } else {
      assert HeaderFor(lines[m], path);
    }
  }

  lemma {:induction false} HeaderPathsComplete(lines: seq<string>, i: nat, path: string)
    requires i < |lines| && HeaderFor(lines[i], path)
    ensures path in HeaderPaths(lines)
    decreases |lines|
  {
    var m := |lines| - 1;
    if i < m {
      var pre := lines[..m];
      assert pre[i] == lines[i];
      HeaderPathsComplete(pre, i, path);
    }
  }

  /** The loop run over `lines` from state `st`. */
  function Run(st: ScanState, lines: seq<string>): (r: ScanState)
    requires Valid(st)
    ensures Valid(r)
    decreases |lines|
  {
    if |lines| == 0 then st
    else Step(Run(st, lines[..|lines| - 1]), lines[|lines| - 1])
  }

  /** Keys are only ever added, one for each header line. */
  lemma {:induction false} RunKeys(st: ScanState, lines: seq<string>)
    requires Valid(st)
    ensures Run(st, lines).changed.Keys == st.changed.Keys + HeaderPaths(lines)
    decreases |lines|
  {
    if |lines| > 0 {
      RunKeys(st, lines[..|lines| - 1]);
    }
  }

  /**
   * The changed-line map of a diff. Its keys are exactly the paths of the
   * diff's `+++ b/` headers, a header with no added lines included.
   */
  function ScanDiff(lines: seq<string>): (r: ChangedLines)
    ensures r.Keys == HeaderPaths(lines)
  {
    RunKeys(Start, lines);
    Run(Start, lines).changed
  }

  /** The state the loop is in when it reaches `lines[i]`. */
  function Before(lines: seq<string>, i: nat): ScanState
    requires i <= |lines|
  {
    Run(Start, lines[..i])
  }

  /** No header for `path` comes after `lines[i]`. */
  ghost predicate NotReopened(lines: seq<string>, i: nat, path: string) {
    forall j :: i < j < |lines| ==> !HeaderFor(lines[j], path)
  }

  /**
   * `lines[i]` is an added line, seen while `path` was the current file and
   * the counter stood at `n`, and no later header for `path` follows it.
   */
  ghost predicate RecordedAt(lines: seq<string>, i: nat, path: string, n: nat) {
    && i < |lines|
    && Records(Before(lines, i), lines[i], path)
    && Before(lines, i).line == n
    && NotReopened(lines, i, path)
  }

  /** Dropping the last line keeps the earlier records that it does not cancel. */
  lemma RecordedAtPrefix(lines: seq<string>, i: nat, path: string, n: nat)
    requires i + 1 < |lines|
    ensures RecordedAt(lines, i, path, n) <==>
      RecordedAt(lines[..|lines| - 1], i, path, n) && !HeaderFor(lines[|lines| - 1], path)
  {
    var pre := lines[..|lines| - 1];
    assert lines[..i] == pre[..i];
    assert Before(lines, i) == Before(pre, i);
    assert lines[i] == pre[i];
    NotReopenedPrefix(lines, i, path);
  }

  lemma NotReopenedPrefix(lines: seq<string>, i: nat, path: string)
    requires i + 1 < |lines|
    ensures NotReopened(lines, i, path) <==>
      NotReopened(lines[..|lines| - 1], i, path) && !HeaderFor(lines[|lines| - 1], path)
  {
    AllAfterPrefix(lines, lines[..|lines| - 1], i, l => !HeaderFor(l, path));
  }

  /** A property holds after `i` exactly when it holds after `i` in all but the last element, and on the last. */
  lemma AllAfterPrefix<T>(xs: seq<T>, pre: seq<T>, i: nat, p: T -> bool)
    requires i + 1 < |xs| && pre == xs[..|xs| - 1]
    ensures (forall j :: i < j < |xs| ==> p(xs[j])) <==>
      (forall j :: i < j < |pre| ==> p(pre[j])) && p(xs[|xs| - 1])
  {
  }

  /** Each recorded number comes from an added line. */
  lemma {:induction false} RecordedSound(lines: seq<string>, path: string, n: nat)
    requires path in ScanDiff(lines) && n in ScanDiff(lines)[path]
    ensures exists i: nat :: RecordedAt(lines, i, path, n)
    decreases |lines|
  {
    var m := |lines| - 1;
    var pre := lines[..m];
    var l := lines[m];
    var s := Run(Start, pre);
    assert lines[..m] == pre;
    assert Before(lines, m) == s;
    assert ScanDiff(lines) == Step(s, l).changed;
    if !HeaderFor(l, path) {
      assert path in s.changed by {
        RunKeys(Start, pre);
        RunKeys(Start, lines);
      }
      StepEntry(s, l, path);
      if n in s.changed[path] {
        RecordedSound(pre, path, n);
        var i: nat :| RecordedAt(pre, i, path, n);
        RecordedAtPrefix(lines, i, path, n);
      } else {
        assert RecordedAt(lines, m, path, n);
      }
    }
  }

  /** Each added line that no later header cancels is recorded. */
  lemma {:induction false} RecordedComplete(lines: seq<string>, i: nat, path: string, n: nat)
    requires RecordedAt(lines, i, path, n)
    ensures path in ScanDiff(lines) && n in ScanDiff(lines)[path]
    decreases |lines|
  {
    var m := |lines| - 1;
    var pre := lines[..m];
    var l := lines[m];
    var s := Run(Start, pre);
    assert lines[..m] == pre;
    assert Before(lines, m) == s;
    assert ScanDiff(lines) == Step(s, l).changed;
    if i < m {
      RecordedAtPrefix(lines, i, path, n);
      RecordedComplete(pre, i, path, n);
      StepEntry(s, l, path);
    } else {
      StepEntry(s, l, path);
    }
  }

  /**
   * A number is in a path's set exactly when some added line was seen with
   * that path current and that counter value, and the path's header did not
   * come again later. Context, deletion, header and metadata lines never
   * record anything.
   */
  lemma RecordedOnlyAddedLines(lines: seq<string>, path: string, n: nat)
    ensures (path in ScanDiff(lines) && n in ScanDiff(lines)[path]) <==> exists i: nat :: RecordedAt(lines, i, path, n)
  {
    if path in ScanDiff(lines) && n in ScanDiff(lines)[path] {
      RecordedSound(lines, path, n);
    }
    if exists i: nat :: RecordedAt(lines, i, path, n) {
      var i: nat :| RecordedAt(lines, i, path, n);
      RecordedComplete(lines, i, path, n);
    }
  }

  /** Running over `a + b` is running over `a`, then over `b`. */
  lemma {:induction false} RunAppend(st: ScanState, a: seq<string>, b: seq<string>)
    requires Valid(st)
    ensures Run(st, a + b) == Run(Run(st, a), b)
    decreases |b|
  {
    if |b| == 0 {
      assert a + b == a;
    } else {
      var m := |b| - 1;
      assert (a + b)[..|a + b| - 1] == a + b[..m];
      assert (a + b)[|a + b| - 1] == b[m];
      RunAppend(st, a, b[..m]);
    }
  }

  /** Two states that agree on the cursor and on the entry for `path`. */
  predicate AgreeOn(s1: ScanState, s2: ScanState, path: string) {
    && s1.file == s2.file
    && s1.line == s2.line
    && (path in s1.changed <==> path in s2.changed)
    && (path in s1.changed ==> s1.changed[path] == s2.changed[path])
  }

  /** The entry for `path` never depends on the other entries. */
  lemma {:induction false} RunAgreeOn(s1: ScanState, s2: ScanState, lines: seq<string>, path: string)
    requires Valid(s1) && Valid(s2) && AgreeOn(s1, s2, path)
    ensures AgreeOn(Run(s1, lines), Run(s2, lines), path)
    decreases |lines|
  {
    if |lines| > 0 {
      var pre := lines[..|lines| - 1];
      RunAgreeOn(s1, s2, pre, path);
      StepAgreeOn(Run(s1, pre), Run(s2, pre), lines[|lines| - 1], path);
    }
  }

  lemma StepAgreeOn(s1: ScanState, s2: ScanState, l: string, path: string)
    requires Valid(s1) && Valid(s2) && AgreeOn(s1, s2, path)
    ensures AgreeOn(Step(s1, l), Step(s2, l), path)
  {
    match Classify(l)
    case Added =>
      if s1.file != "" && s1.file != path {
        assert Step(s1, l).changed[path := {}] == s1.changed[s1.file := s1.changed[s1.file] + {s1.line}][path := {}];
      }
    case _ =>
  }

  /**
   * A header for `path` starts its entry afresh: whatever came before the
   * header has no bearing on the numbers recorded for `path`.
   */
  lemma RepeatedHeaderForgets(before: seq<string>, header: string, after: seq<string>)
    requires IsFileHeader(header)
    ensures HeaderPath(header) in ScanDiff(before + [header] + after)
    ensures HeaderPath(header) in ScanDiff([header] + after)
    ensures ScanDiff(before + [header] + after)[HeaderPath(header)] == ScanDiff([header] + after)[HeaderPath(header)]
  {
    var path := HeaderPath(header);
    RunAppend(Start, before + [header], after);
    RunAppend(Start, [header], after);
    assert [header][..0] == [];
    assert (before + [header])[..|before|] == before;
    var s1 := Run(Start, before + [header]);
    var s2 := Run(Start, [header]);
    assert AgreeOn(s1, s2, path);
    RunAgreeOn(s1, s2, after, path);
    RunKeys(s2, after);
  }

  /**
   * The counter rules: a header resets the counter, a matching hunk header
   * (with a current file) sets it to the new start, `+`, ` ` and `-` lines
   * advance it by one, and every other line, a malformed or premature hunk
   * header included, leaves the whole state as it was.
   */
  lemma CounterRules(st: ScanState, l: string)
    requires Valid(st)
    ensures IsFileHeader(l) ==> Step(st, l).line == 0
    ensures IsHunkLine(l) && HunkHeader.NewStart(l).Some? && st.file != "" ==>
      Step(st, l) == st.(line := HunkHeader.NewStart(l).value)
    ensures IsHunkLine(l) && (HunkHeader.NewStart(l).None? || st.file == "") ==> Step(st, l) == st
    ensures IsAddedLine(l) && st.file != "" ==>
      Step(st, l) == st.(line := st.line + 1, changed := st.changed[st.file := st.changed[st.file] + {st.line}])
    ensures IsContextOrRemoved(l) ==> Step(st, l) == st.(line := st.line + 1)
    ensures !IsFileHeader(l) && !IsHunkLine(l) && !IsContextOrRemoved(l) && !(IsAddedLine(l) && st.file != "") ==>
      Step(st, l) == st
  {
  }

  /** A matching hunk header is an `@@` line and not a file header. */
  lemma HunkLineShape(l: string)
    requires HunkHeader.NewStart(l).Some?
    ensures IsHunkLine(l) && !IsFileHeader(l)
  {
    StartsWithPrefix(l, "@@ -", "@@");
    FirstCharacters(l);
  }

  /** The numbers `s`, `s + 1`, ..., `s + k - 1`. */
  function Consecutive(s: nat, k: nat): (r: set<nat>)
    ensures forall n :: n in r <==> s <= n < s + k
  {
    if k == 0 then {} else Consecutive(s, k - 1) + {s + k - 1}
  }

  /** The state after `k` added lines read from `st`. */
  function AfterAdded(st: ScanState, k: nat): ScanState
    requires Valid(st) && st.file != ""
  {
    st.(line := st.line + k, changed := st.changed[st.file := st.changed[st.file] + Consecutive(st.line, k)])
  }

  /** One more added line records the next counter value. */
  lemma AddedSnoc(st: ScanState, k: nat, l: string)
    requires Valid(st) && st.file != "" && IsAddedLine(l)
    ensures Step(AfterAdded(st, k), l) == AfterAdded(st, k + 1)
  {
    var f := st.file;
    var prev := AfterAdded(st, k);
    CounterRules(prev, l);
    var x := st.changed[f] + Consecutive(st.line, k) + {st.line + k};
    assert x == st.changed[f] + Consecutive(st.line, k + 1);
    var m1 := prev.changed[f := x];
    var m2 := st.changed[f := x];
    assert m1.Keys == m2.Keys;
    assert forall p | p in m1 :: m1[p] == m2[p];
  }

  /**
   * A run of `k` added lines, with a current file, records the next `k`
   * counter values for that file and advances the counter by `k`.
   */
  lemma {:induction false} AddedRun(st: ScanState, added: seq<string>)
    requires Valid(st) && st.file != ""
    requires forall i :: 0 <= i < |added| ==> IsAddedLine(added[i])
    ensures Run(st, added) == AfterAdded(st, |added|)
    decreases |added|
  {
    if |added| == 0 {
      assert st.changed[st.file] + Consecutive(st.line, 0) == st.changed[st.file];
      assert st.changed[st.file := st.changed[st.file]] == st.changed;
    } else {
      var m := |added| - 1;
      AddedRun(st, added[..m]);
      AddedSnoc(st, m, added[m]);
    }
  }

  /**
   * After a hunk header with new start `s`, a run of `k` added lines records
   * exactly `s .. s + k - 1` for the current file and leaves the counter at
   * `s + k`.
   */
  lemma HunkThenAdded(st: ScanState, hunk: string, added: seq<string>)
    requires Valid(st) && st.file != ""
    requires HunkHeader.NewStart(hunk).Some?
    requires forall i :: 0 <= i < |added| ==> IsAddedLine(added[i])
    ensures var s := HunkHeader.NewStart(hunk).value;
      Run(st, [hunk] + added) ==
        st.(line := s + |added|, changed := st.changed[st.file := st.changed[st.file] + Consecutive(s, |added|)])
  {
    HunkLineShape(hunk);
    assert [hunk][..0] == [];
    assert Run(st, [hunk]) == Step(st, hunk);
    CounterRules(st, hunk);
    RunAppend(st, [hunk], added);
    AddedRun(Run(st, [hunk]), added);
  }
}
