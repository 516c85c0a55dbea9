/**
 * Worked examples: the changed-line map of a small staged diff, and the
 * filter's verdicts on the kinds of log line it meets.
 */
module Scenarios {
  import opened Wrappers
  import opened Text
  import opened HunkHeader
  import opened DiffScan
  import opened LogLine
  import opened LogFilter
  import HunkBody
  import IntendedScan

  /** Running over three lines is three steps. */
  lemma RunThree(st: ScanState, a: string, b: string, c: string)
    requires Valid(st)
    ensures Run(st, [a, b, c]) == Step(Step(Step(st, a), b), c)
  {
    assert [a, b, c][..2] == [a, b] && [a, b][..1] == [a] && [a][..0] == [];
    assert Run(st, [a]) == Step(st, a);
    assert Run(st, [a, b]) == Step(Run(st, [a]), b);
  }

  /** The lines of a staged diff that adds two lines as new lines 10 and 11 of `src/a.py`. */
  const MetaLine := "diff --git a/src/a.py b/src/a.py"
  const OldHeader := "--- a/src/a.py"
  const NewHeader := "+++ b/src/a.py"
  const HunkLine := "@@ -9,0 +10,2 @@"
  const AddedLines: seq<string> := ["+import os", "+import sys"]
  const StagedDiff: seq<string> := [MetaLine, OldHeader, NewHeader, HunkLine] + AddedLines

  /** `diff --git` matches no branch of the loop and changes nothing. */
  lemma MetaLineIgnored(st: ScanState)
    requires Valid(st)
    ensures Step(st, MetaLine) == st
  {
    var meta := MetaLine;
    FirstCharacters(meta);
    assert !IsFileHeader(meta) && !IsHunkLine(meta) && !IsContextOrRemoved(meta) && !IsAddedLine(meta);
    CounterRules(st, meta);
  }

  /** The old-file header `--- a/...` counts as a deletion and advances the counter. */
  lemma OldHeaderAdvances(st: ScanState)
    requires Valid(st)
    ensures Step(st, OldHeader) == st.(line := st.line + 1)
  {
    var removed := OldHeader;
    assert IsContextOrRemoved(removed) by {
      assert removed[..1] == "-";
    }
    CounterRules(st, removed);
  }

  /** `+++ b/src/a.py` makes `src/a.py` current with an empty set and resets the counter. */
  lemma NewHeaderOpens(st: ScanState)
    requires Valid(st)
    ensures Step(st, NewHeader) == ScanState("src/a.py", 0, st.changed["src/a.py" := {}])
  {
    var header := NewHeader;
    assert IsFileHeader(header) by {
      assert header[..6] == "+++ b/";
    }
    assert header[6..] == "src/a.py";
    StripUnpadded("src/a.py");
    assert HeaderPath(header) == "src/a.py";
  }

  /**
   * The three lines before the first hunk: `diff --git` is ignored, `---`
   * advances the counter, `+++ b/` opens the file with an empty set.
   */
  lemma StagedPreamble()
    ensures Run(Start, [MetaLine, OldHeader, NewHeader]) == ScanState("src/a.py", 0, map["src/a.py" := {}])
  {
    RunThree(Start, MetaLine, OldHeader, NewHeader);
    MetaLineIgnored(Start);
    OldHeaderAdvances(Start);
    NewHeaderOpens(Start.(line := 1));
  }

  /**
   * `@@ -9,0 +10,2 @@` is a hunk header whose new side starts at line 10:
   * two lines inserted after old line 9.
   */
  lemma HunkAtTen()
    ensures HunkHeader.NewStart(HunkLine) == Some(10)
  {
    var f := HunkHeader.Fields("9", "0", "10", "2");
    RenderTen();
    RenderedStart(f, HunkLine);
    assert DigitsValue("10") == 10;
  }

  lemma RenderTen()
    ensures WellFormed(HunkHeader.Fields("9", "0", "10", "2"))
    ensures Render(HunkHeader.Fields("9", "0", "10", "2")) == HunkLine
  {
    var f := HunkHeader.Fields("9", "0", "10", "2");
    var seps := Separators;
    assert seps[1..][1..][1..][1..] == [];
    assert Interleave(Runs(f), seps) == "9,0 +10,2 @@";
  }

  /** Lines starting with one `+` are added lines. */
  lemma TwoAdded()
    ensures forall i :: 0 <= i < |AddedLines| ==> IsAddedLine(AddedLines[i])
  {
    var added := AddedLines;
    assert added[0][1] != '+' && added[1][1] != '+';
    assert IsAddedLine(added[0]) by {
      assert added[0][..1] == "+";
    }
    assert IsAddedLine(added[1]) by {
      assert added[1][..1] == "+";
    }
  }

  /** A hunk starting at new line 10 followed by two added lines records 10 and 11. */
  lemma StagedHunk(st: ScanState, hunk: string, added: seq<string>)
    requires Valid(st) && st.file == "src/a.py" && st.changed == map["src/a.py" := {}]
    requires HunkHeader.NewStart(hunk) == Some(10)
    requires |added| == 2 && forall i :: 0 <= i < |added| ==> IsAddedLine(added[i])
    ensures Run(st, [hunk] + added).changed == map["src/a.py" := {10, 11}]
  {
    HunkThenAdded(st, hunk, added);
    TenAndEleven(st.changed, st.file);
  }

  lemma TenAndEleven(changed: ChangedLines, f: string)
    requires f == "src/a.py" && changed == map[f := {}]
    ensures changed[f := changed[f] + Consecutive(10, 2)] == map["src/a.py" := {10, 11}]
  {
    var c := Consecutive(10, 2);
    assert c == {10, 11};
    assert changed[f] + c == {10, 11};
  }

  /**
   * A diff that adds two lines at the top of a hunk starting at new line 10
   * records lines 10 and 11 of `src/a.py`.
   */
  lemma StagedAdditions()
    ensures ScanDiff(StagedDiff) == SampleChanges
  {
    var pre := [MetaLine, OldHeader, NewHeader];
    var body := [HunkLine] + AddedLines;
    assert StagedDiff == pre + body;
    StagedPreamble();
    HunkAtTen();
    TwoAdded();
    StagedHunk(Run(Start, pre), HunkLine, AddedLines);
    RunAppend(Start, pre, body);
  }

  /**
   * The corrected scan records the same lines for this diff: its only
   * deletion, git's `--- a/src/a.py`, is followed at once by the file header,
   * and both patterns read its hunk header alike.
   */
  lemma StagedAdditionsIntended()
    ensures IntendedScan.IntendedScanDiff(StagedDiff) == SampleChanges
  {
    StagedAdditions();
    StagedDiffHeaders();
    StagedDiffRemovals();
    IntendedScan.IntendedScanAgrees(StagedDiff);
  }

  lemma StagedDiffHeaders()
    ensures forall i :: 0 <= i < |StagedDiff| ==>
      IntendedScan.LenientNewStart(StagedDiff[i]) == HunkHeader.NewStart(StagedDiff[i])
  {
    forall i | 0 <= i < |StagedDiff|
      ensures IntendedScan.LenientNewStart(StagedDiff[i]) == HunkHeader.NewStart(StagedDiff[i])
    {
      var l := StagedDiff[i];
      if i == 3 {
        HunkAtTen();
        IntendedScan.LenientExtends(l);
      } else {
        assert l[0] != '@';
        if IntendedScan.LenientNewStart(l).Some? {
          StartsWithFirst(l, "@@ -");
        }
        if HunkHeader.NewStart(l).Some? {
          StartsWithFirst(l, "@@ -");
        }
      }
    }
  }

  lemma StagedDiffRemovals()
    ensures IntendedScan.RemovalsBeforeHeaders(StagedDiff)
  {
    forall i | 0 <= i < |StagedDiff| - 1 && HunkBody.IsRemovedLine(StagedDiff[i])
      ensures IsFileHeader(StagedDiff[i + 1])
    {
      StartsWithFirst(StagedDiff[i], "-");
      assert i == 1;
      assert NewHeader[..6] == "+++ b/";
    }
  }

  /** Findings a hook might print, and the staged changes they are judged against. */
  const ColumnFinding := "src/a.py:10:5: unused import"
  const OtherFinding := "src/a.py:99: other"
  const AbsoluteFinding := "/home/user/project/src/a.py:10: msg"
  const AbsolutePathName := "/home/user/project/src/a.py"
  const ReformattedLog := "black: reformatted src/a.py"
  const OutsideFinding := "lib/b.py:3: x"

  /** `src/a.py:10:5: unused import` is a structured line for `src/a.py`, line 10. */
  lemma LocationWithColumn()
    ensures MatchLocation(ColumnFinding) == Some(Location("src/a.py", 10))
  {
    var l := ColumnFinding;
    assert l[..8] == "src/a.py";
    assert DigitsValue("10") == 10;
    assert l[9..11] == "10";
    NoSeparatorBeforeColon(l, 8);
    assert ColonDigitsColon(l, 8, 2);
    MatchAt(l, 8, 2);
  }

  /** `src/a.py:99: other` is a structured line for `src/a.py`, line 99. */
  lemma LocationWithoutColumn()
    ensures MatchLocation(OtherFinding) == Some(Location("src/a.py", 99))
  {
    var l := OtherFinding;
    assert l[..8] == "src/a.py";
    assert DigitsValue("99") == 99;
    assert l[9..11] == "99";
    NoSeparatorBeforeColon(l, 8);
    assert ColonDigitsColon(l, 8, 2);
    MatchAt(l, 8, 2);
  }

  /** A path that already starts at `src/` is its own normal form. */
  lemma RelativePath()
    ensures Normalise("src/a.py") == Some("src/a.py")
  {
    var path := "src/a.py";
    StripUnpadded(path);
    assert OccursAt(path, SourceRoot, 0);
    IndexOfAt(path, SourceRoot, 0);
  }

  /** A structured line with a normalisable path is judged by its location alone. */
  lemma JudgedByLocation(log: string, changed: ChangedLines, loc: Location, key: string)
    requires |changed| > 0
    requires MatchLocation(log) == Some(loc) && Normalise(loc.path) == Some(key)
    ensures FilterLogs([log], changed) == Success(if key in changed && loc.lineNo in changed[key] then [log] else [])
  {
    FilterOne(log, changed);
  }

  /** A finding on a changed line of a changed file is kept. */
  lemma FindingOnChangedLine()
    ensures FilterLogs([ColumnFinding], SampleChanges) == Success([ColumnFinding])
  {
    LocationWithColumn();
    RelativePath();
    SampleChangesLines();
    JudgedByLocation(ColumnFinding, SampleChanges, Location("src/a.py", 10), "src/a.py");
  }

  /** Lines 10 and 11 of `src/a.py` changed, as `StagedAdditions` records them. */
  const SampleChanges: ChangedLines := map["src/a.py" := {10, 11}]

  lemma SampleChangesLines()
    ensures "src/a.py" in SampleChanges
    ensures 10 in SampleChanges["src/a.py"] && 99 !in SampleChanges["src/a.py"]
  {
  }

  /** A finding on an unchanged line of a changed file is dropped. */
  lemma FindingOnOtherLine()
    ensures FilterLogs([OtherFinding], SampleChanges) == Success([])
  {
    LocationWithoutColumn();
    RelativePath();
    SampleChangesLines();
    JudgedByLocation(OtherFinding, SampleChanges, Location("src/a.py", 99), "src/a.py");
  }

  /**
   * Lines 10 and 11 of `src/a.py` changed: the finding on line 10 is kept,
   * the one on line 99 is dropped.
   */
  lemma ChangedLineKept()
    ensures FilterLogs([ColumnFinding, OtherFinding], SampleChanges) == Success([ColumnFinding])
  {
    FindingOnChangedLine();
    FindingOnOtherLine();
    KeptThenDropped(ColumnFinding, OtherFinding, SampleChanges);
  }

  /** A kept line followed by a dropped one filters to the kept line. */
  lemma KeptThenDropped(a: string, b: string, changed: ChangedLines)
    requires FilterLogs([a], changed) == Success([a])
    requires FilterLogs([b], changed) == Success([])
    ensures FilterLogs([a, b], changed) == Success([a])
  {
    assert [a, b] == [a] + [b];
    FilterAppend([a], [b], changed);
    assert [a] + [] == [a];
  }

  /** An absolute path is cut back to the part from its first `src/` on. */
  lemma AbsolutePath(path: string)
    requires path == "/home/user/project/src/a.py"
    ensures Normalise(path) == Some("src/a.py")
  {
    StripUnpadded(path);
    NoRootBefore(path);
    assert OccursAt(path, SourceRoot, 19);
    IndexOfAt(path, SourceRoot, 19);
    assert path[19..] == "src/a.py";
  }

  lemma NoRootBefore(path: string)
    requires path == "/home/user/project/src/a.py"
    ensures forall j: nat :: j < 19 ==> !OccursAt(path, SourceRoot, j)
  {
    forall j: nat | j < 19
      ensures !OccursAt(path, SourceRoot, j)
    {
      assert path[j..j + 4][0] == path[j] && path[j..j + 4][1] == path[j + 1];
    }
  }

  /** `/home/user/project/src/a.py:10: msg` is a structured line for that path, line 10. */
  lemma AbsoluteLocation()
    ensures MatchLocation(AbsoluteFinding) == Some(Location(AbsolutePathName, 10))
  {
    var l := AbsoluteFinding;
    assert l[..27] == "/home/user/project/src/a.py";
    assert DigitsValue("10") == 10;
    assert l[28..30] == "10";
    NoSeparatorBeforeColon(l, 27);
    assert ColonDigitsColon(l, 27, 2);
    MatchAt(l, 27, 2);
  }

  /**
   * A finding reported under the absolute path of a changed line is kept:
   * its path is normalised to the `src/`-rooted key first.
   */
  lemma AbsolutePathKept()
    ensures FilterLogs([AbsoluteFinding], SampleChanges) == Success([AbsoluteFinding])
  {
    AbsoluteLocation();
    AbsolutePath(AbsolutePathName);
    SampleChangesLines();
    JudgedByLocation(AbsoluteFinding, SampleChanges, Location(AbsolutePathName, 10), "src/a.py");
  }

  /** A line without a location that names a changed file is kept by the substring rule. */
  lemma ReformattedKept()
    ensures FilterLogs([ReformattedLog], SampleChanges) == Success([ReformattedLog])
  {
    ReformattedUnstructured();
    UnstructuredRule(ReformattedLog, SampleChanges);
    ReformattedMentions();
  }

  lemma ReformattedUnstructured()
    ensures forall p: nat :: p < |ReformattedLog| ==> !SeparatorAt(ReformattedLog, p)
  {
    var log := ReformattedLog;
    forall q | 0 <= q < |log| - 1 && log[q] == ':'
      ensures !IsDigit(log[q + 1])
    {
      assert q == 5;
    }
    NoSeparatorWithoutDigit(log);
  }

  lemma ReformattedMentions()
    ensures MentionsChangedPath(ReformattedLog, SampleChanges)
  {
    assert OccursAt(ReformattedLog, "src/a.py", 19);
    SampleChangesLines();
  }

  /** `lib/b.py:3: x` is a structured line for `lib/b.py`, line 3. */
  lemma LocationOutsideRoot()
    ensures MatchLocation(OutsideFinding) == Some(Location("lib/b.py", 3))
  {
    var l := OutsideFinding;
    assert l[..8] == "lib/b.py";
    assert DigitsValue("3") == 3;
    assert l[9..10] == "3";
    NoSeparatorBeforeColon(l, 8);
    assert ColonDigitsColon(l, 8, 1);
    MatchAt(l, 8, 1);
  }

  /** A path with no `src/` in it cannot be normalised. */
  lemma NoRoot()
    ensures Normalise("lib/b.py").None?
  {
    var path := "lib/b.py";
    StripUnpadded(path);
    forall j: nat | j <= |path|
      ensures !OccursAt(path, SourceRoot, j)
    {
      if j + 4 <= |path| {
        assert path[j..j + 4][0] == path[j];
      }
    }
    NormaliseCutsAtFirstRoot(path);
  }

  /**
   * A structured line whose path holds no `src/` ends the whole filter with
   * an error, whatever the changed lines are.
   */
  lemma OutsideRootRaises(changed: ChangedLines)
    requires |changed| > 0
    ensures FilterLogs([OutsideFinding], changed) == Failure(MissingSourceRoot(OutsideFinding))
  {
    LocationOutsideRoot();
    NoRoot();
    StructuredRule(OutsideFinding, changed);
  }
}
