/**
 * Two places where the diff scan as written (`DiffScan`) disagrees with the
 * new-file line numbering the counter is declared to track (`IntendedScan`),
 * each shown on a general hunk shape and on a concrete staged diff.
 */
module Discrepancies {
  import opened Wrappers
  import opened Text
  import HunkHeader
  import opened DiffScan
  import opened HunkBody
  import opened IntendedScan

  /**
   * A hunk body that replaces one line: context lines, then the deletion of
   * the old line, then the addition of the new one.
   */
  predicate ReplacementShape(body: seq<string>) {
    && |body| >= 2
    && (forall i :: 0 <= i < |body| - 2 ==> IsContextLine(body[i]))
    && IsRemovedLine(body[|body| - 2]) && IsAddedLine(body[|body| - 1])
  }

  /** Every line of `ctx` is a context line. */
  predicate AllContext(ctx: seq<string>) {
    forall i :: 0 <= i < |ctx| ==> IsContextLine(ctx[i])
  }

  /** Every line of such a body is a body line. */
  lemma ReplacementBody(body: seq<string>)
    requires ReplacementShape(body)
    ensures forall i :: 0 <= i < |body| ==> IsBodyLine(body[i])
  {
    RemovedLineShape(body[|body| - 2]);
    forall i | 0 <= i < |body| - 2
      ensures IsBodyLine(body[i])
    {
      ContextLineShape(body[i]);
    }
  }

  /**
   * As written, the added line of such a body is numbered one past its place
   * in the new file: the deletion took a number too.
   */
  lemma ReplacedBodyAsWritten(s: nat, body: seq<string>)
    requires ReplacementShape(body)
    ensures AddedNumbers(s, body) == {s + (|body| - 2) + 1}
  {
    RemovedLineShape(body[|body| - 2]);
    forall n: nat
      ensures n in AddedNumbers(s, body) <==> n == s + (|body| - 2) + 1
    {
      if s <= n < s + |body| - 2 {
        ContextLineShape(body[n - s]);
      }
    }
  }

  /** The new side of such a body is its context followed by the added line. */
  lemma ReplacedBodyNewSide(body: seq<string>)
    requires ReplacementShape(body)
    ensures NewSide(body) == body[..|body| - 2] + [body[|body| - 1]]
  {
    var ctx := body[..|body| - 2];
    assert body == ctx + [body[|body| - 2], body[|body| - 1]];
    ContextReplacedNewSide(ctx, body[|body| - 2], body[|body| - 1]);
  }

  lemma ContextReplacedNewSide(ctx: seq<string>, removed: string, added: string)
    requires AllContext(ctx)
    requires IsRemovedLine(removed) && IsAddedLine(added)
    ensures NewSide(ctx + [removed, added]) == ctx + [added]
  {
    ContextNewSide(ctx);
    RemovedLineShape(added);
    NewSideSnoc(ctx, removed);
    NewSideSnoc(ctx + [removed], added);
    assert ctx + [removed] + [added] == ctx + [removed, added];
  }

  /** Context lines are all in the new file. */
  lemma ContextNewSide(ctx: seq<string>)
    requires AllContext(ctx)
    ensures NewSide(ctx) == ctx
  {
    forall i | 0 <= i < |ctx|
      ensures !IsRemovedLine(ctx[i])
    {
      ContextLineShape(ctx[i]);
    }
    NewSideWithoutRemovals(ctx);
  }

  /** Numbered as intended, the added line of such a body keeps its place in the new file. */
  lemma ReplacedBodyIntended(s: nat, body: seq<string>)
    requires ReplacementShape(body)
    ensures AddedNumbers(s, NewSide(body)) == {s + (|body| - 2)}
  {
    ReplacedBodyNewSide(body);
    ContextThenAdded(s, body[..|body| - 2] + [body[|body| - 1]]);
  }

  /** Numbered over context lines and then an added line, only the added line is recorded. */
  lemma ContextThenAdded(s: nat, side: seq<string>)
    requires |side| >= 1 && IsAddedLine(side[|side| - 1])
    requires forall i :: 0 <= i < |side| - 1 ==> IsContextLine(side[i])
    ensures AddedNumbers(s, side) == {s + (|side| - 1)}
  {
    forall n: nat
      ensures n in AddedNumbers(s, side) <==> n == s + (|side| - 1)
    {
      if s <= n < s + |side| - 1 {
        ContextLineShape(side[n - s]);
      }
    }
  }

  /** A single added line is numbered by the counter it starts from. */
  lemma SingleAdded(s: nat, added: string)
    requires IsAddedLine(added)
    ensures AddedNumbers(s, [added]) == {s}
  {
    var none: seq<string> := [];
    AddedNumbersSnoc(s, none, added);
    assert none + [added] == [added];
  }

  /** The scan as written reads a hunk header by moving the counter to its new start. */
  lemma AfterHeader(st: ScanState, hunk: string, s: nat, body: seq<string>)
    requires Valid(st) && st.file != ""
    requires HunkHeader.NewStart(hunk) == Some(s)
    ensures Run(st, [hunk] + body) == Run(st.(line := s), body)
  {
    HunkLineShape(hunk);
    assert [hunk][..0] == [];
    assert Run(st, [hunk]) == Step(st, hunk);
    CounterRules(st, hunk);
    RunAppend(st, [hunk], body);
  }

  /** From counter `s`, the scan as written records `s + k + 1` alone for such a body. */
  lemma ReplacementFrom(st: ScanState, s: nat, body: seq<string>)
    requires Valid(st) && st.file != "" && st.changed[st.file] == {}
    requires ReplacementShape(body)
    ensures Run(st.(line := s), body).changed == st.changed[st.file := {s + (|body| - 2) + 1}]
  {
    ReplacementBody(body);
    BodyAsWritten(st.(line := s), body);
    ReplacedBodyAsWritten(s, body);
    assert st.changed[st.file] + {s + (|body| - 2) + 1} == {s + (|body| - 2) + 1};
  }

  /**
   * A line replaced after `k` context lines of a hunk with new start `s`
   * is line `s + k` of the new file. As written it is recorded as
   * `s + k + 1`, because the deletion before it advanced the counter.
   */
  lemma DeletionShiftsAddedLine(st: ScanState, hunk: string, s: nat, body: seq<string>)
    requires Valid(st) && st.file != "" && st.changed[st.file] == {}
    requires HunkHeader.NewStart(hunk) == Some(s)
    requires ReplacementShape(body)
    ensures Run(st, [hunk] + body).changed == st.changed[st.file := {s + (|body| - 2) + 1}]
  {
    ReplacementFrom(st, s, body);
    AfterHeader(st, hunk, s, body);
  }

  /** The corrected scan reads a hunk header by moving the counter to its new start. */
  lemma IntendedAfterHeader(st: ScanState, hunk: string, s: nat, body: seq<string>)
    requires Valid(st) && st.file != ""
    requires HunkHeader.NewStart(hunk) == Some(s)
    ensures IntendedRun(st, [hunk] + body) == IntendedRun(st.(line := s), body)
  {
    LenientExtends(hunk);
    StartsWithPrefix(hunk, "@@ -", "@@");
    IntendedHeaderStep(st, hunk, s);
    IntendedRunAppend(st, [hunk], body);
  }

  /** A header the corrected pattern reads moves the counter to its new start. */
  lemma IntendedHeaderStep(st: ScanState, hunk: string, s: nat)
    requires Valid(st) && st.file != ""
    requires IsHunkLine(hunk) && LenientNewStart(hunk) == Some(s)
    ensures IntendedRun(st, [hunk]) == st.(line := s)
  {
    assert [hunk][..0] == [];
  }

  /** From counter `s`, the corrected scan of such a body records `s + k` alone. */
  lemma IntendedReplacementFrom(st: ScanState, s: nat, body: seq<string>)
    requires Valid(st) && st.file != "" && st.changed[st.file] == {}
    requires ReplacementShape(body)
    ensures IntendedRun(st.(line := s), body).changed == st.changed[st.file := {s + (|body| - 2)}]
  {
    ReplacementBody(body);
    IntendedBody(st.(line := s), body);
    ReplacedBodyIntended(s, body);
    assert st.changed[st.file] + {s + (|body| - 2)} == {s + (|body| - 2)};
  }

  /** The same replacement, numbered as intended: the new line is line `s + k`. */
  lemma ReplacementKeepsNumber(st: ScanState, hunk: string, s: nat, body: seq<string>)
    requires Valid(st) && st.file != "" && st.changed[st.file] == {}
    requires HunkHeader.NewStart(hunk) == Some(s)
    requires ReplacementShape(body)
    ensures IntendedRun(st, [hunk] + body).changed == st.changed[st.file := {s + (|body| - 2)}]
  {
    IntendedReplacementFrom(st, s, body);
    IntendedAfterHeader(st, hunk, s, body);
  }

  /** The state right after the header `+++ b/a.py`, in either scan. */
  lemma OpenedFile()
    ensures Run(Start, ["+++ b/a.py"]) == ScanState("a.py", 0, map["a.py" := {}])
    ensures IntendedRun(Start, ["+++ b/a.py"]) == ScanState("a.py", 0, map["a.py" := {}])
  {
    var header := "+++ b/a.py";
    assert header[..6] == "+++ b/";
    assert header[6..] == "a.py";
    StripUnpadded("a.py");
    assert HeaderPath(header) == "a.py";
    assert [header][..0] == [];
    FirstCharacters(header);
  }

  /** `@@ -3,4 +3,4 @@` starts the hunk at new line 3. */
  lemma HunkAtThree()
    ensures HunkHeader.NewStart("@@ -3,4 +3,4 @@") == Some(3)
  {
    var f := HunkHeader.Fields("3", "4", "3", "4");
    RenderThree();
    HunkHeader.RenderedStart(f, "@@ -3,4 +3,4 @@");
    assert DigitsValue("3") == 3;
  }

  lemma RenderThree()
    ensures var f := HunkHeader.Fields("3", "4", "3", "4");
      HunkHeader.WellFormed(f) && HunkHeader.Render(f) == "@@ -3,4 +3,4 @@"
  {
    var f := HunkHeader.Fields("3", "4", "3", "4");
    var seps := HunkHeader.Separators;
    assert seps[1..][1..][1..][1..] == [];
    assert HunkHeader.Interleave(HunkHeader.Runs(f), seps) == "3,4 +3,4 @@";
  }

  /** A diff that opens with a file header is scanned from the state that header leaves. */
  lemma ScanAfterHeader(header: string, rest: seq<string>)
    ensures ScanDiff([header] + rest) == Run(Run(Start, [header]), rest).changed
    ensures IntendedScanDiff([header] + rest) == IntendedRun(IntendedRun(Start, [header]), rest).changed
  {
    RunAppend(Start, [header], rest);
    IntendedRunAppend(Start, [header], rest);
  }

  /** The replacement of line 6 of `a.py`, for any lines of the shapes involved. */
  lemma ReplacedLineShape(st: ScanState, lines: seq<string>, header: string, hunk: string, body: seq<string>)
    requires st == ScanState("a.py", 0, map["a.py" := {}])
    requires Run(Start, [header]) == st && IntendedRun(Start, [header]) == st
    requires HunkHeader.NewStart(hunk) == Some(3)
    requires |body| == 5 && ReplacementShape(body)
    requires lines == [header] + ([hunk] + body)
    ensures ScanDiff(lines) == map["a.py" := {7}]
    ensures IntendedScanDiff(lines) == map["a.py" := {6}]
  {
    ScanAfterHeader(header, [hunk] + body);
    ReplacedAsWritten(st, hunk, body);
    ReplacedIntended(st, hunk, body);
  }

  lemma ReplacedAsWritten(st: ScanState, hunk: string, body: seq<string>)
    requires st == ScanState("a.py", 0, map["a.py" := {}])
    requires HunkHeader.NewStart(hunk) == Some(3)
    requires |body| == 5 && ReplacementShape(body)
    ensures Run(st, [hunk] + body).changed == map["a.py" := {7}]
  {
    DeletionShiftsAddedLine(st, hunk, 3, body);
    SoleEntry(st.changed, st.file, {7});
  }

  lemma ReplacedIntended(st: ScanState, hunk: string, body: seq<string>)
    requires st == ScanState("a.py", 0, map["a.py" := {}])
    requires HunkHeader.NewStart(hunk) == Some(3)
    requires |body| == 5 && ReplacementShape(body)
    ensures IntendedRun(st, [hunk] + body).changed == map["a.py" := {6}]
  {
    ReplacementKeepsNumber(st, hunk, 3, body);
    SoleEntry(st.changed, st.file, {6});
  }

  /** Three context lines, then `-old` replaced by `+new`. */
  lemma ReplacementLines()
    ensures ReplacementShape([" a", " b", " c", "-old", "+new"])
  {
    var body := [" a", " b", " c", "-old", "+new"];
    forall i | 0 <= i < 3
      ensures IsContextLine(body[i])
    {
      assert body[i][..1] == " ";
    }
    assert "-old"[..1] == "-";
    assert "+new"[..1] == "+";
    assert "+new"[1] != '+';
  }

  /**
   * Replacing the last line of the six-line file `a.py`, in the hunk git
   * writes with three lines of context: as written the scan records line 7,
   * the intended numbering line 6.
   */
  const ReplacedDiff: seq<string> := ["+++ b/a.py", "@@ -3,4 +3,4 @@", " a", " b", " c", "-old", "+new"]

  lemma ReplacedLine()
    ensures ScanDiff(ReplacedDiff) == map["a.py" := {7}]
    ensures IntendedScanDiff(ReplacedDiff) == map["a.py" := {6}]
  {
    var header, hunk, body := "+++ b/a.py", "@@ -3,4 +3,4 @@", [" a", " b", " c", "-old", "+new"];
    assert ReplacedDiff == [header] + ([hunk] + body);
    OpenedFile();
    HunkAtThree();
    ReplacementLines();
    ReplacedLineShape(ScanState("a.py", 0, map["a.py" := {}]), ReplacedDiff, header, hunk, body);
  }

  /** A digit run followed by something other than the next separator ends the match. */
  lemma PieceMismatch(ds: string, rest: string, seps: seq<string>)
    requires |ds| > 0 && AllDigits(ds) && |rest| > 0 && !IsDigit(rest[0])
    requires |seps| > 0 && !StartsWith(rest, seps[0])
    ensures HunkHeader.ReadPieces(ds + rest, seps).None?
  {
    HunkHeader.NumberOf(ds, rest);
  }

  /** A digit run and its separator read fine; the match then fails if the rest fails. */
  lemma PieceThenFail(ds: string, rest: string, seps: seq<string>)
    requires |ds| > 0 && AllDigits(ds)
    requires |seps| > 0 && |seps[0]| > 0 && !IsDigit(seps[0][0])
    requires HunkHeader.ReadPieces(rest, seps[1..]).None?
    ensures HunkHeader.ReadPieces(ds + (seps[0] + rest), seps).None?
  {
    assert (seps[0] + rest)[0] == seps[0][0];
    HunkHeader.NumberOf(ds, seps[0] + rest);
    HunkHeader.LiteralOf(seps[0], rest);
  }

  /**
   * The header git writes for a new one-line file leaves out the new count,
   * and the source's pattern, which wants all four numbers, rejects it.
   */
  const OneLineHeader := "@@ -0,0 +1 @@"

  lemma OneLineHeaderRejected()
    ensures HunkHeader.NewStart(OneLineHeader).None?
  {
    var all := "0" + ("," + ("0" + (" +" + ("1" + " @@"))));
    assert OneLineHeader == "@@ -" + all;
    HunkHeader.LiteralOf("@@ -", all);
    CountsRejected();
  }

  /** After `@@ -`, the text `0,0 +1 @@` stops at the missing `,<count>`. */
  lemma CountsRejected()
    ensures HunkHeader.ReadPieces("0" + ("," + ("0" + (" +" + ("1" + " @@")))), HunkHeader.Separators).None?
  {
    var seps := HunkHeader.Separators;
    assert seps[1..] == [" +", ",", " @@"] && seps[1..][1..] == [",", " @@"];
    assert !StartsWith(" @@", ",") by {
      assert " @@"[..1] == " ";
    }
    PieceMismatch("1", " @@", seps[1..][1..]);
    PieceThenFail("0", "1" + " @@", seps[1..]);
    PieceThenFail("0", "0" + (" +" + ("1" + " @@")), seps);
  }

  /** The lenient pattern reads the rendered header as starting at new line 1. */
  lemma RenderedOneLineHeader()
    ensures LenientNewStart(RenderHeader(Range("0", Some("0")), Range("1", None))) == Some(1)
  {
    var h := RenderHeader(Range("0", Some("0")), Range("1", None));
    LenientRender(Range("0", Some("0")), Range("1", None), "");
    assert h + "" == h;
    assert DigitsValue("1") == 1;
  }

  /** The lenient pattern reads the same header as starting at new line 1. */
  lemma OneLineHeaderAccepted()
    ensures LenientNewStart(OneLineHeader) == Some(1)
  {
    var h := RenderHeader(Range("0", Some("0")), Range("1", None));
    assert h == OneLineHeader by {
      assert h == "@@ -" + "0" + "," + "0" + " +" + "1" + " @@";
    }
    RenderedOneLineHeader();
  }

  /**
   * A hunk header the source's pattern rejects is skipped: the added line
   * after it takes the counter the file header left, 0, while the intended
   * scan numbers it from the header's new start.
   */
  lemma SkippedHeader(st: ScanState, hunk: string, added: string)
    requires st == ScanState("a.py", 0, map["a.py" := {}])
    requires HunkHeader.NewStart(hunk).None? && LenientNewStart(hunk) == Some(1)
    requires IsAddedLine(added)
    ensures Run(st, [hunk] + [added]).changed == map["a.py" := {0}]
    ensures IntendedRun(st, [hunk] + [added]).changed == map["a.py" := {1}]
  {
    LenientHunkLine(hunk);
    SkippedHeaderAsWritten(st, hunk, added);
    SkippedHeaderIntended(st, hunk, added);
  }

  lemma SkippedHeaderAsWritten(st: ScanState, hunk: string, added: string)
    requires st == ScanState("a.py", 0, map["a.py" := {}])
    requires IsHunkLine(hunk) && HunkHeader.NewStart(hunk).None?
    requires IsAddedLine(added)
    ensures Run(st, [hunk] + [added]).changed == map["a.py" := {0}]
  {
    RunAppend(st, [hunk], [added]);
    OneStep(st, hunk);
    SkippedHunkStep(st, hunk);
    OneStep(st, added);
    BodyLineStep(st, added);
    OnlyEntry(st.changed, st.file, st.line);
  }

  /** A hunk header the source's pattern rejects leaves the state as it was. */
  lemma SkippedHunkStep(st: ScanState, hunk: string)
    requires Valid(st)
    requires IsHunkLine(hunk) && HunkHeader.NewStart(hunk).None?
    ensures Step(st, hunk) == st
  {
    CounterRules(st, hunk);
  }

  /** The lenient pattern, like the source's, only accepts `@@` lines. */
  lemma LenientHunkLine(hunk: string)
    requires LenientNewStart(hunk).Some?
    ensures IsHunkLine(hunk)
  {
    StartsWithPrefix(hunk, "@@ -", "@@");
  }

  /** Running over a single line is one step. */
  lemma OneStep(st: ScanState, l: string)
    requires Valid(st)
    ensures Run(st, [l]) == Step(st, l)
  {
    assert [l][..0] == [];
  }

  lemma SkippedHeaderIntended(st: ScanState, hunk: string, added: string)
    requires st == ScanState("a.py", 0, map["a.py" := {}])
    requires LenientNewStart(hunk) == Some(1)
    requires IsAddedLine(added)
    ensures IntendedRun(st, [hunk] + [added]).changed == map["a.py" := {1}]
  {
    IntendedSingleAdded(st, hunk, added);
    OnlyEntry(st.changed, st.file, 1);
  }

  /** Setting the one entry of a map. */
  lemma SoleEntry(m: ChangedLines, f: string, numbers: set<nat>)
    requires m == map[f := {}]
    ensures m[f := numbers] == map[f := numbers]
  {
  }

  /** Adding `x` to the one empty entry of a map. */
  lemma OnlyEntry(m: ChangedLines, f: string, x: nat)
    requires m == map[f := {}]
    ensures m[f := m[f] + {x}] == map[f := {x}]
  {
    assert m[f] + {x} == {x};
  }

  /** A hunk holding one added line records the header's new start, in the intended scan. */
  lemma IntendedSingleAdded(st: ScanState, hunk: string, added: string)
    requires Valid(st) && st.file != ""
    requires LenientNewStart(hunk).Some?
    requires IsAddedLine(added)
    ensures IntendedRun(st, [hunk] + [added]).changed ==
      st.changed[st.file := st.changed[st.file] + {LenientNewStart(hunk).value}]
  {
    var s := LenientNewStart(hunk).value;
    IntendedHunk(st, hunk, [added]);
    RemovedLineShape(added);
    var none: seq<string> := [];
    NewSideSnoc(none, added);
    assert none + [added] == [added];
    SingleAdded(s, added);
  }

  /** The skipped header after the file header of `a.py`. */
  lemma SkippedHeaderShape(st: ScanState, header: string, hunk: string, added: string)
    requires st == ScanState("a.py", 0, map["a.py" := {}])
    requires Run(Start, [header]) == st && IntendedRun(Start, [header]) == st
    requires HunkHeader.NewStart(hunk).None? && LenientNewStart(hunk) == Some(1)
    requires IsAddedLine(added)
    ensures ScanDiff([header] + ([hunk] + [added])) == map["a.py" := {0}]
    ensures IntendedScanDiff([header] + ([hunk] + [added])) == map["a.py" := {1}]
  {
    ScanAfterHeader(header, [hunk] + [added]);
    SkippedHeader(st, hunk, added);
  }

  /**
   * Adding the one-line file `a.py`: as written the hunk header is skipped
   * and the line is recorded as 0, left over from the file header; the
   * intended numbering records line 1.
   */
  const OneLineDiff: seq<string> := ["+++ b/a.py", OneLineHeader, "+x"]

  lemma NewOneLineFile()
    ensures ScanDiff(OneLineDiff) == map["a.py" := {0}]
    ensures IntendedScanDiff(OneLineDiff) == map["a.py" := {1}]
  {
    assert OneLineDiff == ["+++ b/a.py"] + ([OneLineHeader] + ["+x"]);
    OpenedFile();
    OneLineHeaderRejected();
    OneLineHeaderAccepted();
    AddedX();
    SkippedHeaderShape(ScanState("a.py", 0, map["a.py" := {}]), "+++ b/a.py", OneLineHeader, "+x");
  }

  /** `+x` is an added line. */
  lemma AddedX()
    ensures IsAddedLine("+x")
  {
    assert "+x"[..1] == "+";
    assert "+x"[1] != '+';
  }
}
