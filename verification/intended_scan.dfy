/**
 * The diff scan with the unified-diff numbering of the new file, which is
 * what filter_precommit.py:33 and :45 say the counter holds, the number of
 * the current line in the new file: the hunk header's new start seeds it,
 * a header git writes with a count left out (`@@ -0,0 +1 @@`) is read too,
 * and a deletion, which has no line in the new file, does not advance it.
 * The comment at filter_precommit.py:51 says deletions do advance it; that
 * contradicts the numbering, and this module follows the numbering.
 * `DiffScan` keeps the code as written; this module is the corrected
 * definition the two findings in README.md are measured against.
 */
module IntendedScan {
  import opened Wrappers
  import opened Text
  import HunkHeader
  import opened DiffScan
  import opened HunkBody

  /** One side of a hunk header: `<start>` or `<start>,<count>`. */
  datatype Range = Range(start: string, count: Option<string>)

  predicate WellFormedRange(r: Range) {
    && |r.start| > 0 && AllDigits(r.start)
    && (r.count.Some? ==> |r.count.value| > 0 && AllDigits(r.count.value))
  }

  function RenderRange(r: Range): string {
    r.start + (if r.count.Some? then "," + r.count.value else "")
  }

  /** A unified-diff hunk header, counts present or left out. */
  function RenderHeader(oldSide: Range, newSide: Range): string {
    "@@ -" + RenderRange(oldSide) + " +" + RenderRange(newSide) + " @@"
  }

  /** A range read from the front of a text, and the text after it. */
  datatype RangeToken = RangeToken(range: Range, rest: string)

  /** `\d+(?:,\d+)?` at the start of `s`. */
  function ReadRange(s: string): (r: Option<RangeToken>)
    ensures r.Some? ==> WellFormedRange(r.value.range) && s == RenderRange(r.value.range) + r.value.rest
  {
    var start :- HunkHeader.Number(s);
    match HunkHeader.Literal(start.rest, ",")
    case Some(afterComma) =>
      (match HunkHeader.Number(afterComma)
       case Some(count) => Some(RangeToken(Range(start.digits, Some(count.digits)), count.rest))
       case None => Some(RangeToken(Range(start.digits, None), start.rest)))
    case None => Some(RangeToken(Range(start.digits, None), start.rest))
  }

  /** The new start of a hunk header whose counts may be left out. */
  function LenientNewStart(line: string): (r: Option<nat>)
    ensures r.Some? ==> StartsWith(line, "@@ -")
  {
    var s0 :- HunkHeader.Literal(line, "@@ -");
    var oldSide :- ReadRange(s0);
    var s1 :- HunkHeader.Literal(oldSide.rest, " +");
    var newSide :- ReadRange(s1);
    var tail :- HunkHeader.Literal(newSide.rest, " @@");
    Some(DigitsValue(newSide.range.start))
  }

  /** `ReadRange` reads back a rendered range followed by a space. */
  lemma ReadRangeOf(r: Range, rest: string)
    requires WellFormedRange(r)
    requires |rest| > 0 && rest[0] == ' '
    ensures ReadRange(RenderRange(r) + rest) == Some(RangeToken(r, rest))
  {
    var s := RenderRange(r) + rest;
    match r.count
    case None =>
      assert s == r.start + rest;
      HunkHeader.NumberOf(r.start, rest);
      assert HunkHeader.Literal(rest, ",").None?;
    case Some(c) =>
      assert s == r.start + ("," + (c + rest));
      HunkHeader.NumberOf(r.start, "," + (c + rest));
      HunkHeader.LiteralOf(",", c + rest);
      HunkHeader.NumberOf(c, rest);
  }

  /**
   * Every header git writes matches, counts present or not, whatever
   * follows it, and gives the new side's start.
   */
  lemma LenientRender(oldSide: Range, newSide: Range, tail: string)
    requires WellFormedRange(oldSide) && WellFormedRange(newSide)
    ensures LenientNewStart(RenderHeader(oldSide, newSide) + tail) == Some(DigitsValue(newSide.start))
  {
    var after := " @@" + tail;
    var mid := " +" + (RenderRange(newSide) + after);
    assert RenderHeader(oldSide, newSide) + tail == "@@ -" + (RenderRange(oldSide) + mid);
    HunkHeader.LiteralOf("@@ -", RenderRange(oldSide) + mid);
    ReadRangeOf(oldSide, mid);
    HunkHeader.LiteralOf(" +", RenderRange(newSide) + after);
    ReadRangeOf(newSide, after);
    HunkHeader.LiteralOf(" @@", tail);
  }

  /**
   * `LenientNewStart` is defined exactly for the lines that start with a
   * header `@@ -a[,b] +c[,d] @@`, and is then the value of that header's `c`.
   */
  lemma LenientNewStartMeaning(line: string)
    ensures LenientNewStart(line).Some? <==>
      exists o, n, tail :: WellFormedRange(o) && WellFormedRange(n) && line == RenderHeader(o, n) + tail
    ensures forall o, n, tail :: WellFormedRange(o) && WellFormedRange(n) && line == RenderHeader(o, n) + tail ==>
      LenientNewStart(line) == Some(DigitsValue(n.start))
  {
    forall o, n, tail | WellFormedRange(o) && WellFormedRange(n) && line == RenderHeader(o, n) + tail
      ensures LenientNewStart(line) == Some(DigitsValue(n.start))
    {
      LenientRender(o, n, tail);
    }
    if LenientNewStart(line).Some? {
      var s0 := HunkHeader.Literal(line, "@@ -").value;
      var oldSide := ReadRange(s0).value;
      var s1 := HunkHeader.Literal(oldSide.rest, " +").value;
      var newSide := ReadRange(s1).value;
      var tail := HunkHeader.Literal(newSide.rest, " @@").value;
      HeaderParts(line, RenderRange(oldSide.range), RenderRange(newSide.range), tail);
      assert line == RenderHeader(oldSide.range, newSide.range) + tail;
    }
  }

  /** Reassociates a header read piece by piece. */
  lemma HeaderParts(line: string, a: string, b: string, tail: string)
    requires line == "@@ -" + (a + (" +" + (b + (" @@" + tail))))
    ensures line == "@@ -" + a + " +" + b + " @@" + tail
  {
  }

  /** The header `@@ -a,b +c,d @@` that the source's pattern matches. */
  lemma RenderAsRanges(f: HunkHeader.Fields)
    ensures HunkHeader.Render(f) ==
      RenderHeader(Range(f.oldStart, Some(f.oldCount)), Range(f.newStart, Some(f.newCount)))
  {
    var a, b, c, d := f.oldStart, f.oldCount, f.newStart, f.newCount;
    assert [d][1..] == [] && [" @@"][1..] == [];
    assert HunkHeader.Interleave([d], [" @@"]) == d + " @@";
    assert [c, d][1..] == [d] && [",", " @@"][1..] == [" @@"];
    assert HunkHeader.Interleave([c, d], [",", " @@"]) == c + "," + (d + " @@");
    assert [b, c, d][1..] == [c, d] && [" +", ",", " @@"][1..] == [",", " @@"];
    assert HunkHeader.Interleave([b, c, d], [" +", ",", " @@"]) == b + " +" + (c + "," + (d + " @@"));
    assert [a, b, c, d][1..] == [b, c, d] && HunkHeader.Separators[1..] == [" +", ",", " @@"];
    assert HunkHeader.Interleave(HunkHeader.Runs(f), HunkHeader.Separators)
        == a + "," + (b + " +" + (c + "," + (d + " @@")));
  }

  /**
   * The correction only widens the pattern: wherever the source's pattern
   * matches, the lenient one matches with the same new start.
   */
  lemma LenientExtends(line: string)
    requires HunkHeader.NewStart(line).Some?
    ensures LenientNewStart(line) == HunkHeader.NewStart(line)
  {
    HunkHeader.NewStartMeaning(line);
    var f, rest :| HunkHeader.WellFormed(f) && line == HunkHeader.Render(f) + rest;
    RenderAsRanges(f);
    LenientRender(Range(f.oldStart, Some(f.oldCount)), Range(f.newStart, Some(f.newCount)), rest);
  }

  /**
   * The corrected loop body: a hunk header is read with its counts
   * optional, a deletion leaves the state alone, and every other line is
   * handled as in the source.
   */
  function IntendedStep(st: ScanState, l: string): (r: ScanState)
    requires Valid(st)
    ensures Valid(r)
    ensures r.changed.Keys == st.changed.Keys + (if IsFileHeader(l) then {HeaderPath(l)} else {})
  {
    if IsHunkLine(l) then
      NotFileHeader(l);
      match LenientNewStart(l)
      case Some(s) => if st.file != "" then st.(line := s) else st
      case None => st
    else if IsRemovedLine(l) then
      NotFileHeader(l);
      st
    else Step(st, l)
  }

  function IntendedRun(st: ScanState, lines: seq<string>): (r: ScanState)
    requires Valid(st)
    ensures Valid(r)
    decreases |lines|
  {
    if |lines| == 0 then st
    else IntendedStep(IntendedRun(st, lines[..|lines| - 1]), lines[|lines| - 1])
  }

  lemma {:induction false} IntendedRunKeys(st: ScanState, lines: seq<string>)
    requires Valid(st)
    ensures IntendedRun(st, lines).changed.Keys == st.changed.Keys + HeaderPaths(lines)
    decreases |lines|
  {
    if |lines| > 0 {
      IntendedRunKeys(st, lines[..|lines| - 1]);
    }
  }

  /** The corrected changed-line map; its keys are those of `ScanDiff`. */
  function IntendedScanDiff(lines: seq<string>): (r: ChangedLines)
    ensures r.Keys == HeaderPaths(lines)
    ensures r.Keys == ScanDiff(lines).Keys
  {
    IntendedRunKeys(Start, lines);
    IntendedRun(Start, lines).changed
  }

  /**
   * A diff whose deletions are each followed by a file header, and with no
   * hunk header the source's pattern rejects but the lenient one accepts:
   * the correction leaves the current file and the map as they are, and the
   * counter too unless the last line read is a deletion. Git's `--- a/<path>`
   * and `--- /dev/null` lines are such deletions, so additions-only diffs
   * qualify.
   */
  lemma {:induction false} IntendedAgrees(st: ScanState, lines: seq<string>)
    requires Valid(st)
    requires RemovalsBeforeHeaders(lines)
    requires forall i :: 0 <= i < |lines| ==> LenientNewStart(lines[i]) == HunkHeader.NewStart(lines[i])
    ensures IntendedRun(st, lines).file == Run(st, lines).file
    ensures IntendedRun(st, lines).changed == Run(st, lines).changed
    ensures |lines| == 0 || !IsRemovedLine(lines[|lines| - 1]) ==> IntendedRun(st, lines) == Run(st, lines)
    decreases |lines|
  {
    if |lines| > 0 {
      var m := |lines| - 1;
      var pre := lines[..m];
      assert RemovalsBeforeHeaders(pre) by {
        forall i | 0 <= i < |pre| - 1 && IsRemovedLine(pre[i]) ensures IsFileHeader(pre[i + 1]) {
          assert pre[i] == lines[i] && pre[i + 1] == lines[i + 1];
        }
      }
      IntendedAgrees(st, pre);
      var prev, iprev := Run(st, pre), IntendedRun(st, pre);
      var l := lines[m];
      if iprev != prev {
        assert lines[m - 1] == pre[|pre| - 1];
        HeaderStepForgets(iprev, prev, l);
      } else {
        CounterRules(prev, l);
        if IsHunkLine(l) {
          FirstCharacters(l);
        }
      }
    }
  }

  /** Every deletion but a last one is followed at once by a file header. */
  predicate RemovalsBeforeHeaders(lines: seq<string>) {
    forall i :: 0 <= i < |lines| - 1 && IsRemovedLine(lines[i]) ==> IsFileHeader(lines[i + 1])
  }

  /** A file header sets the current file and the counter, whatever they were. */
  lemma HeaderStepForgets(a: ScanState, b: ScanState, l: string)
    requires Valid(a) && Valid(b) && a.changed == b.changed
    requires IsFileHeader(l)
    ensures IntendedStep(a, l) == Step(b, l)
  {
    FirstCharacters(l);
    if IsRemovedLine(l) {
      StartsWithFirst(l, "-");
    }
  }

  /** The corrected map equals the map as written on such a diff. */
  lemma IntendedScanAgrees(lines: seq<string>)
    requires RemovalsBeforeHeaders(lines)
    requires forall i :: 0 <= i < |lines| ==> LenientNewStart(lines[i]) == HunkHeader.NewStart(lines[i])
    ensures IntendedScanDiff(lines) == ScanDiff(lines)
  {
    IntendedAgrees(Start, lines);
  }

  /** The new side of a body grows by each line that is not a deletion. */
  lemma NewSideSnoc(body: seq<string>, l: string)
    ensures NewSide(body + [l]) == NewSide(body) + (if IsRemovedLine(l) then [] else [l])
  {
    assert (body + [l])[..|body|] == body;
  }

  /** One corrected step on a body line: a deletion changes nothing, any other line is numbered. */
  lemma IntendedBodyStep(st: ScanState, side: seq<string>, l: string)
    requires Valid(st) && st.file != "" && IsBodyLine(l)
    ensures IntendedStep(Numbered(st, side), l) ==
      if IsRemovedLine(l) then Numbered(st, side) else Numbered(st, side + [l])
  {
    BodyLineShape(l);
    if !IsRemovedLine(l) {
      NumberedSnoc(st, side, l);
    }
  }

  /**
   * The intended numbering of a hunk body: only the new side's lines take
   * numbers, so each added line gets the counter plus its index among them.
   */
  lemma {:induction false} IntendedBody(st: ScanState, body: seq<string>)
    requires Valid(st) && st.file != ""
    requires forall i :: 0 <= i < |body| ==> IsBodyLine(body[i])
    ensures IntendedRun(st, body) == Numbered(st, NewSide(body))
    decreases |body|
  {
    var f := st.file;
    if |body| == 0 {
      assert st.changed[f] + AddedNumbers(st.line, []) == st.changed[f];
      assert st.changed[f := st.changed[f]] == st.changed;
    } else {
      var m := |body| - 1;
      var pre := body[..m];
      var l := body[m];
      IntendedBody(st, pre);
      assert body == pre + [l];
      IntendedBodySnoc(st, pre, l);
    }
  }

  /** One more body line extends the numbered new side by that line, unless it is a deletion. */
  lemma IntendedBodySnoc(st: ScanState, pre: seq<string>, l: string)
    requires Valid(st) && st.file != "" && IsBodyLine(l)
    requires IntendedRun(st, pre) == Numbered(st, NewSide(pre))
    ensures IntendedRun(st, pre + [l]) == Numbered(st, NewSide(pre + [l]))
  {
    assert (pre + [l])[..|pre|] == pre;
    assert IntendedRun(st, pre + [l]) == IntendedStep(Numbered(st, NewSide(pre)), l);
    IntendedBodyStep(st, NewSide(pre), l);
    NewSideSnoc(pre, l);
    if IsRemovedLine(l) {
      assert NewSide(pre + [l]) == NewSide(pre);
    }
  }

  /**
   * A whole hunk, corrected: after a header with new start `s` (counts
   * optional), the added lines are numbered `s` plus their index on the new
   * side, deletions skipped, and the counter ends past the new side.
   */
  lemma IntendedHunk(st: ScanState, hunk: string, body: seq<string>)
    requires Valid(st) && st.file != ""
    requires LenientNewStart(hunk).Some?
    requires forall i :: 0 <= i < |body| ==> IsBodyLine(body[i])
    ensures IntendedRun(st, [hunk] + body) == Numbered(st.(line := LenientNewStart(hunk).value), NewSide(body))
  {
    StartsWithPrefix(hunk, "@@ -", "@@");
    assert [hunk][..0] == [];
    assert IntendedRun(st, [hunk]) == st.(line := LenientNewStart(hunk).value);
    IntendedRunAppend(st, [hunk], body);
    IntendedBody(IntendedRun(st, [hunk]), body);
  }

  lemma {:induction false} IntendedRunAppend(st: ScanState, a: seq<string>, b: seq<string>)
    requires Valid(st)
    ensures IntendedRun(st, a + b) == IntendedRun(IntendedRun(st, a), b)
    decreases |b|
  {
    if |b| == 0 {
      assert a + b == a;
    } else {
      var m := |b| - 1;
      assert (a + b)[..|a + b| - 1] == a + b[..m];
      assert (a + b)[|a + b| - 1] == b[m];
      IntendedRunAppend(st, a, b[..m]);
    }
  }
}
