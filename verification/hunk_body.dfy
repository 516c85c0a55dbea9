/**
 * How the scanner numbers the lines of one hunk (filter_precommit.py:43-53).
 * After the header sets the counter to the hunk's new start, every body
 * line, whether added, context or deleted, takes the next number; only the
 * added ones are recorded.
 */
module HunkBody {
  import opened Text
  import HunkHeader
  import opened DiffScan

  /** A line inside a hunk: an addition, a context line or a deletion. */
  predicate IsBodyLine(l: string) {
    IsAddedLine(l) || IsContextOrRemoved(l)
  }

  /** A deletion: a line that exists only in the old file. */
  predicate IsRemovedLine(l: string) {
    StartsWith(l, "-")
  }

  /**
   * The numbers `s + j` of the added lines `side[j]`: the numbers the lines
   * of `side` get when numbered consecutively from `s`.
   */
  function AddedNumbers(s: nat, side: seq<string>): (r: set<nat>)
    ensures forall n: nat :: n in r <==> s <= n < s + |side| && IsAddedLine(side[n - s])
    decreases |side|
  {
    if |side| == 0 then {}
    else
      var m := |side| - 1;
      assert forall j :: 0 <= j < m ==> side[..m][j] == side[j];
      AddedNumbers(s, side[..m]) + (if IsAddedLine(side[m]) then {s + m} else {})
  }

  /** Numbering `side + [l]` adds the number of `l` when it is an added line. */
  lemma AddedNumbersSnoc(s: nat, side: seq<string>, l: string)
    ensures AddedNumbers(s, side + [l]) == AddedNumbers(s, side) + (if IsAddedLine(l) then {s + |side|} else {})
  {
    assert (side + [l])[..|side|] == side;
  }

  /** A context line: one that is in both the old and the new file. */
  predicate IsContextLine(l: string) {
    StartsWith(l, " ")
  }

  /** A context line is a body line, neither added nor deleted. */
  lemma ContextLineShape(l: string)
    requires IsContextLine(l)
    ensures IsBodyLine(l) && !IsAddedLine(l) && !IsRemovedLine(l)
  {
    StartsWithFirst(l, " ");
    FirstCharacters(l);
    if IsRemovedLine(l) {
      StartsWithFirst(l, "-");
    }
  }

  /** A deletion is a body line and not an added one. */
  lemma RemovedLineShape(l: string)
    ensures IsRemovedLine(l) ==> IsBodyLine(l) && !IsAddedLine(l)
    ensures IsAddedLine(l) ==> !IsRemovedLine(l)
  {
    FirstCharacters(l);
    if IsRemovedLine(l) {
      StartsWithFirst(l, "-");
    }
  }

  /** Neither a hunk header nor a deletion is a file header. */
  lemma NotFileHeader(l: string)
    requires IsHunkLine(l) || IsRemovedLine(l)
    ensures !IsFileHeader(l)
  {
    FirstCharacters(l);
    if IsRemovedLine(l) {
      StartsWithFirst(l, "-");
    }
  }

  /** A body line is neither a file header nor a hunk header. */
  lemma BodyLineShape(l: string)
    requires IsBodyLine(l)
    ensures !IsFileHeader(l) && !IsHunkLine(l)
  {
    FirstCharacters(l);
  }

  /** One body line read with a current file: the counter advances, an added line is recorded. */
  lemma BodyLineStep(st: ScanState, l: string)
    requires Valid(st) && st.file != "" && IsBodyLine(l)
    ensures Step(st, l) == st.(line := st.line + 1, changed :=
      if IsAddedLine(l) then st.changed[st.file := st.changed[st.file] + {st.line}] else st.changed)
  {
    BodyLineShape(l);
    CounterRules(st, l);
  }

  /** The state after numbering `side` from the counter of `st`. */
  function Numbered(st: ScanState, side: seq<string>): ScanState
    requires Valid(st) && st.file != ""
  {
    st.(line := st.line + |side|, changed := st.changed[st.file := st.changed[st.file] + AddedNumbers(st.line, side)])
  }

  /** Reading one more body line after `side` numbers `side + [l]`. */
  lemma NumberedSnoc(st: ScanState, side: seq<string>, l: string)
    requires Valid(st) && st.file != "" && IsBodyLine(l)
    ensures Step(Numbered(st, side), l) == Numbered(st, side + [l])
  {
    var f := st.file;
    var prev := Numbered(st, side);
    BodyLineStep(prev, l);
    AddedNumbersSnoc(st.line, side, l);
    var a := AddedNumbers(st.line, side);
    var b := AddedNumbers(st.line, side + [l]);
    if IsAddedLine(l) {
      var x := st.changed[f] + a + {st.line + |side|};
      assert x == st.changed[f] + b;
      var m1 := prev.changed[f := x];
      var m2 := st.changed[f := x];
      assert m1.Keys == m2.Keys;
      assert forall k | k in m1 :: m1[k] == m2[k];
    } else {
      assert b == a;
    }
  }

  /**
   * As written, a hunk body read with a current file advances the counter by
   * one per line and records, for that file, the number of each added line
   * counted from the counter's value with the deletions included.
   */
  lemma {:induction false} BodyAsWritten(st: ScanState, body: seq<string>)
    requires Valid(st) && st.file != ""
    requires forall i :: 0 <= i < |body| ==> IsBodyLine(body[i])
    ensures Run(st, body) == Numbered(st, body)
    decreases |body|
  {
    var f := st.file;
    if |body| == 0 {
      assert st.changed[f] + AddedNumbers(st.line, body) == st.changed[f];
      assert st.changed[f := st.changed[f]] == st.changed;
    } else {
      var m := |body| - 1;
      var pre := body[..m];
      BodyAsWritten(st, pre);
      assert body == pre + [body[m]];
      NumberedSnoc(st, pre, body[m]);
    }
  }

  /**
   * A whole hunk as written: after a matching header with new start `s`, an
   * added line is numbered `s` plus its index in the body, deletions counted.
   */
  lemma HunkAsWritten(st: ScanState, hunk: string, body: seq<string>)
    requires Valid(st) && st.file != ""
    requires HunkHeader.NewStart(hunk).Some?
    requires forall i :: 0 <= i < |body| ==> IsBodyLine(body[i])
    ensures var s := HunkHeader.NewStart(hunk).value;
      Run(st, [hunk] + body) == Numbered(st.(line := s), body)
  {
    HunkLineShape(hunk);
    assert [hunk][..0] == [];
    assert Run(st, [hunk]) == Step(st, hunk);
    CounterRules(st, hunk);
    RunAppend(st, [hunk], body);
    BodyAsWritten(Run(st, [hunk]), body);
  }

  /** The lines of a hunk body that exist in the new file, in their order. */
  function NewSide(body: seq<string>): (r: seq<string>)
    ensures |r| <= |body|
    ensures forall i :: 0 <= i < |r| ==> !IsRemovedLine(r[i])
    decreases |body|
  {
    if |body| == 0 then []
    else
      var m := |body| - 1;
      NewSide(body[..m]) + (if IsRemovedLine(body[m]) then [] else [body[m]])
  }

  /** Without deletions, the new side is the whole body. */
  lemma {:induction false} NewSideWithoutRemovals(body: seq<string>)
    requires forall i :: 0 <= i < |body| ==> !IsRemovedLine(body[i])
    ensures NewSide(body) == body
    decreases |body|
  {
    if |body| > 0 {
      var m := |body| - 1;
      NewSideWithoutRemovals(body[..m]);
      assert body == body[..m] + [body[m]];
    }
  }

  /** Every added line of the body is on the new side, and nothing else that is not in the body. */
  lemma {:induction false} NewSideKeepsAdded(body: seq<string>)
    ensures forall l :: l in NewSide(body) ==> l in body
    ensures forall l :: l in body && !IsRemovedLine(l) ==> l in NewSide(body)
    decreases |body|
  {
    if |body| > 0 {
      var m := |body| - 1;
      NewSideKeepsAdded(body[..m]);
      assert body == body[..m] + [body[m]];
    }
  }
}
