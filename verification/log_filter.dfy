/**
 * `filter_logs` (filter_precommit.py:66-89): keep, in order and unchanged,
 * the log lines that refer to a changed line of a staged file.
 */
module LogFilter {
  import opened Wrappers
  import opened Text
  import opened LogLine
  import opened DiffScan

  /**
   * The `ValueError` that `str.index` raises for a structured line whose
   * path holds no `src/`; it ends the whole call.
   */
  datatype FilterError = MissingSourceRoot(line: string)

  /** Some changed path occurs in `log` as a substring. */
  predicate MentionsChangedPath(log: string, changed: ChangedLines) {
    exists path | path in changed :: Contains(log, path)
  }

  /**
   * `any(file_path in log for file_path in changed_lines)`: some changed path
   * is a piece of `log`; the empty path is a piece of every line.
   */
  lemma MentionsChangedPathMeaning(log: string, changed: ChangedLines)
    ensures MentionsChangedPath(log, changed) <==> exists path, pre, post :: path in changed && log == pre + path + post
    ensures "" in changed ==> MentionsChangedPath(log, changed)
  {
    if MentionsChangedPath(log, changed) {
      var path :| path in changed && Contains(log, path);
      var i: nat :| i <= |log| && OccursAt(log, path, i);
      assert log == log[..i] + path + log[i + |path|..];
    }
    if exists path, pre, post :: path in changed && log == pre + path + post {
      var path, pre, post :| path in changed && log == pre + path + post;
      assert OccursAt(log, path, |pre|);
    }
    if "" in changed {
      assert OccursAt(log, "", 0);
    }
  }

  /**
   * The loop body's verdict on one line: a structured line is looked up by
   * its normalised path and line number and never falls back to the
   * substring test; any other line is kept when it mentions a changed path.
   */
  function Judge(log: string, changed: ChangedLines): (r: Result<bool, FilterError>)
    ensures r.Failure? ==> r.error == MissingSourceRoot(log)
  {
    match MatchLocation(log)
    case Some(loc) =>
      (match Normalise(loc.path)
       case None => Failure(MissingSourceRoot(log))
       case Some(key) => Success(key in changed && loc.lineNo in changed[key]))
    case None => Success(MentionsChangedPath(log, changed))
  }

  predicate Kept(log: string, changed: ChangedLines) {
    Judge(log, changed) == Success(true)
  }

  /** `a` is `b` with some elements left out, the rest in their order. */
  ghost predicate IsSubsequence<T>(a: seq<T>, b: seq<T>) {
    || |a| == 0
    || (|b| > 0 && ((a[0] == b[0] && IsSubsequence(a[1..], b[1..])) || IsSubsequence(a, b[1..])))
  }

  /** `logs[i]` is the first line whose verdict is an error. */
  ghost predicate FirstFailure(logs: seq<string>, changed: ChangedLines, i: nat) {
    && i < |logs|
    && Judge(logs[i], changed).Failure?
    && forall j :: 0 <= j < i ==> Judge(logs[j], changed).Success?
  }

  /** The loop over `logs`, which stops at the first error. */
  function Sift(logs: seq<string>, changed: ChangedLines): (r: Result<seq<string>, FilterError>)
    ensures r.Success? ==> IsSubsequence(r.value, logs)
    ensures r.Success? ==> forall x :: x in r.value <==> x in logs && Kept(x, changed)
    ensures r.Failure? <==> exists i :: 0 <= i < |logs| && Judge(logs[i], changed).Failure?
  {
    if |logs| == 0 then Success([])
    else
      match Judge(logs[0], changed)
      case Failure(e) =>
        assert FirstFailure(logs, changed, 0);
        Failure(e)
      case Success(keep) =>
        match Sift(logs[1..], changed)
        case Failure(e) =>
          Failure(e)
        case Success(rest) =>
          assert forall i :: 1 <= i < |logs| ==> logs[i] == logs[1..][i - 1];
          NoFailureAfterFirst(logs, changed);
          if keep then
            assert ([logs[0]] + rest)[1..] == rest;
            Success([logs[0]] + rest)
          else Success(rest)
  }

  /** A line that passes, followed by lines that all pass, are lines that all pass. */
  lemma NoFailureAfterFirst(logs: seq<string>, changed: ChangedLines)
    requires |logs| > 0 && Judge(logs[0], changed).Success?
    requires forall i :: 0 <= i < |logs| - 1 ==> Judge(logs[1..][i], changed).Success?
    ensures forall i :: 0 <= i < |logs| ==> Judge(logs[i], changed).Success?
  {
    forall i | 0 < i < |logs|
      ensures Judge(logs[i], changed).Success?
    {
      assert logs[i] == logs[1..][i - 1];
    }
  }

  /**
   * `filter_logs(logs, changed_lines)`: the lines judged relevant, in their
   * original order and unaltered, or the error of the first line whose path
   * cannot be normalised. With no changed lines at all nothing is looked at.
   */
  function FilterLogs(logs: seq<string>, changed: ChangedLines): (r: Result<seq<string>, FilterError>)
    ensures |changed| == 0 ==> r == Success([])
    ensures r.Success? ==> IsSubsequence(r.value, logs)
    ensures |changed| > 0 && r.Success? ==> forall x :: x in r.value <==> x in logs && Kept(x, changed)
    ensures r.Failure? <==> |changed| > 0 && exists i :: 0 <= i < |logs| && Judge(logs[i], changed).Failure?
  {
    if |changed| == 0 then Success([]) else Sift(logs, changed)
  }

  /** The error reported is the one of the first line that raises. */
  lemma {:induction false} FirstErrorReported(logs: seq<string>, changed: ChangedLines)
    requires FilterLogs(logs, changed).Failure?
    ensures exists i: nat :: FirstFailure(logs, changed, i) && FilterLogs(logs, changed).error == MissingSourceRoot(logs[i])
  {
    SiftFirstError(logs, changed);
  }

  lemma {:induction false} SiftFirstError(logs: seq<string>, changed: ChangedLines)
    requires Sift(logs, changed).Failure?
    ensures exists i: nat :: FirstFailure(logs, changed, i) && Sift(logs, changed).error == MissingSourceRoot(logs[i])
    decreases |logs|
  {
    if Judge(logs[0], changed).Failure? {
      assert FirstFailure(logs, changed, 0);
    } else {
      assert Sift(logs, changed) == Sift(logs[1..], changed);
      SiftFirstError(logs[1..], changed);
      var i: nat :| FirstFailure(logs[1..], changed, i) && Sift(logs, changed).error == MissingSourceRoot(logs[1..][i]);
      forall j | 0 <= j < i + 1
        ensures Judge(logs[j], changed).Success?
      {
        if j > 0 {
          assert logs[j] == logs[1..][j - 1];
        }
      }
      assert FirstFailure(logs, changed, i + 1);
    }
  }

  /** The outcome of running over one part of the logs and then another. */
  function Then(first: Result<seq<string>, FilterError>, second: Result<seq<string>, FilterError>): Result<seq<string>, FilterError> {
    match first
    case Failure(e) => Failure(e)
    case Success(a) =>
      match second
      case Failure(e) => Failure(e)
      case Success(b) => Success(a + b)
  }

  /**
   * Each verdict depends only on its own line: filtering a concatenation is
   * filtering the parts, the first error winning.
   */
  lemma FilterAppend(a: seq<string>, b: seq<string>, changed: ChangedLines)
    ensures FilterLogs(a + b, changed) == Then(FilterLogs(a, changed), FilterLogs(b, changed))
  {
    if |changed| > 0 {
      SiftAppend(a, b, changed);
    } else {
      assert FilterLogs(a, changed).value + FilterLogs(b, changed).value == [];
    }
  }

  lemma {:induction false} SiftAppend(a: seq<string>, b: seq<string>, changed: ChangedLines)
    ensures Sift(a + b, changed) == Then(Sift(a, changed), Sift(b, changed))
    decreases |a|
  {
    if |a| == 0 {
      assert a + b == b;
      if Sift(b, changed).Success? {
        assert [] + Sift(b, changed).value == Sift(b, changed).value;
      }
    } else {
      assert (a + b)[0] == a[0];
      assert (a + b)[1..] == a[1..] + b;
      SiftAppend(a[1..], b, changed);
      if Judge(a[0], changed) == Success(true) && Sift(a[1..], changed).Success? && Sift(b, changed).Success? {
        var x := Sift(a[1..], changed).value;
        var y := Sift(b, changed).value;
        ConsAppend(a[0], x, y);
      }
    }
  }

  /** Putting an element in front and appending commute. */
  lemma ConsAppend<T>(h: T, x: seq<T>, y: seq<T>)
    ensures [h] + (x + y) == ([h] + x) + y
  {
  }

  /** A kept line is kept again; filtering twice is filtering once. */
  lemma {:induction false} FilterIdempotent(logs: seq<string>, changed: ChangedLines)
    requires FilterLogs(logs, changed).Success?
    ensures FilterLogs(FilterLogs(logs, changed).value, changed) == FilterLogs(logs, changed)
    decreases |logs|
  {
    if |changed| > 0 && |logs| > 0 {
      var out := FilterLogs(logs, changed).value;
      var rest := FilterLogs(logs[1..], changed).value;
      FilterIdempotent(logs[1..], changed);
      if Kept(logs[0], changed) {
        assert out == [logs[0]] + rest;
        assert out[1..] == rest;
      }
    }
  }

  /** A single line is filtered by its own verdict. */
  lemma FilterOne(log: string, changed: ChangedLines)
    requires |changed| > 0
    ensures FilterLogs([log], changed) ==
      match Judge(log, changed)
      case Failure(e) => Failure(e)
      case Success(keep) => Success(if keep then [log] else [])
  {
    assert [log][1..] == [];
    assert Sift([], changed) == Success([]);
    assert [log] + [] == [log];
  }

  /**
   * A structured line is decided by its normalised path and line number
   * alone, even when it also mentions a changed path: it raises when the
   * path has no `src/`, and is otherwise kept exactly when the path is a key
   * whose set holds the line number.
   */
  lemma StructuredRule(log: string, changed: ChangedLines)
    requires |changed| > 0 && MatchLocation(log).Some?
    ensures var loc := MatchLocation(log).value;
      match Normalise(loc.path)
      case None => FilterLogs([log], changed) == Failure(MissingSourceRoot(log))
      case Some(key) =>
        FilterLogs([log], changed) == Success(if key in changed && loc.lineNo in changed[key] then [log] else [])
  {
    assert [log][1..] == [];
    assert Sift([], changed) == Success([]);
    assert [log] + [] == [log];
  }

  /** A line without `:<digits>:` is kept exactly when it mentions a changed path. */
  lemma UnstructuredRule(log: string, changed: ChangedLines)
    requires |changed| > 0
    requires forall p: nat :: p < |log| ==> !SeparatorAt(log, p)
    ensures FilterLogs([log], changed) == Success(if MentionsChangedPath(log, changed) then [log] else [])
  {
    MatchLocationIsPattern(log);
    assert [log][1..] == [];
    assert Sift([], changed) == Success([]);
    assert [log] + [] == [log];
  }
}
