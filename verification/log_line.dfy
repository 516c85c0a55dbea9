/**
 * The two per-line steps of `filter_logs` (filter_precommit.py:73-80):
 * the structured-line pattern `^(.*?):(\d+):(?:\d+:)?\s*(.*)$`, written out
 * by hand, and the normalisation of the captured path to the part that
 * starts at `src/`.
 */
module LogLine {
  import opened Wrappers
  import opened Text

  /** The `path` and line-number groups of a structured log line. */
  datatype Location = Location(path: string, lineNo: nat)

  /** `:\d+:` with exactly `k` digits, starting at index `p`. */
  predicate ColonDigitsColon(l: string, p: nat, k: nat) {
    p + 1 + k < |l| && l[p] == ':' && AllDigits(l[p + 1..p + 1 + k]) && l[p + 1 + k] == ':'
  }

  /**
   * The pattern's `:(\d+):` can match at index `p`, for some number of
   * digits, as a backtracking regex engine would try them.
   */
  ghost predicate SeparatorAt(l: string, p: nat) {
    exists k: nat :: 1 <= k && ColonDigitsColon(l, p, k)
  }

  /** The matcher's own test at `p`: the longest digit run after a colon ends at a colon. */
  predicate SepAt(l: string, p: nat) {
    p < |l| && DigitRun(l[p + 1..]) > 0 && ColonDigitsColon(l, p, DigitRun(l[p + 1..]))
  }

  /** A digit run followed by a colon is the longest run there. */
  lemma SeparatorDigitsLongest(l: string, p: nat, k: nat)
    requires ColonDigitsColon(l, p, k)
    ensures DigitRun(l[p + 1..]) == k
  {
    var s := l[p + 1..];
    assert s[..k] == l[p + 1..p + 1 + k];
    assert s[k] == ':';
    DigitRunUnique(s, k);
  }

  /**
   * Trying only the longest digit run loses nothing: a shorter run is
   * followed by a digit, never by the colon the pattern needs next.
   */
  lemma SepAtIsSeparator(l: string)
    ensures forall p: nat :: SepAt(l, p) <==> SeparatorAt(l, p)
    ensures forall p: nat, k: nat :: ColonDigitsColon(l, p, k) ==> DigitRun(l[p + 1..]) == k
  {
    forall p: nat, k: nat | ColonDigitsColon(l, p, k)
      ensures DigitRun(l[p + 1..]) == k
    {
      SeparatorDigitsLongest(l, p, k);
    }
    forall p: nat | SepAt(l, p)
      ensures SeparatorAt(l, p)
    {
      assert ColonDigitsColon(l, p, DigitRun(l[p + 1..]));
    }
  }

  /** The first index at or after `from` where the matcher's test succeeds. */
  function FindSeparator(l: string, from: nat): (r: Option<nat>)
    requires from <= |l|
    ensures r.Some? ==> from <= r.value < |l| && SepAt(l, r.value)
    ensures r.Some? ==> forall q: nat :: from <= q < r.value ==> !SepAt(l, q)
    ensures r.None? ==> forall q: nat :: from <= q < |l| ==> !SepAt(l, q)
    decreases |l| - from
  {
    if from == |l| then None
    else if SepAt(l, from) then Some(from)
    else FindSeparator(l, from + 1)
  }

  /**
   * `log_pattern.match(log)` and its first two groups: the path before the
   * first `:<digits>:` and those digits' value.
   */
  function MatchLocation(l: string): (r: Option<Location>)
    ensures r.Some? ==> |r.value.path| < |l| && l[..|r.value.path|] == r.value.path
  {
    match FindSeparator(l, 0)
    case None => None
    case Some(p) =>
      var n := DigitRun(l[p + 1..]);
      assert l[p + 1..][..n] == l[p + 1..p + 1 + n];
      Some(Location(l[..p], DigitsValue(l[p + 1..p + 1 + n])))
  }

  /**
   * `MatchLocation` agrees with the pattern. The lazy `(.*?)` stops at the
   * first index where `:(\d+):` matches, for any digit count; the rest of
   * the pattern, `(?:\d+:)?\s*(.*)$`, matches whatever follows on a single
   * line, so it never makes the match fail. The line number is the value of
   * the digits between the two colons, however many there are.
   */
  lemma MatchLocationIsPattern(l: string)
    ensures MatchLocation(l).None? <==> forall p: nat :: p < |l| ==> !SeparatorAt(l, p)
    ensures MatchLocation(l).Some? ==> SeparatorAt(l, |MatchLocation(l).value.path|)
    ensures MatchLocation(l).Some? ==> forall q: nat :: q < |MatchLocation(l).value.path| ==> !SeparatorAt(l, q)
    ensures MatchLocation(l).Some? ==> forall k: nat :: 1 <= k && ColonDigitsColon(l, |MatchLocation(l).value.path|, k) ==>
      MatchLocation(l).value.lineNo == DigitsValue(l[|MatchLocation(l).value.path| + 1..|MatchLocation(l).value.path| + 1 + k])
  {
    SepAtIsSeparator(l);
  }

  /** No separator starts before the first colon. */
  lemma NoSeparatorBeforeColon(l: string, p: nat)
    requires forall q :: 0 <= q < p && q < |l| ==> l[q] != ':'
    ensures forall q: nat :: q < p ==> !SeparatorAt(l, q)
  {
  }

  /** No separator starts at a colon that a digit does not follow. */
  lemma NoSeparatorWithoutDigit(l: string)
    requires forall q :: 0 <= q < |l| - 1 && l[q] == ':' ==> !IsDigit(l[q + 1])
    ensures forall p: nat :: p < |l| ==> !SeparatorAt(l, p)
  {
    forall p: nat, k: nat | 1 <= k
      ensures !ColonDigitsColon(l, p, k)
    {
      if p + 1 + k < |l| && l[p] == ':' {
        assert l[p + 1..p + 1 + k][0] == l[p + 1];
      }
    }
  }

  /** A line whose first `:<digits>:` is at `p`, with `k` digits, matches there. */
  lemma MatchAt(l: string, p: nat, k: nat)
    requires 1 <= k && ColonDigitsColon(l, p, k)
    requires forall q: nat :: q < p ==> !SeparatorAt(l, q)
    ensures MatchLocation(l) == Some(Location(l[..p], DigitsValue(l[p + 1..p + 1 + k])))
  {
    SepAtIsSeparator(l);
    assert SepAt(l, p);
    var r := FindSeparator(l, 0);
    assert r.Some? && !(r.value < p) && !(p < r.value);
    assert DigitRun(l[p + 1..]) == k;
  }

  /** The marker the source cuts the logged path at. */
  const SourceRoot := "src/"

  /**
   * `file_path.strip()` and then `file_path[file_path.index("src/"):]`:
   * the stripped path from its first `src/` on, or `None` where `index`
   * raises because there is no `src/`.
   */
  function Normalise(path: string): (r: Option<string>)
    ensures r.Some? ==> StartsWith(r.value, SourceRoot)
  {
    var s := Strip(path);
    match IndexOf(s, SourceRoot)
    case None => None
    case Some(i) =>
      assert s[i..][..|SourceRoot|] == s[i..i + |SourceRoot|];
      Some(s[i..])
  }

  /**
   * Normalisation fails exactly when the stripped path holds no `src/`, and
   * otherwise keeps the stripped path from its first `src/` on.
   */
  lemma NormaliseCutsAtFirstRoot(path: string)
    ensures Normalise(path).None? <==> !Contains(Strip(path), SourceRoot)
    ensures Normalise(path).Some? ==>
      var s := Strip(path);
      var r := Normalise(path).value;
      && |r| <= |s|
      && r == s[|s| - |r|..]
      && forall j: nat :: j < |s| - |r| ==> !OccursAt(s, SourceRoot, j)
  {
  }
}
