/**
 * The hunk-header test of the diff scanner (filter_precommit.py:43):
 * `re.match(r"@@ -\d+,\d+ \+(\d+),\d+ @@", line)`, written out by hand.
 * The pattern is anchored at the start of the line only, so anything may
 * follow the closing `@@` (git puts the enclosing function's name there).
 */
module HunkHeader {
  import opened Wrappers
  import opened Text

  /** The four digit runs of `@@ -<oldStart>,<oldCount> +<newStart>,<newCount> @@`. */
  datatype Fields = Fields(oldStart: string, oldCount: string, newStart: string, newCount: string)

  /** Each `\d+` matched at least one digit. */
  predicate WellFormed(f: Fields) {
    && |f.oldStart| > 0 && AllDigits(f.oldStart)
    && |f.oldCount| > 0 && AllDigits(f.oldCount)
    && |f.newStart| > 0 && AllDigits(f.newStart)
    && |f.newCount| > 0 && AllDigits(f.newCount)
  }

  function Runs(f: Fields): seq<string> {
    [f.oldStart, f.oldCount, f.newStart, f.newCount]
  }

  /** The rest of `s` after the literal `lit`, if `s` starts with it. */
  function Literal(s: string, lit: string): (r: Option<string>)
    ensures r.Some? <==> StartsWith(s, lit)
    ensures r.Some? ==> s == lit + r.value
  {
    if StartsWith(s, lit) then
      assert s == s[..|lit|] + s[|lit|..];
      Some(s[|lit|..])
    else None
  }

  /** A `\d+` token and the text after it. */
  datatype Token = Token(digits: string, rest: string)

  /**
   * `\d+` at the start of `s`. Greedy matching with backtracking settles on
   * the longest run here, because every shorter run is followed by a digit,
   * which none of the pattern's separators (`,`, ` `) can match.
   */
  function Number(s: string): (r: Option<Token>)
    ensures r.Some? ==> |r.value.digits| > 0 && AllDigits(r.value.digits)
    ensures r.Some? ==> s == r.value.digits + r.value.rest
    ensures r.Some? ==> |r.value.rest| == 0 || !IsDigit(r.value.rest[0])
    ensures r.None? <==> |s| == 0 || !IsDigit(s[0])
  {
    var n := DigitRun(s);
    if n == 0 then None
    else
      assert s == s[..n] + s[n..];
      Some(Token(s[..n], s[n..]))
  }

  /** What is left once a sequence of `\d+<sep>` pieces has been read. */
  datatype Pieces = Pieces(runs: seq<string>, rest: string)

  predicate AllRuns(runs: seq<string>) {
    forall i :: 0 <= i < |runs| ==> |runs[i]| > 0 && AllDigits(runs[i])
  }

  /** The separators that follow the four numbers of a hunk header. */
  const Separators: seq<string> := [",", " +", ",", " @@"]

  /** `runs[0] + seps[0] + runs[1] + seps[1] + ...` */
  function Interleave(runs: seq<string>, seps: seq<string>): string
    requires |runs| == |seps|
  {
    if |runs| == 0 then "" else runs[0] + seps[0] + Interleave(runs[1..], seps[1..])
  }

  /** The text the pattern matches for the given digit runs. */
  function Render(f: Fields): string {
    "@@ -" + Interleave(Runs(f), Separators)
  }

  lemma InterleaveCons(run: string, runs: seq<string>, seps: seq<string>, tail: string)
    requires |runs| + 1 == |seps|
    ensures Interleave([run] + runs, seps) + tail == run + (seps[0] + (Interleave(runs, seps[1..]) + tail))
  {
    assert ([run] + runs)[1..] == runs;
  }

  /** Reads `\d+` followed by the literal `seps[i]`, for each separator in turn. */
  function ReadPieces(s: string, seps: seq<string>): (r: Option<Pieces>)
    ensures r.Some? ==> |r.value.runs| == |seps| && AllRuns(r.value.runs)
    ensures r.Some? ==> s == Interleave(r.value.runs, seps) + r.value.rest
  {
    if |seps| == 0 then Some(Pieces([], s))
    else match Number(s)
      case None => None
      case Some(t) =>
        match Literal(t.rest, seps[0])
        case None => None
        case Some(u) =>
          match ReadPieces(u, seps[1..])
          case None => None
          case Some(p) =>
            InterleaveCons(t.digits, p.runs, seps, p.rest);
            Some(Pieces([t.digits] + p.runs, p.rest))
  }

  /** The hunk-header pattern, with all four captured digit runs. */
  function Match(line: string): (r: Option<Fields>)
    ensures r.Some? ==> StartsWith(line, "@@ -")
    ensures r.Some? ==> WellFormed(r.value) && StartsWith(line, Render(r.value))
  {
    var s0 :- Literal(line, "@@ -");
    var p :- ReadPieces(s0, Separators);
    var f := Fields(p.runs[0], p.runs[1], p.runs[2], p.runs[3]);
    assert p.runs == Runs(f);
    assert line == Render(f) + p.rest;
    StartsWithConcat(Render(f), p.rest);
    Some(f)
  }

  /** `int(match.group(1))`: the hunk's starting line in the new file, when the line matches. */
  function NewStart(line: string): (r: Option<nat>)
    ensures r.Some? ==> StartsWith(line, "@@ -")
  {
    match Match(line)
    case Some(f) => Some(DigitsValue(f.newStart))
    case None => None
  }

  /**
   * `NewStart` is defined exactly for the lines that start with a header
   * `@@ -a,b +c,d @@`, and is then the value of that header's `c`.
   */
  lemma NewStartMeaning(line: string)
    ensures NewStart(line).Some? <==> exists f, tail :: WellFormed(f) && line == Render(f) + tail
    ensures forall f, tail :: WellFormed(f) && line == Render(f) + tail ==> NewStart(line) == Some(DigitsValue(f.newStart))
  {
    MatchRendered(line);
  }

  /** `Number` reads back a digit run written in front of a non-digit. */
  lemma NumberOf(ds: string, rest: string)
    requires |ds| > 0 && AllDigits(ds)
    requires |rest| > 0 && !IsDigit(rest[0])
    ensures Number(ds + rest) == Some(Token(ds, rest))
  {
    var s := ds + rest;
    assert s[..|ds|] == ds;
    DigitRunUnique(s, |ds|);
    assert s[|ds|..] == rest;
  }

  /** `Literal` strips a literal written in front of the text. */
  lemma LiteralOf(lit: string, rest: string)
    ensures Literal(lit + rest, lit) == Some(rest)
  {
    StartsWithConcat(lit, rest);
  }

  /** Reading back interleaved digit runs recovers them and the text after them. */
  lemma {:induction false} ReadInterleave(runs: seq<string>, seps: seq<string>, tail: string)
    requires |runs| == |seps| && AllRuns(runs)
    requires forall i :: 0 <= i < |seps| ==> |seps[i]| > 0 && !IsDigit(seps[i][0])
    ensures ReadPieces(Interleave(runs, seps) + tail, seps) == Some(Pieces(runs, tail))
  {
    if |runs| > 0 {
      var after := Interleave(runs[1..], seps[1..]) + tail;
      assert [runs[0]] + runs[1..] == runs;
      InterleaveCons(runs[0], runs[1..], seps, tail);
      assert (seps[0] + after)[0] == seps[0][0];
      NumberOf(runs[0], seps[0] + after);
      LiteralOf(seps[0], after);
      ReadInterleave(runs[1..], seps[1..], tail);
      assert ReadPieces(Interleave(runs, seps) + tail, seps) == Some(Pieces([runs[0]] + runs[1..], tail));
    } else {
      assert Interleave(runs, seps) + tail == tail;
    }
  }

  /**
   * Every rendered header matches, whatever follows it, and gives back the
   * digit runs it was rendered from.
   */
  lemma MatchRender(f: Fields, tail: string)
    requires WellFormed(f)
    ensures Match(Render(f) + tail) == Some(f)
  {
    var body := Interleave(Runs(f), Separators);
    assert Render(f) + tail == "@@ -" + (body + tail);
    LiteralOf("@@ -", body + tail);
    ReadInterleave(Runs(f), Separators, tail);
  }

  /**
   * The pattern matches exactly the lines that start with a rendered header,
   * and then gives back that header's digit runs.
   */
  lemma MatchRendered(line: string)
    ensures Match(line).Some? <==> exists f, tail :: WellFormed(f) && line == Render(f) + tail
    ensures forall f, tail :: WellFormed(f) && line == Render(f) + tail ==> Match(line) == Some(f)
  {
    forall f, tail | WellFormed(f) && line == Render(f) + tail
      ensures Match(line) == Some(f)
    {
      MatchRender(f, tail);
    }
    if Match(line).Some? {
      var f := Match(line).value;
      var tail := line[|Render(f)|..];
      assert line == Render(f) + tail;
    }
  }

  /** A header rendered from `f` starts its hunk at `f`'s new start. */
  lemma RenderedStart(f: Fields, hunk: string)
    requires WellFormed(f) && hunk == Render(f)
    ensures NewStart(hunk) == Some(DigitsValue(f.newStart))
  {
    NewStartMeaning(hunk);
    assert hunk == Render(f) + "";
  }

  /** A header without the counts, such as `@@ -1 +1 @@`, does not match. */
  lemma MissingCountsRejected()
    ensures Match("@@ -1 +1 @@").None?
    ensures NewStart("@@ -1 +1 @@").None?
  {
    assert "@@ -1 +1 @@" == "@@ -" + "1 +1 @@";
    LiteralOf("@@ -", "1 +1 @@");
    assert "1 +1 @@" == "1" + " +1 @@";
    NumberOf("1", " +1 @@");
    assert Literal(" +1 @@", ",").None?;
    MatchRendered("@@ -1 +1 @@");
  }
}
