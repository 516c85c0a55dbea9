/**
 * The handful of `str` operations the filter relies on: prefix tests,
 * `strip()`, substring search (`in`, `index`) and `int()` of a digit run.
 */
module Text {
  import opened Wrappers

  /** A decimal digit, as `\d` and `int()` read it (ASCII digits only). */
  predicate IsDigit(c: char) {
    '0' <= c <= '9'
  }

  predicate AllDigits(s: string) {
    forall i :: 0 <= i < |s| ==> IsDigit(s[i])
  }

  /**
   * The characters Python's `str.isspace` accepts, which are the ones
   * `str.strip()` removes: the ASCII and Unicode separators and the C0
   * and C1 control characters Python counts as whitespace.
   */
  const Whitespace: set<char> := {
    '\t', '\n', '\U{0B}', '\U{0C}', '\r',
    '\U{1C}', '\U{1D}', '\U{1E}', '\U{1F}',
    ' ', '\U{85}', '\U{A0}', '\U{1680}',
    '\U{2000}', '\U{2001}', '\U{2002}', '\U{2003}', '\U{2004}', '\U{2005}',
    '\U{2006}', '\U{2007}', '\U{2008}', '\U{2009}', '\U{200A}',
    '\U{2028}', '\U{2029}', '\U{202F}', '\U{205F}', '\U{3000}'
  }

  predicate IsSpace(c: char) {
    c in Whitespace
  }

  predicate AllSpace(s: string) {
    forall i :: 0 <= i < |s| ==> IsSpace(s[i])
  }

  /** `s.startswith(prefix)` */
  predicate StartsWith(s: string, prefix: string) {
    |prefix| <= |s| && s[..|prefix|] == prefix
  }

  lemma StartsWithConcat(prefix: string, rest: string)
    ensures StartsWith(prefix + rest, prefix)
  {
    assert (prefix + rest)[..|prefix|] == prefix;
  }

  /** A longer prefix implies each of its own prefixes. */
  lemma StartsWithPrefix(s: string, prefix: string, shorter: string)
    requires StartsWith(s, prefix) && StartsWith(prefix, shorter)
    ensures StartsWith(s, shorter)
  {
    assert s[..|shorter|] == prefix[..|shorter|];
  }

  /** A non-empty prefix fixes the first character. */
  lemma StartsWithFirst(s: string, prefix: string)
    requires StartsWith(s, prefix) && |prefix| > 0
    ensures |s| > 0 && s[0] == prefix[0]
  {
    assert s[0] == s[..|prefix|][0];
  }

  /** The value of a digit run, most significant digit first, as `int()` reads it. */
  function DigitsValue(ds: string): nat
    requires AllDigits(ds)
  {
    if |ds| == 0 then 0
    else DigitsValue(ds[..|ds| - 1]) * 10 + (ds[|ds| - 1] as int - '0' as int)
  }

  /** The canonical decimal spelling of `n`: no sign and no leading zero. */
  function Decimal(n: nat): (r: string)
    ensures |r| > 0 && AllDigits(r)
    ensures r[0] == '0' ==> n == 0 && |r| == 1
  {
    var last := [('0' as int + n % 10) as char];
    if n < 10 then last else Decimal(n / 10) + last
  }

  /** `int()` reads every canonical spelling back to its number. */
  lemma {:induction false} DigitsValueDecimal(n: nat)
    ensures DigitsValue(Decimal(n)) == n
  {
    if n >= 10 {
      var r := Decimal(n);
      assert r[..|r| - 1] == Decimal(n / 10);
      DigitsValueDecimal(n / 10);
    }
  }

  /** A digit run without a leading zero is the canonical spelling of its value. */
  lemma {:induction false} DecimalDigitsValue(ds: string)
    requires AllDigits(ds) && |ds| > 0
    requires ds[0] == '0' ==> |ds| == 1
    ensures Decimal(DigitsValue(ds)) == ds
    decreases |ds|
  {
    if |ds| > 1 {
      var pre := ds[..|ds| - 1];
      DigitsValuePositive(pre);
      DecimalDigitsValue(pre);
      assert ds == pre + [ds[|ds| - 1]];
    }
  }

  /** A digit run whose first digit is not zero has a positive value. */
  lemma {:induction false} DigitsValuePositive(ds: string)
    requires AllDigits(ds) && |ds| > 0 && ds[0] != '0'
    ensures DigitsValue(ds) > 0
    decreases |ds|
  {
    if |ds| > 1 {
      DigitsValuePositive(ds[..|ds| - 1]);
    }
  }

  /** The length of the longest run of digits at the start of `s`. */
  function DigitRun(s: string): (n: nat)
    ensures n <= |s|
    ensures AllDigits(s[..n])
    ensures n < |s| ==> !IsDigit(s[n])
  {
    if |s| > 0 && IsDigit(s[0]) then
      var n := 1 + DigitRun(s[1..]);
      assert s[..n] == [s[0]] + s[1..][..n - 1];
      n
    else 0
  }

  /** The run is maximal, so it is the only digit prefix that a non-digit follows. */
  lemma DigitRunUnique(s: string, k: nat)
    requires k <= |s| && AllDigits(s[..k])
    requires k < |s| ==> !IsDigit(s[k])
    ensures DigitRun(s) == k
    decreases k
  {
    if k > 0 {
      assert s[0] == s[..k][0];
      assert s[1..][..k - 1] == s[..k][1..];
      DigitRunUnique(s[1..], k - 1);
    }
  }

  /** The number of whitespace characters at the start of `s`. */
  function SpacePrefix(s: string): (n: nat)
    ensures n <= |s| && AllSpace(s[..n])
    ensures n < |s| ==> !IsSpace(s[n])
  {
    if |s| > 0 && IsSpace(s[0]) then
      var n := 1 + SpacePrefix(s[1..]);
      assert s[..n] == [s[0]] + s[1..][..n - 1];
      n
    else 0
  }

  /** The number of whitespace characters at the end of `s`. */
  function SpaceSuffix(s: string): (n: nat)
    ensures n <= |s| && AllSpace(s[|s| - n..])
    ensures n < |s| ==> !IsSpace(s[|s| - n - 1])
  {
    if |s| > 0 && IsSpace(s[|s| - 1]) then
      var t := s[..|s| - 1];
      var m := SpaceSuffix(t);
      var tail := t[|t| - m..];
      assert AllSpace(s[|s| - (m + 1)..]) by {
        assert s[|s| - (m + 1)..] == tail + [s[|s| - 1]];
        assert forall i :: 0 <= i < m ==> (tail + [s[|s| - 1]])[i] == tail[i];
      }
      assert m + 1 < |s| ==> s[|s| - (m + 1) - 1] == t[|t| - m - 1];
      m + 1
    else 0
  }

  /**
   * Python's `str.strip()` with no argument: `s` with its leading and
   * trailing whitespace cut off.
   */
  function Strip(s: string): (r: string)
    ensures |r| > 0 ==> !IsSpace(r[0]) && !IsSpace(r[|r| - 1])
    ensures OccursAt(s, r, SpacePrefix(s))
    ensures AllSpace(s[..SpacePrefix(s)]) && AllSpace(s[SpacePrefix(s) + |r|..])
  {
    var i := SpacePrefix(s);
    var t := s[i..];
    var j := SpaceSuffix(t);
    var r := t[..|t| - j];
    assert OccursAt(s, r, i) by {
      SliceOfSuffix(s, i, 0, |r|);
    }
    assert AllSpace(s[i + |r|..]) by {
      SliceOfSuffix(s, i, |r|, |t|);
    }
    assert |r| > 0 ==> !IsSpace(r[0]) && !IsSpace(r[|r| - 1]) by {
      if |r| > 0 {
        assert r[0] == s[i];
        assert r[|r| - 1] == t[|t| - j - 1];
      }
    }
    r
  }

  /** A slice of `s[i..]` is a slice of `s`, shifted by `i`. */
  lemma SliceOfSuffix(s: string, i: nat, k: nat, m: nat)
    requires i <= |s| && k <= m <= |s| - i
    ensures s[i..][k..m] == s[i + k..i + m]
    ensures m == |s| - i ==> s[i..][k..] == s[i + k..]
  {
  }

  /** `s` is whitespace, then `strip()`'s result, then whitespace. */
  lemma StripPadding(s: string)
    ensures exists a, b :: AllSpace(a) && AllSpace(b) && s == a + Strip(s) + b
  {
    var r := Strip(s);
    var i := SpacePrefix(s);
    SplitAt(s, i, i + |r|);
    assert AllSpace(s[..i]) && AllSpace(s[i + |r|..]);
  }

  /** Cutting `s` at two points and joining the pieces gives `s` back. */
  lemma SplitAt(s: string, i: nat, j: nat)
    requires i <= j <= |s|
    ensures s == s[..i] + s[i..j] + s[j..]
  {
  }

  /** Text without surrounding whitespace is left as it is. */
  lemma StripUnpadded(s: string)
    requires |s| > 0 && !IsSpace(s[0]) && !IsSpace(s[|s| - 1])
    ensures Strip(s) == s
  {
    assert SpacePrefix(s) == 0;
    assert s[0..] == s;
    assert SpaceSuffix(s) == 0;
  }

  /** `sub` occurs in `s` starting at index `i`. */
  predicate OccursAt(s: string, sub: string, i: nat) {
    i + |sub| <= |s| && s[i..i + |sub|] == sub
  }

  /** Python's `sub in s`. */
  predicate Contains(s: string, sub: string) {
    exists i: nat :: i <= |s| && OccursAt(s, sub, i)
  }

  /** The first occurrence of `sub` at or after `from`. */
  function FindFrom(s: string, sub: string, from: nat): (r: Option<nat>)
    requires from <= |s|
    ensures r.Some? ==> from <= r.value <= |s| && OccursAt(s, sub, r.value)
    ensures r.Some? ==> forall j: nat :: from <= j < r.value ==> !OccursAt(s, sub, j)
    ensures r.None? ==> forall j: nat :: from <= j <= |s| ==> !OccursAt(s, sub, j)
    decreases |s| - from
  {
    if OccursAt(s, sub, from) then Some(from)
    else if from == |s| then None
    else FindFrom(s, sub, from + 1)
  }

  /** Python's `s.find(sub)`, with `None` for -1: the first index where `sub` occurs. */
  function IndexOf(s: string, sub: string): (r: Option<nat>)
    ensures r.None? <==> !Contains(s, sub)
    ensures r.Some? ==> OccursAt(s, sub, r.value)
    ensures r.Some? ==> forall j: nat :: j < r.value ==> !OccursAt(s, sub, j)
  {
    FindFrom(s, sub, 0)
  }

  /** The first occurrence is the one `IndexOf` finds. */
  lemma IndexOfAt(s: string, sub: string, i: nat)
    requires OccursAt(s, sub, i)
    requires forall j: nat :: j < i ==> !OccursAt(s, sub, j)
    ensures IndexOf(s, sub) == Some(i)
  {
    var r := IndexOf(s, sub);
    assert r.Some?;
    assert !(r.value < i) && !(i < r.value);
  }
}
