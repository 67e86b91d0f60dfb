/** Python's `str.strip()` without arguments, as the request handlers apply it
    to every text field before validating or storing it. */
module Text {

  /** The characters for which Python's `str.isspace()` holds: the ASCII
      whitespace and separator controls, NEXT LINE, NO-BREAK SPACE and the
      Unicode space separators, line and paragraph separators. */
  function IsSpace(c: char): (b: bool)
    ensures c == ' ' || c == '\t' || c == '\n' || c == '\r' ==> b
    ensures '!' <= c <= '~' ==> !b
  {
    var n := c as int;
    n == 0x20 || (0x09 <= n <= 0x0D) || (0x1C <= n <= 0x1F) || n == 0x85 || n == 0xA0
    || n == 0x1680 || (0x2000 <= n <= 0x200A) || n == 0x2028 || n == 0x2029
    || n == 0x202F || n == 0x205F || n == 0x3000
  }

  /** Neither starts nor ends with whitespace: the shape of what `str.strip()`
      returns. */
  predicate Trimmed(s: string) {
    s == [] || (!IsSpace(s[0]) && !IsSpace(s[|s| - 1]))
  }

  /** The index of the first non-whitespace character of `s` at or after `i`,
      or `|s|` if there is none. */
  function SkipForward(s: string, i: nat): (k: nat)
    requires i <= |s|
    ensures i <= k <= |s|
    ensures forall m :: i <= m < k ==> IsSpace(s[m])
    ensures k < |s| ==> !IsSpace(s[k])
    decreases |s| - i
  {
    if i < |s| && IsSpace(s[i]) then SkipForward(s, i + 1) else i
  }

  /** The index just past the last non-whitespace character of `s` in
      `s[lo..j]`, or `lo` if there is none. */
  function SkipBackward(s: string, lo: nat, j: nat): (k: nat)
    requires lo <= j <= |s|
    ensures lo <= k <= j
    ensures forall m :: k <= m < j ==> IsSpace(s[m])
    ensures k > lo ==> !IsSpace(s[k - 1])
    decreases j
  {
    if j > lo && IsSpace(s[j - 1]) then SkipBackward(s, lo, j - 1) else j
  }

  /** `str.strip()`: the infix of `s` left when its leading and trailing
      whitespace is cut off. It neither starts nor ends with whitespace, what lies
      outside it is whitespace, and it is empty exactly when `s` is all
      whitespace. */
  function Strip(s: string): (r: string)
    ensures Trimmed(r)
    ensures var a := SkipForward(s, 0);
      a + |r| <= |s| && s[a..a + |r|] == r
      && (forall m :: 0 <= m < a ==> IsSpace(s[m]))
      && (forall m :: a + |r| <= m < |s| ==> IsSpace(s[m]))
    ensures r == [] <==> forall m :: 0 <= m < |s| ==> IsSpace(s[m])
  {
    var a := SkipForward(s, 0);
    var b := SkipBackward(s, a, |s|);
    assert b > a ==> s[a] == s[a..b][0];
    s[a..b]
  }

  /** A string that neither starts nor ends with whitespace is its own strip. */
  lemma StripKeeps(s: string)
    requires Trimmed(s)
    ensures Strip(s) == s
  {
  }

  /** Whitespace added around a string that neither starts nor ends with
      whitespace is exactly what stripping removes. */
  lemma StripPadded(before: string, s: string, after: string)
    requires forall i :: 0 <= i < |before| ==> IsSpace(before[i])
    requires forall i :: 0 <= i < |after| ==> IsSpace(after[i])
    requires s != [] && Trimmed(s)
    ensures Strip(before + s + after) == s
  {
    var x := before + s + after;
    assert SkipForward(x, 0) == |before| by {
      assert x[|before|] == s[0];
    }
    assert SkipBackward(x, |before|, |x|) == |before| + |s| by {
      assert x[|before| + |s| - 1] == s[|s| - 1];
    }
    assert x[|before|..|before| + |s|] == s;
  }

  /** A string is its own strip exactly when it neither starts nor ends with
      whitespace. */
  lemma TrimmedIsOwnStrip(s: string)
    ensures Trimmed(s) <==> Strip(s) == s
  {
    if Trimmed(s) {
      StripKeeps(s);
    }
  }

  /** Stripping twice is stripping once. */
  lemma StripIdempotent(s: string)
    ensures Strip(Strip(s)) == Strip(s)
  {
    StripKeeps(Strip(s));
  }
}
