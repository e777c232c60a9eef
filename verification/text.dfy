/** The Kotlin string functions the shopping-list screen validates its input with:
    `Char.isWhitespace`, `CharSequence.isBlank` and `String.trim`. */
module Text {

  /** Kotlin's `Char.isWhitespace` on the JVM: `Character.isWhitespace(c) || Character.isSpaceChar(c)`,
      that is the controls U+0009..U+000D and U+001C..U+001F and every Unicode space, line or
      paragraph separator (U+0020, U+00A0, U+1680, U+2000..U+200A, U+2028, U+2029, U+202F,
      U+205F, U+3000). */
  predicate IsWhitespace(c: char)
  {
    var n := c as int;
    (0x09 <= n <= 0x0D) || (0x1C <= n <= 0x20) || n == 0xA0 || n == 0x1680 ||
    (0x2000 <= n <= 0x200A) || n == 0x2028 || n == 0x2029 || n == 0x202F ||
    n == 0x205F || n == 0x3000
  }

  /** `CharSequence.isBlank`: empty, or made only of whitespace. */
  predicate IsBlank(s: string)
  {
    forall i :: 0 <= i < |s| ==> IsWhitespace(s[i])
  }

  /** The index of the first character at or after `from` that is not whitespace, or `|s|`. */
  function FirstKept(s: string, from: nat): (n: nat)
    requires from <= |s|
    ensures from <= n <= |s|
    ensures forall i :: from <= i < n ==> IsWhitespace(s[i])
    ensures n < |s| ==> !IsWhitespace(s[n])
    decreases |s| - from
  {
    if from < |s| && IsWhitespace(s[from]) then FirstKept(s, from + 1) else from
  }

  /** One past the index of the last character before `to` that is not whitespace, or 0. */
  function LastKept(s: string, to: nat): (n: nat)
    requires to <= |s|
    ensures n <= to
    ensures forall i :: n <= i < to ==> IsWhitespace(s[i])
    ensures 0 < n ==> !IsWhitespace(s[n - 1])
  {
    if 0 < to && IsWhitespace(s[to - 1]) then LastKept(s, to - 1) else to
  }

  /** Drops the leading whitespace of `s`. */
  function TrimStart(s: string): (r: string)
    ensures |r| <= |s| && r == s[|s| - |r|..]
    ensures IsBlank(s[..|s| - |r|])
    ensures r != [] ==> !IsWhitespace(r[0])
    ensures r == [] <==> IsBlank(s)
  {
    var n := FirstKept(s, 0);
    assert n < |s| ==> !IsBlank(s);
    s[n..]
  }

  /** Drops the trailing whitespace of `s`. */
  function TrimEnd(s: string): (r: string)
    ensures |r| <= |s| && r == s[..|r|]
    ensures IsBlank(s[|r|..])
    ensures r != [] ==> !IsWhitespace(r[|r| - 1])
    ensures r == [] <==> IsBlank(s)
  {
    var n := LastKept(s, |s|);
    assert 0 < n ==> !IsBlank(s);
    s[..n]
  }

  /** `String.trim()`: the text between the first and the last character that is not whitespace.
      The result is empty exactly when `s` is blank, and a trimmed string is blank only when it
      is empty, so the screen's `trim()` followed by `isBlank()` is an emptiness test. */
  function Trim(s: string): (r: string)
    ensures r == [] <==> IsBlank(s)
    ensures IsBlank(r) <==> r == []
    ensures r != [] ==> !IsWhitespace(r[0]) && !IsWhitespace(r[|r| - 1])
  {
    TrimEnd(TrimStart(s))
  }

  /** The trimmed text is a slice `s[i..j]` of the input, and only whitespace was cut off
      on either side. */
  lemma TrimIsSlice(s: string) returns (i: nat, j: nat)
    ensures i <= j <= |s| && Trim(s) == s[i..j]
    ensures IsBlank(s[..i]) && IsBlank(s[j..])
  {
    var t := TrimStart(s);
    var r := TrimEnd(t);
    i := |s| - |t|;
    j := i + |r|;
    assert IsBlank(s[..i]);
    assert r == s[i..j] by {
      assert r == t[..|r|];
    }
    assert IsBlank(s[j..]) by {
      assert t[|r|..] == s[j..];
    }
  }

  /** A string without whitespace at either end is its own trim. */
  lemma TrimmedIsFixed(s: string)
    requires s != [] ==> !IsWhitespace(s[0]) && !IsWhitespace(s[|s| - 1])
    ensures Trim(s) == s
  {
    if s != [] {
      assert FirstKept(s, 0) == 0;
      assert LastKept(s, |s|) == |s|;
    }
    assert TrimStart(s) == s[0..] == s;
    assert TrimEnd(s) == s[..|s|] == s;
  }

  /** Trimming twice is trimming once: a name stored as the result of `trim()` is its own
      trim, so entering it again gives the same name. */
  lemma TrimIdempotent(s: string)
    ensures Trim(Trim(s)) == Trim(s)
  {
    TrimmedIsFixed(Trim(s));
  }
}
