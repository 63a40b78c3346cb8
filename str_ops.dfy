/** The parts of Rust's `str` and `char` API that the generator relies on:
    `trim`, `to_lowercase` restricted to ASCII letters, and
    `eq_ignore_ascii_case`. Strings are sequences of Unicode scalar values,
    as Rust's `char`s are. */
module StrOps {

  /** Rust's `char::is_whitespace`: the Unicode White_Space property. The
      line endings and blanks `read_line` can leave around a word count, and
      no ASCII letter does. */
  function IsWhitespace(c: char): (w: bool)
    ensures c in " \t\n\r" ==> w
    ensures w ==> !IsAsciiUpper(c) && !('a' <= c <= 'z')
  {
    var n := c as int;
    (0x09 <= n <= 0x0D) || n == 0x20 || n == 0x85 || n == 0xA0 || n == 0x1680
    || (0x2000 <= n <= 0x200A) || n == 0x2028 || n == 0x2029 || n == 0x202F
    || n == 0x205F || n == 0x3000
  }

  predicate AllWhitespace(s: string) {
    forall i :: 0 <= i < |s| ==> IsWhitespace(s[i])
  }

  /** Neither end is whitespace: what `trim` leaves behind. */
  predicate IsTrimmed(s: string) {
    s == [] || (!IsWhitespace(s[0]) && !IsWhitespace(s[|s| - 1]))
  }

  predicate IsAsciiUpper(c: char) {
    'A' <= c <= 'Z'
  }

  /** The forward scan of `trim`: the first position at or after `i` that
      does not hold whitespace, or `|s|` if there is none. */
  function SkipWhitespace(s: string, i: nat): (k: nat)
    requires i <= |s|
    ensures i <= k <= |s|
    ensures forall m :: i <= m < k ==> IsWhitespace(s[m])
    ensures k < |s| ==> !IsWhitespace(s[k])
    decreases |s| - i
  {
    if i < |s| && IsWhitespace(s[i]) then SkipWhitespace(s, i + 1) else i
  }

  /** The backward scan of `trim`: the position just after the last
      non-whitespace character in `s[lo..j]`, or `lo` if there is none. */
  function SkipWhitespaceBack(s: string, lo: nat, j: nat): (k: nat)
    requires lo <= j <= |s|
    ensures lo <= k <= j
    ensures forall m :: k <= m < j ==> IsWhitespace(s[m])
    ensures k > lo ==> !IsWhitespace(s[k - 1])
    decreases j
  {
    if lo < j && IsWhitespace(s[j - 1]) then SkipWhitespaceBack(s, lo, j - 1) else j
  }

  /** `trim`: the part of `s` between its leading and its trailing
      whitespace; no whitespace is left at either end. */
  function Trim(s: string): (r: string)
    ensures IsTrimmed(r) && |r| <= |s|
  {
    var a := SkipWhitespace(s, 0);
    s[a..SkipWhitespaceBack(s, a, |s|)]
  }

  /** `char::to_ascii_lowercase`, which is also what `to_lowercase` does to
      every ASCII character: each of A-Z becomes the letter at the same place
      in a-z. */
  function AsciiLower(c: char): (d: char)
    ensures IsAsciiUpper(c) ==> 'a' <= d <= 'z' && d as int - 'a' as int == c as int - 'A' as int
    ensures !IsAsciiUpper(d)
    ensures !IsAsciiUpper(c) ==> d == c
    ensures IsWhitespace(d) <==> IsWhitespace(c)
  {
    if IsAsciiUpper(c) then (c as int + 32) as char else c
  }

  /** `to_lowercase`, with ASCII case folding only: every character is
      folded on its own, so no upper-case ASCII letter is left. */
  function ToLower(s: string): (r: string)
    ensures |r| == |s|
    ensures forall i :: 0 <= i < |s| ==> r[i] == AsciiLower(s[i])
    ensures forall i :: 0 <= i < |r| ==> !IsAsciiUpper(r[i])
  {
    seq(|s|, i requires 0 <= i < |s| => AsciiLower(s[i]))
  }

  /** `eq_ignore_ascii_case`: equal lengths and equal after folding ASCII case
      character by character. Equal strings compare equal, and strings that
      compare equal have whitespace at the same positions. */
  function EqIgnoreAsciiCase(a: string, b: string): (eq: bool)
    ensures a == b ==> eq
    ensures eq ==> |a| == |b| && forall i :: 0 <= i < |a| ==> (IsWhitespace(a[i]) <==> IsWhitespace(b[i]))
  {
    |a| == |b| && forall i :: 0 <= i < |a| ==> AsciiLower(a[i]) == AsciiLower(b[i])
  }

  /** `trim` only removes whitespace: the input is the result with a run of
      whitespace before it and another after it. */
  lemma TrimSplits(s: string) returns (u: string, v: string)
    ensures s == u + Trim(s) + v
    ensures AllWhitespace(u) && AllWhitespace(v)
  {
    var a := SkipWhitespace(s, 0);
    var b := SkipWhitespaceBack(s, a, |s|);
    u, v := s[..a], s[b..];
    assert s == s[..a] + s[a..b] + s[b..];
  }

  /** `trim` is determined by what it must do: a trimmed string between two
      runs of whitespace is what `trim` gives back. */
  lemma TrimUnique(u: string, r: string, v: string)
    requires AllWhitespace(u) && AllWhitespace(v) && IsTrimmed(r)
    ensures Trim(u + r + v) == r
  {
    var s := u + r + v;
    var a := SkipWhitespace(s, 0);
    var b := SkipWhitespaceBack(s, a, |s|);
    if r == [] {
      assert a == |s|;
    } else {
      assert s[|u|] == r[0];
      assert forall k :: 0 <= k < |u| ==> s[k] == u[k];
      assert a == |u|;
      assert s[|u| + |r| - 1] == r[|r| - 1];
      assert forall k :: |u| + |r| <= k < |s| ==> s[k] == v[k - |u| - |r|];
      assert b == |u| + |r|;
      assert s[a..b] == r;
    }
  }

  /** A string that is already trimmed is left alone by `trim`. */
  lemma TrimTrimmed(s: string)
    requires IsTrimmed(s)
    ensures Trim(s) == s
  {
    TrimUnique([], s, []);
    assert [] + s + [] == s;
  }

  /** Whitespace added on either side does not change what `trim` returns. */
  lemma TrimPadded(p: string, s: string, q: string)
    requires AllWhitespace(p) && AllWhitespace(q)
    ensures Trim(p + s + q) == Trim(s)
  {
    var u, v := TrimSplits(s);
    assert p + s + q == (p + u) + Trim(s) + (v + q);
    TrimUnique(p + u, Trim(s), v + q);
  }

  /** Two characters equal up to ASCII case are both whitespace or neither. */
  lemma SameCaseFoldSameWhitespace(c: char, d: char)
    requires AsciiLower(c) == AsciiLower(d)
    ensures IsWhitespace(c) <==> IsWhitespace(d)
  {
  }

  /** Trimming commutes with "equal up to ASCII case": it cuts both strings
      at the same places. */
  lemma TrimCaseFold(a: string, b: string)
    requires EqIgnoreAsciiCase(a, b)
    ensures EqIgnoreAsciiCase(Trim(a), Trim(b))
  {
    forall k | 0 <= k < |a|
      ensures IsWhitespace(a[k]) <==> IsWhitespace(b[k])
    {
      SameCaseFoldSameWhitespace(a[k], b[k]);
    }
  }

  /** Strings equal up to ASCII case fold to the same string, and only those. */
  lemma ToLowerCaseFold(a: string, b: string)
    ensures ToLower(a) == ToLower(b) <==> EqIgnoreAsciiCase(a, b)
  {
    if ToLower(a) == ToLower(b) {
      assert forall i :: 0 <= i < |a| ==> ToLower(a)[i] == AsciiLower(a[i]);
    }
  }
}
