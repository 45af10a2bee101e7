/**
 * The pieces of JavaScript string behaviour the rest of the model relies on:
 * `String.prototype.trim`, the truthiness of a string (only "" is falsy),
 * `indexOf`-style search, and the line terminators a regular-expression `.`
 * refuses to match.
 *
 * The whitespace set is the one ECMAScript's `trim` removes: the WhiteSpace
 * code points (TAB, VT, FF, SPACE, NO-BREAK SPACE, ZERO WIDTH NO-BREAK SPACE
 * and the other `Zs` characters U+1680, U+2000..U+200A, U+202F, U+205F,
 * U+3000) and the LineTerminator code points (LF, CR, U+2028, U+2029).
 */
module JsText {
  import opened Wrappers

  /** The characters a regular-expression `.` does not match. */
  predicate IsLineTerminator(c: char) {
    c == '\n' || c == '\r' || c == '\U{2028}' || c == '\U{2029}'
  }

  predicate IsJsWhiteSpace(c: char) {
    || c == '\t' || c == '\U{000B}' || c == '\U{000C}' || c == ' '
    || c == '\U{00A0}' || c == '\U{FEFF}' || c == '\U{1680}'
    || ('\U{2000}' <= c <= '\U{200A}')
    || c == '\U{202F}' || c == '\U{205F}' || c == '\U{3000}'
    || IsLineTerminator(c)
  }

  predicate AllSpace(s: string) {
    forall k :: 0 <= k < |s| ==> IsJsWhiteSpace(s[k])
  }

  predicate NoLineTerminator(s: string) {
    forall k :: 0 <= k < |s| ==> !IsLineTerminator(s[k])
  }

  lemma NoLineTerminatorConcat(a: string, b: string)
    ensures NoLineTerminator(a + b) <==> NoLineTerminator(a) && NoLineTerminator(b)
  {
    if NoLineTerminator(a) && NoLineTerminator(b) {
      forall k | 0 <= k < |a + b| ensures !IsLineTerminator((a + b)[k]) {
        if k < |a| {
          assert (a + b)[k] == a[k];
        } else {
          assert (a + b)[k] == b[k - |a|];
        }
      }
    }
    if NoLineTerminator(a + b) {
      forall k | 0 <= k < |a| ensures !IsLineTerminator(a[k]) {
        assert (a + b)[k] == a[k];
      }
      forall k | 0 <= k < |b| ensures !IsLineTerminator(b[k]) {
        assert (a + b)[|a| + k] == b[k];
      }
    }
  }

  /** Neither end of `s` is whitespace. */
  predicate IsTrimmed(s: string) {
    s == [] || (!IsJsWhiteSpace(s[0]) && !IsJsWhiteSpace(s[|s| - 1]))
  }

  /** Every position of `s` from `lo` up to `hi` holds whitespace. */
  predicate SpaceBetween(s: string, lo: int, hi: int)
    requires 0 <= lo <= hi <= |s|
  {
    forall m :: lo <= m < hi ==> IsJsWhiteSpace(s[m])
  }

  lemma SpaceBetweenSlice(s: string, lo: int, hi: int)
    requires 0 <= lo <= hi <= |s|
    ensures SpaceBetween(s, lo, hi) <==> AllSpace(s[lo..hi])
  {
    if AllSpace(s[lo..hi]) {
      forall m | lo <= m < hi ensures IsJsWhiteSpace(s[m]) {
        assert s[m] == s[lo..hi][m - lo];
      }
    }
  }

  /** Where the leading whitespace from position `i` on ends. */
  function SkipWhiteSpace(s: string, i: nat): (k: nat)
    requires i <= |s|
    ensures i <= k <= |s| && SpaceBetween(s, i, k)
    ensures k < |s| ==> !IsJsWhiteSpace(s[k])
    decreases |s| - i
  {
    if i < |s| && IsJsWhiteSpace(s[i]) then SkipWhiteSpace(s, i + 1) else i
  }

  /** Where the trailing whitespace before position `j` begins, going no lower than `lo`. */
  function BackWhiteSpace(s: string, lo: nat, j: nat): (k: nat)
    requires lo <= j <= |s|
    ensures lo <= k <= j && SpaceBetween(s, k, j)
    ensures lo < k ==> !IsJsWhiteSpace(s[k - 1])
    decreases j
  {
    if lo < j && IsJsWhiteSpace(s[j - 1]) then BackWhiteSpace(s, lo, j - 1) else j
  }

  /** The first position `trim` keeps. */
  function TrimFrom(s: string): (i: nat)
    ensures i <= |s|
  {
    SkipWhiteSpace(s, 0)
  }

  /** The position after the last one `trim` keeps. */
  function TrimTo(s: string): (j: nat)
    ensures TrimFrom(s) <= j <= |s|
  {
    BackWhiteSpace(s, TrimFrom(s), |s|)
  }

  /**
   * `s.trim()`: the infix of `s` left after removing whitespace from both
   * ends; it is empty exactly when `s` is all whitespace.
   */
  function Trim(s: string): (r: string)
    ensures IsTrimmed(r)
    ensures r == [] <==> AllSpace(s)
    ensures exists i :: 0 <= i <= |s| - |r| && r == s[i..i + |r|] && AllSpace(s[..i]) && AllSpace(s[i + |r|..])
  {
    TrimSpan(s);
    s[TrimFrom(s)..TrimTo(s)]
  }

  /** The kept span is trimmed, has only whitespace around it, and is empty exactly for blank input. */
  lemma TrimSpan(s: string)
    ensures var i := TrimFrom(s); var j := TrimTo(s);
      && IsTrimmed(s[i..j])
      && (i == j <==> AllSpace(s))
      && AllSpace(s[..i]) && AllSpace(s[j..])
  {
    var i := TrimFrom(s);
    var j := TrimTo(s);
    SpaceBetweenSlice(s, 0, i);
    SpaceBetweenSlice(s, j, |s|);
    assert s[..i] == s[0..i] && s[j..] == s[j..|s|];
    SpaceBetweenSlice(s, 0, |s|);
    assert s == s[0..|s|];
  }

  /** `!s.trim()`: the string is empty or whitespace only. */
  predicate Blank(s: string) {
    Trim(s) == []
  }

  /** Trimming a string with no whitespace at either end changes nothing. */
  lemma TrimOfTrimmed(s: string)
    requires IsTrimmed(s)
    ensures Trim(s) == s
  {
    assert TrimFrom(s) == 0;
    assert TrimTo(s) == |s|;
  }

  /** `s.trim().trim() == s.trim()`. */
  lemma TrimIdempotent(s: string)
    ensures Trim(Trim(s)) == Trim(s)
  {
    TrimOfTrimmed(Trim(s));
  }

  /** What trimming keeps is a contiguous part of the original. */
  lemma TrimOccurs(s: string)
    ensures Occurs(s, Trim(s))
  {
    assert OccursAt(s, Trim(s), TrimFrom(s));
  }

  /** Whitespace padding around a trimmed, non-empty string is exactly what `trim` removes. */
  lemma TrimOfPadded(pre: string, s: string, post: string)
    requires AllSpace(pre) && AllSpace(post)
    requires s != [] && IsTrimmed(s)
    ensures Trim(pre + s + post) == s
  {
    var x := pre + s + post;
    var lo := |pre|;
    var hi := |pre| + |s|;
    assert x[lo] == s[0] && x[hi - 1] == s[|s| - 1];
    forall m | 0 <= m < lo ensures IsJsWhiteSpace(x[m]) {
      assert x[m] == pre[m];
    }
    forall m | hi <= m < |x| ensures IsJsWhiteSpace(x[m]) {
      assert x[m] == post[m - hi];
    }
    assert TrimFrom(x) == lo;
    assert TrimTo(x) == hi;
    assert x[lo..hi] == s;
  }

  // ---------------------------------------------------------------------------
  // Searching for a substring.

  predicate StartsWith(s: string, prefix: string) {
    |prefix| <= |s| && s[..|prefix|] == prefix
  }

  /** A text starts with what was put in front of it, and the rest is what followed. */
  lemma StartsWithConcat(prefix: string, s: string)
    ensures StartsWith(prefix + s, prefix) && (prefix + s)[|prefix|..] == s
  {
    assert (prefix + s)[..|prefix|] == prefix;
  }

  predicate OccursAt(s: string, pat: string, i: int) {
    0 <= i && i + |pat| <= |s| && s[i..i + |pat|] == pat
  }

  predicate Occurs(s: string, pat: string) {
    exists i :: 0 <= i <= |s| - |pat| && OccursAt(s, pat, i)
  }

  /**
   * `s.indexOf(pat, from)`: the first position at or after `from` where `pat`
   * occurs, or None (JS's -1).
   */
  function IndexOf(s: string, pat: string, from: nat): (r: Option<nat>)
    requires pat != []
    ensures r.Some? ==> from <= r.value && OccursAt(s, pat, r.value)
    ensures forall i :: from <= i && OccursAt(s, pat, i) ==> r.Some? && r.value <= i
    decreases |s| - from
  {
    if from + |pat| > |s| then None
    else if OccursAt(s, pat, from) then Some(from)
    else IndexOf(s, pat, from + 1)
  }

  /** A pattern whose first character is absent does not occur. */
  lemma AbsentFirstChar(s: string, pat: string)
    requires pat != [] && pat[0] !in s
    ensures !Occurs(s, pat)
  {
    forall i | 0 <= i <= |s| - |pat| ensures !OccursAt(s, pat, i) {
      assert s[i..i + |pat|][0] == s[i];
    }
  }

  /** What occurs after the first character occurs in the whole string. */
  lemma OccursInTail(s: string, pat: string)
    requires s != []
    ensures Occurs(s[1..], pat) ==> Occurs(s, pat)
  {
    if Occurs(s[1..], pat) {
      var i :| 0 <= i <= |s[1..]| - |pat| && OccursAt(s[1..], pat, i);
      assert s[1..][i..i + |pat|] == s[i + 1..i + 1 + |pat|];
      assert OccursAt(s, pat, i + 1);
    }
  }

  /** An occurrence inside the slice `s[i..j]` is an occurrence in `s`, shifted by `i`, and back. */
  lemma OccursInSlice(s: string, i: nat, j: nat, pat: string, k: int)
    requires i <= j <= |s|
    requires 0 <= k && k + |pat| <= j - i
    ensures OccursAt(s[i..j], pat, k) <==> OccursAt(s, pat, i + k)
  {
    var a, b := s[i..j][k..k + |pat|], s[i + k..i + k + |pat|];
    forall m | 0 <= m < |a| ensures a[m] == b[m] {
      assert a[m] == s[i + k + m];
    }
    assert a == b;
  }

  /** Text put in front shifts every occurrence by its length. */
  lemma OccursAfterPrefix(pre: string, rest: string, pat: string, k: int)
    requires 0 <= k
    ensures OccursAt(pre + rest, pat, |pre| + k) <==> OccursAt(rest, pat, k)
  {
    if k + |pat| <= |rest| {
      assert (pre + rest)[|pre| + k..|pre| + k + |pat|] == rest[k..k + |pat|];
    }
  }

  // ---------------------------------------------------------------------------
  // Splitting on a one-character separator.

  /** `parts.join(sep)`. */
  function Join(parts: seq<string>, sep: char): string
    requires |parts| >= 1
  {
    if |parts| == 1 then parts[0] else parts[0] + [sep] + Join(parts[1..], sep)
  }

  /**
   * `s.split(sep)`: the pieces between separators, in order. There is always
   * at least one piece; there is exactly one when `sep` does not occur; no
   * piece holds the separator; joining the pieces gives back `s`.
   */
  function Split(s: string, sep: char): (r: seq<string>)
    ensures |r| >= 1
    ensures |r| == 1 <==> sep !in s
    ensures forall k :: 0 <= k < |r| ==> sep !in r[k]
    ensures Join(r, sep) == s
    decreases |s|
  {
    if s == [] then [[]]
    else
      var rest := Split(s[1..], sep);
      if s[0] == sep then
        assert ([[]] + rest)[1..] == rest;
        assert [] + [sep] + Join(rest, sep) == s;
        [[]] + rest
      else
        var r := [[s[0]] + rest[0]] + rest[1..];
        assert r[1..] == rest[1..];
        assert s == [s[0]] + s[1..];
        r
  }

  /** A separator right after a separator-free prefix ends the first piece. */
  lemma {:induction false} SplitAfterFree(x: string, sep: char, rest: string)
    requires sep !in x
    ensures Split(x + [sep] + rest, sep) == [x] + Split(rest, sep)
    decreases |x|
  {
    var s := x + [sep] + rest;
    if x == [] {
      assert s[0] == sep && s[1..] == rest;
    } else {
      assert s[0] == x[0];
      assert s[1..] == x[1..] + [sep] + rest;
      SplitAfterFree(x[1..], sep, rest);
      assert [x[0]] + x[1..] == x;
    }
  }

  /** A text without the separator is one piece. */
  lemma SplitFree(x: string, sep: char)
    requires sep !in x
    ensures Split(x, sep) == [x]
  {
    var r := Split(x, sep);
    assert |r| == 1 && Join(r, sep) == r[0];
  }

  /** Splitting undoes joining pieces that hold no separator. */
  lemma {:induction false} SplitJoin(parts: seq<string>, sep: char)
    requires |parts| >= 1
    requires forall k :: 0 <= k < |parts| ==> sep !in parts[k]
    ensures Split(Join(parts, sep), sep) == parts
    decreases |parts|
  {
    if |parts| > 1 {
      SplitJoin(parts[1..], sep);
      SplitAfterFree(parts[0], sep, Join(parts[1..], sep));
      assert [parts[0]] + parts[1..] == parts;
    }
  }
}
