/** String helpers shared by both scripts: Python's `str.strip()`, an ASCII
    `str.lower()`, `str.startswith`, the substring test `k in s`, and the
    whole-word search performed by the regular expression `\bw\b`. */
module Strings {

  import opened Wrappers

  /* ---------------------------------------------------------------- */
  /* Whitespace and str.strip()                                       */
  /* ---------------------------------------------------------------- */

  /** The code points Python's `str.strip()` (no argument) removes:
      those for which `str.isspace()` holds. */
  predicate IsSpace(c: char) {
    || ('\t' <= c <= '\r')
    || ('\U{1C}' <= c <= '\U{1F}')
    || c == ' '
    || c == '\U{85}'
    || c == '\U{A0}'
    || c == '\U{1680}'
    || ('\U{2000}' <= c <= '\U{200A}')
    || c == '\U{2028}'
    || c == '\U{2029}'
    || c == '\U{202F}'
    || c == '\U{205F}'
    || c == '\U{3000}'
  }

  /** No whitespace at either end. */
  predicate IsStripped(s: string) {
    |s| == 0 || (!IsSpace(s[0]) && !IsSpace(s[|s| - 1]))
  }

  /** `t` sits at index `i` of `s`, and everything of `s` around it is
      whitespace. */
  predicate PaddedAt(s: string, t: string, i: int) {
    && 0 <= i && i + |t| <= |s|
    && t == s[i..i + |t|]
    && (forall k :: 0 <= k < i ==> IsSpace(s[k]))
    && (forall k :: i + |t| <= k < |s| ==> IsSpace(s[k]))
  }

  /** The first index at or after `i` that holds no whitespace, or `|s|`. */
  function SkipSpaces(s: string, i: nat): (a: nat)
    requires i <= |s|
    ensures i <= a <= |s|
    ensures forall k | i <= k < a :: IsSpace(s[k])
    ensures a < |s| ==> !IsSpace(s[a])
    decreases |s| - i
  {
    if i < |s| && IsSpace(s[i]) then SkipSpaces(s, i + 1) else i
  }

  /** The index just past the last non-whitespace character of `s[lo..j]`,
      or `lo` when there is none. */
  function SkipSpacesBack(s: string, lo: nat, j: nat): (b: nat)
    requires lo <= j <= |s|
    ensures lo <= b <= j
    ensures forall k | b <= k < j :: IsSpace(s[k])
    ensures b > lo ==> !IsSpace(s[b - 1])
    decreases j
  {
    if j > lo && IsSpace(s[j - 1]) then SkipSpacesBack(s, lo, j - 1) else j
  }

  /** Python's `str.strip()`: the result has no whitespace at its ends and
      is what remains of `s` once whitespace is cut from both ends. */
  function Strip(s: string): (r: string)
    ensures IsStripped(r)
    ensures exists i :: PaddedAt(s, r, i)
  {
    var a := SkipSpaces(s, 0);
    var b := SkipSpacesBack(s, a, |s|);
    var r := s[a..b];
    assert |r| > 0 ==> r[0] == s[a] && r[|r| - 1] == s[b - 1];
    assert PaddedAt(s, r, a);
    r
  }

  /** There is only one way to cut whitespace off both ends of a string:
      any stripped `t` padded by whitespace inside `s` is `Strip(s)`. */
  lemma StripUnique(s: string, t: string, i: int)
    requires IsStripped(t) && PaddedAt(s, t, i)
    ensures Strip(s) == t
  {
    var r := Strip(s);
    var j :| PaddedAt(s, r, j);
    PaddedStrippedUnique(s, r, j, t, i);
  }

  lemma PaddedStrippedUnique(s: string, a: string, i: int, b: string, j: int)
    requires IsStripped(a) && PaddedAt(s, a, i)
    requires IsStripped(b) && PaddedAt(s, b, j)
    ensures a == b
  {
    EmptyIffAllSpace(s, a, i);
    EmptyIffAllSpace(s, b, j);
    if |a| > 0 && |b| > 0 {
      assert !IsSpace(s[i]) && !IsSpace(s[j]);
      assert i == j;
      assert !IsSpace(s[i + |a| - 1]) && !IsSpace(s[j + |b| - 1]);
      assert |a| == |b|;
    }
  }

  /** A stripped string padded inside `s` is empty exactly when `s` is all
      whitespace. */
  lemma EmptyIffAllSpace(s: string, a: string, i: int)
    requires IsStripped(a) && PaddedAt(s, a, i)
    ensures |a| == 0 <==> forall k :: 0 <= k < |s| ==> IsSpace(s[k])
  {
    if |a| > 0 {
      assert s[i] == a[0];
    }
  }

  /** A string without whitespace at its ends is left alone by `Strip`. */
  lemma StripStripped(s: string)
    requires IsStripped(s)
    ensures Strip(s) == s
  {
    assert PaddedAt(s, s, 0);
    StripUnique(s, s, 0);
  }

  /** `str.strip()` is idempotent. */
  lemma StripIdempotent(s: string)
    ensures Strip(Strip(s)) == Strip(s)
  {
    StripStripped(Strip(s));
  }

  /* ---------------------------------------------------------------- */
  /* Lower case (ASCII)                                               */
  /* ---------------------------------------------------------------- */

  function LowerChar(c: char): char {
    if 'A' <= c <= 'Z' then (c as int - 'A' as int + 'a' as int) as char else c
  }

  /** Python's `str.lower()`, restricted to the ASCII letters. */
  function Lower(s: string): (r: string)
    ensures |r| == |s|
    ensures forall i :: 0 <= i < |s| ==> r[i] == LowerChar(s[i])
  {
    seq(|s|, i requires 0 <= i < |s| => LowerChar(s[i]))
  }

  predicate IsLower(s: string) {
    forall i :: 0 <= i < |s| ==> LowerChar(s[i]) == s[i]
  }

  /** A string of lower-case letters and blanks is left alone by `Lower`. */
  lemma LowerCaseLetters(s: string)
    requires forall i | 0 <= i < |s| :: 'a' <= s[i] <= 'z' || s[i] == ' '
    ensures IsLower(s)
  {
  }

  /** A string of lower-case letters has no blank. */
  lemma NoBlankInLetters(s: string)
    requires forall i | 0 <= i < |s| :: 'a' <= s[i] <= 'z'
    ensures ' ' !in s
  {
  }

  lemma LowerIsLower(s: string)
    ensures IsLower(Lower(s))
  {
  }

  lemma LowerOfLower(s: string)
    requires IsLower(s)
    ensures Lower(s) == s
  {
  }

  lemma LowerIdempotent(s: string)
    ensures Lower(Lower(s)) == Lower(s)
  {
    LowerIsLower(s);
    LowerOfLower(Lower(s));
  }

  lemma LowerAppend(a: string, b: string)
    ensures Lower(a + b) == Lower(a) + Lower(b)
  {
  }

  /** `k` matches `s` at index `i` with letter case ignored, as under
      `re.IGNORECASE` (restricted to ASCII). */
  predicate OccursIgnoringCaseAt(s: string, k: string, i: int) {
    0 <= i && i + |k| <= |s| && forall j | 0 <= j < |k| :: LowerChar(s[i + j]) == LowerChar(k[j])
  }

  /** For a lower-case pattern, matching with case ignored is matching the
      lower-cased text. */
  lemma IgnoringCaseIsLowerMatch(s: string, k: string, i: int)
    requires IsLower(k)
    ensures OccursIgnoringCaseAt(s, k, i) <==> OccursAt(Lower(s), k, i)
  {
    if OccursIgnoringCaseAt(s, k, i) {
      assert forall j | 0 <= j < |k| :: Lower(s)[i..i + |k|][j] == k[j];
      assert Lower(s)[i..i + |k|] == k;
    }
    if OccursAt(Lower(s), k, i) {
      forall j | 0 <= j < |k|
        ensures LowerChar(s[i + j]) == LowerChar(k[j])
      {
        assert Lower(s)[i..i + |k|][j] == Lower(s)[i + j];
      }
    }
  }

  /* ---------------------------------------------------------------- */
  /* Prefix and substring                                             */
  /* ---------------------------------------------------------------- */

  /** Python's `s.startswith(p)`. */
  predicate StartsWith(s: string, p: string) {
    |p| <= |s| && s[..|p|] == p
  }

  /** `k` occurs in `s` starting at index `i`. */
  predicate OccursAt(s: string, k: string, i: int) {
    0 <= i && i + |k| <= |s| && s[i..i + |k|] == k
  }

  /** Python's substring test `k in s`. */
  predicate Contains(s: string, k: string) {
    exists i | 0 <= i <= |s| - |k| :: OccursAt(s, k, i)
  }

  /** Text around an occurrence does not remove it. */
  lemma ContainsExtend(a: string, s: string, b: string, k: string)
    requires Contains(s, k)
    ensures Contains(a + s + b, k)
  {
    var i :| 0 <= i <= |s| - |k| && OccursAt(s, k, i);
    var t := a + s + b;
    assert t[|a| + i..|a| + i + |k|] == s[i..i + |k|];
    assert OccursAt(t, k, |a| + i);
  }

  /* ---------------------------------------------------------------- */
  /* Whole-word search: the regular expression \bw\b                   */
  /* ---------------------------------------------------------------- */

  /** A regular-expression word character `\w`, restricted to ASCII. */
  predicate IsWordChar(c: char) {
    ('a' <= c <= 'z') || ('A' <= c <= 'Z') || ('0' <= c <= '9') || c == '_'
  }

  /** A pattern that starts and ends with a word character, so that `\b`
      before it means "at the start or after a non-word character" and `\b`
      after it means "at the end or before a non-word character". */
  predicate WordShaped(w: string) {
    |w| > 0 && IsWordChar(w[0]) && IsWordChar(w[|w| - 1])
  }

  /** `w` occurs at index `i` of `s` and is bounded there by a non-word
      character or an end of `s` on each side. For a `WordShaped` pattern
      this is exactly where `\bw\b` matches; for other patterns (one that
      starts with a blank, say) the regular expression's `\b` means
      something else, and no such pattern is searched for here. */
  predicate WordAt(s: string, w: string, i: int) {
    && OccursAt(s, w, i)
    && (i == 0 || !IsWordChar(s[i - 1]))
    && (i + |w| == |s| || !IsWordChar(s[i + |w|]))
  }

  /** `w` occurs somewhere in `s` as a whole word (see `WordAt`). */
  predicate ContainsWord(s: string, w: string) {
    exists i | 0 <= i <= |s| - |w| :: WordAt(s, w, i)
  }

  /** The leftmost index at or after `from` where `w` occurs as a whole
      word, or `None` when there is none. For a `WordShaped` pattern this is
      the match `re.search(r"\bw\b", s)` finds. */
  function Search(s: string, w: string, from: nat): (r: Option<nat>)
    ensures r.Some? ==> from <= r.value && WordAt(s, w, r.value)
    ensures r.Some? ==> forall j :: from <= j < r.value ==> !WordAt(s, w, j)
    ensures r.None? <==> forall j :: from <= j ==> !WordAt(s, w, j)
    decreases |s| - from
  {
    if from + |w| > |s| then None
    else if WordAt(s, w, from) then Some(from)
    else Search(s, w, from + 1)
  }

  /** Searching from the start finds a match exactly when there is one. */
  lemma SearchFindsWord(s: string, w: string)
    ensures Search(s, w, 0).Some? <==> ContainsWord(s, w)
  {
    if Search(s, w, 0).Some? {
      var i := Search(s, w, 0).value;
      assert WordAt(s, w, i);
    }
  }

  /** A whole-word match is also a substring match. */
  lemma WordIsSubstring(s: string, w: string)
    requires ContainsWord(s, w)
    ensures Contains(s, w)
  {
  }

  /** Lower-casing keeps the word-character class of every character. */
  lemma LowerKeepsWordChars(c: char)
    ensures IsWordChar(LowerChar(c)) == IsWordChar(c)
  {
  }

  /** `w` matches `s` at index `i` with letter case ignored, bounded on
      each side by a non-word character or an end of `s`. */
  predicate WordIgnoringCaseAt(s: string, w: string, i: int) {
    && OccursIgnoringCaseAt(s, w, i)
    && (i == 0 || !IsWordChar(s[i - 1]))
    && (i + |w| == |s| || !IsWordChar(s[i + |w|]))
  }

  /** For a lower-case pattern, a whole-word match with case ignored is a
      whole-word match in the lower-cased text. */
  lemma WordIgnoringCaseIsLowerWord(s: string, w: string, i: int)
    requires IsLower(w)
    ensures WordIgnoringCaseAt(s, w, i) <==> WordAt(Lower(s), w, i)
  {
    IgnoringCaseIsLowerMatch(s, w, i);
    if 0 < i <= |s| {
      LowerKeepsWordChars(s[i - 1]);
    }
    if 0 <= i + |w| < |s| {
      LowerKeepsWordChars(s[i + |w|]);
    }
  }

  /** In a string made only of word characters, `\bw\b` can match only the
      whole string. */
  lemma WordInSolidString(s: string, w: string, i: int)
    requires forall k :: 0 <= k < |s| ==> IsWordChar(s[k])
    requires WordAt(s, w, i)
    ensures i == 0 && w == s
  {
  }

  /** A whole-word match of a pattern that does not contain the non-word
      character `c` lies entirely on one side of `c`. */
  lemma WordInSplit(a: string, c: char, b: string, w: string, i: int)
    requires !IsWordChar(c) && c !in w
    requires |w| > 0
    requires WordAt(a + [c] + b, w, i)
    ensures WordAt(a, w, i) || WordAt(b, w, i - |a| - 1)
  {
    var s := a + [c] + b;
    assert s[|a|] == c;
    assert forall j | i <= j < i + |w| :: s[j] == w[j - i];
    if i + |w| <= |a| {
      assert a[i..i + |w|] == s[i..i + |w|];
      assert i > 0 ==> a[i - 1] == s[i - 1];
      assert i + |w| < |a| ==> a[i + |w|] == s[i + |w|];
      assert WordAt(a, w, i);
    } else {
      var i' := i - |a| - 1;
      assert i' >= 0;
      assert b[i'..i' + |w|] == s[i..i + |w|];
      assert i' > 0 ==> b[i' - 1] == s[i - 1];
      assert i' + |w| < |b| ==> b[i' + |w|] == s[i + |w|];
      assert WordAt(b, w, i');
    }
  }
}
