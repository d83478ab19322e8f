/** Character classes and substring primitives used by the hand-written
    stand-ins for the regular expressions of tests/dom-check.test.js.
    Strings are sequences of Unicode scalar values. JavaScript stores a
    character above U+FFFF as two UTF-16 code units, and a regular expression
    without the `u` flag reads them one unit at a time. That matters only
    where a pattern has a single unescaped `.`; every other construct of the
    suite (literals, `\s`, `[^}]`, `[A-Z]`, `.*`) treats a pair of units as
    it treats the character. */
module Text {

  /** A character JavaScript stores as a surrogate pair of two code units. */
  predicate IsAstral(c: char) {
    c > '\U{FFFF}'
  }

  /** A single unescaped `.` consumes exactly this character: it is one code
      unit and not a line terminator. */
  predicate DotMatches(c: char) {
    !IsAstral(c) && !IsLineTerminator(c)
  }

  /** The characters a JavaScript `.` does not match: the ECMAScript line terminators. */
  predicate IsLineTerminator(c: char) {
    c == '\n' || c == '\r' || c == '\U{2028}' || c == '\U{2029}'
  }

  /** The JavaScript `\s` class: ECMAScript WhiteSpace plus LineTerminator. */
  predicate IsSpace(c: char) {
    c == '\t' || c == '\U{000B}' || c == '\U{000C}' || c == ' ' || c == '\U{00A0}'
    || c == '\U{1680}' || ('\U{2000}' <= c <= '\U{200A}') || c == '\U{202F}'
    || c == '\U{205F}' || c == '\U{3000}' || c == '\U{FEFF}'
    || IsLineTerminator(c)
  }

  /** The class `[A-Z]`. */
  predicate IsAsciiUpper(c: char) {
    'A' <= c <= 'Z'
  }

  /** `t` occurs in `s` starting at index `i`. */
  predicate StartsAt(s: string, i: int, t: string) {
    0 <= i && i + |t| <= |s| && s[i..i + |t|] == t
  }

  /** `s` begins with `t` (a regular expression anchored with `^`, without the `m` flag). */
  predicate StartsWith(s: string, t: string) {
    StartsAt(s, 0, t)
  }

  /** `s` ends with `t` (a regular expression anchored with `$`, without the `m` flag). */
  predicate EndsWith(s: string, t: string) {
    StartsAt(s, |s| - |t|, t)
  }

  /** `t` occurs somewhere in `s` (an unanchored literal regular expression). */
  predicate Contains(s: string, t: string) {
    exists i | 0 <= i <= |s| :: StartsAt(s, i, t)
  }

  /** Every character of `s[i..j]` is whitespace. */
  predicate Spaces(s: string, i: int, j: int) {
    0 <= i <= j <= |s| && forall k | i <= k < j :: IsSpace(s[k])
  }

  /** No character of `s[i..j]` is a closing brace (the class `[^}]`). */
  predicate NoCloseBrace(s: string, i: int, j: int) {
    0 <= i <= j <= |s| && forall k | i <= k < j :: s[k] != '}'
  }

  /** No character of `s[i..j]` is a line terminator (what `.*` may span). */
  predicate NoLineTerminator(s: string, i: int, j: int) {
    0 <= i <= j <= |s| && forall k | i <= k < j :: !IsLineTerminator(s[k])
  }

  /** With the `m` flag, `^` matches at index `i`. */
  predicate LineStart(s: string, i: int) {
    i == 0 || (0 < i <= |s| && IsLineTerminator(s[i - 1]))
  }

  /** With the `m` flag, `$` matches at index `i`. */
  predicate LineEnd(s: string, i: int) {
    i == |s| || (0 <= i < |s| && IsLineTerminator(s[i]))
  }

  /** End of the longest whitespace run starting at `i`: how far a greedy `\s*` reaches. */
  function SpaceRunEnd(s: string, i: nat): (r: nat)
    requires i <= |s|
    ensures i <= r <= |s|
    ensures Spaces(s, i, r)
    ensures r == |s| || !IsSpace(s[r])
    decreases |s| - i
  {
    if i == |s| || !IsSpace(s[i]) then i else SpaceRunEnd(s, i + 1)
  }

  /** A whitespace run that ends at a non-whitespace character is the longest
      run: this is why `\s*X` and `\s+X`, for a non-whitespace `X`, can be
      matched without backtracking. */
  lemma {:induction false} SpaceRunForced(s: string, i: nat, j: nat)
    requires i <= |s|
    requires Spaces(s, i, j) && (j == |s| || !IsSpace(s[j]))
    ensures SpaceRunEnd(s, i) == j
    decreases |s| - i
  {
    if i < j {
      SpaceRunForced(s, i + 1, j);
    }
  }

  /** The regular-expression reading of "at least `m` whitespace characters,
      then `t`" (an existential choice of where the whitespace stops) agrees
      with the greedy scan whenever `t` does not begin with whitespace. */
  lemma SpacesThen(s: string, i: nat, m: nat, t: string)
    requires i <= |s|
    requires t != [] && !IsSpace(t[0])
    ensures (exists j | i + m <= j <= |s| :: Spaces(s, i, j) && StartsAt(s, j, t))
        <==> (SpaceRunEnd(s, i) >= i + m && StartsAt(s, SpaceRunEnd(s, i), t))
  {
    var r := SpaceRunEnd(s, i);
    if StartsAt(s, r, t) && r >= i + m {
      assert Spaces(s, i, r) && StartsAt(s, r, t);
    }
    forall j | i + m <= j <= |s| && Spaces(s, i, j) && StartsAt(s, j, t)
      ensures r == j
    {
      assert s[j] == t[0];
      SpaceRunForced(s, i, j);
    }
  }
}
