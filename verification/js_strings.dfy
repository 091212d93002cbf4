/**
 The two pieces of JavaScript string semantics the appointment handlers rely on:
 the white-space notion shared by the regular-expression class `\s` and by
 `String.prototype.trim` (the WhiteSpace and LineTerminator code points of
 ECMAScript), and `trim` itself.
 */
module JsStrings {

  /** WhiteSpace (TAB, VT, FF, SP, NBSP, ZWNBSP and the Zs category) or
      LineTerminator (LF, CR, LS, PS). */
  predicate IsJsWhitespace(c: char) {
    || c == '\t' || c == '\n' || c == '\U{000B}' || c == '\U{000C}' || c == '\r'
    || c == ' ' || c == '\U{00A0}' || c == '\U{1680}'
    || ('\U{2000}' <= c <= '\U{200A}')
    || c == '\U{2028}' || c == '\U{2029}' || c == '\U{202F}' || c == '\U{205F}'
    || c == '\U{3000}' || c == '\U{FEFF}'
  }

  /** Every character of `t` is white space (true of the empty string). */
  predicate Blank(t: string) {
    forall k :: 0 <= k < |t| ==> IsJsWhitespace(t[k])
  }

  /** Neither end of `t` is white space. */
  predicate Tight(t: string) {
    t == [] || (!IsJsWhitespace(t[0]) && !IsJsWhitespace(t[|t| - 1]))
  }

  /** The first position at or after `from` that does not hold white space,
      or `|s|` when there is none. */
  function SkipForward(s: string, from: nat): (i: nat)
    requires from <= |s|
    ensures from <= i <= |s|
    ensures forall k :: from <= k < i ==> IsJsWhitespace(s[k])
    ensures i == |s| || !IsJsWhitespace(s[i])
    decreases |s| - from
  {
    if from < |s| && IsJsWhitespace(s[from]) then SkipForward(s, from + 1) else from
  }

  /** Scanning down from `high`, stopping at `low`: the end of the last
      character before `high` that is not white space, or `low` when there is none. */
  function SkipBackward(s: string, low: nat, high: nat): (j: nat)
    requires low <= high <= |s|
    ensures low <= j <= high
    ensures forall k :: j <= k < high ==> IsJsWhitespace(s[k])
    ensures j == low || !IsJsWhitespace(s[j - 1])
    decreases high
  {
    if low < high && IsJsWhitespace(s[high - 1]) then SkipBackward(s, low, high - 1) else high
  }

  /** `s.trim()`: white space dropped at both ends. */
  function Trim(s: string): (r: string)
    ensures |r| <= |s| && Tight(r)
  {
    var i := SkipForward(s, 0);
    var j := SkipBackward(s, i, |s|);
    s[i..j]
  }

  /** What `trim` keeps is an infix of the input, and what it drops on
      either side is white space. */
  lemma TrimIsInfix(s: string)
    ensures var r, i := Trim(s), SkipForward(s, 0);
      && i + |r| <= |s|
      && (forall k :: 0 <= k < |r| ==> r[k] == s[i + k])
      && Blank(s[..i]) && Blank(s[i + |r|..])
  {
    var i := SkipForward(s, 0);
    var j := SkipBackward(s, i, |s|);
    assert Trim(s) == s[i..j];
    assert forall k :: 0 <= k < i ==> s[..i][k] == s[k];
    assert forall k :: 0 <= k < |s| - j ==> s[j..][k] == s[j + k];
  }

  /** `trim` is determined by what it promises: whenever `s` is a blank
      prefix, then a string with no white space at either end, then a blank
      suffix, that middle part is what `trim` returns. */
  lemma TrimUnique(p: string, m: string, q: string)
    requires Blank(p) && Tight(m) && Blank(q)
    ensures Trim(p + m + q) == m
  {
    var s := p + m + q;
    assert forall k :: 0 <= k < |p| ==> s[k] == p[k];
    assert forall k :: 0 <= k < |q| ==> s[|p| + |m| + k] == q[k];
    var i := SkipForward(s, 0);
    var j := SkipBackward(s, i, |s|);
    if m == [] {
      assert forall k :: 0 <= k < |s| ==> IsJsWhitespace(s[k]);
      assert i == |s|;
    } else {
      assert s[|p|] == m[0];
      assert i == |p|;
      assert s[|p| + |m| - 1] == m[|m| - 1];
      assert j == |p| + |m|;
      assert s[i..j] == m;
    }
  }

  /** Trimming twice is trimming once. */
  lemma TrimIdempotent(s: string)
    ensures Trim(Trim(s)) == Trim(s)
  {
    var m := Trim(s);
    assert [] + m + [] == m;
    TrimUnique([], m, []);
  }
}
