/**
 The part of ECMAScript string semantics that the home view's guard relies on:
 the characters `String.prototype.trim` strips (ECMA-262, 2022 edition,
 section 12.2 "White Space" and section 12.3 "Line Terminators"), the trim
 itself (section 22.1.3.30, via TrimString in section 22.1.3.30.1), and the
 truthiness of a string in an `if` condition (ToBoolean, section 7.1.2).

 A JavaScript string is modelled as a sequence of Unicode scalar values.
 */
module JsString {

  /** The Zs ("space separator") general category of Unicode. */
  predicate IsSpaceSeparator(c: char) {
    || c == ' '
    || c == '\U{00A0}'
    || c == '\U{1680}'
    || ('\U{2000}' <= c <= '\U{200A}')
    || c == '\U{202F}'
    || c == '\U{205F}'
    || c == '\U{3000}'
  }

  /** WhiteSpace: TAB, VT, FF, ZWNBSP and every space separator. */
  predicate IsWhiteSpace(c: char) {
    || c == '\t'
    || c == '\U{000B}'
    || c == '\U{000C}'
    || c == '\U{FEFF}'
    || IsSpaceSeparator(c)
  }

  /** LineTerminator: LF, CR, LINE SEPARATOR and PARAGRAPH SEPARATOR. */
  predicate IsLineTerminator(c: char) {
    c == '\n' || c == '\r' || c == '\U{2028}' || c == '\U{2029}'
  }

  /**
   The characters `trim` removes from either end of a string. Space, tab,
   line feed and carriage return are among them; no ASCII letter or digit
   is; and all of them lie in the Basic Multilingual Plane, so a UTF-16
   string and a string of code points agree on what `trim` strips.
   */
  function IsTrimmable(c: char): (b: bool)
    ensures c == ' ' || c == '\t' || c == '\n' || c == '\r' ==> b
    ensures ('0' <= c <= '9' || 'a' <= c <= 'z' || 'A' <= c <= 'Z') ==> !b
    ensures b ==> c < '\U{10000}'
  {
    IsWhiteSpace(c) || IsLineTerminator(c)
  }

  /** Every character of `s` in positions `lo` (inclusive) to `hi` (exclusive) is trimmable. */
  predicate BlankBetween(s: string, lo: int, hi: int) {
    forall i :: lo <= i < hi && 0 <= i < |s| ==> IsTrimmable(s[i])
  }

  /** A string is blank when it consists of trimmable characters only. */
  predicate IsBlank(s: string) {
    BlankBetween(s, 0, |s|)
  }

  /** Scanning forward from `i`: the first position holding a non-trimmable character, or `|s|`. */
  function SkipForward(s: string, i: nat): (k: nat)
    requires i <= |s|
    ensures i <= k <= |s|
    ensures BlankBetween(s, i, k)
    ensures k == |s| || !IsTrimmable(s[k])
    decreases |s| - i
  {
    if i < |s| && IsTrimmable(s[i]) then SkipForward(s, i + 1) else i
  }

  /** Scanning backward from `j` down to `lo`: the end of the last non-trimmable character, or `lo`. */
  function SkipBackward(s: string, lo: nat, j: nat): (k: nat)
    requires lo <= j <= |s|
    ensures lo <= k <= j
    ensures BlankBetween(s, k, j)
    ensures k == lo || !IsTrimmable(s[k - 1])
    decreases j
  {
    if lo < j && IsTrimmable(s[j - 1]) then SkipBackward(s, lo, j - 1) else j
  }

  /**
   `s.trim()`: the slice of `s` left after stripping trimmable characters
   from both ends. The result is the slice `s[i..j]` with only trimmable
   characters outside it and none at its own ends.
   */
  function Trim(s: string): (r: string)
    ensures exists i, j :: 0 <= i <= j <= |s| && r == s[i..j]
                        && BlankBetween(s, 0, i) && BlankBetween(s, j, |s|)
    ensures r == [] || (!IsTrimmable(r[0]) && !IsTrimmable(r[|r| - 1]))
  {
    var i := SkipForward(s, 0);
    var j := SkipBackward(s, i, |s|);
    s[i..j]
  }

  /** ToBoolean of a string: only the empty string is falsy. */
  predicate IsTruthy(s: string) {
    |s| != 0
  }

  /** The test `if (s.trim())`: it passes exactly when some character is not trimmable. */
  function HasContent(s: string): (b: bool)
    ensures b <==> exists k :: 0 <= k < |s| && !IsTrimmable(s[k])
  {
    IsTruthy(Trim(s))
  }

  /** Trimming yields the empty string exactly when the input is blank. */
  lemma TrimEmptyIffBlank(s: string)
    ensures Trim(s) == [] <==> IsBlank(s)
  {
  }

  /** The guard of the home view, restated without `trim`. */
  lemma HasContentIffNotBlank(s: string)
    ensures HasContent(s) <==> !IsBlank(s)
  {
  }

  /** Trimming an already trimmed string changes nothing. */
  lemma TrimIdempotent(s: string)
    ensures Trim(Trim(s)) == Trim(s)
  {
  }
}
