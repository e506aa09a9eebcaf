/** Rust's `char::is_whitespace`, `str::trim` and `str::trim_start_matches`
    for a single character, as used to uncomment a line. Each trim finds
    the index where the kept text starts or ends and slices there. */
module StrTrim {

  /** `char::is_whitespace`: the characters with the Unicode White_Space
      property. */
  predicate IsWhitespace(c: char) {
    ('\t' <= c <= '\r') || c == ' ' || c == '\U{85}' || c == '\U{A0}' || c == '\U{1680}'
    || ('\U{2000}' <= c <= '\U{200A}') || c == '\U{2028}' || c == '\U{2029}'
    || c == '\U{202F}' || c == '\U{205F}' || c == '\U{3000}'
  }

  /** The first index from `i` on that does not hold whitespace, or `|s|`. */
  function SkipWhitespace(s: string, i: nat): (k: nat)
    requires i <= |s|
    ensures i <= k <= |s|
    ensures k < |s| ==> !IsWhitespace(s[k])
    decreases |s| - i
  {
    if i < |s| && IsWhitespace(s[i]) then SkipWhitespace(s, i + 1) else i
  }

  /** Every index `SkipWhitespace` passes over holds whitespace. */
  lemma {:induction false} SkipWhitespaceSkips(s: string, i: nat)
    requires i <= |s|
    ensures forall k :: i <= k < SkipWhitespace(s, i) ==> IsWhitespace(s[k])
    decreases |s| - i
  {
    if i < |s| && IsWhitespace(s[i]) {
      SkipWhitespaceSkips(s, i + 1);
    }
  }

  /** The last index down from `j` after which only whitespace follows, up
      to `j`: `s[k - 1]` is not whitespace unless `k == 0`. */
  function BackWhitespace(s: string, j: nat): (k: nat)
    requires j <= |s|
    ensures k <= j
    ensures k > 0 ==> !IsWhitespace(s[k - 1])
    decreases j
  {
    if j > 0 && IsWhitespace(s[j - 1]) then BackWhitespace(s, j - 1) else j
  }

  /** Every index `BackWhitespace` passes over holds whitespace. */
  lemma {:induction false} BackWhitespaceSkips(s: string, j: nat)
    requires j <= |s|
    ensures forall k :: BackWhitespace(s, j) <= k < j ==> IsWhitespace(s[k])
    decreases j
  {
    if j > 0 && IsWhitespace(s[j - 1]) {
      BackWhitespaceSkips(s, j - 1);
    }
  }

  /** `s.trim_start()` */
  function TrimStart(s: string): (r: string)
    ensures r == [] || !IsWhitespace(r[0])
  {
    s[SkipWhitespace(s, 0)..]
  }

  /** `s.trim_end()` */
  function TrimEnd(s: string): (r: string)
    ensures r == [] || !IsWhitespace(r[|r| - 1])
  {
    s[..BackWhitespace(s, |s|)]
  }

  /** `r` is the slice of `s` at `i` and only whitespace surrounds it. */
  predicate PaddedAt(s: string, r: string, i: int) {
    0 <= i <= |s| - |r| && s[i..i + |r|] == r
    && (forall k :: 0 <= k < i ==> IsWhitespace(s[k]))
    && (forall k :: i + |r| <= k < |s| ==> IsWhitespace(s[k]))
  }

  /** `s.trim()`: whitespace removed at the start, then at the end. */
  function Trim(s: string): (r: string)
    ensures r == [] || (!IsWhitespace(r[0]) && !IsWhitespace(r[|r| - 1]))
  {
    TrimEnd(TrimStart(s))
  }

  /** What `trim` keeps is a slice of the text with only whitespace around
      it. */
  lemma TrimPadded(s: string)
    ensures exists i :: PaddedAt(s, Trim(s), i)
  {
    var i := SkipWhitespace(s, 0);
    var t := s[i..];
    var j := BackWhitespace(t, |t|);
    assert Trim(s) == t[..j];
    SkipWhitespaceSkips(s, 0);
    BackWhitespaceSkips(t, |t|);
    ShiftedWhitespace(s, i, j);
    assert s[i..i + j] == t[..j];
    assert PaddedAt(s, t[..j], i);
  }

  /** Whitespace at the end of the suffix `s[i..]` is whitespace of `s`. */
  lemma ShiftedWhitespace(s: string, i: nat, j: nat)
    requires i <= |s| && i + j <= |s|
    requires forall k :: j <= k < |s[i..]| ==> IsWhitespace(s[i..][k])
    ensures forall k :: i + j <= k < |s| ==> IsWhitespace(s[k])
  {
    forall k | i + j <= k < |s| ensures IsWhitespace(s[k]) {
      assert s[k] == s[i..][k - i];
    }
  }

  /** The first index from `i` on that does not hold `c`, or `|s|`. */
  function SkipChar(s: string, c: char, i: nat): (k: nat)
    requires i <= |s|
    ensures i <= k <= |s|
    ensures k < |s| ==> s[k] != c
    decreases |s| - i
  {
    if i < |s| && s[i] == c then SkipChar(s, c, i + 1) else i
  }

  /** Every index `SkipChar` passes over holds `c`. */
  lemma {:induction false} SkipCharSkips(s: string, c: char, i: nat)
    requires i <= |s|
    ensures forall k :: i <= k < SkipChar(s, c, i) ==> s[k] == c
    decreases |s| - i
  {
    if i < |s| && s[i] == c {
      SkipCharSkips(s, c, i + 1);
    }
  }

  /** `s.trim_start_matches(c)`: the suffix left after removing every
      leading `c`. */
  function TrimStartMatches(s: string, c: char): (r: string)
    ensures r == [] || r[0] != c
  {
    s[SkipChar(s, c, 0)..]
  }
}
