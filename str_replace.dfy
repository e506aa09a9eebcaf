/** Rust's `str::replace` with a string pattern: every non-overlapping
    occurrence of the pattern, found scanning left to right, is replaced.
    An empty pattern matches at every character boundary, both ends
    included. */
module StrReplace {
  import opened StrSearch

  function ReplaceAll(s: string, find: string, insert: string): string
    decreases |s|
  {
    if find == [] then
      insert + (if s == [] then [] else [s[0]] + ReplaceAll(s[1..], find, insert))
    else if StartsWith(s, find) then
      insert + ReplaceAll(s[|find|..], find, insert)
    else if s == [] then
      []
    else
      [s[0]] + ReplaceAll(s[1..], find, insert)
  }

  /** Without an occurrence of a non-empty pattern the text is unchanged. */
  lemma {:induction false} ReplaceAllNoMatch(s: string, find: string, insert: string)
    requires find != [] && !Contains(s, find)
    ensures ReplaceAll(s, find, insert) == s
    decreases |s|
  {
    if s != [] {
      ReplaceAllNoMatch(s[1..], find, insert);
      assert s == [s[0]] + s[1..];
    }
  }

  /** After replacing at least one occurrence, the replacement is present. */
  lemma {:induction false} ReplaceAllInserts(s: string, find: string, insert: string)
    requires Contains(s, find)
    ensures Contains(ReplaceAll(s, find, insert), insert)
    decreases |s|
  {
    var r := ReplaceAll(s, find, insert);
    if find == [] || StartsWith(s, find) {
      assert StartsWith(r, insert);
    } else {
      ReplaceAllInserts(s[1..], find, insert);
      var t := ReplaceAll(s[1..], find, insert);
      assert r == [s[0]] + t && r[1..] == t;
    }
  }

  /** Replacing a pattern by itself changes nothing. */
  lemma {:induction false} ReplaceAllSelf(s: string, find: string)
    ensures ReplaceAll(s, find, find) == s
    decreases |s|
  {
    if find == [] {
      if s != [] {
        ReplaceAllSelf(s[1..], find);
      }
    } else if StartsWith(s, find) {
      ReplaceAllSelf(s[|find|..], find);
      assert s == s[..|find|] + s[|find|..];
    } else if s != [] {
      ReplaceAllSelf(s[1..], find);
      assert s == [s[0]] + s[1..];
    }
  }

  /** No occurrence of `find` starts before index `n` of `s`. */
  predicate NoMatchBefore(s: string, find: string, n: nat)
    requires n <= |s|
  {
    forall j :: 0 <= j < n ==> !StartsWith(s[j..], find)
  }

  /** Where no occurrence starts, the first character is copied. */
  lemma ReplaceAllCopies(s: string, find: string, insert: string)
    requires find != [] && s != [] && !StartsWith(s, find)
    ensures ReplaceAll(s, find, insert) == [s[0]] + ReplaceAll(s[1..], find, insert)
  {
  }

  lemma PrefixCons(s: string, n: nat)
    requires 0 < n <= |s|
    ensures s[..n] == [s[0]] + s[1..][..n - 1]
  {
  }

  /** No occurrence starts in the first `n` characters, seen from the
      second one. */
  lemma NoMatchBeforeTail(s: string, find: string, n: nat)
    requires 0 < n <= |s| && NoMatchBefore(s, find, n)
    ensures !StartsWith(s, find) && NoMatchBefore(s[1..], find, n - 1)
  {
    assert s[0..] == s;
    forall j | 0 <= j < n - 1 ensures !StartsWith(s[1..][j..], find) {
      assert s[1..][j..] == s[j + 1..];
    }
  }

  /** Text before the first occurrence is copied unchanged. */
  lemma {:induction false} ReplaceAllSkipsPrefix(s: string, n: nat, find: string, insert: string)
    requires find != [] && n <= |s| && NoMatchBefore(s, find, n)
    ensures ReplaceAll(s, find, insert) == s[..n] + ReplaceAll(s[n..], find, insert)
    decreases n
  {
    if n > 0 {
      NoMatchBeforeTail(s, find, n);
      ReplaceAllSkipsPrefix(s[1..], n - 1, find, insert);
      SkipOne(s, n, find, insert);
    } else {
      assert s[..0] == [] && s[0..] == s;
    }
  }

  /** One character more of copied prefix. */
  lemma SkipOne(s: string, n: nat, find: string, insert: string)
    requires 0 < n <= |s| && find != [] && !StartsWith(s, find)
    requires ReplaceAll(s[1..], find, insert) == s[1..][..n - 1] + ReplaceAll(s[1..][n - 1..], find, insert)
    ensures ReplaceAll(s, find, insert) == s[..n] + ReplaceAll(s[n..], find, insert)
  {
    ReplaceAllCopies(s, find, insert);
    var tail := s[1..];
    assert tail[n - 1..] == s[n..];
    PrefixCons(s, n);
    ConsAppend(s[0], tail[..n - 1], ReplaceAll(s[n..], find, insert));
  }

  lemma ConsAppend(c: char, x: string, y: string)
    ensures [c] + (x + y) == ([c] + x) + y
  {
  }

  /** The first occurrence is replaced and the scan resumes after it, so
      occurrences never overlap. */
  lemma ReplaceAllFirst(a: string, b: string, find: string, insert: string)
    requires find != [] && NoMatchBefore(a + find + b, find, |a|)
    ensures ReplaceAll(a + find + b, find, insert) == a + insert + ReplaceAll(b, find, insert)
  {
    var s := a + find + b;
    ReplaceAllSkipsPrefix(s, |a|, find, insert);
    SplitAfter(a, find + b);
    assert s == a + (find + b);
    ReplaceAllAtMatch(find, b, insert);
  }

  /** The two halves of a concatenation, recovered by slicing. */
  lemma SplitAfter(a: string, m: string)
    ensures (a + m)[..|a|] == a && (a + m)[|a|..] == m
  {
  }

  /** At an occurrence the replacement is emitted and the occurrence
      skipped. */
  lemma ReplaceAllAtMatch(find: string, b: string, insert: string)
    requires find != []
    ensures ReplaceAll(find + b, find, insert) == insert + ReplaceAll(b, find, insert)
  {
    SplitAfter(find, b);
  }

  /** With an empty pattern the replacement is put at every character
      boundary: the empty text becomes the replacement, and one more
      character at the end adds that character and one more replacement. */
  lemma {:induction false} ReplaceAllEmptyPattern(s: string, c: char, insert: string)
    ensures ReplaceAll([], [], insert) == insert
    ensures ReplaceAll(s + [c], [], insert) == ReplaceAll(s, [], insert) + [c] + insert
    decreases |s|
  {
    if s == [] {
      assert [] + [c] == [c] && [c][1..] == [];
    } else {
      assert (s + [c])[0] == s[0] && (s + [c])[1..] == s[1..] + [c];
      ReplaceAllEmptyPattern(s[1..], c, insert);
      var r := ReplaceAll(s[1..], [], insert);
      assert insert + ([s[0]] + (r + [c] + insert)) == insert + ([s[0]] + r) + [c] + insert;
    }
  }

  /** With an empty pattern a text of n characters gains n + 1 copies of
      the replacement. */
  lemma {:induction false} ReplaceAllEmptyPatternLength(s: string, insert: string)
    ensures |ReplaceAll(s, [], insert)| == |s| + (|s| + 1) * |insert|
    decreases |s|
  {
    if s != [] {
      ReplaceAllEmptyPatternLength(s[1..], insert);
    }
  }
}
