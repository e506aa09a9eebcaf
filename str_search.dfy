/** Substring search on Rust `str` values, modelled as sequences of characters:
    `starts_with`, `contains` and the facts about occurrences that the patch
    engine's idempotency probes rely on. */
module StrSearch {

  /** `s.starts_with(p)` for a string pattern `p`. */
  predicate StartsWith(s: string, p: string) {
    |p| <= |s| && s[..|p|] == p
  }

  /** `m` occurs in `s` starting at index `i`. */
  predicate OccursAt(s: string, m: string, i: int) {
    0 <= i && i + |m| <= |s| && s[i..i + |m|] == m
  }

  /** `s.contains(m)`: scanning left to right, some suffix of `s` starts
      with `m`. The empty needle occurs in every string. */
  predicate Contains(s: string, m: string)
    decreases |s|
  {
    StartsWith(s, m) || (s != [] && Contains(s[1..], m))
  }

  /** An occurrence at a known index is found by the left-to-right scan. */
  lemma {:induction false} OccursAtContains(s: string, m: string, i: int)
    requires OccursAt(s, m, i)
    ensures Contains(s, m)
    decreases i
  {
    if i > 0 {
      assert s[1..][i - 1..i - 1 + |m|] == s[i..i + |m|];
      OccursAtContains(s[1..], m, i - 1);
    }
  }

  /** The scanning definition agrees with the index-based one. */
  lemma {:induction false} ContainsIff(s: string, m: string)
    ensures Contains(s, m) <==> exists i :: OccursAt(s, m, i)
    decreases |s|
  {
    if StartsWith(s, m) {
      assert OccursAt(s, m, 0);
    } else if s != [] {
      ContainsIff(s[1..], m);
      if Contains(s[1..], m) {
        var j :| OccursAt(s[1..], m, j);
        assert s[j + 1..j + 1 + |m|] == s[1..][j..j + |m|];
        assert OccursAt(s, m, j + 1);
      }
    }
    if exists i :: OccursAt(s, m, i) {
      var i :| OccursAt(s, m, i);
      OccursAtContains(s, m, i);
    }
  }

  /** An occurrence of `m` inside `s` is still one after text is added on
      either side. */
  lemma ContainsInfix(p: string, s: string, q: string, m: string)
    requires Contains(s, m)
    ensures Contains(p + s + q, m)
  {
    ContainsIff(s, m);
    var i :| OccursAt(s, m, i);
    assert (p + s + q)[|p| + i..|p| + i + |m|] == s[i..i + |m|];
    assert OccursAt(p + s + q, m, |p| + i);
    ContainsIff(p + s + q, m);
  }


  /** Every character of the needle appears in a string that contains it. */
  lemma ContainsChar(s: string, m: string, c: char)
    requires Contains(s, m) && c in m
    ensures c in s
  {
    ContainsIff(s, m);
    var i :| OccursAt(s, m, i);
    var k :| 0 <= k < |m| && m[k] == c;
    assert s[i + k] == s[i..i + |m|][k];
  }
}
