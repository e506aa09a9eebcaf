/** Rust's `str::lines` and `join("\n")` on a list of lines: the
    line-oriented view of a file that Append and UncommentBlock work on. */
module StrLines {

  /** Index of the first '\n' in `s`, or `|s|` when there is none. */
  function NewlineIndex(s: string): (k: nat)
    ensures k <= |s| && '\n' !in s[..k]
    ensures k < |s| ==> s[k] == '\n'
    decreases |s|
  {
    if s == [] || s[0] == '\n' then 0
    else
      var k := 1 + NewlineIndex(s[1..]);
      assert s[..k] == [s[0]] + s[1..][..k - 1];
      k
  }

  predicate EndsWithCR(l: string) {
    l != [] && l[|l| - 1] == '\r'
  }

  /** Drops the '\r' of a "\r\n" line ending: at most one character. */
  function StripCR(l: string): (r: string)
    ensures r <= l && |l| <= |r| + 1
    ensures r != l <==> EndsWithCR(l)
  {
    if EndsWithCR(l) then l[..|l| - 1] else l
  }

  /** `s.lines()`: the text is cut after every '\n'; a piece that ended
      with '\n' loses it and then one '\r' before it, if any. A final piece
      without '\n' is kept as it is, and a final '\n' does not start an
      empty last line. */
  function Lines(s: string): (ls: seq<string>)
    ensures ls == [] <==> s == []
    ensures forall i :: 0 <= i < |ls| ==> '\n' !in ls[i]
    decreases |s|
  {
    if s == [] then []
    else
      var k := NewlineIndex(s);
      if k == |s| then
        assert s[..k] == s;
        [s]
      else
        [StripCR(s[..k])] + Lines(s[k + 1..])
  }

  /** `ls.join("\n")`: the lines with a '\n' between each two of them. */
  function Join(ls: seq<string>): string {
    if ls == [] then []
    else if |ls| == 1 then ls[0]
    else ls[0] + "\n" + Join(ls[1..])
  }

  /** The text with a '\n' added unless it already ends with one. */
  function Terminated(s: string): (t: string)
    ensures t != [] && t[|t| - 1] == '\n'
  {
    if s != [] && s[|s| - 1] == '\n' then s else s + "\n"
  }

  /** Lines that a "\n"-join and a final '\n' turn back into themselves. */
  predicate PlainLines(ls: seq<string>) {
    forall i :: 0 <= i < |ls| ==> '\n' !in ls[i] && !EndsWithCR(ls[i])
  }

  /** A '\n' with none before it is the first one. */
  lemma {:induction false} NewlineIndexAt(s: string, j: nat)
    requires j < |s| && s[j] == '\n' && '\n' !in s[..j]
    ensures NewlineIndex(s) == j
    decreases j
  {
    if j > 0 {
      assert s[0] == s[..j][0];
      assert s[1..][..j - 1] == s[1..j];
      SliceLacks(s[..j], 1, j, '\n');
      assert s[..j][1..j] == s[1..j];
      NewlineIndexAt(s[1..], j - 1);
    }
  }

  /** The first line of a text is everything before its first '\n'. */
  lemma LinesCons(a: string, t: string)
    requires '\n' !in a && !EndsWithCR(a)
    ensures Lines(a + "\n" + t) == [a] + Lines(t)
  {
    var s := a + "\n" + t;
    assert s[..|a|] == a;
    NewlineIndexAt(s, |a|);
    assert s[|a| + 1..] == t;
  }

  /** A line ended by "\r\n" loses both: `lines()` reads CRLF line endings
      as plain ones. */
  lemma LinesCRLF(a: string, t: string)
    requires '\n' !in a
    ensures Lines(a + "\r\n" + t) == [a] + Lines(t)
  {
    var s := a + "\r\n" + t;
    assert s[..|a| + 1] == a + "\r";
    NewlineIndexAt(s, |a| + 1);
    assert StripCR(a + "\r") == a;
    assert s[|a| + 2..] == t;
  }

  /** A '\r' that no '\n' follows is kept in the last line. */
  lemma LinesFinalCR(a: string)
    requires '\n' !in a
    ensures Lines(a + "\r") == [a + "\r"]
  {
    var s := a + "\r";
    assert '\n' !in s;
    assert s[..|s|] == s;
  }

  /** Joining plain lines and ending the text with '\n' is undone by
      `lines()`. */
  lemma {:induction false} LinesOfJoin(ls: seq<string>)
    requires ls != [] && PlainLines(ls)
    ensures Lines(Join(ls) + "\n") == ls
    decreases |ls|
  {
    if |ls| == 1 {
      LinesCons(ls[0], []);
      assert ls[0] + "\n" + [] == ls[0] + "\n";
    } else {
      var a, tail := ls[0], ls[1..];
      assert ls == [a] + tail;
      PlainTail(ls);
      JoinCons(a, tail);
      LinesCons(a, Join(tail) + "\n");
      LinesOfJoin(tail);
    }
  }

  lemma PlainTail(ls: seq<string>)
    requires ls != [] && PlainLines(ls)
    ensures '\n' !in ls[0] && !EndsWithCR(ls[0]) && PlainLines(ls[1..])
  {
    assert forall i :: 0 <= i < |ls| - 1 ==> ls[1..][i] == ls[i + 1];
  }

  /** A slice has no character that the whole text lacks. */
  lemma SliceLacks(s: string, i: nat, j: nat, c: char)
    requires i <= j <= |s| && c !in s
    ensures c !in s[i..j]
  {
  }

  /** Text in front of a non-empty last line does not change how it ends. */
  lemma TerminatedAfter(a: string, t: string)
    requires t != []
    ensures Terminated(a + "\n" + t) == a + "\n" + Terminated(t)
  {
    var s := a + "\n" + t;
    assert s[|s| - 1] == t[|t| - 1];
  }

  /** `lines()` followed by a "\n"-join and a final '\n' gives back the
      text, with a final '\n' added when it had none, provided the text has
      no '\r'. */
  lemma {:induction false} JoinOfLines(s: string)
    requires '\r' !in s
    ensures Join(Lines(s)) + "\n" == Terminated(s)
    decreases |s|
  {
    if s != [] {
      var k := NewlineIndex(s);
      if k == |s| {
        assert s[..k] == s;
        assert Lines(s) == [s];
      } else {
        var a, t := s[..k], s[k + 1..];
        SliceLacks(s, 0, k, '\r');
        SliceLacks(s, k + 1, |s|, '\r');
        assert s == a + "\n" + t;
        LinesCons(a, t);
        if t != [] {
          JoinOfLines(t);
          JoinCons(a, Lines(t));
          TerminatedAfter(a, t);
        }
      }
    }
  }

  /** A '\n'-join of a non-empty list after a first line. */
  lemma JoinPrepend(a: string, L: seq<string>)
    requires L != []
    ensures Join([a] + L) == a + "\n" + Join(L)
  {
    assert ([a] + L)[1..] == L;
  }

  /** Joining a line in front of a non-empty list puts one '\n' between. */
  lemma JoinCons(a: string, L: seq<string>)
    requires L != []
    ensures Join([a] + L) + "\n" == a + "\n" + (Join(L) + "\n")
  {
    assert ([a] + L)[1..] == L;
  }

  /** A final '\n' does not change the lines of a text whose last line is
      not empty and does not end with '\r'. */
  lemma {:induction false} LinesTerminate(s: string)
    requires s != [] && s[|s| - 1] != '\n' && s[|s| - 1] != '\r'
    ensures Lines(s + "\n") == Lines(s)
    decreases |s|
  {
    var k := NewlineIndex(s);
    var s' := s + "\n";
    assert s'[..k] == s[..k];
    if k == |s| {
      assert s[..k] == s;
      NewlineIndexAt(s', k);
      assert s'[k + 1..] == [];
    } else {
      var t := s[k + 1..];
      NewlineIndexAt(s', k);
      assert s'[k + 1..] == t + "\n";
      assert t != [] && t[|t| - 1] == s[|s| - 1];
      LinesTerminate(t);
    }
  }

  /** Every line followed by '\n': the text that writing the lines one by
      one, each with its newline, produces. */
  function Unlines(ls: seq<string>): string {
    if ls == [] then [] else ls[0] + "\n" + Unlines(ls[1..])
  }

  /** Writing one more line with its newline. */
  lemma {:induction false} UnlinesSnoc(ls: seq<string>, x: string)
    ensures Unlines(ls + [x]) == Unlines(ls) + x + "\n"
    decreases |ls|
  {
    if ls == [] {
      assert [] + [x] == [x];
      assert [x][1..] == [];
    } else {
      assert (ls + [x])[1..] == ls[1..] + [x];
      UnlinesSnoc(ls[1..], x);
      assert ls[0] + "\n" + (Unlines(ls[1..]) + x + "\n") == ls[0] + "\n" + Unlines(ls[1..]) + x + "\n";
    }
  }

  /** Lines written with their newlines and then one last line without one
      are the '\n'-join of all of them. */
  lemma {:induction false} JoinSnoc(ls: seq<string>, x: string)
    ensures Join(ls + [x]) == Unlines(ls) + x
    decreases |ls|
  {
    if ls == [] {
      assert [] + [x] == [x];
    } else {
      var rest := ls[1..] + [x];
      assert ls + [x] == [ls[0]] + rest;
      JoinPrepend(ls[0], rest);
      JoinSnoc(ls[1..], x);
      assert ls[0] + "\n" + (Unlines(ls[1..]) + x) == ls[0] + "\n" + Unlines(ls[1..]) + x;
    }
  }
}
