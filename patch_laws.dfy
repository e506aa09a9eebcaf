/** What the patch engine promises: the layout of Append's output, when
    each patch leaves a file alone, idempotence of Append and Replace, and
    the shape of the block UncommentBlock rewrites. */
module PatchLaws {
  import opened StrSearch
  import opened StrTrim
  import opened StrLines
  import opened StrReplace
  import opened Patches

  /* ---------------- Append ---------------- */

  /** Reference layout of Append: every line in order, and directly after
      each line containing `after`, `insert` as a line of its own. */
  function Expand(ls: seq<string>, after: string, insert: string): seq<string>
    decreases |ls|
  {
    if ls == [] then []
    else [ls[0]] + (if Contains(ls[0], after) then [insert] else []) + Expand(ls[1..], after, insert)
  }

  lemma AppendEachCons(ls: seq<string>, after: string, insert: string)
    requires ls != []
    ensures AppendEach(ls, after, insert) == [AppendLine(ls[0], after, insert)] + AppendEach(ls[1..], after, insert)
  {
  }

  /** Joining the per-line results of Append is joining the reference
      layout. */
  lemma {:induction false} JoinAppendEach(ls: seq<string>, after: string, insert: string)
    ensures Join(AppendEach(ls, after, insert)) == Join(Expand(ls, after, insert))
    decreases |ls|
  {
    if ls != [] {
      var l, rest := ls[0], ls[1..];
      var A, E := AppendEach(rest, after, insert), Expand(rest, after, insert);
      AppendEachCons(ls, after, insert);
      JoinAppendEach(rest, after, insert);
      ExpandEmpty(rest, after, insert);
      if Contains(l, after) {
        assert Expand(ls, after, insert) == [l] + ([insert] + E);
        JoinInserted(l, insert, A, E);
      } else {
        assert Expand(ls, after, insert) == [l] + E;
        JoinKept(l, A, E);
      }
    }
  }

  /** A line followed by an inserted line joins like the two lines. */
  lemma JoinInserted(l: string, insert: string, A: seq<string>, E: seq<string>)
    requires Join(A) == Join(E) && (A == [] <==> E == [])
    ensures Join([l + "\n" + insert] + A) == Join([l] + ([insert] + E))
  {
    JoinPrepend(l, [insert] + E);
    if A == [] {
      assert Join([insert] + E) == insert;
    } else {
      JoinPrepend(l + "\n" + insert, A);
      JoinPrepend(insert, E);
    }
  }

  /** A line in front of lists that join alike. */
  lemma JoinKept(l: string, A: seq<string>, E: seq<string>)
    requires Join(A) == Join(E) && (A == [] <==> E == [])
    ensures Join([l] + A) == Join([l] + E)
  {
    if A != [] {
      JoinPrepend(l, A);
      JoinPrepend(l, E);
    }
  }

  /** Append writes the reference layout, joined by '\n', with a final
      '\n'. */
  lemma AppendTextLayout(content: string, after: string, insert: string)
    ensures AppendText(content, after, insert) == Join(Expand(Lines(content), after, insert)) + "\n"
  {
    JoinAppendEach(Lines(content), after, insert);
  }

  /** The reference layout keeps plain lines plain when `insert` is a
      single plain line. */
  lemma {:induction false} ExpandPlain(ls: seq<string>, after: string, insert: string)
    requires PlainLines(ls) && '\n' !in insert && !EndsWithCR(insert)
    ensures PlainLines(Expand(ls, after, insert))
    decreases |ls|
  {
    if ls != [] {
      PlainTail(ls);
      ExpandPlain(ls[1..], after, insert);
    }
  }

  lemma ExpandEmpty(ls: seq<string>, after: string, insert: string)
    ensures Expand(ls, after, insert) == [] <==> ls == []
  {
  }

  /** For a text whose lines carry no '\r' and a one-line `insert`, the
      lines of Append's output are exactly the reference layout. */
  lemma AppendLines(content: string, after: string, insert: string)
    requires content != [] && PlainLines(Lines(content))
    requires '\n' !in insert && !EndsWithCR(insert)
    ensures Lines(AppendText(content, after, insert)) == Expand(Lines(content), after, insert)
  {
    var ls := Lines(content);
    AppendTextLayout(content, after, insert);
    ExpandPlain(ls, after, insert);
    ExpandEmpty(ls, after, insert);
    LinesOfJoin(Expand(ls, after, insert));
  }

  /** No line contains the anchor: every line is passed through as it is. */
  lemma {:induction false} ExpandWithoutAnchor(ls: seq<string>, after: string, insert: string)
    requires forall i :: 0 <= i < |ls| ==> !Contains(ls[i], after)
    ensures Expand(ls, after, insert) == ls
    decreases |ls|
  {
    if ls != [] {
      ExpandWithoutAnchor(ls[1..], after, insert);
    }
  }

  /** When no line contains `after`, Append only re-joins the lines and adds
      a final '\n'; for a text without '\r' that is the text itself, with a
      '\n' added when it had none. */
  lemma AppendWithoutAnchor(content: string, after: string, insert: string)
    requires forall i :: 0 <= i < |Lines(content)| ==> !Contains(Lines(content)[i], after)
    ensures AppendText(content, after, insert) == Join(Lines(content)) + "\n"
    ensures '\r' !in content ==> AppendText(content, after, insert) == Terminated(content)
  {
    AppendTextLayout(content, after, insert);
    ExpandWithoutAnchor(Lines(content), after, insert);
    if '\r' !in content {
      JoinOfLines(content);
    }
  }

  /** An anchor spanning several lines matches no line of `lines()`, so
      Append inserts nothing. */
  lemma MultiLineAnchorNeverMatches(content: string, after: string, insert: string)
    requires '\n' in after
    ensures AppendText(content, after, insert) == Join(Lines(content)) + "\n"
  {
    var ls := Lines(content);
    forall i | 0 <= i < |ls| ensures !Contains(ls[i], after) {
      if Contains(ls[i], after) {
        ContainsChar(ls[i], after, '\n');
      }
    }
    AppendWithoutAnchor(content, after, insert);
  }

  /** A line's text is part of the join. */
  lemma {:induction false} JoinContains(ls: seq<string>, i: nat, m: string)
    requires i < |ls| && Contains(ls[i], m)
    ensures Contains(Join(ls), m)
    decreases i
  {
    if |ls| == 1 {
      assert [] + ls[0] + [] == ls[0];
      ContainsInfix([], ls[0], [], m);
    } else {
      JoinPrepend(ls[0], ls[1..]);
      if i == 0 {
        ContainsInfix([], ls[0], "\n" + Join(ls[1..]), m);
        assert [] + ls[0] + ("\n" + Join(ls[1..])) == Join(ls);
      } else {
        JoinContains(ls[1..], i - 1, m);
        ContainsInfix(ls[0] + "\n", Join(ls[1..]), [], m);
        assert ls[0] + "\n" + Join(ls[1..]) + [] == Join(ls);
      }
    }
  }

  lemma ContainsSelf(s: string)
    ensures Contains(s, s)
  {
  }

  /** Once an anchor line exists, Append's output contains every substring
      of `insert`. */
  lemma AppendPlacesInsert(content: string, after: string, insert: string, m: string, i: nat)
    requires i < |Lines(content)| && Contains(Lines(content)[i], after) && Contains(insert, m)
    ensures Contains(AppendText(content, after, insert), m)
  {
    var ls := Lines(content);
    var each := AppendEach(ls, after, insert);
    assert each[i] == ls[i] + "\n" + insert;
    ContainsInfix(ls[i] + "\n", insert, [], m);
    assert ls[i] + "\n" + insert + [] == each[i];
    JoinContains(each, i, m);
    ContainsInfix([], Join(each), "\n", m);
    assert [] + Join(each) + "\n" == AppendText(content, after, insert);
  }

  /** Append is idempotent when its marker is part of what it inserts and
      the anchor occurs on some line: a second application leaves the files
      as the first one left them. */
  lemma AppendIdempotent(files: map<string, string>, readOnly: set<string>, p: Patch, re: RegexLib, i: nat)
    requires p.Append? && p.file in files && Contains(p.insert, p.marker)
    requires i < |Lines(files[p.file])| && Contains(Lines(files[p.file])[i], p.after)
    ensures Apply(Apply(files, readOnly, p, re).files, readOnly, p, re).files == Apply(files, readOnly, p, re).files
    ensures p.file !in readOnly ==> Apply(Apply(files, readOnly, p, re).files, readOnly, p, re).status == Ok
  {
    var c := files[p.file];
    if !Contains(c, p.marker) {
      AppendPlacesInsert(c, p.after, p.insert, p.marker, i);
    }
  }

  /* ---------------- skips ---------------- */

  /** The empty string occurs in every text. */
  lemma ContainsEmpty(s: string)
    ensures Contains(s, [])
  {
  }

  /** A file that cannot be read is skipped: success, nothing written. */
  lemma UnreadableSkipped(files: map<string, string>, readOnly: set<string>, p: Patch, re: RegexLib)
    requires p.file !in files
    ensures Apply(files, readOnly, p, re) == Outcome(files, Ok)
  {
  }

  /** Append leaves a file that already holds its marker alone; an empty
      marker is held by every file, so such a patch never writes. */
  lemma AppendSkipsMarked(files: map<string, string>, readOnly: set<string>, p: Patch, re: RegexLib)
    requires p.Append? && p.file in files && (Contains(files[p.file], p.marker) || p.marker == [])
    ensures Apply(files, readOnly, p, re) == Outcome(files, Ok)
  {
    ContainsEmpty(files[p.file]);
  }

  /* ---------------- Replace ---------------- */

  /** Replace leaves a file that already holds `insert` alone; an empty
      `insert` is held by every file, so such a patch never writes. */
  lemma ReplaceSkipsPresent(files: map<string, string>, readOnly: set<string>, p: Patch, re: RegexLib)
    requires p.Replace? && p.file in files && (Contains(files[p.file], p.insert) || p.insert == [])
    ensures Apply(files, readOnly, p, re) == Outcome(files, Ok)
  {
    ContainsEmpty(files[p.file]);
  }

  /** Without an occurrence of `find` (and without `insert`) the content is
      written back unchanged, so on a read-only file the patch still fails. */
  lemma ReplaceWithoutFind(files: map<string, string>, readOnly: set<string>, p: Patch, re: RegexLib)
    requires p.Replace? && p.file in files
    requires !Contains(files[p.file], p.insert) && !Contains(files[p.file], p.find)
    ensures Apply(files, readOnly, p, re) == Outcome(files, if p.file in readOnly then WriteFailed else Ok)
  {
    var c := files[p.file];
    if p.find == [] {
      ContainsEmpty(c);
    }
    ReplaceAllNoMatch(c, p.find, p.insert);
    assert files[p.file := c] == files;
  }

  /** Replace writes the text with every occurrence of `find` replaced:
      the first one found scanning left to right is replaced and the scan
      resumes after it. */
  lemma ReplaceWrites(files: map<string, string>, readOnly: set<string>, p: Patch, re: RegexLib, a: string, b: string)
    requires p.Replace? && p.file !in readOnly && p.find != []
    requires p.file in files && files[p.file] == a + p.find + b && !Contains(files[p.file], p.insert)
    requires NoMatchBefore(a + p.find + b, p.find, |a|)
    ensures Apply(files, readOnly, p, re) == Outcome(files[p.file := a + p.insert + ReplaceAll(b, p.find, p.insert)], Ok)
  {
    ReplaceAllFirst(a, b, p.find, p.insert);
  }

  /** Replace is idempotent, whatever its arguments: a second application
      leaves the files as the first one left them. */
  lemma ReplaceIdempotent(files: map<string, string>, readOnly: set<string>, p: Patch, re: RegexLib)
    requires p.Replace?
    ensures Apply(Apply(files, readOnly, p, re).files, readOnly, p, re).files == Apply(files, readOnly, p, re).files
  {
    if p.file in files {
      var c := files[p.file];
      if !Contains(c, p.insert) {
        if Contains(c, p.find) {
          ReplaceAllInserts(c, p.find, p.insert);
        } else {
          ReplaceWithoutFind(files, readOnly, p, re);
        }
      }
    }
  }

  /* ---------------- RegexReplace ---------------- */

  /** An invalid pattern panics (it is not returned as an error) and
      nothing is written; the check comes before anything else once the
      file has been read. */
  lemma RegexPanicsOnBadPattern(files: map<string, string>, readOnly: set<string>, p: Patch, re: RegexLib)
    requires p.RegexReplace? && p.file in files && !re.compiles(p.pattern)
    ensures Apply(files, readOnly, p, re) == Outcome(files, Panicked)
  {
  }

  /** A valid pattern skips exactly when it matches the content and the
      content already holds `insert`; otherwise the engine's rewrite is
      written. */
  lemma RegexSkipsIff(files: map<string, string>, readOnly: set<string>, p: Patch, re: RegexLib)
    requires p.RegexReplace? && p.file in files && re.compiles(p.pattern)
    ensures var c := files[p.file];
      NewContent(p, c, re) == Keep <==> re.isMatch(p.pattern, c) && Contains(c, p.insert)
    ensures var c := files[p.file];
      p.file !in readOnly && !(re.isMatch(p.pattern, c) && Contains(c, p.insert)) ==>
      Apply(files, readOnly, p, re) == Outcome(files[p.file := re.replaceAll(p.pattern, c, p.insert)], Ok)
  {
  }

  /* ---------------- UncommentBlock ---------------- */

  /** Every line of a block uncommented. */
  function UncommentAll(blk: seq<string>): (r: seq<string>)
    ensures |r| == |blk|
  {
    if blk == [] then [] else [Uncomment(blk[0])] + UncommentAll(blk[1..])
  }

  /** One step of the scan, on a line in front of the others. */
  lemma UncommentFromCons(l: string, rest: seq<string>, marker: string, inBlock: bool)
    ensures UncommentFrom([l] + rest, marker, inBlock) ==
      if Contains(l, marker) then [l] + UncommentFrom(rest, marker, true)
      else if !inBlock then [l] + UncommentFrom(rest, marker, false)
      else if IsComment(l) then [Uncomment(l)] + UncommentFrom(rest, marker, true)
      else [l] + rest
  {
    assert ([l] + rest)[1..] == rest;
  }

  /** Lines with no marker before the first marker line are kept. */
  lemma {:induction false} UncommentPrefix(pre: seq<string>, rest: seq<string>, marker: string)
    requires forall i :: 0 <= i < |pre| ==> !Contains(pre[i], marker)
    ensures UncommentFrom(pre + rest, marker, false) == pre + UncommentFrom(rest, marker, false)
    decreases |pre|
  {
    if pre != [] {
      var p0, tail := pre[0], pre[1..];
      assert pre + rest == [p0] + (tail + rest);
      UncommentFromCons(p0, tail + rest, marker, false);
      UncommentPrefix(tail, rest, marker);
      assert [p0] + (tail + UncommentFrom(rest, marker, false)) == pre + UncommentFrom(rest, marker, false);
    } else {
      assert pre + rest == rest;
    }
  }

  /** Inside the block, a run of comment lines without the marker is
      uncommented line by line. */
  lemma {:induction false} UncommentRun(blk: seq<string>, rest: seq<string>, marker: string)
    requires forall i :: 0 <= i < |blk| ==> IsComment(blk[i]) && !Contains(blk[i], marker)
    ensures UncommentFrom(blk + rest, marker, true) == UncommentAll(blk) + UncommentFrom(rest, marker, true)
    decreases |blk|
  {
    if blk != [] {
      var b0, tail := blk[0], blk[1..];
      assert blk + rest == [b0] + (tail + rest);
      UncommentFromCons(b0, tail + rest, marker, true);
      UncommentRun(tail, rest, marker);
      var r := UncommentFrom(rest, marker, true);
      assert [Uncomment(b0)] + (UncommentAll(tail) + r) == ([Uncomment(b0)] + UncommentAll(tail)) + r;
    } else {
      assert blk + rest == rest;
    }
  }

  /** The shape of UncommentBlock's result: the lines up to and including
      the first marker line are kept, the comment lines after it are
      uncommented, and the first other line ends the block, it and all
      later lines being kept (a later marker line included). */
  lemma UncommentBlockShape(pre: seq<string>, mk: string, blk: seq<string>, stop: string, post: seq<string>, marker: string)
    requires forall i :: 0 <= i < |pre| ==> !Contains(pre[i], marker)
    requires Contains(mk, marker)
    requires forall i :: 0 <= i < |blk| ==> IsComment(blk[i]) && !Contains(blk[i], marker)
    requires !IsComment(stop) && !Contains(stop, marker)
    ensures UncommentFrom(pre + [mk] + blk + [stop] + post, marker, false)
      == pre + [mk] + UncommentAll(blk) + [stop] + post
  {
    var tail := [stop] + post;
    Regroup(pre, mk, blk, [stop], post);
    Regroup(pre, mk, UncommentAll(blk), [stop], post);
    UncommentBlockThen(pre, mk, blk, tail, marker);
    UncommentFromCons(stop, post, marker, true);
  }

  /** The block after the marker line, followed by whatever the scan makes
      of the rest. */
  lemma UncommentBlockThen(pre: seq<string>, mk: string, blk: seq<string>, tail: seq<string>, marker: string)
    requires forall i :: 0 <= i < |pre| ==> !Contains(pre[i], marker)
    requires Contains(mk, marker)
    requires forall i :: 0 <= i < |blk| ==> IsComment(blk[i]) && !Contains(blk[i], marker)
    ensures UncommentFrom(pre + ([mk] + (blk + tail)), marker, false)
      == pre + ([mk] + (UncommentAll(blk) + UncommentFrom(tail, marker, true)))
  {
    UncommentPrefix(pre, [mk] + (blk + tail), marker);
    UncommentFromCons(mk, blk + tail, marker, false);
    UncommentRun(blk, tail, marker);
  }

  lemma Regroup<T>(pre: seq<T>, x: T, mid: seq<T>, y: seq<T>, post: seq<T>)
    ensures pre + [x] + mid + y + post == pre + ([x] + (mid + (y + post)))
  {
  }

  lemma RegroupEnd<T>(pre: seq<T>, x: T, mid: seq<T>)
    ensures pre + [x] + mid == pre + ([x] + (mid + []))
  {
  }

  /** A block that runs to the last line is uncommented to the end. */
  lemma UncommentBlockToEnd(pre: seq<string>, mk: string, blk: seq<string>, marker: string)
    requires forall i :: 0 <= i < |pre| ==> !Contains(pre[i], marker)
    requires Contains(mk, marker)
    requires forall i :: 0 <= i < |blk| ==> IsComment(blk[i]) && !Contains(blk[i], marker)
    ensures UncommentFrom(pre + [mk] + blk, marker, false) == pre + [mk] + UncommentAll(blk)
  {
    var none: seq<string> := [];
    RegroupEnd(pre, mk, blk);
    RegroupEnd(pre, mk, UncommentAll(blk));
    UncommentBlockThen(pre, mk, blk, none, marker);
    assert UncommentFrom(none, marker, true) == none;
  }

  /** Without a marker line nothing is uncommented. */
  lemma UncommentNoMarker(ls: seq<string>, marker: string)
    requires forall i :: 0 <= i < |ls| ==> !Contains(ls[i], marker)
    ensures UncommentFrom(ls, marker, false) == ls
  {
    UncommentPrefix(ls, [], marker);
    assert ls + [] == ls;
  }

  /** Append and UncommentBlock write a file back with '\n' line endings: a
      first line ended by "\r\n" comes out ended by '\n' alone when neither
      patch finds anything to do. */
  lemma CRLFWrittenAsLF(a: string, t: string, after: string, insert: string, marker: string)
    requires '\n' !in a && '\r' !in t
    requires forall i :: 0 <= i < |Lines(a + "\r\n" + t)| ==>
      !Contains(Lines(a + "\r\n" + t)[i], after) && !Contains(Lines(a + "\r\n" + t)[i], marker)
    ensures AppendText(a + "\r\n" + t, after, insert) == a + "\n" + (if t == [] then [] else Terminated(t))
    ensures UncommentText(a + "\r\n" + t, marker) == a + "\n" + (if t == [] then [] else Terminated(t))
  {
    var c := a + "\r\n" + t;
    LinesCRLF(a, t);
    AppendWithoutAnchor(c, after, insert);
    UncommentNoMarker(Lines(c), marker);
    if t != [] {
      JoinCons(a, Lines(t));
      JoinOfLines(t);
    }
  }

  /** An uncommented line is as plain as the line it came from: it has no
      '\n' and, being trimmed, does not end with '\r'. */
  lemma UncommentPlain(line: string)
    requires '\n' !in line
    ensures '\n' !in Uncomment(line) && !EndsWithCR(Uncomment(line))
  {
    UncommentStripped(line);
    var h :| StrippedAt(line, Uncomment(line), h);
    StrippedLacks(line, Uncomment(line), h, '\n');
    assert IsWhitespace('\r');
  }

  /** What is left of a line lacks every character the line lacks. */
  lemma StrippedLacks(line: string, r: string, h: int, c: char)
    requires c !in line && StrippedAt(line, r, h)
    ensures c !in r
  {
    var i :| PaddedAt(line[h..], r, i);
    SliceLacks(line, h, |line|, c);
    SliceLacks(line[h..], i, i + |r|, c);
  }

  lemma {:induction false} UncommentFromPlain(ls: seq<string>, marker: string, inBlock: bool)
    requires PlainLines(ls)
    ensures PlainLines(UncommentFrom(ls, marker, inBlock))
    decreases |ls|
  {
    if ls != [] {
      var l, rest := ls[0], ls[1..];
      PlainTail(ls);
      assert ls == [l] + rest;
      UncommentFromCons(l, rest, marker, inBlock);
      if Contains(l, marker) || !inBlock {
        UncommentFromPlain(rest, marker, Contains(l, marker) || inBlock);
        PlainCons(l, UncommentFrom(rest, marker, Contains(l, marker) || inBlock));
      } else if IsComment(l) {
        UncommentFromPlain(rest, marker, true);
        UncommentPlain(l);
        PlainCons(Uncomment(l), UncommentFrom(rest, marker, true));
      }
    }
  }

  lemma PlainCons(l: string, rest: seq<string>)
    requires '\n' !in l && !EndsWithCR(l) && PlainLines(rest)
    ensures PlainLines([l] + rest)
  {
  }

  /** For a non-empty text whose lines carry no '\r', the lines of
      UncommentBlock's output are the rewritten lines, as many as before. */
  lemma UncommentTextLines(content: string, marker: string)
    requires content != [] && PlainLines(Lines(content))
    ensures Lines(UncommentText(content, marker)) == UncommentFrom(Lines(content), marker, false)
    ensures |Lines(UncommentText(content, marker))| == |Lines(content)|
  {
    UncommentFromPlain(Lines(content), marker, false);
    LinesOfJoin(UncommentFrom(Lines(content), marker, false));
  }

  /** An empty file is rewritten as a single '\n' by Append and by
      UncommentBlock: it gains an empty line. */
  lemma EmptyFileGainsNewline(after: string, insert: string, marker: string)
    ensures AppendText([], after, insert) == "\n"
    ensures UncommentText([], marker) == "\n"
    ensures Lines("\n") == [[]]
  {
    assert Lines("\n") == Lines([] + "\n" + []);
    LinesCons([], []);
  }

  /** A text without some character of the needle does not contain it. */
  lemma LacksChar(s: string, m: string, c: char)
    requires c in m && c !in s
    ensures !Contains(s, m)
  {
    if Contains(s, m) {
      ContainsChar(s, m, c);
    }
  }

  /** Every leading '#' goes, not just one, and so does the space after
      them. */
  lemma UncommentStripsAllHashes()
    ensures Uncomment("## x") == "x"
  {
    var s := "## x";
    assert SkipChar(s, '#', 2) == 2;
    assert SkipChar(s, '#', 0) == 2;
    var t := s[2..];
    assert t == " x";
    assert SkipWhitespace(t, 1) == 1;
    assert SkipWhitespace(t, 0) == 1;
    assert t[1..] == "x";
    assert BackWhitespace("x", 1) == 1;
  }

  lemma UncommentHashSpaceHash()
    ensures Uncomment("# #x") == "#x"
  {
    var s := "# #x";
    assert SkipChar(s, '#', 1) == 1;
    assert SkipChar(s, '#', 0) == 1;
    var t := s[1..];
    assert t == " #x";
    assert SkipWhitespace(t, 1) == 1;
    assert SkipWhitespace(t, 0) == 1;
    assert t[1..] == "#x";
    assert BackWhitespace("#x", 2) == 2;
  }

  lemma UncommentHash()
    ensures Uncomment("#x") == "x"
  {
    var s := "#x";
    assert SkipChar(s, '#', 1) == 1;
    assert SkipChar(s, '#', 0) == 1;
    assert s[1..] == "x";
    assert SkipWhitespace("x", 0) == 0;
    assert BackWhitespace("x", 1) == 1;
  }

  /** UncommentBlock is not idempotent: a block line that still starts with
      '#' after uncommenting is uncommented again by a second run. */
  lemma UncommentNotIdempotent()
    ensures UncommentFrom(["#m", "# #x"], "m", false) == ["#m", "#x"]
    ensures UncommentFrom(["#m", "#x"], "m", false) == ["#m", "x"]
  {
    UncommentFirstRun();
    UncommentSecondRun();
  }

  lemma UncommentFirstRun()
    ensures UncommentFrom(["#m", "# #x"], "m", false) == ["#m", "#x"]
  {
    LacksChar("# #x", "m", 'm');
    assert "#m"[1..] == "m";
    UncommentHashSpaceHash();
    UncommentFromCons("#m", ["# #x"], "m", false);
    UncommentFromCons("# #x", [], "m", true);
  }

  lemma UncommentSecondRun()
    ensures UncommentFrom(["#m", "#x"], "m", false) == ["#m", "x"]
  {
    LacksChar("#x", "m", 'm');
    assert "#m"[1..] == "m";
    UncommentHash();
    UncommentFromCons("#m", ["#x"], "m", false);
    UncommentFromCons("#x", [], "m", true);
  }
}
