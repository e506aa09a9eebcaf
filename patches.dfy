/** The patch engine: the four kinds of patch, the text each one computes
    from the content of its target file, and `apply_patch`, which reads the
    target, returns early when it cannot be read or when the patch's effect
    is already there, and otherwise writes the new content back to the same
    path. */
module Patches {
  import opened StrSearch
  import opened StrTrim
  import opened StrLines
  import opened StrReplace

  /** One textual edit of one file. */
  datatype Patch =
    | Append(file: string, after: string, insert: string, marker: string)
    | Replace(file: string, find: string, insert: string)
    | RegexReplace(file: string, pattern: string, insert: string)
    | UncommentBlock(file: string, marker: string)

  /** The regular-expression library, which is not modelled: whether a
      pattern compiles, `is_match(content)` and
      `replace_all(content, insert)` are left uninterpreted. */
  datatype RegexLib = RegexLib(
    compiles: string -> bool,
    isMatch: (string, string) -> bool,
    replaceAll: (string, string, string) -> string)

  /** What a patch makes of the content it read: leave the file alone, write
      new content, or panic (an invalid pattern reaches `unwrap`). */
  datatype Edit = Keep | Write(content: string) | Panic

  /* ---------------- Append ---------------- */

  /** One line of Append's output: a line containing the anchor is followed
      by the inserted text on a new line. */
  function AppendLine(line: string, after: string, insert: string): string {
    if Contains(line, after) then line + "\n" + insert else line
  }

  /** Every line passed through AppendLine, in order. */
  function AppendEach(ls: seq<string>, after: string, insert: string): seq<string> {
    seq(|ls|, i requires 0 <= i < |ls| => AppendLine(ls[i], after, insert))
  }

  /** The text Append writes: the lines of the content, each followed by
      `insert` when it contains `after`, joined with '\n', plus a final
      '\n'. */
  function AppendText(content: string, after: string, insert: string): (r: string)
    ensures r != [] && r[|r| - 1] == '\n'
  {
    Join(AppendEach(Lines(content), after, insert)) + "\n"
  }

  /* ---------------- UncommentBlock ---------------- */

  /** `line.starts_with('#')` */
  predicate IsComment(line: string) {
    line != [] && line[0] == '#'
  }

  /** `r` is what is left of `line` once its first `h` characters, all of
      them '#', and the whitespace around the rest are removed. */
  ghost predicate StrippedAt(line: string, r: string, h: int) {
    0 <= h <= |line| && (forall k :: 0 <= k < h ==> line[k] == '#')
    && (h == |line| || line[h] != '#')
    && exists i :: PaddedAt(line[h..], r, i)
  }

  /** `line.trim_start_matches('#').trim()`: every leading '#' and then the
      whitespace at both ends are removed. */
  function Uncomment(line: string): (r: string)
    ensures r == [] || (!IsWhitespace(r[0]) && !IsWhitespace(r[|r| - 1]))
  {
    Trim(TrimStartMatches(line, '#'))
  }

  /** What Uncomment keeps is the rest of the line after its leading '#'s,
      less only whitespace at either end. */
  lemma UncommentStripped(line: string)
    ensures exists h :: StrippedAt(line, Uncomment(line), h)
  {
    var h := SkipChar(line, '#', 0);
    SkipCharSkips(line, '#', 0);
    TrimPadded(line[h..]);
    assert StrippedAt(line, Uncomment(line), h);
  }

  /** The lines UncommentBlock produces, scanning from the front: a line
      containing the marker is kept and starts (or continues) the block;
      inside the block a line starting with '#' is uncommented; the first
      other line ends the scan and it and all later lines are kept. */
  function UncommentFrom(ls: seq<string>, marker: string, inBlock: bool): (r: seq<string>)
    ensures |r| == |ls|
  {
    if ls == [] then []
    else if Contains(ls[0], marker) then [ls[0]] + UncommentFrom(ls[1..], marker, true)
    else if !inBlock then [ls[0]] + UncommentFrom(ls[1..], marker, false)
    else if IsComment(ls[0]) then [Uncomment(ls[0])] + UncommentFrom(ls[1..], marker, true)
    else ls
  }

  /** The text UncommentBlock writes. */
  function UncommentText(content: string, marker: string): (r: string)
    ensures r != [] && r[|r| - 1] == '\n'
  {
    Join(UncommentFrom(Lines(content), marker, false)) + "\n"
  }

  /** The scan has looked at the first `i` of the original lines `orig`:
      those are rewritten in `cur`, the rest are untouched, and finishing the
      scan from `i` gives the same lines as scanning from the front. */
  ghost predicate ScannedUpTo(orig: seq<string>, cur: seq<string>, i: nat, marker: string, inBlock: bool) {
    i <= |orig| == |cur| && cur[i..] == orig[i..]
    && UncommentFrom(orig, marker, false) == cur[..i] + UncommentFrom(orig[i..], marker, inBlock)
  }

  /** The scan starts at the front, outside the block. */
  lemma ScanStart(orig: seq<string>, marker: string)
    ensures ScannedUpTo(orig, orig, 0, marker, false)
  {
    assert orig[0..] == orig;
  }

  /** A line holding the marker, or any line before the block, is kept. */
  lemma ScanKeep(orig: seq<string>, cur: seq<string>, i: nat, marker: string, inBlock: bool)
    requires ScannedUpTo(orig, cur, i, marker, inBlock) && i < |orig|
    requires Contains(orig[i], marker) || !inBlock
    ensures ScannedUpTo(orig, cur, i + 1, marker, inBlock || Contains(orig[i], marker))
  {
    var rest := UncommentFrom(orig[i + 1..], marker, inBlock || Contains(orig[i], marker));
    assert orig[i..] == [orig[i]] + orig[i + 1..];
    assert UncommentFrom(orig[i..], marker, inBlock) == [orig[i]] + rest;
    assert cur[i := orig[i]] == cur;
    WriteStep(orig, cur, i, orig[i], UncommentFrom(orig, marker, false), rest);
  }

  /** A comment line inside the block is uncommented. */
  lemma ScanUncomment(orig: seq<string>, cur: seq<string>, i: nat, marker: string)
    requires ScannedUpTo(orig, cur, i, marker, true) && i < |orig|
    requires !Contains(orig[i], marker) && IsComment(orig[i])
    ensures ScannedUpTo(orig, cur[i := Uncomment(orig[i])], i + 1, marker, true)
  {
    var rest := UncommentFrom(orig[i + 1..], marker, true);
    assert orig[i..] == [orig[i]] + orig[i + 1..];
    assert UncommentFrom(orig[i..], marker, true) == [Uncomment(orig[i])] + rest;
    WriteStep(orig, cur, i, Uncomment(orig[i]), UncommentFrom(orig, marker, false), rest);
  }

  /** Writing the value the scan produces at `i` moves the scan on. */
  lemma WriteStep<T>(orig: seq<T>, cur: seq<T>, i: nat, u: T, want: seq<T>, rest: seq<T>)
    requires i < |orig| == |cur| && cur[i..] == orig[i..]
    requires want == cur[..i] + ([u] + rest)
    ensures cur[i := u][i + 1..] == orig[i + 1..]
    ensures want == cur[i := u][..i + 1] + rest
  {
    var next := cur[i := u];
    assert next[..i + 1] == cur[..i] + [u];
    assert next[i + 1..] == cur[i..][1..];
  }

  /** The first other line inside the block ends the scan. */
  lemma ScanStop(orig: seq<string>, cur: seq<string>, i: nat, marker: string)
    requires ScannedUpTo(orig, cur, i, marker, true) && i < |orig|
    requires !Contains(orig[i], marker) && !IsComment(orig[i])
    ensures cur == UncommentFrom(orig, marker, false)
  {
    assert orig[i..] == [orig[i]] + orig[i + 1..];
    assert UncommentFrom(orig[i..], marker, true) == orig[i..];
    assert cur == cur[..i] + cur[i..];
  }

  /** Every line has been looked at. */
  lemma ScanEnd(orig: seq<string>, cur: seq<string>, marker: string, inBlock: bool)
    requires ScannedUpTo(orig, cur, |orig|, marker, inBlock)
    ensures cur == UncommentFrom(orig, marker, false)
  {
    assert orig[|orig|..] == [];
    assert cur[..|orig|] == cur;
  }

  /** The UncommentBlock loop, run in place over the vector of lines. */
  method UncommentInPlace(lines: array<string>, marker: string)
    modifies lines
    ensures lines[..] == UncommentFrom(old(lines[..]), marker, false)
  {
    ghost var orig := lines[..];
    ScanStart(orig, marker);
    var inBlock := false;
    var i := 0;
    while i < lines.Length
      invariant i <= lines.Length
      invariant ScannedUpTo(orig, lines[..], i, marker, inBlock)
    {
      var line := lines[i];
      assert line == orig[i];
      if Contains(line, marker) {
        ScanKeep(orig, lines[..], i, marker, inBlock);
        inBlock := true;
      } else if inBlock {
        if IsComment(line) {
          ScanUncomment(orig, lines[..], i, marker);
          lines[i] := Uncomment(line);
        } else {
          ScanStop(orig, lines[..], i, marker);
          return;
        }
      } else {
        ScanKeep(orig, lines[..], i, marker, inBlock);
      }
      i := i + 1;
    }
    ScanEnd(orig, lines[..], marker, inBlock);
  }

  /* ---------------- the executor ---------------- */

  /** The match in `apply_patch`: each variant's idempotency check and, when
      it does not return early, the content to write. */
  function NewContent(p: Patch, content: string, re: RegexLib): Edit {
    match p
    case Append(_, after, insert, marker) =>
      if Contains(content, marker) then Keep else Write(AppendText(content, after, insert))
    case Replace(_, find, insert) =>
      if Contains(content, insert) then Keep else Write(ReplaceAll(content, find, insert))
    case RegexReplace(_, pattern, insert) =>
      if !re.compiles(pattern) then Panic
      else if re.isMatch(pattern, content) && Contains(content, insert) then Keep
      else Write(re.replaceAll(pattern, content, insert))
    case UncommentBlock(_, marker) =>
      Write(UncommentText(content, marker))
  }

  datatype Status = Ok | WriteFailed | Panicked

  /** The files after a call, and what the call returned. */
  datatype Outcome = Outcome(files: map<string, string>, status: Status)

  /** `apply_patch` over a file system given as a map from path to content.
      A path missing from the map is one `read_to_string` fails on (absent,
      unreadable or not UTF-8); `readOnly` holds the paths where `fs::write`
      fails. */
  function Apply(files: map<string, string>, readOnly: set<string>, p: Patch, re: RegexLib): (o: Outcome)
    ensures o.files.Keys == files.Keys
    ensures forall f :: f in files && f != p.file ==> o.files[f] == files[f]
    ensures p.file !in files ==> o == Outcome(files, Ok)
    ensures o.status != Ok ==> o.files == files
  {
    if p.file !in files then Outcome(files, Ok)
    else match NewContent(p, files[p.file], re)
      case Keep => Outcome(files, Ok)
      case Panic => Outcome(files, Panicked)
      case Write(c) =>
        if p.file in readOnly then Outcome(files, WriteFailed)
        else Outcome(files[p.file := c], Ok)
  }

  /** The working directory whose files the patches edit. */
  class Workspace {
    var files: map<string, string>
    const readOnly: set<string>

    constructor (files: map<string, string>, readOnly: set<string>)
      ensures this.files == files && this.readOnly == readOnly
    {
      this.files := files;
      this.readOnly := readOnly;
    }

    /** `apply_patch(&p)`: read, check, transform, write back. */
    method ApplyPatch(p: Patch, re: RegexLib) returns (status: Status)
      modifies this
      ensures Outcome(files, status) == Apply(old(files), readOnly, p, re)
    {
      if p.file !in files {
        return Ok;
      }
      var content := files[p.file];
      var newContent: string;
      match p {
        case Append(_, after, insert, marker) =>
          if Contains(content, marker) {
            return Ok;
          }
          newContent := AppendText(content, after, insert);
        case Replace(_, find, insert) =>
          if Contains(content, insert) {
            return Ok;
          }
          newContent := ReplaceAll(content, find, insert);
        case RegexReplace(_, pattern, insert) =>
          if !re.compiles(pattern) {
            return Panicked;
          }
          if re.isMatch(pattern, content) && Contains(content, insert) {
            return Ok;
          }
          newContent := re.replaceAll(pattern, content, insert);
        case UncommentBlock(_, marker) =>
          var ls := Lines(content);
          var lines := new string[|ls|](i requires 0 <= i < |ls| => ls[i]);
          assert lines[..] == ls;
          UncommentInPlace(lines, marker);
          newContent := Join(lines[..]) + "\n";
      }
      if p.file in readOnly {
        return WriteFailed;
      }
      files := files[p.file := newContent];
      status := Ok;
    }
  }
}
