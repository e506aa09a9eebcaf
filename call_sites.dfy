/** The patches the CMake and CLion initializers and the project creator
    apply, and what the patch engine makes of them. */
module CallSites {
  import opened StrSearch
  import opened StrLines
  import opened StrReplace
  import opened Patches
  import opened PatchLaws
  import opened PatchTexts

  /* ---------------- the FPU options of the CMake initializer ---------------- */

  /** The compiler-settings section of a generated CMakeLists.txt. */
  function SettingsSection(): seq<string> {
    [SettingsHeader, CStandard, CStandardRequired, CExtensions]
  }

  /** The anchor both FPU patches pass: the whole section, with its line
      breaks. */
  function FpuAnchor(): string {
    Join(SettingsSection())
  }

  /** The Append of the hardware floating-point options, as written. */
  function HardFpuPatch(): Patch {
    Append(CMakeLists, FpuAnchor(), "\n" + HardFpuMarker + HardFpuBody, HardFpuMarker)
  }

  /** The Append of the software floating-point options, as written; its
      marker is the hardware one. */
  function SoftFpuPatch(): Patch {
    Append(CMakeLists, FpuAnchor(), "\n" + SoftFpuMarker + SoftFpuBody, HardFpuMarker)
  }

  /** The hardware Append anchored on the last line of the section, which a
      single line can contain. */
  function HardFpuPatchCorrected(): Patch {
    Append(CMakeLists, CExtensions, "\n" + HardFpuMarker + HardFpuBody, HardFpuMarker)
  }

  /** The software Append anchored on the same single line, and marked by
      its own marker line, so that a second run finds it. */
  function SoftFpuPatchCorrected(): Patch {
    Append(CMakeLists, CExtensions, "\n" + SoftFpuMarker + SoftFpuBody, SoftFpuMarker)
  }

  /** The anchor has a line break after its first line. */
  lemma FpuAnchorSpansLines()
    ensures '\n' in FpuAnchor()
  {
    var ls := SettingsSection();
    assert ls == [ls[0]] + ls[1..];
    JoinPrepend(ls[0], ls[1..]);
    assert FpuAnchor()[|SettingsHeader|] == '\n';
  }

  /** As written, neither FPU patch inserts anything, whatever the file
      holds: no line that `lines()` produces contains the anchor, so the
      file is only rewritten with its lines rejoined. */
  lemma FpuAnchorNeverMatches(files: map<string, string>, readOnly: set<string>, re: RegexLib)
    requires CMakeLists in files && CMakeLists !in readOnly
    requires !Contains(files[CMakeLists], HardFpuMarker)
    ensures Apply(files, readOnly, HardFpuPatch(), re)
      == Outcome(files[CMakeLists := Join(Lines(files[CMakeLists])) + "\n"], Ok)
    ensures Apply(files, readOnly, SoftFpuPatch(), re)
      == Outcome(files[CMakeLists := Join(Lines(files[CMakeLists])) + "\n"], Ok)
  {
    FpuAnchorSpansLines();
    MultiLineAnchorNeverMatches(files[CMakeLists], FpuAnchor(), "\n" + HardFpuMarker + HardFpuBody);
    MultiLineAnchorNeverMatches(files[CMakeLists], FpuAnchor(), "\n" + SoftFpuMarker + SoftFpuBody);
  }

  /** The section's lines are printable and hold no 'w'. */
  lemma SectionChars()
    ensures forall i :: 0 <= i < |SettingsSection()| ==> Printable(SettingsSection()[i]) && 'w' !in SettingsSection()[i]
  {
    SettingsHeaderChars();
    CStandardChars();
    CStandardRequiredChars();
    CExtensionsChars();
  }

  /** The section reads back as its four lines. */
  lemma SectionLines()
    ensures Lines(FpuAnchor() + "\n") == SettingsSection()
  {
    var ls := SettingsSection();
    SectionChars();
    forall i | 0 <= i < |ls| ensures '\n' !in ls[i] && !EndsWithCR(ls[i]) {
      PrintableNoBreak(ls[i]);
    }
    LinesOfJoin(ls);
  }

  /** The section holds no '\r' and neither FPU marker. */
  lemma SectionLacksMarker()
    ensures '\r' !in FpuAnchor() + "\n"
    ensures !Contains(FpuAnchor() + "\n", HardFpuMarker)
    ensures !Contains(FpuAnchor() + "\n", SoftFpuMarker)
  {
    var ls := SettingsSection();
    SectionChars();
    forall i | 0 <= i < |ls| ensures 'w' !in ls[i] && '\r' !in ls[i] {
      PrintableNoBreak(ls[i]);
    }
    JoinLacks(ls, 'w');
    JoinLacks(ls, '\r');
    assert HardFpuMarker[19] == 'w';
    LacksChar(FpuAnchor() + "\n", HardFpuMarker, 'w');
    assert SoftFpuMarker[19] == 'w';
    LacksChar(FpuAnchor() + "\n", SoftFpuMarker, 'w');
  }

  /** A section made of the generated settings holds the anchor text, yet
      the hardware patch leaves it exactly as it was: the FPU block is
      never added. */
  lemma FpuSectionLeftUnchanged(files: map<string, string>, readOnly: set<string>, re: RegexLib)
    requires CMakeLists in files && CMakeLists !in readOnly
    requires files[CMakeLists] == FpuAnchor() + "\n"
    ensures Contains(files[CMakeLists], FpuAnchor())
    ensures Apply(files, readOnly, HardFpuPatch(), re) == Outcome(files, Ok)
  {
    var c := FpuAnchor() + "\n";
    ContainsSelf(FpuAnchor());
    ContainsInfix([], FpuAnchor(), "\n", FpuAnchor());
    assert [] + FpuAnchor() + "\n" == c;
    SectionLacksMarker();
    FpuAnchorSpansLines();
    MultiLineAnchorKeeps(files, readOnly, HardFpuPatch(), re);
  }

  /** Anchored on a single line, either FPU patch places its marker in the
      file, and running it again changes nothing. */
  lemma FpuCorrectedInserts(files: map<string, string>, readOnly: set<string>, re: RegexLib, p: Patch, i: nat)
    requires p == HardFpuPatchCorrected() || p == SoftFpuPatchCorrected()
    requires CMakeLists in files && CMakeLists !in readOnly
    requires !Contains(files[CMakeLists], p.marker)
    requires i < |Lines(files[CMakeLists])| && Contains(Lines(files[CMakeLists])[i], CExtensions)
    ensures Contains(Apply(files, readOnly, p, re).files[CMakeLists], p.marker)
    ensures var once := Apply(files, readOnly, p, re).files;
      Apply(once, readOnly, p, re) == Outcome(once, Ok)
  {
    ContainsSelf(p.marker);
    if p == HardFpuPatchCorrected() {
      ContainsInfix("\n", HardFpuMarker, HardFpuBody, HardFpuMarker);
    } else {
      ContainsInfix("\n", SoftFpuMarker, SoftFpuBody, SoftFpuMarker);
    }
    AppendPlacesInsert(files[CMakeLists], CExtensions, p.insert, p.marker, i);
    AppendIdempotent(files, readOnly, p, re, i);
  }

  /** On the generated section, either corrected patch inserts its whole
      block: its anchor is the section's last line. */
  lemma FpuCorrectedOnSection(files: map<string, string>, readOnly: set<string>, re: RegexLib, p: Patch)
    requires p == HardFpuPatchCorrected() || p == SoftFpuPatchCorrected()
    requires CMakeLists in files && CMakeLists !in readOnly
    requires files[CMakeLists] == FpuAnchor() + "\n"
    ensures Contains(Apply(files, readOnly, p, re).files[CMakeLists], p.insert)
    ensures Contains(Apply(files, readOnly, p, re).files[CMakeLists], p.marker)
    ensures var once := Apply(files, readOnly, p, re).files;
      Apply(once, readOnly, p, re) == Outcome(once, Ok)
  {
    SectionLacksMarker();
    SectionLines();
    ContainsSelf(CExtensions);
    ContainsSelf(p.insert);
    AppendPlacesInsert(files[CMakeLists], CExtensions, p.insert, p.insert, 3);
    FpuCorrectedInserts(files, readOnly, re, p, 3);
  }

  /** An Append whose anchor spans lines leaves a '\n'-terminated file
      without '\r' exactly as it was. */
  lemma MultiLineAnchorKeeps(files: map<string, string>, readOnly: set<string>, p: Patch, re: RegexLib)
    requires p.Append? && p.file in files && p.file !in readOnly && '\n' in p.after
    requires !Contains(files[p.file], p.marker) && '\r' !in files[p.file]
    requires files[p.file] != [] && files[p.file][|files[p.file]| - 1] == '\n'
    ensures Apply(files, readOnly, p, re) == Outcome(files, Ok)
  {
    var c := files[p.file];
    MultiLineAnchorNeverMatches(c, p.after, p.insert);
    JoinOfLines(c);
    assert files[p.file := c] == files;
  }

  /** A character that is no line break and in no line is not in their
      join. */
  lemma {:induction false} JoinLacks(ls: seq<string>, ch: char)
    requires ch != '\n' && forall i :: 0 <= i < |ls| ==> ch !in ls[i]
    ensures ch !in Join(ls)
    decreases |ls|
  {
    if |ls| > 1 {
      JoinLacks(ls[1..], ch);
    }
  }

  /* ---------------- the single-line Appends of the CMake initializer ---------------- */

  /** The Append that adds the user include directory after the
      include-path comment; the insert is its own marker. */
  function UserIncludesPatch(): Patch {
    Append(CMakeLists, IncludePathsAnchor, UserCodeIncludes, UserCodeIncludes)
  }

  /** The Append that lists the user sources, indented, after their
      comment; the marker is the unindented variable. */
  function UserSourcesPatch(): Patch {
    Append(CMakeLists, UserSourcesAnchor, "    " + SourcesVariable, SourcesVariable)
  }

  /** Once the anchor comment is in the file, either patch leaves its
      marker behind, and applying it again changes nothing. */
  lemma SingleLineAppendsSettle(files: map<string, string>, readOnly: set<string>, re: RegexLib, p: Patch, i: nat)
    requires p == UserIncludesPatch() || p == UserSourcesPatch()
    requires CMakeLists in files && CMakeLists !in readOnly
    requires i < |Lines(files[CMakeLists])| && Contains(Lines(files[CMakeLists])[i], p.after)
    ensures Contains(Apply(files, readOnly, p, re).files[CMakeLists], p.marker)
    ensures var once := Apply(files, readOnly, p, re).files;
      Apply(once, readOnly, p, re) == Outcome(once, Ok)
  {
    ContainsSelf(p.marker);
    ContainsInfix("    ", SourcesVariable, [], SourcesVariable);
    assert "    " + SourcesVariable + [] == "    " + SourcesVariable;
    if !Contains(files[CMakeLists], p.marker) {
      AppendPlacesInsert(files[CMakeLists], p.after, p.insert, p.marker, i);
    }
    AppendIdempotent(files, readOnly, p, re, i);
  }

  /* ---------------- the Replaces of the CLion initializer ---------------- */

  /** The Replace that adds the user directory to the include paths of the
      CMake template. */
  function IncludesPatch(): Patch {
    Replace(CMakeTemplate, IncludesFind, IncludesInsert)
  }

  /** On a template whose only occurrence of the include line is the one
      after `a`, the line is rewritten in place and the rest is kept; a
      second run changes nothing. */
  lemma IncludesRewritten(files: map<string, string>, readOnly: set<string>, re: RegexLib, a: string, b: string)
    requires CMakeTemplate in files && CMakeTemplate !in readOnly
    requires files[CMakeTemplate] == a + IncludesFind + b
    requires !Contains(a + IncludesFind + b, IncludesInsert)
    requires NoMatchBefore(a + IncludesFind + b, IncludesFind, |a|) && !Contains(b, IncludesFind)
    ensures Apply(files, readOnly, IncludesPatch(), re) == Outcome(files[CMakeTemplate := a + IncludesInsert + b], Ok)
    ensures var once := Apply(files, readOnly, IncludesPatch(), re).files;
      Apply(once, readOnly, IncludesPatch(), re) == Outcome(once, Ok)
  {
    ReplaceWrites(files, readOnly, IncludesPatch(), re, a, b);
    ReplaceAllNoMatch(b, IncludesFind, IncludesInsert);
    ContainsSelf(IncludesInsert);
    ContainsInfix(a, IncludesInsert, b, IncludesInsert);
    ReplaceSkipsPresent(files[CMakeTemplate := a + IncludesInsert + b], readOnly, IncludesPatch(), re);
  }

  /* ---------------- the UncommentBlocks of the CLion initializer ---------------- */

  function HardFpuBlockPatch(): Patch {
    UncommentBlock(CMakeTemplate, HardFpuMarker)
  }

  function SoftFpuBlockPatch(): Patch {
    UncommentBlock(CMakeTemplate, SoftFpuMarker)
  }

  /** Choosing hardware floating point uncomments the commented lines under
      the hardware marker, up to the blank line, and leaves the software
      block after it commented. */
  lemma HardFpuBlockOnly(pre: seq<string>, hard: seq<string>, soft: seq<string>, post: seq<string>)
    requires forall i :: 0 <= i < |pre| ==> !Contains(pre[i], HardFpuMarker)
    requires forall i :: 0 <= i < |hard| ==> IsComment(hard[i]) && !Contains(hard[i], HardFpuMarker)
    ensures UncommentFrom(pre + [HardFpuMarker] + hard + [""] + ([SoftFpuMarker] + soft + post), HardFpuMarker, false)
      == pre + [HardFpuMarker] + UncommentAll(hard) + [""] + ([SoftFpuMarker] + soft + post)
  {
    ContainsSelf(HardFpuMarker);
    assert HardFpuMarker[0] == '#';
    LacksChar("", HardFpuMarker, '#');
    UncommentBlockShape(pre, HardFpuMarker, hard, "", [SoftFpuMarker] + soft + post, HardFpuMarker);
  }

  /** Choosing software floating point leaves the hardware block commented
      and uncomments the commented lines under the software marker, up to
      the next blank line; the lines after it are kept. */
  lemma SoftFpuBlockOnly(pre: seq<string>, hard: seq<string>, soft: seq<string>, post: seq<string>)
    requires forall i :: 0 <= i < |pre| ==> !Contains(pre[i], SoftFpuMarker)
    requires forall i :: 0 <= i < |hard| ==> !Contains(hard[i], SoftFpuMarker)
    requires forall i :: 0 <= i < |soft| ==> IsComment(soft[i]) && !Contains(soft[i], SoftFpuMarker)
    ensures UncommentFrom(pre + [HardFpuMarker] + hard + [""] + [SoftFpuMarker] + soft + [""] + post, SoftFpuMarker, false)
      == pre + [HardFpuMarker] + hard + [""] + [SoftFpuMarker] + UncommentAll(soft) + [""] + post
  {
    MarkerChars();
    LacksChar(HardFpuMarker, SoftFpuMarker, 's');
    LacksChar("", SoftFpuMarker, 's');
    ContainsSelf(SoftFpuMarker);
    var front := pre + [HardFpuMarker] + hard + [""];
    forall i | 0 <= i < |front| ensures !Contains(front[i], SoftFpuMarker) {
      if i < |pre| {
        assert front[i] == pre[i];
      } else if i == |pre| {
        assert front[i] == HardFpuMarker;
      } else if i < |front| - 1 {
        assert front[i] == hard[i - |pre| - 1];
      }
    }
    UncommentBlockShape(front, SoftFpuMarker, soft, "", post, SoftFpuMarker);
  }

  /** What the CLion initializer writes when hardware floating point is
      chosen: the template's lines with the hardware block uncommented,
      joined with '\n' and ended by one; a read-only template is a failed
      write. */
  lemma HardFpuBlockApplied(files: map<string, string>, readOnly: set<string>, re: RegexLib,
                            pre: seq<string>, hard: seq<string>, soft: seq<string>, post: seq<string>)
    requires CMakeTemplate in files
    requires Lines(files[CMakeTemplate]) == pre + [HardFpuMarker] + hard + [""] + ([SoftFpuMarker] + soft + post)
    requires forall i :: 0 <= i < |pre| ==> !Contains(pre[i], HardFpuMarker)
    requires forall i :: 0 <= i < |hard| ==> IsComment(hard[i]) && !Contains(hard[i], HardFpuMarker)
    ensures Apply(files, readOnly, HardFpuBlockPatch(), re) ==
      if CMakeTemplate in readOnly then Outcome(files, WriteFailed)
      else Outcome(files[CMakeTemplate :=
        Join(pre + [HardFpuMarker] + UncommentAll(hard) + [""] + ([SoftFpuMarker] + soft + post)) + "\n"], Ok)
  {
    HardFpuBlockOnly(pre, hard, soft, post);
  }

  /** What the CLion initializer writes when software floating point is
      chosen: the template's lines with the software block uncommented. */
  lemma SoftFpuBlockApplied(files: map<string, string>, readOnly: set<string>, re: RegexLib,
                            pre: seq<string>, hard: seq<string>, soft: seq<string>, post: seq<string>)
    requires CMakeTemplate in files
    requires Lines(files[CMakeTemplate]) == pre + [HardFpuMarker] + hard + [""] + [SoftFpuMarker] + soft + [""] + post
    requires forall i :: 0 <= i < |pre| ==> !Contains(pre[i], SoftFpuMarker)
    requires forall i :: 0 <= i < |hard| ==> !Contains(hard[i], SoftFpuMarker)
    requires forall i :: 0 <= i < |soft| ==> IsComment(soft[i]) && !Contains(soft[i], SoftFpuMarker)
    ensures Apply(files, readOnly, SoftFpuBlockPatch(), re) ==
      if CMakeTemplate in readOnly then Outcome(files, WriteFailed)
      else Outcome(files[CMakeTemplate :=
        Join(pre + [HardFpuMarker] + hard + [""] + [SoftFpuMarker] + UncommentAll(soft) + [""] + post) + "\n"], Ok)
  {
    SoftFpuBlockOnly(pre, hard, soft, post);
  }

  /* ---------------- the RegexReplace of the project creator ---------------- */

  /** The patch that pins the external oscillator frequency in the
      project's `.ioc` file. */
  function HsePatch(projectName: string): Patch {
    RegexReplace(projectName + ".ioc", HsePattern, HseInsert)
  }

  /** With a pattern that compiles, the `.ioc` file is left alone exactly
      when the pattern matches and the pinned setting is already there;
      otherwise the engine's rewrite is written. */
  lemma HsePinned(files: map<string, string>, readOnly: set<string>, re: RegexLib, projectName: string)
    requires projectName + ".ioc" in files && projectName + ".ioc" !in readOnly && re.compiles(HsePattern)
    ensures var c := files[projectName + ".ioc"];
      Apply(files, readOnly, HsePatch(projectName), re) ==
        if re.isMatch(HsePattern, c) && Contains(c, HseInsert) then Outcome(files, Ok)
        else Outcome(files[projectName + ".ioc" := re.replaceAll(HsePattern, c, HseInsert)], Ok)
  {
    RegexSkipsIff(files, readOnly, HsePatch(projectName), re);
  }
}
