/** The pure part of the STM32CubeMX driver: the toolchains a project can
    be generated for, their display names, and the command script that
    `generate_code` hands to STM32CubeMX. */
module CubeMX {
  import opened StrSearch
  import opened StrLines

  /** The target toolchains STM32CubeMX can generate a project for. */
  datatype Toolchain =
    | EwarmV832 | EwarmV800 | EwarmV700
    | MdmArmV532 | MdmArmV527 | MdmArmV500 | MdmArmV400
    | STM32CubeIDE | Makefile | CMake

  datatype Option<T> = None | Some(value: T)

  datatype Result<T> = Ok(value: T) | Err(msg: string)

  /** `get_toolchain`: the name STM32CubeMX knows the toolchain by. It is
      never empty and can be quoted on a script line: it holds no '"' and
      no line break. */
  function ToolchainName(t: Toolchain): (name: string)
    ensures name != [] && '"' !in name && '\n' !in name && '\r' !in name
  {
    match t
    case EwarmV832 => "EWARM V8.32"
    case EwarmV800 => "EWARM V8"
    case EwarmV700 => "EWARM V7"
    case MdmArmV532 => "MDK-ARM V5.32"
    case MdmArmV527 => "MDK-ARM V5.27"
    case MdmArmV500 => "MDK-ARM V5"
    case MdmArmV400 => "MDK-ARM V4"
    case STM32CubeIDE => "STM32CubeIDE"
    case Makefile => "Makefile"
    case CMake => "CMake"
  }

  /** No two toolchains share a name. */
  lemma ToolchainNamesDistinct(a: Toolchain, b: Toolchain)
    ensures ToolchainName(a) == ToolchainName(b) ==> a == b
  {
  }

  const LoadPrefix: string := "config load "
  const UnderRootLine: string := "project generateunderroot 1"
  const CoupleLine: string := "project couplefilesbyip 1"
  const GenerateLine: string := "project generate"
  const ExitLine: string := "exit"
  const NoSingleIoc: string := "No ioc file is provided or multiple ioc files are provided."

  /** `project toolchain "<name>"` */
  function ToolchainLine(t: Toolchain): string {
    "project toolchain \"" + ToolchainName(t) + "\""
  }

  /** The lines of the script, in order. */
  function ScriptLines(ioc: string, tc: Option<Toolchain>): seq<string> {
    [LoadPrefix + ioc]
    + (match tc
       case None => []
       case Some(t) => [ToolchainLine(t)] + (if t == STM32CubeIDE then [UnderRootLine] else []))
    + [CoupleLine, GenerateLine, ExitLine]
  }

  /** The script text built in `generate_code`: each line is written with
      its '\n' except the last, `exit`. */
  method BuildScript(ioc: string, tc: Option<Toolchain>) returns (script: string)
    ensures script == Join(ScriptLines(ioc, tc))
  {
    ghost var written: seq<string> := [];
    script := [];
    script := WriteLine(script, written, LoadPrefix + ioc);
    written := written + [LoadPrefix + ioc];
    if tc.Some? {
      script := WriteLine(script, written, ToolchainLine(tc.value));
      written := written + [ToolchainLine(tc.value)];
      if tc.value == STM32CubeIDE {
        script := WriteLine(script, written, UnderRootLine);
        written := written + [UnderRootLine];
      }
    }
    script := WriteLine(script, written, CoupleLine);
    written := written + [CoupleLine];
    script := WriteLine(script, written, GenerateLine);
    written := written + [GenerateLine];
    JoinSnoc(written, ExitLine);
    script := script + ExitLine;
    assert written + [ExitLine] == ScriptLines(ioc, tc);
  }

  /** `write!(script, "{line}\n")` */
  method WriteLine(script: string, ghost written: seq<string>, line: string) returns (r: string)
    requires script == Unlines(written)
    ensures r == Unlines(written + [line])
  {
    UnlinesSnoc(written, line);
    r := script + line + "\n";
  }

  /** `generate_code` up to `run_script`: it fails, and no script is run,
      unless exactly one `.ioc` file was found; otherwise it returns the
      script for that file. */
  method GenerateCode(iocFiles: seq<string>, tc: Option<Toolchain>) returns (r: Result<string>)
    ensures r.Err? <==> |iocFiles| != 1
    ensures r.Err? ==> r.msg == NoSingleIoc
    ensures r.Ok? ==> r.value == Join(ScriptLines(iocFiles[0], tc))
  {
    if |iocFiles| != 1 {
      return Err(NoSingleIoc);
    }
    var script := BuildScript(iocFiles[0], tc);
    return Ok(script);
  }

  /* ---------------- what the script says ---------------- */

  /** `s.ends_with(p)` */
  predicate EndsWith(s: string, p: string) {
    |p| <= |s| && s[|s| - |p|..] == p
  }

  /** The script opens by loading the `.ioc` file on a line of its own. */
  lemma ScriptStartsWithLoad(ioc: string, tc: Option<Toolchain>)
    ensures StartsWith(Join(ScriptLines(ioc, tc)), LoadPrefix + ioc + "\n")
  {
    var ls := ScriptLines(ioc, tc);
    JoinPrepend(ls[0], ls[1..]);
    assert ls == [ls[0]] + ls[1..];
    var s := Join(ls);
    assert s == (LoadPrefix + ioc + "\n") + Join(ls[1..]);
  }

  /** The script always closes with the coupling option, the generate
      command and `exit`, with no '\n' after `exit`. */
  lemma ScriptEndsWithExit(ioc: string, tc: Option<Toolchain>)
    ensures EndsWith(Join(ScriptLines(ioc, tc)), CoupleLine + "\n" + GenerateLine + "\n" + ExitLine)
    ensures var s := Join(ScriptLines(ioc, tc)); s != [] && s[|s| - 1] == 't'
  {
    var ls := ScriptLines(ioc, tc);
    var head := ls[..|ls| - 3];
    assert ls == head + [CoupleLine] + [GenerateLine] + [ExitLine];
    JoinLastThree(head, CoupleLine, GenerateLine, ExitLine);
    EndsWithAppend(Unlines(head), CoupleLine + "\n" + GenerateLine + "\n" + ExitLine);
  }

  /** Joining lines that end with `a`, `b`, `c` ends with those three. */
  lemma JoinLastThree(head: seq<string>, a: string, b: string, c: string)
    ensures Join(head + [a] + [b] + [c]) == Unlines(head) + (a + "\n" + b + "\n" + c)
  {
    JoinSnoc(head + [a] + [b], c);
    UnlinesSnoc(head + [a], b);
    UnlinesSnoc(head, a);
  }

  lemma EndsWithAppend(x: string, t: string)
    ensures EndsWith(x + t, t)
  {
    assert (x + t)[|x + t| - |t|..] == t;
  }

  /** The line that names `t` is none of the script's fixed lines. */
  lemma ToolchainLineNotFixed(t: Toolchain, ioc: string)
    ensures ToolchainLine(t) != LoadPrefix + ioc && ToolchainLine(t) != UnderRootLine
    ensures ToolchainLine(t) != CoupleLine && ToolchainLine(t) != GenerateLine && ToolchainLine(t) != ExitLine
  {
    var l := ToolchainLine(t);
    assert l[0] == 'p' && l[8] == 't';
    assert (LoadPrefix + ioc)[0] == 'c';
    assert UnderRootLine[8] == 'g' && CoupleLine[8] == 'c' && GenerateLine[8] == 'g';
  }

  /** Toolchain lines for different toolchains differ. */
  lemma ToolchainLineInjective(a: Toolchain, b: Toolchain)
    ensures ToolchainLine(a) == ToolchainLine(b) ==> a == b
  {
    var l := ToolchainLine(a);
    assert l[19..|l| - 1] == ToolchainName(a);
    var m := ToolchainLine(b);
    assert m[19..|m| - 1] == ToolchainName(b);
    ToolchainNamesDistinct(a, b);
  }

  /** A `project toolchain` line naming `t` is in the script if and only
      if `t` was the toolchain asked for. */
  lemma ToolchainLineIff(ioc: string, tc: Option<Toolchain>, t: Toolchain)
    ensures ToolchainLine(t) in ScriptLines(ioc, tc) <==> tc == Some(t)
  {
    ToolchainLineNotFixed(t, ioc);
    if tc.Some? {
      ToolchainLineInjective(t, tc.value);
    }
  }

  /** `project generateunderroot 1` is in the script if and only if the
      toolchain asked for is STM32CubeIDE, and then it comes right after
      the toolchain line, as the third line. */
  lemma UnderRootIff(ioc: string, tc: Option<Toolchain>)
    ensures UnderRootLine in ScriptLines(ioc, tc) <==> tc == Some(STM32CubeIDE)
    ensures tc == Some(STM32CubeIDE) ==>
      ScriptLines(ioc, tc)[1] == ToolchainLine(STM32CubeIDE) && ScriptLines(ioc, tc)[2] == UnderRootLine
  {
    assert (LoadPrefix + ioc)[0] == 'c' && UnderRootLine[0] == 'p';
    assert CoupleLine[8] == 'c' && UnderRootLine[8] == 'g';
    assert |GenerateLine| != |UnderRootLine|;
    if tc.Some? {
      ToolchainLineNotFixed(tc.value, ioc);
    }
  }

  /** The script's lines are plain when the `.ioc` path has no line
      break. */
  lemma ScriptLinesPlain(ioc: string, tc: Option<Toolchain>)
    requires '\n' !in ioc && '\r' !in ioc
    ensures PlainLines(ScriptLines(ioc, tc))
  {
    var ls := ScriptLines(ioc, tc);
    forall i | 0 <= i < |ls| ensures '\n' !in ls[i] && !EndsWithCR(ls[i]) {
      if i == 0 {
        assert ls[0] == LoadPrefix + ioc;
        assert ls[0][|ls[0]| - 1] == if ioc == [] then ' ' else ioc[|ioc| - 1];
      } else if tc.Some? && i == 1 {
        var name := ToolchainName(tc.value);
        assert ls[1] == "project toolchain \"" + name + "\"";
      }
    }
  }

  /** Read back with `lines()`, the script gives exactly its lines: the
      first is `config load <ioc>`, and the last is `exit`. */
  lemma ScriptLinesRoundTrip(ioc: string, tc: Option<Toolchain>)
    requires '\n' !in ioc && '\r' !in ioc
    ensures Lines(Join(ScriptLines(ioc, tc))) == ScriptLines(ioc, tc)
  {
    var ls := ScriptLines(ioc, tc);
    ScriptEndsWithExit(ioc, tc);
    ScriptLinesPlain(ioc, tc);
    LinesTerminate(Join(ls));
    LinesOfJoin(ls);
  }
}
