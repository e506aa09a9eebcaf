# stm32tool patch engine and STM32CubeMX script, in Dafny

stm32tool sets up STM32 firmware projects. This project models two of its
parts and proves properties about them.

**The patch engine** (`src/patches.rs`). A `Patch` is one textual edit of one
file. There are four kinds:

- Append inserts a line after every line that holds an anchor.
- Replace rewrites every occurrence of a string.
- RegexReplace rewrites the matches of a regular expression.
- UncommentBlock removes the leading `#`s from the commented lines that follow
  a marker line.

`apply_patch` works in four steps:

1. It reads the target file. If the file cannot be read, it returns success.
2. If the patch's effect is already there, it returns early. An invalid
   pattern panics instead.
3. Otherwise it computes the new text.
4. It writes the new text back to the same path.

The model covers:

- Rust's string operations:
  - `str::contains` is `StrSearch.Contains`, in `str_search.dfy`;
  - `str::lines` and `join("\n")` are `StrLines.Lines` and `StrLines.Join`,
    in `str_lines.dfy`;
  - `str::replace` is `StrReplace.ReplaceAll`, in `str_replace.dfy`;
  - `trim_start_matches('#')` and `trim` are `StrTrim.TrimStartMatches`
    and `StrTrim.Trim`, in `str_trim.dfy`.
- The four transformations and the executor, in `patches.dfy`.
  - The `match` of `apply_patch` (src/patches.rs:37-98) is
    `Patches.NewContent`. It gives either an early return, a panic or the
    new text, built by `Patches.AppendText`, `StrReplace.ReplaceAll`, the
    regex engine or `Patches.UncommentText`.
  - The executor exists twice. `Patches.Apply` is a function over a file map.
  - `Patches.Workspace.ApplyPatch` is a method that updates the workspace's
    files in place.
  - UncommentBlock's loop is the in-place method `Patches.UncommentInPlace`,
    over an array of lines.
- The laws of the engine, in `patch_laws.dfy`.
- The patches the CMake and CLion initializers and the project creator
  actually apply, in `patch_texts.dfy` and `call_sites.dfy`.

**The STM32CubeMX driver** (`src/stm32cubemx.rs`). `cubemx.dfy` models:

- the toolchain enumeration and `get_toolchain`;
- the command script that `generate_code` builds line by line
  (`CubeMX.BuildScript`), and its list of lines, `CubeMX.ScriptLines`
  (src/stm32cubemx.rs:90-106).

The directory listing becomes a parameter holding the `.ioc` files found.
The script is proved to be built from its list of lines, and each promise
about the script is a lemma about that list.

## Model

| member | source | states |
|---|---|---|
| StrSearch.ContainsIff | src/patches.rs:44 | `contains` holds exactly when the needle occurs at some index, so an empty needle is found in every text |
| StrLines.Lines | src/patches.rs:47-48 | `lines()` gives no lines for the empty text and only for it, and no line holds a '\n' |
| StrLines.LinesCRLF | src/patches.rs:47-48 | `lines()` drops a "\r\n" line ending whole: the line before it is read without its '\r' |
| StrLines.LinesFinalCR | src/patches.rs:47-48 | a '\r' that no '\n' follows stays in the last line |
| StrLines.LinesOfJoin | src/patches.rs:47-58 | a non-empty list of lines, none holding '\n' or ending in '\r', joined with '\n' and given a final '\n', is read back by `lines()` as exactly those lines (the empty list is not: "\n" reads back as one empty line) |
| StrLines.JoinOfLines | src/patches.rs:56-58 | for a text without '\r', joining its lines with '\n' and adding '\n' gives the text with a final '\n' added only if it had none |
| StrLines.LinesTerminate | src/patches.rs:76 | a final '\n' added after a character other than '\r' or '\n' does not change the lines |
| StrReplace.ReplaceAllNoMatch | src/patches.rs:64 | `replace` leaves a text without an occurrence of a non-empty pattern unchanged |
| StrReplace.ReplaceAllFirst | src/patches.rs:64 | for a non-empty pattern, at its first occurrence `replace` emits the text before it, then the replacement, then continues after the occurrence |
| StrReplace.ReplaceAllInserts | src/patches.rs:64 | once an occurrence was replaced, the replacement is in the result |
| StrReplace.ReplaceAllSelf | src/patches.rs:64 | replacing a pattern by itself changes nothing |
| StrReplace.ReplaceAllEmptyPattern | src/patches.rs:64 | an empty pattern matches at every boundary: the empty text becomes the replacement, and each further character is followed by one more copy of it |
| StrReplace.ReplaceAllEmptyPatternLength | src/patches.rs:64 | with an empty pattern a text of n characters gains n + 1 copies of the replacement |
| StrTrim.Trim | src/patches.rs:88 | after `trim` neither end of the line is whitespace |
| StrTrim.TrimPadded | src/patches.rs:88 | what `trim` keeps is a slice of the line, with only whitespace before and after it |
| StrTrim.TrimStartMatches | src/patches.rs:88 | after `trim_start_matches('#')` the text does not start with '#' |
| Patches.AppendText | src/patches.rs:47-58 | Append's output always ends with '\n' |
| Patches.Uncomment | src/patches.rs:88 | an uncommented line neither starts nor ends with whitespace |
| Patches.UncommentStripped | src/patches.rs:88 | uncommenting removes all the leading '#'s, then whitespace at both ends, and nothing else |
| Patches.UncommentFrom | src/patches.rs:76-94 | the scan keeps the number of lines |
| Patches.UncommentText | src/patches.rs:96 | UncommentBlock's output always ends with '\n' |
| Patches.UncommentInPlace | src/patches.rs:76-94 | after the loop over the array, it holds the scan's result for the original lines: marker lines kept, comment lines after a marker uncommented, everything from the first other line on kept |
| Patches.Apply | src/patches.rs:31-111 | the set of paths is kept and only the patch's own file can change. An unreadable file gives success and no write. A failure status means no file changed |
| Patches.Workspace.ApplyPatch | src/patches.rs:31-111 | the workspace's files and the returned status after the call are those `Apply` gives for the files before it |
| PatchLaws.UnreadableSkipped | src/patches.rs:32-35 | a patch whose file cannot be read returns success and changes nothing |
| PatchLaws.AppendSkipsMarked | src/patches.rs:44-46 | Append leaves a file that already holds its marker alone. So does an empty marker |
| PatchLaws.JoinAppendEach | src/patches.rs:47-58 | the line-by-line mapping, once joined, equals the reference layout `Expand`: each line in order, with `insert` as a line of its own after each line holding the anchor |
| PatchLaws.AppendTextLayout | src/patches.rs:47-58 | Append's output is the reference layout joined with '\n', plus a final '\n' |
| PatchLaws.ExpandPlain | src/patches.rs:47-58 | the reference layout of lines without line breaks has no line breaks when `insert` has none |
| PatchLaws.AppendLines | src/patches.rs:47-58 | for a non-empty text whose lines hold no '\r' at their end, and an `insert` of one line not ending in '\r', Append's output read back with `lines()` is exactly the reference layout of the input's lines; a multi-line `insert` is read back as several lines |
| PatchLaws.ExpandWithoutAnchor | src/patches.rs:47-58 | without an anchor line, the layout is the input lines |
| PatchLaws.CRLFWrittenAsLF | src/patches.rs:47-96 | when neither finds anything to do, Append and UncommentBlock still write a first line ended by "\r\n" back ended by '\n' alone, and the rest of a '\r'-free text with a final '\n' ensured |
| PatchLaws.AppendWithoutAnchor | src/patches.rs:47-58 | when no line holds the anchor, Append writes the lines rejoined plus '\n'. For a text without '\r', that is the text with a final '\n' ensured |
| PatchLaws.MultiLineAnchorNeverMatches | src/patches.rs:48-50 | an anchor holding '\n' never matches a line, so Append inserts nothing |
| PatchLaws.AppendPlacesInsert | src/patches.rs:47-58 | when some line holds the anchor, whatever `insert` contains is in the output |
| PatchLaws.AppendIdempotent | src/patches.rs:44-58 | when the marker is part of `insert` and some line holds the anchor, a second Append changes nothing and succeeds on a writable file |
| PatchLaws.ReplaceSkipsPresent | src/patches.rs:60-63 | Replace leaves a file that already holds `insert` alone. So does an empty `insert` |
| PatchLaws.ReplaceWithoutFind | src/patches.rs:60-65 | with neither `insert` nor `find` in the file, Replace writes the unchanged text back, and fails on a read-only file |
| PatchLaws.ReplaceWrites | src/patches.rs:64 | for a non-empty `find` occurring in a writable file that does not yet hold `insert`, Replace writes the text with the first occurrence of `find` replaced, and the rest rewritten the same way |
| PatchLaws.ReplaceIdempotent | src/patches.rs:60-65 | applying a Replace twice leaves the files as applying it once does |
| PatchLaws.RegexPanicsOnBadPattern | src/patches.rs:69 | a pattern that does not compile panics, and nothing is written |
| PatchLaws.RegexSkipsIff | src/patches.rs:66-74 | with a valid pattern the file is left alone exactly when the pattern matches and `insert` is already there; otherwise the engine's rewrite is written |
| PatchLaws.UncommentAll | src/patches.rs:86-88 | uncommenting a block keeps its number of lines |
| PatchLaws.UncommentPrefix | src/patches.rs:79-84 | lines before the first marker line are kept |
| PatchLaws.UncommentRun | src/patches.rs:85-88 | inside the block, every comment line that does not hold the marker is uncommented |
| PatchLaws.UncommentBlockShape | src/patches.rs:76-94 | lines up to the marker are kept. The comment lines after it are uncommented. The first other line, and every line after it, are kept, even a later marker line |
| PatchLaws.UncommentBlockToEnd | src/patches.rs:76-94 | a block running to the end of the file is uncommented to the end |
| PatchLaws.UncommentNoMarker | src/patches.rs:76-94 | without a marker line, no line changes |
| PatchLaws.UncommentPlain | src/patches.rs:88 | an uncommented line gains no line break and does not end with '\r' |
| PatchLaws.UncommentFromPlain | src/patches.rs:76-94 | the scan's lines stay free of line breaks |
| PatchLaws.UncommentTextLines | src/patches.rs:76-96 | for a non-empty text whose lines do not end in '\r', UncommentBlock's output read back with `lines()` is the scan's lines, as many as the input has (an empty file becomes one empty line, see `EmptyFileGainsNewline`) |
| PatchLaws.EmptyFileGainsNewline | src/patches.rs:47-58 | Append and UncommentBlock turn an empty file into "\n", one empty line |
| PatchLaws.LacksChar | src/patches.rs:44 | a text missing some character of the needle does not contain it |
| PatchLaws.UncommentStripsAllHashes | src/patches.rs:88 | "## x" becomes "x": every leading '#' goes, not just one |
| PatchLaws.UncommentHashSpaceHash | src/patches.rs:88 | "# #x" becomes "#x": the '#' after the space stays |
| PatchLaws.UncommentHash | src/patches.rs:88 | "#x" becomes "x" |
| PatchLaws.UncommentNotIdempotent | src/patches.rs:76-94 | UncommentBlock is not idempotent: ["#m", "# #x"] becomes ["#m", "#x"], and a second run gives ["#m", "x"] |
| CubeMX.ToolchainName | src/stm32cubemx.rs:66-79 | every toolchain has a name, which is non-empty and holds no '"' and no line break |
| CubeMX.ToolchainNamesDistinct | src/stm32cubemx.rs:66-79 | no two toolchains share a name |
| CubeMX.BuildScript | src/stm32cubemx.rs:90-106 | the script grown line by line is the script's lines joined with '\n', with no '\n' after the last |
| CubeMX.WriteLine | src/stm32cubemx.rs:91-105 | writing a line and its '\n' extends the text by that line |
| CubeMX.GenerateCode | src/stm32cubemx.rs:81-106 | it gives an error, with the source's message, exactly when the number of `.ioc` files is not one; otherwise it gives the script for that file |
| CubeMX.ScriptStartsWithLoad | src/stm32cubemx.rs:90-91 | the script starts with `config load <ioc>` and '\n' |
| CubeMX.ScriptEndsWithExit | src/stm32cubemx.rs:104-106 | the script ends with `project couplefilesbyip 1`, `project generate` and `exit`, with no '\n' after `exit` |
| CubeMX.ToolchainLineInjective | src/stm32cubemx.rs:92-97 | different toolchains give different `project toolchain` lines |
| CubeMX.ToolchainLineIff | src/stm32cubemx.rs:92-97 | a `project toolchain "<name>"` line for a toolchain is in the script exactly when that toolchain was asked for |
| CubeMX.UnderRootIff | src/stm32cubemx.rs:98-101 | `project generateunderroot 1` is in the script exactly when the toolchain is STM32CubeIDE, and then it is the third line, right after the toolchain line |
| CubeMX.ScriptLinesPlain | src/stm32cubemx.rs:90-106 | for an `.ioc` path without line breaks, no script line holds one |
| CubeMX.ScriptLinesRoundTrip | src/stm32cubemx.rs:90-106 | for an `.ioc` path without '\n' or '\r', the script read back with `lines()` gives exactly its lines |
| CallSites.FpuAnchorSpansLines | src/initializers/cmake.rs:18-21 | the FPU patches' anchor holds a line break |
| CallSites.FpuAnchorNeverMatches | src/initializers/cmake.rs:15-45 | as written, neither FPU Append inserts anything into any file lacking the marker; the file is only rewritten with its lines rejoined |
| CallSites.SectionLines | src/initializers/cmake.rs:18-21 | the compiler-settings section reads back as its four lines |
| CallSites.SectionLacksMarker | src/initializers/cmake.rs:18-29 | the compiler-settings section holds no '\r' and neither FPU marker |
| CallSites.FpuSectionLeftUnchanged | src/initializers/cmake.rs:16-30 | a file that is exactly the compiler-settings section holds the anchor text, yet the hardware Append leaves it as it was |
| CallSites.FpuCorrectedInserts | src/initializers/cmake.rs:15-45 | anchored on `set(CMAKE_C_EXTENSIONS ON)`, and the software one marked by its own marker line, either FPU Append puts its marker into any file with that line, and a second run changes nothing |
| CallSites.FpuCorrectedOnSection | src/initializers/cmake.rs:15-45 | on the compiler-settings section, either corrected Append inserts its whole FPU block, marker included, and a second run changes nothing |
| CallSites.MultiLineAnchorKeeps | src/patches.rs:44-58 | an Append with an anchor spanning lines leaves a '\n'-terminated file without '\r' exactly as it was |
| CallSites.SingleLineAppendsSettle | src/initializers/cmake.rs:55-67 | once the anchor comment is in CMakeLists.txt, the user-sources and user-includes Appends leave their marker, and a second run changes nothing |
| CallSites.IncludesRewritten | src/initializers/clion.rs:31-35 | on a template that holds the include-path line exactly once and not yet the new include line, that line is rewritten in place, the rest of the template is kept, and a second run changes nothing |
| CallSites.HardFpuBlockOnly | src/initializers/clion.rs:42-45 | choosing hardware floating point uncomments the hardware block, up to the blank line, and leaves the software block commented |
| CallSites.SoftFpuBlockOnly | src/initializers/clion.rs:46-49 | choosing software floating point leaves the hardware block commented, uncomments the software block up to the next blank line, and keeps every line after it |
| CallSites.HardFpuBlockApplied | src/initializers/clion.rs:42-45 | on a template with that layout, the hardware UncommentBlock writes the template's lines with only the hardware block uncommented, joined with '\n' and ended by one, or fails on a read-only template |
| CallSites.SoftFpuBlockApplied | src/initializers/clion.rs:46-49 | on a template with that layout, the software UncommentBlock writes the template's lines with only the software block uncommented, or fails on a read-only template |
| CallSites.HsePinned | src/main.rs:286-290 | the `.ioc` file is left alone exactly when the pattern matches and `RCC.HSE_VALUE=8000000` is already there; otherwise the engine's rewrite is written |

## Left out

- **The regular-expression engine.** Whether a pattern compiles, `is_match`
  and `replace_all` are uninterpreted functions (`Patches.RegexLib`). Only
  RegexReplace's skip condition and its panic on an invalid pattern are
  modelled.
- **Panics and write errors.**
  - A panic from `unwrap` is the status `Panicked`, with no change to any file.
  - A failing `fs::write` is the status `WriteFailed`. `readOnly` says where
    writes fail.
  - A partial write is not modelled.
- **Read errors.** A file that `read_to_string` fails on is a path missing
  from the file map. This covers an absent file, a permission error and text
  that is not UTF-8, and all of them behave alike.
- **`get_file`.** It is the `file` field that every variant of `Patch` shares.
- **Concurrency and atomicity.** These are not modelled, since the program
  runs its patches one after the other.
- **Unicode.** Whitespace for `trim` is the Unicode White_Space set, by code
  point. Strings are sequences of characters, not UTF-8 bytes.
- **UncommentBlock's stripping.** The comment at src/patches.rs:87 speaks of
  removing "# " or "#". The code removes every leading '#' and then whitespace
  at both ends. The model follows the code: see `UncommentStripsAllHashes` and
  `UncommentNotIdempotent`.
- **`run_script`, `get_ioc_files` and logging.**
  - `run_script` (temporary file, random name, process spawn) is not part of
    this model.
  - `get_ioc_files` (directory listing) is not part of this model. The
    `.ioc` files it would find are the parameter of `CubeMX.GenerateCode`.
  - The `warn!` logging is not part of this model.
  - `write!` on a `String` cannot fail, so its `?` has no error path in the
    model.
- **Call sites without lemmas of their own.** These are covered only by the
  general laws:
  - the GLOB Append (src/initializers/cmake.rs:48-53);
  - the dependency-block Append, whose insert has a line of spaces because a
    line continuation is missing at src/initializers/cmake.rs:73;
  - the user-libraries Append (src/initializers/cmake.rs:90-94);
  - the GLOB Replace of src/initializers/clion.rs:36-40.
- **The marker of `SoftFpuPatchCorrected`.** Besides the anchor, it replaces the marker of
  src/initializers/cmake.rs:44 with the software marker. With the
  hardware marker kept, a corrected anchor would add the software block
  again on every run. That repetition is argued from the code, not proved.
- **The CLion template.** `CMakeLists_template.txt` is not part of this
  model. `HardFpuBlockOnly` and `SoftFpuBlockOnly` take its lines as
  parameters, arranged as marker, block, blank line, marker, block, blank
  line, rest.
- **The rest of the program.** The CLI (src/main.rs) is not part of this
  model. The same goes for the `.gitignore` generator, the EIDE initializer,
  the creators and the git helper.

## Findings

| source | as written | input that shows it | evidently intended | confidence | as-written member | corrected member |
|---|---|---|---|---|---|---|
| src/initializers/cmake.rs:18-21 (and 34-37) | the Append anchor `after` is the whole four-line compiler-settings section, '\n's included, but Append tests each line from `lines()`, which never holds a '\n' | a CMakeLists.txt whose text is exactly "# Setup compiler settings\nset(CMAKE_C_STANDARD 11)\nset(CMAKE_C_STANDARD_REQUIRED ON)\nset(CMAKE_C_EXTENSIONS ON)\n": it holds the anchor text, yet the FPU options are never inserted | anchor on a single line of the section, such as `set(CMAKE_C_EXTENSIONS ON)`, so the options follow the section; the software Append then also needs its own marker (cmake.rs:44 gives it the hardware one), or every run would add its block again | high; not executed | CallSites.FpuSectionLeftUnchanged | CallSites.FpuCorrectedOnSection |
