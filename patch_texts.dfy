/** The text of the patches the CMake and CLion initializers and the
    project creator apply, and the character facts about it that the
    lemmas on those patches need. */
module PatchTexts {

  /* ---------------- CMake initializer ---------------- */

  const CMakeLists: string := "CMakeLists.txt"

  /** The four lines of the compiler-settings section of a generated
      CMakeLists.txt. */
  const SettingsHeader: string := "# Setup compiler settings"
  const CStandard: string := "set(CMAKE_C_STANDARD 11)"
  const CStandardRequired: string := "set(CMAKE_C_STANDARD_REQUIRED ON)"
  const CExtensions: string := "set(CMAKE_C_EXTENSIONS ON)"

  const HardFpuMarker: string := "#Uncomment for hardware floating point"
  const SoftFpuMarker: string := "#Uncomment for software floating point"

  const HardDefinitions: string := "add_compile_definitions(ARM_MATH_CM4;ARM_MATH_MATRIX_CHECK;ARM_MATH_ROUNDING)"
  const HardCompile: string := "add_compile_options(-mfloat-abi=hard -mfpu=fpv4-sp-d16)"
  const HardLink: string := "add_link_options(-mfloat-abi=hard -mfpu=fpv4-sp-d16)"
  const SoftCompile: string := "add_compile_options(-mfloat-abi=soft)"
  const SectionOptions: string := "add_compile_options(-ffunction-sections -fdata-sections -fno-common -fmessage-length=0)"

  const IncludePathsAnchor: string := "# Add include paths"
  const UserCodeIncludes: string := "include_directories(UserCode)"
  const SourcesVariable: string := "${SOURCES}"
  const UserSourcesAnchor: string := "# Add user sources here"

  /** What the hardware patch inserts after its marker line. */
  const HardFpuBody: string :=
    "\n" + HardDefinitions + "\n" + HardCompile + "\n" + HardLink + "\n\n" + SectionOptions + "\n"

  /** What the software patch inserts after its marker line. */
  const SoftFpuBody: string := "\n" + SoftCompile + "\n\n" + SectionOptions + "\n"

  /* ---------------- CLion initializer ---------------- */

  const CMakeTemplate: string := "CMakeLists_template.txt"
  const IncludesFind: string := "include_directories(${includes})"
  const IncludesInsert: string := "include_directories(${includes} UserCode)"

  /* ---------------- project creator ---------------- */

  const HsePattern: string := "RCC\\.HSE_VALUE=(\\d+)"
  const HseInsert: string := "RCC.HSE_VALUE=8000000"

  /* ---------------- character facts ---------------- */

  /** Only printable ASCII characters: no '\n', no '\r', no tab. */
  predicate Printable(s: string) {
    forall i :: 0 <= i < |s| ==> ' ' <= s[i] <= '~'
  }

  /** A printable line holds no line break. */
  lemma PrintableNoBreak(s: string)
    requires Printable(s)
    ensures '\n' !in s && '\r' !in s
  {
  }

  /** The lines of the compiler-settings section are printable and hold no
      'w'. */
  lemma SettingsHeaderChars()
    ensures Printable(SettingsHeader) && 'w' !in SettingsHeader
  {
  }

  lemma CStandardChars()
    ensures Printable(CStandard) && 'w' !in CStandard
  {
  }

  lemma CStandardRequiredChars()
    ensures Printable(CStandardRequired) && 'w' !in CStandardRequired
  {
  }

  lemma CExtensionsChars()
    ensures Printable(CExtensions) && 'w' !in CExtensions
  {
  }

  /** Only the software marker holds an 's'. */
  lemma MarkerChars()
    ensures 's' !in HardFpuMarker && SoftFpuMarker[15] == 's'
  {
  }
}
