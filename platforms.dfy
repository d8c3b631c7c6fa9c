/**
 * The three host platforms (`Linux`, `Windows`, `MacOS` in the action) and
 * what each contributes to names and paths: the archive suffix, the test for
 * the Godot executable, the unzipped location and the export-template base.
 */
module Platforms {
  import opened Common
  import opened Text

  datatype Platform = Linux | Windows | MacOS

  /** `getPlatform`: the descriptor for a Node `process.platform` value. */
  function GetPlatform(processPlatform: string): Result<Platform>
  {
    match processPlatform
    case "linux" => Ok(Linux)
    case "win32" => Ok(Windows)
    case "darwin" => Ok(MacOS)
    case _ => Err(UnrecognizedPlatform(processPlatform))
  }

  /** The `process.platform` value each descriptor stands for. */
  function NodePlatformName(p: Platform): string
  {
    match p
    case Linux => "linux"
    case Windows => "win32"
    case MacOS => "darwin"
  }

  /** `getPlatform` recognises exactly the three names, one descriptor each, and rejects the rest. */
  lemma GetPlatformRecognises(processPlatform: string)
    ensures GetPlatform(processPlatform).Ok? <==> processPlatform in {"linux", "win32", "darwin"}
    ensures GetPlatform(processPlatform).Ok? ==> NodePlatformName(GetPlatform(processPlatform).value) == processPlatform
    ensures GetPlatform(processPlatform).Err? ==> GetPlatform(processPlatform).error == UnrecognizedPlatform(processPlatform)
  {
  }

  lemma GetPlatformInverts(p: Platform)
    ensures GetPlatform(NodePlatformName(p)) == Ok(p)
  {
  }

  /** The separator Node's `path.join` writes on the host the descriptor runs on. */
  function Separator(p: Platform): char
  {
    if p == Windows then '\\' else '/'
  }

  /** `path.join(a, b)` for two clean segments. */
  function JoinPath(p: Platform, a: string, b: string): string
  {
    a + [Separator(p)] + b
  }

  /** `godotFilenameSuffix(useDotnet)`. */
  function FilenameSuffix(p: Platform, useDotnet: bool): string
  {
    match p
    case Linux => if useDotnet then "_mono_linux_x86_64" else "_linux.x86_64"
    case Windows => if useDotnet then "_mono_win64" else "_win64.exe"
    case MacOS => (if useDotnet then "_mono" else "") + "_macos.universal"
  }

  /** `isGodotExecutable(basename)`: a test on the lower-cased file name. */
  predicate IsGodotExecutable(p: Platform, basename: string)
  {
    var name := ToLower(basename);
    match p
    case Linux => EndsWith(name, "x86_64")
    case Windows => EndsWith(name, "_win64.exe")
    case MacOS => name == "godot"
  }

  /** `getUnzippedPath(installationDir, versionName, useDotnet)`. */
  function UnzippedPath(p: Platform, installationDir: string, versionName: string, useDotnet: bool): string
  {
    match p
    case Linux => JoinPath(p, installationDir, versionName)
    case Windows => JoinPath(p, installationDir, versionName)
    case MacOS => JoinPath(p, installationDir, "Godot" + (if useDotnet then "_mono" else "") + ".app")
  }

  /** `GODOT_EXPORT_TEMPLATE_BASE_PATH`, with the home directory as a parameter. */
  function ExportTemplateBasePath(p: Platform, home: string): string
  {
    match p
    case Linux => JoinPath(p, JoinPath(p, JoinPath(p, home, ".local"), "share"), "godot")
    case Windows => JoinPath(p, JoinPath(p, JoinPath(p, home, "AppData"), "Roaming"), "Godot")
    case MacOS => JoinPath(p, JoinPath(p, JoinPath(p, home, "Library"), "Application Support"), "Godot")
  }

  /** `path.basename(path)`: what follows the last separator (`/`, and also `\` on Windows). */
  function Basename(p: Platform, path: string): (name: string)
    ensures |name| <= |path| && path[|path| - |name|..] == name
    ensures forall k :: 0 <= k < |name| ==> !IsPathSeparator(p, name[k])
    ensures |name| < |path| ==> IsPathSeparator(p, path[|path| - |name| - 1])
  {
    if path == [] then ""
    else if IsPathSeparator(p, path[|path| - 1]) then ""
    else Basename(p, path[..|path| - 1]) + [path[|path| - 1]]
  }

  predicate IsPathSeparator(p: Platform, c: char)
  {
    c == '/' || (p == Windows && c == '\\')
  }

  /**
   * The .NET archives, and only they, are marked `_mono` right after the
   * version; the macOS archives alone are universal binaries.
   */
  lemma FilenameSuffixMarks(p: Platform, useDotnet: bool)
    ensures var suffix := FilenameSuffix(p, useDotnet);
      && (useDotnet <==> |suffix| >= 5 && suffix[..5] == "_mono")
      && (p == MacOS <==> EndsWith(suffix, "_macos.universal"))
  {
    var suffix := FilenameSuffix(p, useDotnet);
    assert suffix[..5] == [suffix[0], suffix[1], suffix[2], suffix[3], suffix[4]];
  }

  /** The executable test ignores letter case. */
  lemma IsGodotExecutableIgnoresCase(p: Platform, basename: string)
    ensures IsGodotExecutable(p, ToLower(basename)) == IsGodotExecutable(p, basename)
  {
    assert ToLower(ToLower(basename)) == ToLower(basename);
  }

  /**
   * On Linux and Windows every version name gets its own unzipped path; on
   * macOS the path is the same `Godot[_mono].app` whatever the version name.
   */
  lemma UnzippedPathUsesVersionName(p: Platform, installationDir: string, name1: string, name2: string, useDotnet: bool)
    ensures p == MacOS ==> UnzippedPath(p, installationDir, name1, useDotnet) == UnzippedPath(p, installationDir, name2, useDotnet)
    ensures p != MacOS ==> (UnzippedPath(p, installationDir, name1, useDotnet) == UnzippedPath(p, installationDir, name2, useDotnet) <==> name1 == name2)
  {
    if p != MacOS && UnzippedPath(p, installationDir, name1, useDotnet) == UnzippedPath(p, installationDir, name2, useDotnet) {
      var prefix := installationDir + [Separator(p)];
      assert UnzippedPath(p, installationDir, name1, useDotnet) == prefix + name1;
      assert UnzippedPath(p, installationDir, name2, useDotnet) == prefix + name2;
      assert name1 == (prefix + name1)[|prefix|..];
    }
  }
}
