/**
 * The names the action derives from a version: the archive file name
 * (`getGodotFilenameBase`, `getGodotFilename`,
 * `getGodotFilenameFromVersionString`), the download URL on the
 * godot-builds release pages (`getGodotUrl`) and the local export-template
 * directory (`getExportTemplatePath`).
 */
module Naming {
  import opened Common
  import opened Text
  import opened SemVer
  import opened Platforms

  const GodotUrlPrefix: string := "https://github.com/godotengine/godot-builds/releases/download/"
  const GodotFilenamePrefix: string := "Godot_v"

  /** `version.label.replace('.', '')`: only the first dot goes. */
  function NormalizedLabel(v: SemanticVersion): string
  {
    RemoveFirst(v.preRelease, '.')
  }

  /** `.patch`, unless the patch is empty or `0`. */
  function PatchSegment(patch: string): string
  {
    if patch != "" && patch != "0" then "." + patch else ""
  }

  /** The release channel: the normalised label, or `stable` when there is none. */
  function ReleaseChannel(v: SemanticVersion): string
  {
    var tag := NormalizedLabel(v);
    if tag != "" then tag else "stable"
  }

  /** `getGodotFilenameBase`: `Godot_v` major[.minor][.patch] `-` channel. */
  function FilenameBase(v: SemanticVersion): string
  {
    GodotFilenamePrefix + v.major
    + (if v.minor != "" then "." + v.minor else "")
    + PatchSegment(v.patch)
    + "-" + ReleaseChannel(v)
  }

  /** `getGodotFilename`: the base followed by the platform's suffix. */
  function Filename(v: SemanticVersion, p: Platform, useDotnet: bool): string
  {
    FilenameBase(v) + FilenameSuffix(p, useDotnet)
  }

  /** `getGodotFilenameFromVersionString`. */
  function FilenameFromVersionString(versionString: string, p: Platform, useDotnet: bool): Result<string>
  {
    var v :- ParseVersion(versionString);
    Ok(Filename(v, p, useDotnet))
  }

  /** major.minor[.patch], as the URL and the template folder spell it. */
  function VersionNumbers(v: SemanticVersion): string
  {
    v.major + "." + v.minor + PatchSegment(v.patch)
  }

  /** The release directory of a URL: major.minor[.patch] `-` channel. */
  function ReleaseDirectory(v: SemanticVersion): string
  {
    VersionNumbers(v) + "-" + ReleaseChannel(v)
  }

  /** `getGodotUrl`: the editor archive, or with `isTemplate` the export templates. */
  function GodotUrl(versionString: string, p: Platform, useDotnet: bool, isTemplate: bool): Result<string>
  {
    var v :- ParseVersion(versionString);
    var directory := GodotUrlPrefix + ReleaseDirectory(v) + "/";
    if !isTemplate then Ok(directory + Filename(v, p, useDotnet) + ".zip")
    else Ok(directory + FilenameBase(v) + TemplateArchiveSuffix(useDotnet))
  }

  /** What follows the file name base in the export-template archive's name. */
  function TemplateArchiveSuffix(useDotnet: bool): string
  {
    if useDotnet then "_mono_export_templates.tpz" else "_export_templates.tpz"
  }

  /** The folder the templates of one version live in: major.minor[.patch] `.` channel [`.mono`]. */
  function TemplateFolderName(v: SemanticVersion, useDotnet: bool): string
  {
    VersionNumbers(v) + "." + ReleaseChannel(v) + (if useDotnet then ".mono" else "")
  }

  /** `export_templates` only for a major of exactly `4`; `templates` otherwise. */
  function TemplatesDirectory(v: SemanticVersion): string
  {
    if v.major == "4" then "export_templates" else "templates"
  }

  /** The `normalize-path` step: every backslash becomes a slash. */
  function NormalizeSlashes(path: string): (r: string)
    ensures |r| == |path| && '\\' !in r
    ensures '\\' !in path ==> r == path
  {
    seq(|path|, k requires 0 <= k < |path| => if path[k] == '\\' then '/' else path[k])
  }

  /** `getExportTemplatePath`, with the home directory as a parameter. */
  function ExportTemplatePath(versionString: string, p: Platform, home: string, useDotnet: bool): Result<string>
  {
    var v :- ParseVersion(versionString);
    var base := ExportTemplateBasePath(p, home);
    Ok(NormalizeSlashes(JoinPath(p, JoinPath(p, base, TemplatesDirectory(v)), TemplateFolderName(v, useDotnet))))
  }

  // ---------------------------------------------------------------------------
  // Properties of the names

  /**
   * A label without a dot is kept as it is; otherwise it loses exactly its
   * first dot (`beta.16` becomes `beta16`), keeps any later one, and no
   * other character changes.
   */
  lemma NormalizedLabelDropsFirstDot(v: SemanticVersion)
    ensures '.' !in v.preRelease ==> NormalizedLabel(v) == v.preRelease
    ensures var tag := v.preRelease;
      '.' in tag ==>
        exists i :: 0 <= i < |tag| && tag[i] == '.' && '.' !in tag[..i] && NormalizedLabel(v) == tag[..i] + tag[i + 1..]
    ensures Count(NormalizedLabel(v), '.') == if '.' in v.preRelease then Count(v.preRelease, '.') - 1 else 0
    ensures RemoveAll(NormalizedLabel(v), '.') == RemoveAll(v.preRelease, '.')
  {
    RemoveFirstRemovesOne(v.preRelease, '.');
  }

  lemma NormalizedLabelExamples()
    ensures NormalizedLabel(SemanticVersion("4", "0", "0", "beta.16")) == "beta16"
    ensures NormalizedLabel(SemanticVersion("1", "0", "0", "a.b.c")) == "ab.c"
    ensures NormalizedLabel(SemanticVersion("4", "0", "0", "beta1")) == "beta1"
  {
    IndexOfAfterPrefix("beta", '.', "16");
    assert "beta.16" == "beta" + ['.'] + "16";
    IndexOfAfterPrefix("a", '.', "b.c");
    assert "a.b.c" == "a" + ['.'] + "b.c";
    assert '.' !in "beta1";
  }

  /** A patch of `0` names the same artifacts as no patch at all. */
  lemma PatchZeroIsOmitted(v: SemanticVersion, p: Platform, useDotnet: bool)
    requires v.patch == "0"
    ensures var w := v.(patch := "");
      && FilenameBase(v) == FilenameBase(w)
      && Filename(v, p, useDotnet) == Filename(w, p, useDotnet)
      && ReleaseDirectory(v) == ReleaseDirectory(w)
      && TemplateFolderName(v, useDotnet) == TemplateFolderName(w, useDotnet)
  {
  }

  /** For a version with a minor part, the URL directory is the file name base without `Godot_v`. */
  lemma FilenameBaseExtendsReleaseDirectory(v: SemanticVersion)
    requires v.minor != ""
    ensures FilenameBase(v) == GodotFilenamePrefix + ReleaseDirectory(v)
  {
    var patch, channel := PatchSegment(v.patch), ReleaseChannel(v);
    assert FilenameBase(v) == GodotFilenamePrefix + v.major + ("." + v.minor) + patch + "-" + channel;
    assert ReleaseDirectory(v) == v.major + "." + v.minor + patch + "-" + channel;
    Regroup(GodotFilenamePrefix, v.major, ".", v.minor, patch, "-", channel);
  }

  lemma Regroup(a: string, b: string, c: string, d: string, e: string, f: string, g: string)
    ensures a + b + (c + d) + e + f + g == a + (b + c + d + e + f + g)
  {
  }

  /** The numerals a version name spells out, patch left out when it is empty or `0`. */
  function NumberList(v: SemanticVersion): seq<string>
  {
    [v.major, v.minor] + (if PatchSegment(v.patch) != "" then [v.patch] else [])
  }

  lemma VersionNumbersJoin(v: SemanticVersion)
    requires IsNumericIdentifier(v.major) && IsNumericIdentifier(v.minor) && IsNumericIdentifier(v.patch)
    ensures VersionNumbers(v) == Join(NumberList(v), '.')
    ensures '-' !in VersionNumbers(v)
    ensures forall k :: 0 <= k < |NumberList(v)| ==> '.' !in NumberList(v)[k]
  {
    var ns := NumberList(v);
    NumeralHasOnlyDigits(v.major);
    NumeralHasOnlyDigits(v.minor);
    NumeralHasOnlyDigits(v.patch);
    assert ns[1..][1..] == (if PatchSegment(v.patch) != "" then [v.patch] else []);
    if PatchSegment(v.patch) != "" {
      assert ns == [v.major, v.minor, v.patch];
      JoinThree(v.major, v.minor, v.patch);
    } else {
      assert Join(ns, '.') == v.major + "." + v.minor;
    }
    NotInJoin(ns, '.', '-');
  }

  /** The patch as the names see it: `0` is the same as none. */
  function EffectivePatch(patch: string): string
  {
    if patch == "0" then "" else patch
  }

  /**
   * The URL directory of a parsed version determines its major, its minor,
   * its patch up to `0`-versus-none, and its release channel; and those
   * four determine the directory.
   */
  lemma {:induction false} ReleaseDirectoryDecodes(v: SemanticVersion, w: SemanticVersion)
    requires IsNumericIdentifier(v.major) && IsNumericIdentifier(v.minor) && IsNumericIdentifier(v.patch)
    requires IsNumericIdentifier(w.major) && IsNumericIdentifier(w.minor) && IsNumericIdentifier(w.patch)
    ensures ReleaseDirectory(v) == ReleaseDirectory(w) <==>
      && v.major == w.major
      && v.minor == w.minor
      && EffectivePatch(v.patch) == EffectivePatch(w.patch)
      && ReleaseChannel(v) == ReleaseChannel(w)
  {
    if ReleaseDirectory(v) == ReleaseDirectory(w) {
      DirectoryParts(v);
      DirectoryParts(w);
      VersionNumbersJoin(v);
      VersionNumbersJoin(w);
      SplitJoin(NumberList(v), '.');
      SplitJoin(NumberList(w), '.');
      assert NumberList(v) == NumberList(w);
    }
  }

  /** The first `-` of a release directory ends the version numbers and starts the channel. */
  lemma DirectoryParts(v: SemanticVersion)
    requires IsNumericIdentifier(v.major) && IsNumericIdentifier(v.minor) && IsNumericIdentifier(v.patch)
    ensures var d := ReleaseDirectory(v);
      var i := IndexOf(d, '-');
      && i < |d|
      && d[..i] == VersionNumbers(v)
      && d[i + 1..] == ReleaseChannel(v)
  {
    var numbers, channel := VersionNumbers(v), ReleaseChannel(v);
    VersionNumbersJoin(v);
    IndexOfAfterPrefix(numbers, '-', channel);
    var d := numbers + ['-'] + channel;
    assert ReleaseDirectory(v) == d;
    assert d[..|numbers|] == numbers;
    assert d[|numbers| + 1..] == channel;
  }

  // ---------------------------------------------------------------------------
  // The download URL

  /**
   * `getGodotUrl` fails exactly when `parseVersion` does. Otherwise its
   * release directory is the file name base without `Godot_v`, and the file
   * is the editor archive named by `getGodotFilenameFromVersionString` plus
   * `.zip`, or the export templates named after the file name base.
   */
  lemma GodotUrlLayout(versionString: string, p: Platform, useDotnet: bool, isTemplate: bool)
    ensures GodotUrl(versionString, p, useDotnet, isTemplate).Ok? <==> ParseVersion(versionString).Ok?
    ensures GodotUrl(versionString, p, useDotnet, isTemplate).Err? ==>
      GodotUrl(versionString, p, useDotnet, isTemplate).error == InvalidVersion(versionString)
    ensures ParseVersion(versionString).Ok? ==>
      var base := FilenameBase(ParseVersion(versionString).value);
      && GodotFilenamePrefix <= base
      && GodotUrl(versionString, p, useDotnet, isTemplate).value ==
        GodotUrlPrefix + base[|GodotFilenamePrefix|..] + "/"
        + if isTemplate then base + TemplateArchiveSuffix(useDotnet)
          else FilenameFromVersionString(versionString, p, useDotnet).value + ".zip"
  {
    ParseVersionFails(versionString);
    match ParseVersion(versionString)
    case Err(_) =>
    case Ok(v) =>
      ParsedIsWellFormed(versionString);
      FilenameBaseExtendsReleaseDirectory(v);
      var base, directory := FilenameBase(v), GodotUrlPrefix + ReleaseDirectory(v) + "/";
      PrefixAndRest(GodotFilenamePrefix, ReleaseDirectory(v));
      UrlOf(versionString, v, p, useDotnet, isTemplate);
      if isTemplate {
        Associate(directory, base, TemplateArchiveSuffix(useDotnet));
      } else {
        Associate(directory, Filename(v, p, useDotnet), ".zip");
      }
  }

  lemma PrefixAndRest(prefix: string, rest: string)
    ensures prefix <= prefix + rest && (prefix + rest)[|prefix|..] == rest
  {
  }

  /**
   * Across platforms the export-template URL is the same, and the editor
   * URLs share everything up to the platform's file name suffix, which
   * tells the platforms apart.
   */
  lemma UrlsAcrossPlatforms(versionString: string, p: Platform, q: Platform, useDotnet: bool)
    requires ParseVersion(versionString).Ok?
    ensures GodotUrl(versionString, p, useDotnet, true) == GodotUrl(versionString, q, useDotnet, true)
    ensures var u := GodotUrl(versionString, p, useDotnet, false).value;
      var w := GodotUrl(versionString, q, useDotnet, false).value;
      var tail := FilenameSuffix(p, useDotnet) + ".zip";
      var tail' := FilenameSuffix(q, useDotnet) + ".zip";
      && EndsWith(u, tail) && EndsWith(w, tail')
      && u[..|u| - |tail|] == w[..|w| - |tail'|]
      && (u == w <==> p == q)
  {
    var v := ParseVersion(versionString).value;
    var directory := GodotUrlPrefix + ReleaseDirectory(v) + "/";
    UrlOf(versionString, v, p, useDotnet, false);
    UrlOf(versionString, v, q, useDotnet, false);
    UrlOf(versionString, v, p, useDotnet, true);
    UrlOf(versionString, v, q, useDotnet, true);
    Reassociate(directory, FilenameBase(v), FilenameSuffix(p, useDotnet), ".zip");
    Reassociate(directory, FilenameBase(v), FilenameSuffix(q, useDotnet), ".zip");
    StemAndTail(directory + FilenameBase(v), FilenameSuffix(p, useDotnet) + ".zip");
    StemAndTail(directory + FilenameBase(v), FilenameSuffix(q, useDotnet) + ".zip");
    if FilenameSuffix(p, useDotnet) + ".zip" == FilenameSuffix(q, useDotnet) + ".zip" {
      assert FilenameSuffix(p, useDotnet) == (FilenameSuffix(p, useDotnet) + ".zip")[..|FilenameSuffix(p, useDotnet)|];
    }
  }

  lemma Reassociate(a: string, b: string, c: string, d: string)
    ensures a + (b + c) + d == (a + b) + (c + d)
  {
  }

  lemma StemAndTail(stem: string, tail: string)
    ensures EndsWith(stem + tail, tail)
    ensures (stem + tail)[..|stem + tail| - |tail|] == stem
  {
  }

  /** The URL of a version string, written with the version it parses to. */
  lemma UrlOf(versionString: string, v: SemanticVersion, p: Platform, useDotnet: bool, isTemplate: bool)
    requires ParseVersion(versionString) == Ok(v)
    ensures GodotUrl(versionString, p, useDotnet, isTemplate) == Ok(
      if !isTemplate then GodotUrlPrefix + ReleaseDirectory(v) + "/" + Filename(v, p, useDotnet) + ".zip"
      else GodotUrlPrefix + ReleaseDirectory(v) + "/" + FilenameBase(v) + TemplateArchiveSuffix(useDotnet))
  {
  }

  /** The names of a `4.0.0` version, whatever its channel. */
  lemma FourZeroNames(v: SemanticVersion)
    requires v.major == "4" && v.minor == "0" && v.patch == "0"
    ensures ReleaseDirectory(v) == "4.0-" + ReleaseChannel(v)
    ensures FilenameBase(v) == "Godot_v4.0-" + ReleaseChannel(v)
  {
  }

  lemma ChannelExamples()
    ensures ReleaseChannel(SemanticVersion("4", "0", "0", "beta1")) == "beta1"
    ensures ReleaseChannel(SemanticVersion("4", "0", "0", "beta.16")) == "beta16"
    ensures ReleaseChannel(SemanticVersion("4", "0", "0", "")) == "stable"
  {
    NormalizedLabelExamples();
  }

  /** `4.0.0-beta1` on Linux with .NET. */
  lemma UrlLinuxMonoBeta()
    ensures GodotUrl("4.0.0-beta1", Linux, true, false)
      == Ok(GodotUrlPrefix + "4.0-beta1" + "/" + "Godot_v4.0-beta1_mono_linux_x86_64" + ".zip")
  {
    var v := SemanticVersion("4", "0", "0", "beta1");
    ParsePreRelease();
    ChannelExamples();
    FourZeroUrl("4.0.0-beta1", v, Linux, true, false);
    BetaSpelling(GodotUrl("4.0.0-beta1", Linux, true, false).value, ReleaseChannel(v));
  }

  lemma BetaSpelling(url: string, channel: string)
    requires channel == "beta1"
    requires url == GodotUrlPrefix + ("4.0-" + channel) + "/" + ("Godot_v4.0-" + channel + FilenameSuffix(Linux, true)) + ".zip"
    ensures url == GodotUrlPrefix + "4.0-beta1" + "/" + "Godot_v4.0-beta1_mono_linux_x86_64" + ".zip"
  {
    assert "4.0-" + channel == "4.0-beta1";
    assert "Godot_v4.0-" + channel + "_mono_linux_x86_64" == "Godot_v4.0-beta1_mono_linux_x86_64";
  }

  /** `4.0.0-beta.16` on Windows with .NET: the label loses its dot. */
  lemma UrlWindowsMonoDottedBeta()
    ensures GodotUrl("4.0.0-beta.16", Windows, true, false)
      == Ok(GodotUrlPrefix + "4.0-beta16" + "/" + "Godot_v4.0-beta16_mono_win64" + ".zip")
  {
    var v := SemanticVersion("4", "0", "0", "beta.16");
    ParseDottedPreRelease();
    ChannelExamples();
    FourZeroUrl("4.0.0-beta.16", v, Windows, true, false);
    DottedBetaSpelling(GodotUrl("4.0.0-beta.16", Windows, true, false).value, ReleaseChannel(v));
  }

  lemma DottedBetaSpelling(url: string, channel: string)
    requires channel == "beta16"
    requires url == GodotUrlPrefix + ("4.0-" + channel) + "/" + ("Godot_v4.0-" + channel + FilenameSuffix(Windows, true)) + ".zip"
    ensures url == GodotUrlPrefix + "4.0-beta16" + "/" + "Godot_v4.0-beta16_mono_win64" + ".zip"
  {
    assert "4.0-" + channel == "4.0-beta16";
    assert "Godot_v4.0-" + channel + "_mono_win64" == "Godot_v4.0-beta16_mono_win64";
  }

  /** `4.0.0` export templates on macOS without .NET. */
  lemma UrlTemplatesStable()
    ensures GodotUrl("4.0.0", MacOS, false, true)
      == Ok(GodotUrlPrefix + "4.0-stable" + "/" + "Godot_v4.0-stable" + "_export_templates.tpz")
  {
    var v := SemanticVersion("4", "0", "0", "");
    ParseZeroPatch();
    ChannelExamples();
    FourZeroUrl("4.0.0", v, MacOS, false, true);
    StableSpelling(GodotUrl("4.0.0", MacOS, false, true).value, ReleaseChannel(v));
  }

  lemma StableSpelling(url: string, channel: string)
    requires channel == "stable"
    requires url == GodotUrlPrefix + ("4.0-" + channel) + "/" + ("Godot_v4.0-" + channel) + TemplateArchiveSuffix(false)
    ensures url == GodotUrlPrefix + "4.0-stable" + "/" + "Godot_v4.0-stable" + "_export_templates.tpz"
  {
    assert "4.0-" + channel == "4.0-stable";
    assert "Godot_v4.0-" + channel == "Godot_v4.0-stable";
  }

  /** The URLs of a `4.0.0` version string, whatever its channel. */
  lemma FourZeroUrl(s: string, v: SemanticVersion, p: Platform, useDotnet: bool, isTemplate: bool)
    requires v.major == "4" && v.minor == "0" && v.patch == "0"
    requires ParseVersion(s) == Ok(v)
    ensures var channel := ReleaseChannel(v);
      GodotUrl(s, p, useDotnet, isTemplate) == Ok(
        if !isTemplate then GodotUrlPrefix + ("4.0-" + channel) + "/" + ("Godot_v4.0-" + channel + FilenameSuffix(p, useDotnet)) + ".zip"
        else GodotUrlPrefix + ("4.0-" + channel) + "/" + ("Godot_v4.0-" + channel) + TemplateArchiveSuffix(useDotnet))
  {
    UrlOf(s, v, p, useDotnet, isTemplate);
    FourZeroNames(v);
  }

  // ---------------------------------------------------------------------------
  // The export-template directory

  lemma {:induction false} NormalizeSlashesAppend(a: string, b: string)
    ensures NormalizeSlashes(a + b) == NormalizeSlashes(a) + NormalizeSlashes(b)
  {
    assert forall k :: 0 <= k < |a| ==> (a + b)[k] == a[k];
    assert forall k :: |a| <= k < |a + b| ==> (a + b)[k] == b[k - |a|];
  }

  /** `path.join(a, b)` and then `normalize-path`: a slash between the normalised parts. */
  lemma NormalizeJoin(p: Platform, a: string, b: string)
    ensures NormalizeSlashes(JoinPath(p, a, b)) == NormalizeSlashes(a) + "/" + NormalizeSlashes(b)
  {
    NormalizeSlashesAppend(a + [Separator(p)], b);
    NormalizeSlashesAppend(a, [Separator(p)]);
  }

  /** The template folder of a parsed version is one path segment. */
  lemma TemplateFolderIsOneSegment(v: SemanticVersion, useDotnet: bool)
    requires IsWellFormed(v)
    ensures '/' !in TemplateFolderName(v, useDotnet) && '\\' !in TemplateFolderName(v, useDotnet)
  {
    WellFormedHasNoSlash(v);
    var numbers := v.major + "." + v.minor + PatchSegment(v.patch);
    var channel := ReleaseChannel(v);
    var mono := if useDotnet then ".mono" else "";
    forall c | c == '/' || c == '\\'
      ensures c !in TemplateFolderName(v, useDotnet)
    {
      InAppend(v.major + v.minor + v.patch, v.preRelease, c);
      InAppend(v.major + v.minor, v.patch, c);
      InAppend(v.major, v.minor, c);
      InAppend(v.major, ".", c);
      InAppend(v.major + ".", v.minor, c);
      InAppend(".", v.patch, c);
      InAppend(v.major + "." + v.minor, PatchSegment(v.patch), c);
      RemovedCharsStayOut(v.preRelease);
      InAppend(numbers, ".", c);
      InAppend(numbers + ".", channel, c);
      InAppend(numbers + "." + channel, mono, c);
    }
  }

  lemma InAppend(a: string, b: string, c: char)
    ensures c in a + b <==> c in a || c in b
  {
    if c in a + b {
      var k :| 0 <= k < |a + b| && (a + b)[k] == c;
      if k >= |a| {
        assert b[k - |a|] == c;
      }
    }
    if c in b {
      var k :| 0 <= k < |b| && b[k] == c;
      assert (a + b)[|a| + k] == c;
    }
  }

  lemma RemovedCharsStayOut(s: string)
    ensures forall c :: c in RemoveFirst(s, '.') ==> c in s
  {
    var i := IndexOf(s, '.');
    if i < |s| {
      assert RemoveFirst(s, '.') == s[..i] + s[i + 1..];
    }
  }

  /**
   * `getExportTemplatePath` fails exactly when `parseVersion` does;
   * otherwise it is the platform's template base path, then the templates
   * directory, then the version's folder, with slashes only: no backslash
   * is left, and the folder is the last segment.
   */
  lemma ExportTemplatePathLayout(versionString: string, p: Platform, home: string, useDotnet: bool)
    ensures ExportTemplatePath(versionString, p, home, useDotnet).Ok? <==> ParseVersion(versionString).Ok?
    ensures ExportTemplatePath(versionString, p, home, useDotnet).Err? ==>
      ExportTemplatePath(versionString, p, home, useDotnet).error == InvalidVersion(versionString)
    ensures ParseVersion(versionString).Ok? ==>
      var v := ParseVersion(versionString).value;
      var path := ExportTemplatePath(versionString, p, home, useDotnet).value;
      && path == NormalizeSlashes(ExportTemplateBasePath(p, home)) + "/" + TemplatesDirectory(v) + "/" + TemplateFolderName(v, useDotnet)
      && '\\' !in path
      && '/' !in TemplateFolderName(v, useDotnet)
  {
    ParseVersionFails(versionString);
    match ParseVersion(versionString)
    case Err(_) =>
    case Ok(v) =>
      var base, directory, folder := ExportTemplateBasePath(p, home), TemplatesDirectory(v), TemplateFolderName(v, useDotnet);
      ParsedIsWellFormed(versionString);
      TemplateFolderIsOneSegment(v, useDotnet);
      TemplatesDirectoryIsClean(v);
      JoinTwoSegments(p, base, directory, folder);
      assert ExportTemplatePath(versionString, p, home, useDotnet) == Ok(NormalizeSlashes(JoinPath(p, JoinPath(p, base, directory), folder)));
  }

  lemma TemplatesDirectoryIsClean(v: SemanticVersion)
    ensures '\\' !in TemplatesDirectory(v)
  {
  }

  /** Two clean segments joined below a directory, then normalised. */
  lemma JoinTwoSegments(p: Platform, dir: string, a: string, b: string)
    requires '\\' !in a && '\\' !in b
    ensures NormalizeSlashes(JoinPath(p, JoinPath(p, dir, a), b)) == NormalizeSlashes(dir) + "/" + a + "/" + b
  {
    NormalizeJoin(p, JoinPath(p, dir, a), b);
    NormalizeJoin(p, dir, a);
  }

  /** The template base directory below the home directory, as `getExportTemplatePath` leaves it. */
  function TemplateBaseBelowHome(p: Platform): string
  {
    match p
    case Linux => "/.local/share/godot"
    case Windows => "/AppData/Roaming/Godot"
    case MacOS => "/Library/Application Support/Godot"
  }

  /** The template base path of each platform, after `normalize-path`. */
  lemma ExportTemplateBaseLayout(p: Platform, home: string)
    ensures NormalizeSlashes(ExportTemplateBasePath(p, home)) == NormalizeSlashes(home) + TemplateBaseBelowHome(p)
  {
    match p
    case Linux => LinuxBase(home);
    case Windows => WindowsBase(home);
    case MacOS => MacOSBase(home);
  }

  lemma LinuxBase(home: string)
    ensures NormalizeSlashes(ExportTemplateBasePath(Linux, home)) == NormalizeSlashes(home) + "/.local/share/godot"
  {
    JoinThreeSegments(Linux, home, ".local", "share", "godot");
    LinuxBaseText();
  }

  lemma LinuxBaseText()
    ensures "/" + ".local" + "/" + "share" + "/" + "godot" == "/.local/share/godot"
  {
  }

  lemma WindowsBase(home: string)
    ensures NormalizeSlashes(ExportTemplateBasePath(Windows, home)) == NormalizeSlashes(home) + "/AppData/Roaming/Godot"
  {
    JoinThreeSegments(Windows, home, "AppData", "Roaming", "Godot");
    WindowsBaseText();
  }

  lemma WindowsBaseText()
    ensures "/" + "AppData" + "/" + "Roaming" + "/" + "Godot" == "/AppData/Roaming/Godot"
  {
  }

  lemma MacOSBase(home: string)
    ensures NormalizeSlashes(ExportTemplateBasePath(MacOS, home)) == NormalizeSlashes(home) + "/Library/Application Support/Godot"
  {
    SupportIsClean();
    JoinThreeSegments(MacOS, home, "Library", "Application Support", "Godot");
    MacOSBaseText();
  }

  lemma SupportIsClean()
    ensures '\\' !in "Application Support"
  {
    var support := "Application Support";
    assert forall k :: 0 <= k < |support| ==> support[k] != '\\';
  }

  lemma MacOSBaseText()
    ensures "/" + "Library" + "/" + "Application Support" + "/" + "Godot" == "/Library/Application Support/Godot"
  {
  }

  /** Three clean segments joined below a directory, then normalised. */
  lemma JoinThreeSegments(p: Platform, dir: string, a: string, b: string, c: string)
    requires '\\' !in a && '\\' !in b && '\\' !in c
    ensures NormalizeSlashes(JoinPath(p, JoinPath(p, JoinPath(p, dir, a), b), c))
      == NormalizeSlashes(dir) + ("/" + a + "/" + b + "/" + c)
  {
    NormalizeJoin(p, JoinPath(p, JoinPath(p, dir, a), b), c);
    NormalizeJoin(p, JoinPath(p, dir, a), b);
    NormalizeJoin(p, dir, a);
    var d := NormalizeSlashes(dir);
    assert d + "/" + a + "/" + b + "/" + c == d + ("/" + a + "/" + b + "/" + c);
  }

  /** `3.5.1` on Linux with .NET: the legacy `templates` directory, since the major is not `4`. */
  lemma TemplatePathLinuxMono(home: string)
    ensures ExportTemplatePath("3.5.1", Linux, home, true)
      == Ok(NormalizeSlashes(home) + "/.local/share/godot/templates/3.5.1.stable.mono")
  {
    ParsePatchRelease();
    LegacyTemplatePath("3.5.1", home);
  }

  lemma LegacyTemplatePath(s: string, home: string)
    requires ParseVersion(s) == Ok(SemanticVersion("3", "5", "1", ""))
    ensures ExportTemplatePath(s, Linux, home, true)
      == Ok(NormalizeSlashes(home) + "/.local/share/godot/templates/3.5.1.stable.mono")
  {
    var v := SemanticVersion("3", "5", "1", "");
    ExportTemplatePathLayout(s, Linux, home, true);
    LinuxBase(home);
    FolderExamples();
    LegacyPathText();
    TemplatePathSpelling(ExportTemplatePath(s, Linux, home, true).value, NormalizeSlashes(home),
      "/.local/share/godot", "templates", "3.5.1.stable.mono", "/.local/share/godot/templates/3.5.1.stable.mono");
  }

  /** `4.0.0-beta1` on Windows without .NET: `export_templates`, and the channel after a dot. */
  lemma TemplatePathWindowsBeta(home: string)
    ensures ExportTemplatePath("4.0.0-beta1", Windows, home, false)
      == Ok(NormalizeSlashes(home) + "/AppData/Roaming/Godot/export_templates/4.0.beta1")
  {
    ParsePreRelease();
    BetaTemplatePath("4.0.0-beta1", home);
  }

  lemma BetaTemplatePath(s: string, home: string)
    requires ParseVersion(s) == Ok(SemanticVersion("4", "0", "0", "beta1"))
    ensures ExportTemplatePath(s, Windows, home, false)
      == Ok(NormalizeSlashes(home) + "/AppData/Roaming/Godot/export_templates/4.0.beta1")
  {
    var v := SemanticVersion("4", "0", "0", "beta1");
    ExportTemplatePathLayout(s, Windows, home, false);
    WindowsBase(home);
    FolderExamples();
    BetaPathText();
    TemplatePathSpelling(ExportTemplatePath(s, Windows, home, false).value, NormalizeSlashes(home),
      "/AppData/Roaming/Godot", "export_templates", "4.0.beta1", "/AppData/Roaming/Godot/export_templates/4.0.beta1");
  }

  lemma FolderExamples()
    ensures TemplateFolderName(SemanticVersion("3", "5", "1", ""), true) == "3.5.1.stable.mono"
    ensures TemplateFolderName(SemanticVersion("4", "0", "0", "beta1"), false) == "4.0.beta1"
  {
    LegacyFolder();
    BetaFolder();
  }

  lemma LegacyFolder()
    ensures TemplateFolderName(SemanticVersion("3", "5", "1", ""), true) == "3.5.1.stable.mono"
  {
    var v := SemanticVersion("3", "5", "1", "");
    assert ReleaseChannel(v) == "stable";
    assert VersionNumbers(v) == "3.5.1";
    assert "3.5.1" + "." + "stable" + ".mono" == "3.5.1.stable.mono";
  }

  lemma BetaFolder()
    ensures TemplateFolderName(SemanticVersion("4", "0", "0", "beta1"), false) == "4.0.beta1"
  {
    var w := SemanticVersion("4", "0", "0", "beta1");
    assert '.' !in "beta1";
    assert ReleaseChannel(w) == "beta1";
    EmptyTail("4" + "." + "0");
    assert VersionNumbers(w) == "4.0";
    var folder := "4.0" + "." + "beta1";
    assert folder == "4.0.beta1";
    EmptyTail(folder);
  }

  /** A path below a directory, spelled out once its segments are known. */
  lemma TemplatePathSpelling(path: string, home: string, base: string, directory: string, folder: string, text: string)
    requires path == home + base + "/" + directory + "/" + folder
    requires base + "/" + directory + "/" + folder == text
    ensures path == home + text
  {
    assert path == home + (base + "/" + directory + "/" + folder);
  }

  lemma LegacyPathText()
    ensures "/.local/share/godot" + "/" + "templates" + "/" + "3.5.1.stable.mono" == "/.local/share/godot/templates/3.5.1.stable.mono"
  {
  }

  lemma BetaPathText()
    ensures "/AppData/Roaming/Godot" + "/" + "export_templates" + "/" + "4.0.beta1" == "/AppData/Roaming/Godot/export_templates/4.0.beta1"
  {
  }

  // ---------------------------------------------------------------------------
  // The templates directory tests the text of the major, not its value

  function DigitValue(c: char): nat
  {
    if IsDigit(c) then c as int - '0' as int else 0
  }

  /** The value of a decimal numeral. */
  function NumeralValue(s: string): nat
  {
    if s == [] then 0 else 10 * NumeralValue(s[..|s| - 1]) + DigitValue(s[|s| - 1])
  }

  /** A numeral of two or more digits that does not start with zero is at least ten. */
  lemma {:induction false} LongNumeralIsLarge(s: string)
    requires AllDigits(s) && |s| >= 2 && s[0] != '0'
    ensures NumeralValue(s) >= 10
  {
    var init := s[..|s| - 1];
    if |s| == 2 {
      assert init[..0] == [];
      assert NumeralValue(init) == DigitValue(s[0]) >= 1;
    } else {
      assert AllDigits(init) && init[0] == s[0];
      LongNumeralIsLarge(init);
    }
  }

  /**
   * `export_templates` is chosen exactly for a major whose value is 4: a
   * Godot 5 release, or any other major, gets the legacy `templates`.
   */
  lemma ExportTemplatesOnlyForMajorFour(v: SemanticVersion)
    requires IsNumericIdentifier(v.major)
    ensures TemplatesDirectory(v) == "export_templates" <==> NumeralValue(v.major) == 4
    ensures NumeralValue(v.major) > 4 ==> TemplatesDirectory(v) == "templates"
  {
    if |v.major| >= 2 {
      LongNumeralIsLarge(v.major);
    } else {
      assert v.major == [v.major[0]];
      assert v.major[..0] == [];
    }
  }

  // ---------------------------------------------------------------------------
  // Two versions that share a template folder

  /**
   * Because the label loses its first dot and the folder puts a dot before
   * the label, `4.0.0-1.2.a` and `4.0.12-a` both keep their templates in
   * `4.0.12.a`, although their downloads differ.
   */
  lemma TemplateFolderCollision(useDotnet: bool)
    ensures var v := SemanticVersion("4", "0", "0", "1.2.a");
      var w := SemanticVersion("4", "0", "12", "a");
      && Accepts(v, "") && Accepts(w, "")
      && TemplateFolderName(v, useDotnet) == TemplateFolderName(w, useDotnet)
      && ReleaseDirectory(v) != ReleaseDirectory(w)
  {
    var v := SemanticVersion("4", "0", "0", "1.2.a");
    var w := SemanticVersion("4", "0", "12", "a");
    CollidingLabels();
    assert VersionNumbers(v) == "4.0" && VersionNumbers(w) == "4.0.12";
    assert ReleaseDirectory(v) == "4.0-12.a" && ReleaseDirectory(w) == "4.0.12-a";
    assert "4.0" + "." + "12.a" == "4.0.12" + "." + "a";
  }

  lemma CollidingLabels()
    ensures Accepts(SemanticVersion("4", "0", "0", "1.2.a"), "")
    ensures Accepts(SemanticVersion("4", "0", "12", "a"), "")
    ensures ReleaseChannel(SemanticVersion("4", "0", "0", "1.2.a")) == "12.a"
    ensures ReleaseChannel(SemanticVersion("4", "0", "12", "a")) == "a"
  {
    CollidingLabelsAccepted();
    IndexOfAfterPrefix("1", '.', "2.a");
    assert "1.2.a" == "1" + ['.'] + "2.a";
    assert '.' !in "a";
  }

  lemma CollidingLabelsAccepted()
    ensures Accepts(SemanticVersion("4", "0", "0", "1.2.a"), "")
    ensures Accepts(SemanticVersion("4", "0", "12", "a"), "")
  {
    assert !IsDigit("a"[0]);
    assert IsPreReleaseIdentifier("1") && IsPreReleaseIdentifier("2") && IsPreReleaseIdentifier("a");
    var ids := ["1", "2", "a"];
    JoinThree("1", "2", "a");
    assert "1" + "." + "2" + "." + "a" == "1.2.a";
    PreReleaseFrom(ids, "1.2.a");
    assert Join(["a"], '.') == "a";
    PreReleaseFrom(["a"], "a");
  }

  // ---------------------------------------------------------------------------
  // Which archive names pass the executable test

  /**
   * The archive's own name passes the platform's executable test on Linux
   * (both builds end in `x86_64`) and for the plain Windows build; the .NET
   * Windows name and every macOS name do not.
   */
  lemma ArchiveNameIsExecutable(v: SemanticVersion, p: Platform, useDotnet: bool)
    ensures IsGodotExecutable(p, Filename(v, p, useDotnet)) <==> p == Linux || (p == Windows && !useDotnet)
  {
    SuffixIsLowerCase(p, useDotnet);
    LoweredEnding(FilenameBase(v), FilenameSuffix(p, useDotnet));
    match p
    case Linux => LinuxArchiveName(v, useDotnet);
    case Windows => WindowsArchiveName(v, useDotnet);
    case MacOS => MacOSArchiveName(v, useDotnet);
  }

  lemma LinuxArchiveName(v: SemanticVersion, useDotnet: bool)
    requires EndsWith(ToLower(Filename(v, Linux, useDotnet)), FilenameSuffix(Linux, useDotnet))
    ensures IsGodotExecutable(Linux, Filename(v, Linux, useDotnet))
  {
    EndingOfEnding(ToLower(Filename(v, Linux, useDotnet)), FilenameSuffix(Linux, useDotnet), "x86_64");
  }

  lemma WindowsArchiveName(v: SemanticVersion, useDotnet: bool)
    requires EndsWith(ToLower(Filename(v, Windows, useDotnet)), FilenameSuffix(Windows, useDotnet))
    ensures IsGodotExecutable(Windows, Filename(v, Windows, useDotnet)) <==> !useDotnet
  {
    if useDotnet {
      EndingOfEnding(ToLower(Filename(v, Windows, useDotnet)), FilenameSuffix(Windows, useDotnet), "mono_win64");
    }
  }

  lemma MacOSArchiveName(v: SemanticVersion, useDotnet: bool)
    requires |ToLower(Filename(v, MacOS, useDotnet))| >= |GodotFilenamePrefix|
    ensures !IsGodotExecutable(MacOS, Filename(v, MacOS, useDotnet))
  {
  }

  lemma EndingOfEnding(s: string, suffix: string, tail: string)
    requires EndsWith(s, suffix) && EndsWith(suffix, tail)
    ensures EndsWith(s, tail)
  {
    assert s[|s| - |tail|..] == suffix[|suffix| - |tail|..];
  }

  /** Lower-casing keeps a lower-case ending in place. */
  lemma LoweredEnding(base: string, suffix: string)
    requires ToLower(suffix) == suffix
    ensures |ToLower(base + suffix)| == |base| + |suffix|
    ensures EndsWith(ToLower(base + suffix), suffix)
  {
    ToLowerAppend(base, suffix);
  }

  lemma SuffixIsLowerCase(p: Platform, useDotnet: bool)
    ensures ToLower(FilenameSuffix(p, useDotnet)) == FilenameSuffix(p, useDotnet)
  {
    var suffix := FilenameSuffix(p, useDotnet);
    assert forall k :: 0 <= k < |suffix| ==> !('A' <= suffix[k] <= 'Z');
    assert forall k :: 0 <= k < |suffix| ==> LowerChar(suffix[k]) == suffix[k];
  }
}
