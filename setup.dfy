/**
 * The decisions `run` makes before and after its I/O: which archive to
 * fetch (a custom URL, or the names computed from the version), where the
 * download, the installation and the export templates go, what the cache
 * holds and under which key, and which of the discovered files are the
 * Godot executable and `GodotSharp.dll`.
 */
module Setup {
  import opened Common
  import opened Text
  import opened SemVer
  import opened Platforms
  import opened Naming

  /** The version name a custom build is installed under. */
  const CustomVersionName: string := "custom_godot"

  /** Everything `run` settles before it touches the network or the disk. */
  datatype InstallPlan = InstallPlan(
    versionName: string,
    godotUrl: string,
    exportTemplateUrl: string,
    includeTemplates: bool,
    godotDownloadPath: string,
    godotInstallationPath: string,
    exportTemplatePath: string,
    exportTemplateDownloadPath: string,
    cachedPaths: seq<string>,
    cacheKey: string)

  /** The paths saved to and restored from the cache. */
  function CachedPaths(installationPath: string, exportTemplatePath: string, includeTemplates: bool): seq<string>
  {
    if includeTemplates then [installationPath, exportTemplatePath] else [installationPath]
  }

  /** The cache key: the download URL, marked when the templates are left out. */
  function CacheKey(godotUrl: string, includeTemplates: bool): string
  {
    if includeTemplates then godotUrl else godotUrl + "-no-templates"
  }

  /**
   * The naming part of `run`, over inputs already read (whitespace removed,
   * any `global.json` indirection resolved) and with the home directory,
   * the downloads directory and the installation directory as parameters.
   * A non-empty custom URL replaces the computed names and switches the
   * templates off; otherwise an invalid version fails the run.
   */
  method PlanInstallation(p: Platform, version: string, customUrl: string, useDotnet: bool, includeTemplatesInput: bool,
                          downloadsDir: string, installationDir: string, home: string)
    returns (r: Result<InstallPlan>)
    ensures customUrl != "" ==>
      && r.Ok?
      && r.value.versionName == CustomVersionName
      && r.value.godotUrl == customUrl
      && !r.value.includeTemplates
      && r.value.exportTemplateUrl == ""
    ensures customUrl == "" ==> (r.Ok? <==> ParseVersion(version).Ok?)
    ensures r.Err? ==> r.error == InvalidVersion(version)
    ensures customUrl == "" && r.Ok? ==>
      && r.value.versionName == FilenameFromVersionString(version, p, useDotnet).value
      && r.value.godotUrl == GodotUrl(version, p, useDotnet, false).value
      && r.value.includeTemplates == includeTemplatesInput
      && r.value.exportTemplateUrl == (if includeTemplatesInput then GodotUrl(version, p, useDotnet, true).value else "")
    ensures r.Ok? ==>
      var plan := r.value;
      && plan.godotDownloadPath == JoinPath(p, downloadsDir, plan.versionName + ".zip")
      && plan.godotInstallationPath == UnzippedPath(p, installationDir, plan.versionName, useDotnet)
      && plan.exportTemplatePath == (if plan.includeTemplates then ExportTemplatePath(version, p, home, useDotnet).value else "")
      && plan.exportTemplateDownloadPath == (if plan.includeTemplates then JoinPath(p, downloadsDir, "export_templates.zip") else "")
      && plan.cachedPaths == CachedPaths(plan.godotInstallationPath, plan.exportTemplatePath, plan.includeTemplates)
      && plan.cacheKey == CacheKey(plan.godotUrl, plan.includeTemplates)
    ensures r.Ok? ==>
      var plan := r.value;
      && (plan.exportTemplateUrl != "" <==> plan.includeTemplates)
      && (plan.exportTemplatePath != "" <==> plan.includeTemplates)
      && (plan.exportTemplateDownloadPath != "" <==> plan.includeTemplates)
  {
    var includeTemplates := includeTemplatesInput;
    var versionName := "";
    var godotUrl := "";
    var exportTemplateUrl := "";
    if |customUrl| > 0 {
      versionName := CustomVersionName;
      godotUrl := customUrl;
      includeTemplates := false;
      exportTemplateUrl := "";
    } else {
      var name := FilenameFromVersionString(version, p, useDotnet);
      var url := GodotUrl(version, p, useDotnet, false);
      GodotUrlLayout(version, p, useDotnet, false);
      if name.Err? || url.Err? {
        return Err(InvalidVersion(version));
      }
      versionName := name.value;
      godotUrl := url.value;
      if includeTemplates {
        GodotUrlLayout(version, p, useDotnet, true);
        exportTemplateUrl := GodotUrl(version, p, useDotnet, true).value;
      } else {
        exportTemplateUrl := "";
      }
    }

    var godotDownloadPath := JoinPath(p, downloadsDir, versionName + ".zip");
    var godotInstallationPath := UnzippedPath(p, installationDir, versionName, useDotnet);
    var exportTemplatePath := "";
    var exportTemplateDownloadPath := "";
    if includeTemplates {
      ExportTemplatePathLayout(version, p, home, useDotnet);
      exportTemplatePath := ExportTemplatePath(version, p, home, useDotnet).value;
      exportTemplateDownloadPath := JoinPath(p, downloadsDir, "export_templates.zip");
    }

    var cachedPaths := CachedPaths(godotInstallationPath, exportTemplatePath, includeTemplates);
    var cacheKey := CacheKey(godotUrl, includeTemplates);
    r := Ok(InstallPlan(versionName, godotUrl, exportTemplateUrl, includeTemplates, godotDownloadPath,
      godotInstallationPath, exportTemplatePath, exportTemplateDownloadPath, cachedPaths, cacheKey));
  }

  /**
   * For URLs ending in `.zip`, as every computed download URL does, the
   * cache key tells apart both the URL and whether the templates are
   * cached with it: an installation cached without templates is never
   * restored for a run that wants them, nor the other way round.
   */
  lemma CacheKeyDecodes(url1: string, include1: bool, url2: string, include2: bool)
    requires EndsWith(url1, ".zip") && EndsWith(url2, ".zip")
    ensures CacheKey(url1, include1) == CacheKey(url2, include2) <==> url1 == url2 && include1 == include2
  {
    var marker := "-no-templates";
    if include1 && !include2 {
      MarkedKeyDiffers(url1, url2);
    } else if !include1 && include2 {
      MarkedKeyDiffers(url2, url1);
    } else if !include1 && !include2 && CacheKey(url1, include1) == CacheKey(url2, include2) {
      assert url1 == (url1 + marker)[..|url1|];
      assert url2 == (url2 + marker)[..|url2|];
    }
  }

  /** A `.zip` URL is never the marked key of another URL. */
  lemma MarkedKeyDiffers(url: string, other: string)
    requires EndsWith(url, ".zip")
    ensures url != other + "-no-templates"
  {
    var key := other + "-no-templates";
    assert key[|key| - 4..] == "-no-templates"[9..] == "ates";
  }

  /** Every download URL the plan computes ends in `.zip`. */
  lemma ComputedUrlsEndInZip(versionString: string, p: Platform, useDotnet: bool)
    requires ParseVersion(versionString).Ok?
    ensures EndsWith(GodotUrl(versionString, p, useDotnet, false).value, ".zip")
  {
    GodotUrlLayout(versionString, p, useDotnet, false);
  }

  // ---------------------------------------------------------------------------
  // Choosing the binaries among the discovered files

  /** `s[i]` is the first element of `s` that matches. */
  predicate IsFirstMatch(s: seq<string>, i: int, matches: string -> bool)
  {
    0 <= i < |s| && matches(s[i]) && forall j :: 0 <= j < i ==> !matches(s[j])
  }

  predicate NoneMatch(s: seq<string>, matches: string -> bool)
  {
    forall k :: 0 <= k < |s| ==> !matches(s[k])
  }

  /** `Array.prototype.find`: the first element that matches, if any. */
  function Find(s: seq<string>, matches: string -> bool): (r: Option<string>)
    ensures r.None? <==> NoneMatch(s, matches)
    ensures r.Some? ==> exists i :: IsFirstMatch(s, i, matches) && s[i] == r.value
  {
    if s == [] then None
    else if matches(s[0]) then (assert IsFirstMatch(s, 0, matches); Some(s[0]))
    else
      var rest := Find(s[1..], matches);
      assert forall k :: 1 <= k < |s| ==> s[k] == s[1..][k - 1];
      if rest.Some? then
        var i :| IsFirstMatch(s[1..], i, matches) && s[1..][i] == rest.value;
        assert IsFirstMatch(s, i + 1, matches) && s[i + 1] == rest.value;
        rest
      else rest
  }

  /** The test `run` applies to a path when it looks for `GodotSharp.dll`. */
  predicate IsGodotSharp(path: string, godotSharpRelease: bool)
  {
    var file := ToLower(path);
    EndsWith(file, "godotsharp.dll") && Contains(file, if godotSharpRelease then "release" else "debug")
  }

  /** Like the executable test, the `GodotSharp.dll` test ignores letter case. */
  lemma IsGodotSharpIgnoresCase(path: string, godotSharpRelease: bool)
    ensures IsGodotSharp(ToLower(path), godotSharpRelease) == IsGodotSharp(path, godotSharpRelease)
  {
    assert ToLower(ToLower(path)) == ToLower(path);
  }

  /** The executable search: the platform's test on the path's file name. */
  function ExecutableTest(p: Platform): string -> bool
  {
    exe => IsGodotExecutable(p, Basename(p, exe))
  }

  function GodotSharpTest(godotSharpRelease: bool): string -> bool
  {
    exe => IsGodotSharp(exe, godotSharpRelease)
  }

  /** The chosen executable and, when found, the chosen `GodotSharp.dll`. */
  datatype Binaries = Binaries(godotExecutable: string, godotSharp: Option<string>)

  /**
   * The executable is the first discovered path whose file name passes the
   * platform's test; `GodotSharp.dll` the first one that passes
   * `IsGodotSharp`. A missing executable fails the run first; a missing
   * `GodotSharp.dll` fails it only for a .NET build.
   */
  function SelectBinaries(p: Platform, executables: seq<string>, useDotnet: bool, godotSharpRelease: bool): (r: Result<Binaries>)
    ensures r.Err? <==>
      NoneMatch(executables, ExecutableTest(p)) || (useDotnet && NoneMatch(executables, GodotSharpTest(godotSharpRelease)))
    ensures r.Err? ==>
      r.error == if NoneMatch(executables, ExecutableTest(p)) then NoGodotExecutable else NoGodotSharp
    ensures r.Ok? ==>
      exists i :: IsFirstMatch(executables, i, ExecutableTest(p)) && executables[i] == r.value.godotExecutable
    ensures r.Ok? ==>
      (r.value.godotSharp.None? <==> NoneMatch(executables, GodotSharpTest(godotSharpRelease)))
    ensures r.Ok? && r.value.godotSharp.Some? ==>
      exists i :: IsFirstMatch(executables, i, GodotSharpTest(godotSharpRelease)) && executables[i] == r.value.godotSharp.value
  {
    var godotExecutable := Find(executables, ExecutableTest(p));
    var godotSharp := Find(executables, GodotSharpTest(godotSharpRelease));
    if godotExecutable.None? then Err(NoGodotExecutable)
    else if godotSharp.None? && useDotnet then Err(NoGodotSharp)
    else Ok(Binaries(godotExecutable.value, godotSharp))
  }
}
