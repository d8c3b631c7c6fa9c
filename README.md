# setup-godot naming engine, in Dafny

This project models the part of the `setup-godot` GitHub Action that turns a
requested Godot version into names. It covers:

- **Version parsing.** `parseVersion` checks a version string against the
  Semantic Versioning 2.0.0 regular expression. It keeps major, minor, patch
  and the pre-release label, and drops the build metadata.
- **The three host platforms.** For Linux, Windows and macOS the model gives
  the archive suffix, the case-insensitive executable test, where the archive
  unzips, and the base directory for export templates.
- **Names built from a version.** These are the archive file name, the
  `godot-builds` download URL for the editor or the export templates, and the
  local export-template folder.
- **The decisions `run` makes around its I/O.** A custom URL can override the
  computed names. The plan holds the template-dependent paths, the cache key
  and the cached paths. From the discovered files, `run` picks the Godot
  executable and `GodotSharp.dll`, and it has two fatal errors.

A failure that the action throws (an invalid version, an unrecognised
platform, a missing executable or `GodotSharp.dll`) is a `Result` error here.

Modules:

| file | module | contents |
|---|---|---|
| `common.dfy` | `Common` | `Option`, `Result` and the action's errors |
| `text.dfy` | `Text` | The string methods the action calls (a one-character `replace`, `toLowerCase`, `endsWith`, `includes`), and the model's own helpers `IndexOf`, `Split` and `Join`, which find the character `replace` removes and cut a version string at its separators. |
| `semver.dfy` | `SemVer` | The grammar as predicates, `ParseVersion`, and proofs that the parser is sound and complete for the grammar. |
| `platforms.dfy` | `Platforms` | The `Platform` variants and what each one contributes. |
| `naming.dfy` | `Naming` | File names, URLs, template folders and paths, with their properties. |
| `setup.dfy` | `Setup` | The install plan (a method that reassigns locals the way `run` does), the cache key, and the choice of binaries. |

## Model

| member | source | states |
|---|---|---|
| SemVer.ParseVersion | src/utils.ts:123-134 | The parser itself: build check, then pre-release check, then the three numerals. Its contract is stated by `SemVer.ParseVersionSound`, `SemVer.ParseVersionComplete` and `SemVer.ParseVersionRejects`. |
| SemVer.ParseVersionSound | src/utils.ts:120-134 | On success, the input is the rendering of the returned version plus some build metadata, and every component satisfies the grammar. A failure is `InvalidVersion` carrying the input. |
| SemVer.ParseVersionComplete | src/utils.ts:120-134 | Every string in the grammar parses, to exactly its major, minor, patch and pre-release. |
| SemVer.ParseVersionRejects | src/utils.ts:123-127 | A string the parser rejects is not in the grammar for any version. |
| SemVer.ParseRendered | src/utils.ts:120-134 | Rendering an accepted version with accepted build metadata and parsing it gives the version back, with the build dropped. |
| SemVer.AcceptsIffGrammar | src/utils.ts:120-121 | The executable acceptance test agrees with the grammar predicates in both directions. |
| SemVer.AllPiecesIffDotSeparated | src/utils.ts:121 | Checking the pieces between dots decides the `ident(\.ident)*` pattern, when identifiers contain no dot. |
| SemVer.WellFormedHasNoSlash | src/utils.ts:121 | No accepted component contains `/` or `\`. |
| SemVer.ParseRelease | __tests__/main.test.ts:7-12 | `3.5.2` parses to 3, 5, 2 with an empty label. |
| SemVer.ParsePreRelease | __tests__/main.test.ts:14-19 | `4.0.0-beta1` parses to 4, 0, 0 with label `beta1`. |
| SemVer.ParseDottedPreRelease | __tests__/main.test.ts:21-26 | `4.0.0-beta.16` parses to 4, 0, 0 with label `beta.16`. |
| SemVer.ParseZeroPatch | src/utils.ts:129-133 | `4.0.0` parses to 4, 0, 0 with an empty label. |
| SemVer.ParsePatchRelease | src/utils.ts:129-133 | `3.5.1` parses to 3, 5, 1 with an empty label. |
| SemVer.ParseDropsBuild | src/utils.ts:121-133 | `1.0.0-rc.1+build.5` parses to 1, 0, 0 with label `rc.1`; the build is dropped. |
| SemVer.ParseRejectsTwoParts | src/utils.ts:124-127 | `4.0` is invalid. |
| SemVer.ParseRejectsLetter | src/utils.ts:124-127 | `4.x.0` is invalid. |
| SemVer.ParseRejectsLeadingZero | src/utils.ts:121-127 | `04.0.0` is invalid because of the leading zero. |
| SemVer.ParseRejectsZeroLedPreRelease | src/utils.ts:121-127 | `4.0.0-01` is invalid: a numeric pre-release identifier cannot start with zero. |
| Text.SplitJoin | src/utils.ts:121 | Splitting a join of dot-free pieces gives the pieces back. |
| Text.RemoveFirstRemovesOne | src/utils.ts:154 | `replace('.', '')` leaves a string without a dot unchanged. Otherwise it cuts out the dot at the one position that no other dot precedes. So exactly one dot goes, later dots stay, and every other character keeps its order. |
| Platforms.GetPlatform | src/utils.ts:252-265 | `getPlatform`. See `Platforms.GetPlatformRecognises` and `Platforms.GetPlatformInverts`. |
| Platforms.FilenameSuffix | src/utils.ts:36-85 | `godotFilenameSuffix` for each platform. See `Platforms.FilenameSuffixMarks`. |
| Platforms.IsGodotExecutable | src/utils.ts:42-88 | `isGodotExecutable` for each platform. See `Platforms.IsGodotExecutableIgnoresCase` and `Naming.ArchiveNameIsExecutable`. |
| Platforms.UnzippedPath | src/utils.ts:45-95 | `getUnzippedPath` for each platform. See `Platforms.UnzippedPathUsesVersionName`. |
| Platforms.ExportTemplateBasePath | src/utils.ts:31-81 | `GODOT_EXPORT_TEMPLATE_BASE_PATH` for each platform. See `Naming.ExportTemplateBaseLayout`, `Naming.LinuxBase`, `Naming.WindowsBase` and `Naming.MacOSBase`. |
| Platforms.GetPlatformRecognises | src/utils.ts:252-265 | Exactly `linux`, `win32` and `darwin` are recognised, each mapped to the descriptor that names it. Anything else fails with `UnrecognizedPlatform`. |
| Platforms.GetPlatformInverts | src/utils.ts:252-265 | Each descriptor's Node platform name maps back to that descriptor. |
| Platforms.FilenameSuffixMarks | src/utils.ts:36-85 | The suffix starts with `_mono` exactly for .NET builds, and ends in `_macos.universal` exactly on macOS. |
| Platforms.IsGodotExecutableIgnoresCase | src/utils.ts:42-88 | The executable test gives the same answer for a name and its lower-case form. |
| Platforms.UnzippedPathUsesVersionName | src/utils.ts:45-95 | On Linux and Windows, unzipped paths are equal exactly when the version names are equal. On macOS the path does not depend on the version name. |
| Platforms.Basename | src/main.ts:274-276 | The result is a separator-free suffix of the path, preceded by a separator whenever it is shorter than the path. |
| Naming.NormalizedLabel | src/utils.ts:154 | `label.replace('.', '')`, as at lines 191 and 225 too. See `Naming.NormalizedLabelDropsFirstDot` and `Naming.NormalizedLabelExamples`. |
| Naming.FilenameBase | src/utils.ts:221-242 | `getGodotFilenameBase`. See `Naming.FilenameBaseExtendsReleaseDirectory` and `Naming.PatchZeroIsOmitted`. |
| Naming.Filename | src/utils.ts:213-219 | `getGodotFilename`: the base followed by the platform suffix. See `Naming.GodotUrlLayout` and `Naming.ArchiveNameIsExecutable`. |
| Naming.FilenameFromVersionString | src/utils.ts:244-250 | `getGodotFilenameFromVersionString`. See `Setup.PlanInstallation`, which names the installation after it. |
| Naming.GodotUrl | src/utils.ts:144-173 | `getGodotUrl`. See `Naming.GodotUrlLayout`, `Naming.ReleaseDirectoryDecodes` and `Naming.UrlsAcrossPlatforms`. |
| Naming.ExportTemplatePath | src/utils.ts:182-211 | `getExportTemplatePath`. See `Naming.ExportTemplatePathLayout`. |
| Naming.NormalizedLabelDropsFirstDot | src/utils.ts:154 | A label without a dot is kept. Otherwise the normalised label is the label with its first dot cut out: the text before that dot holds no dot, and the text after it, later dots included, is kept. |
| Naming.NormalizedLabelExamples | src/utils.ts:225 | `beta.16` becomes `beta16`, `a.b.c` becomes `ab.c`, and `beta1` is unchanged. |
| Naming.PatchZeroIsOmitted | src/utils.ts:232-234 | A patch of `0` gives the same file name, URL directory and template folder as an empty patch. |
| Naming.FilenameBaseExtendsReleaseDirectory | src/utils.ts:156-165 | With a non-empty minor, the file name base is `Godot_v` followed by the URL's release directory. |
| Naming.ReleaseDirectoryDecodes | src/utils.ts:156-165 | For numeric components, two release directories are equal iff major, minor, effective patch and release channel are all equal. |
| Naming.GodotUrlLayout | src/utils.ts:144-173 | The URL exists iff the version parses, and otherwise fails with `InvalidVersion`. It is the prefix, then the base without `Godot_v`, then `/`, then either the archive file name with `.zip` or the base with the templates suffix. |
| Naming.UrlsAcrossPlatforms | src/utils.ts:167-172 | Template URLs are the same on every platform. Editor URLs differ only in the platform suffix before `.zip`, and differ whenever the platforms differ. |
| Naming.UrlLinuxMonoBeta | src/utils.ts:156-168 | `4.0.0-beta1` for Linux .NET gives `…/4.0-beta1/Godot_v4.0-beta1_mono_linux_x86_64.zip`. |
| Naming.UrlWindowsMonoDottedBeta | src/utils.ts:154-168 | `4.0.0-beta.16` for Windows .NET gives `…/4.0-beta16/Godot_v4.0-beta16_mono_win64.zip`. |
| Naming.UrlTemplatesStable | src/utils.ts:170-172 | The `4.0.0` templates give `…/4.0-stable/Godot_v4.0-stable_export_templates.tpz`. |
| Naming.NormalizeSlashes | src/utils.ts:209 | The length is unchanged and no backslash is left; a path without backslashes is unchanged. |
| Naming.NormalizeJoin | src/utils.ts:204-209 | Normalising a platform join gives a `/` join of the normalised parts. |
| Naming.TemplateFolderIsOneSegment | src/utils.ts:193-202 | The template folder of an accepted version contains no path separator. |
| Naming.ExportTemplatePathLayout | src/utils.ts:182-211 | The path exists iff the version parses, and otherwise fails with `InvalidVersion`. It is the normalised base, the templates directory and the folder joined by `/`, with no backslash anywhere. |
| Naming.ExportTemplateBaseLayout | src/utils.ts:31-81 | The normalised template base is the normalised home directory followed by the platform's fixed subpath. |
| Naming.LinuxBase | src/utils.ts:31-34 | On Linux the base is the home directory plus `/.local/share/godot`. |
| Naming.WindowsBase | src/utils.ts:55-57 | On Windows the base is the home directory plus `/AppData/Roaming/Godot`. |
| Naming.MacOSBase | src/utils.ts:78-81 | On macOS the base is the home directory plus `/Library/Application Support/Godot`. |
| Naming.TemplatePathLinuxMono | src/utils.ts:193-210 | `3.5.1` on Linux with .NET gives the home directory plus `/.local/share/godot/templates/3.5.1.stable.mono`. |
| Naming.TemplatePathWindowsBeta | src/utils.ts:193-210 | `4.0.0-beta1` on Windows gives the home directory plus `/AppData/Roaming/Godot/export_templates/4.0.beta1`. |
| Naming.FolderExamples | src/utils.ts:193-202 | The template folders `3.5.1.stable.mono` and `4.0.beta1`. |
| Naming.ExportTemplatesOnlyForMajorFour | src/utils.ts:206 | For a numeric major, the directory is `export_templates` iff the major's value is 4, so majors 5 and above get `templates`. |
| Naming.TemplateFolderCollision | src/utils.ts:191-201 | The accepted versions `4.0.0-1.2.a` and `4.0.12-a` share a template folder, although their release directories differ. |
| Naming.ArchiveNameIsExecutable | src/utils.ts:36-88 | A platform's own archive name passes its executable test exactly on Linux, and on Windows without .NET. |
| Setup.PlanInstallation | src/main.ts:66-109 | With a custom URL: version name `custom_godot`, that URL, no templates, and an empty template URL. Otherwise the names computed from the version, and a failure iff the version is invalid. Every path, the cached paths and the cache key follow from those. The three template fields are non-empty iff templates are included. |
| Setup.CachedPaths | src/main.ts:145-147 | The cached paths. See `Setup.PlanInstallation`. |
| Setup.CacheKey | src/main.ts:148 | The cache key. See `Setup.CacheKeyDecodes`. |
| Setup.CacheKeyDecodes | src/main.ts:145-148 | For `.zip` URLs, two cache keys are equal iff both the URLs and the template flags are equal. |
| Setup.ComputedUrlsEndInZip | src/main.ts:91 | Every computed editor URL ends in `.zip`, so `CacheKeyDecodes` applies to computed plans. |
| Setup.Find | src/main.ts:274-283 | The result is absent iff nothing matches; otherwise it is the first element that matches. |
| Setup.IsGodotSharp | src/main.ts:277-282 | The `GodotSharp.dll` test. See `Setup.IsGodotSharpIgnoresCase` and `Setup.SelectBinaries`. |
| Setup.IsGodotSharpIgnoresCase | src/main.ts:277-282 | The `GodotSharp.dll` test gives the same answer for a path and its lower-case form. |
| Setup.SelectBinaries | src/main.ts:274-291 | The selection fails iff no executable matches, or a .NET build has no `GodotSharp.dll`. A missing executable is reported first. Otherwise it returns the first matching executable, and the first matching `GodotSharp.dll` or none iff none matches. |

## Left out

- Not modelled: `findExecutablesRecursively`, which walks directories and probes for executable permission. Its result is an input sequence of paths to `Setup.SelectBinaries`.
- Not modelled: downloading, zip extraction, the remote cache, PATH and environment export, logging and `setFailed`. All of them are I/O.
- Not modelled: creating, removing, renaming and linking files and directories. These are filesystem effects.
- Not modelled: the bin directory, the `godot` alias and the `GodotSharp` directory alias. They only matter after selection, and they are filesystem effects.
- Not modelled: inferring the version from `global.json`. It needs a file read and JSON parsing. `Setup.PlanInstallation` takes the resolved version string.
- Not modelled: reading the action inputs and stripping their whitespace. The inputs are parameters.
- Not modelled: the async structure of `run`.
- `os.homedir()` is a parameter, `home`. The downloads directory and the installation directory are parameters too.
- Platforms.JoinPath: `path.join` is modelled for clean segments only, as the segments plus one separator. Empty segments, `..` and duplicate separators are not resolved. The Windows base path's `path.normalize` is the identity on such segments.
- Naming.NormalizeSlashes: `normalize-path` is modelled as replacing backslashes with slashes. Collapsing duplicate slashes and stripping a trailing slash are not modelled.
- Platforms.Basename: Node's `path.basename` ignores trailing separators. This model returns the empty name for such a path. Paths that come out of the directory walk never end in a separator.
- Text.ToLower: `toLowerCase` is modelled on ASCII letters only. Non-ASCII case mappings are not modelled.
- Platforms.GetPlatform: the action's error message quotes `process.platform` rather than its argument. The model reports the argument, which is the same value at the only call site.
- `export_templates` is used only when the major is the string `4` (src/utils.ts:206); a major of 5 or more gets `templates`. See `Naming.ExportTemplatesOnlyForMajorFour`.
- `__tests__/main.test.ts:30-104` still expect `downloads.tuxfamily.org` URLs and a three-argument `getGodotUrl`. The code (src/utils.ts:111-112, 156-172) builds only `godot-builds` URLs, and the model follows the code. Only the file-name parts of those test URLs agree with the code, and `Naming.UrlLinuxMonoBeta` and `Naming.UrlWindowsMonoDottedBeta` reproduce them.
