/**
 * `parseVersion` and the grammar it recognises: the official regular
 * expression of Semantic Versioning 2.0.0,
 *   MAJOR.MINOR.PATCH[-PRERELEASE][+BUILD]
 * with the build metadata accepted and then dropped.
 */
module SemVer {
  import opened Common
  import opened Text

  /** The four capture groups the action keeps; `preRelease` (the source's `label`) is "" for a release. */
  datatype SemanticVersion = SemanticVersion(major: string, minor: string, patch: string, preRelease: string)

  predicate IsDigit(c: char) { '0' <= c <= '9' }

  /** `[0-9a-zA-Z-]` */
  predicate IsIdentifierChar(c: char)
  {
    IsDigit(c) || 'a' <= c <= 'z' || 'A' <= c <= 'Z' || c == '-'
  }

  predicate AllDigits(s: string)
  {
    forall k :: 0 <= k < |s| ==> IsDigit(s[k])
  }

  predicate AllIdentifierChars(s: string)
  {
    forall k :: 0 <= k < |s| ==> IsIdentifierChar(s[k])
  }

  /** `0|[1-9]\d*`: a decimal numeral without a leading zero. */
  predicate IsNumericIdentifier(s: string)
  {
    s == "0" || (|s| > 0 && s[0] != '0' && AllDigits(s))
  }

  /**
   * `0|[1-9]\d*|\d*[a-zA-Z-][0-9a-zA-Z-]*`: a numeral without a leading zero,
   * or an identifier of `[0-9a-zA-Z-]` holding at least one non-digit.
   */
  predicate IsPreReleaseIdentifier(s: string)
  {
    IsNumericIdentifier(s) || (AllIdentifierChars(s) && !AllDigits(s))
  }

  /** `[0-9a-zA-Z-]+` */
  predicate IsBuildIdentifier(s: string)
  {
    |s| > 0 && AllIdentifierChars(s)
  }

  /** `s` is `ident(\.ident)*` for the identifier class `isIdent`. */
  ghost predicate DotSeparated(s: string, isIdent: string -> bool)
  {
    exists ids: seq<string> ::
      |ids| > 0 && Join(ids, '.') == s && forall k :: 0 <= k < |ids| ==> isIdent(ids[k])
  }

  /** Every piece of `s` between dots is an identifier of the class. */
  predicate AllPieces(s: string, isIdent: string -> bool)
  {
    var ids := Split(s, '.');
    forall k :: 0 <= k < |ids| ==> isIdent(ids[k])
  }

  /** Checking the split pieces decides `ident(\.ident)*` when identifiers hold no dot. */
  lemma AllPiecesIffDotSeparated(s: string, isIdent: string -> bool)
    requires forall x :: isIdent(x) ==> '.' !in x
    ensures AllPieces(s, isIdent) <==> DotSeparated(s, isIdent)
  {
    if AllPieces(s, isIdent) {
      var ids := Split(s, '.');
      assert |ids| > 0 && Join(ids, '.') == s;
    }
    if DotSeparated(s, isIdent) {
      var ids :| |ids| > 0 && Join(ids, '.') == s && forall k :: 0 <= k < |ids| ==> isIdent(ids[k]);
      SplitJoin(ids, '.');
    }
  }

  lemma PreReleasePieces(s: string)
    ensures AllPieces(s, IsPreReleaseIdentifier) <==> DotSeparated(s, IsPreReleaseIdentifier)
  {
    assert forall x :: IsPreReleaseIdentifier(x) ==> '.' !in x;
    AllPiecesIffDotSeparated(s, IsPreReleaseIdentifier);
  }

  lemma BuildPieces(s: string)
    ensures AllPieces(s, IsBuildIdentifier) <==> DotSeparated(s, IsBuildIdentifier)
  {
    assert forall x :: IsBuildIdentifier(x) ==> '.' !in x;
    AllPiecesIffDotSeparated(s, IsBuildIdentifier);
  }

  /** The captures of a successful match: three numerals and an optional pre-release. */
  ghost predicate IsWellFormed(v: SemanticVersion)
  {
    && IsNumericIdentifier(v.major)
    && IsNumericIdentifier(v.minor)
    && IsNumericIdentifier(v.patch)
    && (v.preRelease == "" || DotSeparated(v.preRelease, IsPreReleaseIdentifier))
  }

  /** The optional build metadata group. */
  ghost predicate IsBuildMetadata(build: string)
  {
    build == "" || DotSeparated(build, IsBuildIdentifier)
  }

  /** The text of a version in the grammar's layout, with its optional pre-release. */
  function FrontText(v: SemanticVersion): string
  {
    v.major + "." + v.minor + "." + v.patch + (if v.preRelease == "" then "" else "-" + v.preRelease)
  }

  /** The text of a version followed by optional build metadata. */
  function Render(v: SemanticVersion, build: string): string
  {
    FrontText(v) + (if build == "" then "" else "+" + build)
  }

  /** `s` matches the regular expression and `v` holds the groups `parseVersion` keeps. */
  ghost predicate IsParseOf(s: string, v: SemanticVersion)
  {
    IsWellFormed(v) && exists build :: IsBuildMetadata(build) && s == Render(v, build)
  }

  /**
   * `parseVersion`: cut the build metadata off at the first `+`, then check
   * the pre-release and the numerals in front of it.
   */
  function ParseVersion(s: string): Result<SemanticVersion>
  {
    var plus := IndexOf(s, '+');
    if plus < |s| && !AllPieces(s[plus + 1..], IsBuildIdentifier) then Err(InvalidVersion(s))
    else match ParseFront(s[..plus])
      case Some(v) => Ok(v)
      case None => Err(InvalidVersion(s))
  }

  /** `MAJOR.MINOR.PATCH[-PRERELEASE]`: cut the pre-release off at the first `-`. */
  function ParseFront(front: string): Option<SemanticVersion>
  {
    var dash := IndexOf(front, '-');
    var pre := if dash < |front| then front[dash + 1..] else "";
    if dash < |front| && !AllPieces(pre, IsPreReleaseIdentifier) then None
    else ParseNumbers(front[..dash], pre)
  }

  /** `MAJOR.MINOR.PATCH`: exactly three numerals between dots. */
  function ParseNumbers(main: string, pre: string): Option<SemanticVersion>
  {
    var numbers := Split(main, '.');
    if |numbers| == 3 && IsNumericIdentifier(numbers[0]) && IsNumericIdentifier(numbers[1]) && IsNumericIdentifier(numbers[2])
    then Some(SemanticVersion(numbers[0], numbers[1], numbers[2], pre))
    else None
  }

  /** Three numerals joined by dots. */
  lemma JoinThree(a: string, b: string, c: string)
    ensures Join([a, b, c], '.') == a + "." + b + "." + c
  {
    assert [a, b, c][1..] == [b, c];
    assert [b, c][1..] == [c];
    assert Join([b, c], '.') == b + "." + c;
    assert Join([a, b, c], '.') == a + "." + (b + "." + c);
  }

  /**
   * Cutting `a + [c] + b` (or just `a`, when `b` is empty) at the first `c`
   * gives back `a` and `b`, provided `a` holds no `c`.
   */
  lemma CutAtFirst(a: string, c: char, b: string)
    requires c !in a
    ensures var s := a + (if b == "" then "" else [c] + b);
      var i := IndexOf(s, c);
      && s[..i] == a
      && (i < |s| <==> b != "")
      && (i < |s| ==> s[i + 1..] == b)
  {
    var s := a + (if b == "" then "" else [c] + b);
    if b == "" {
      assert s == a;
    } else {
      assert s == a + [c] + b;
      IndexOfAfterPrefix(a, c, b);
    }
  }

  /** The grammar's conditions, stated with the split-based check of each dotted group. */
  predicate Accepts(v: SemanticVersion, build: string)
  {
    && IsNumericIdentifier(v.major)
    && IsNumericIdentifier(v.minor)
    && IsNumericIdentifier(v.patch)
    && (v.preRelease == "" || AllPieces(v.preRelease, IsPreReleaseIdentifier))
    && (build == "" || AllPieces(build, IsBuildIdentifier))
  }

  lemma AcceptsIffGrammar(v: SemanticVersion, build: string)
    ensures Accepts(v, build) <==> IsWellFormed(v) && IsBuildMetadata(build)
  {
    PreReleasePieces(v.preRelease);
    BuildPieces(build);
  }

  /** Cutting at the first `c` loses nothing but that `c`. */
  lemma CutAt(s: string, c: char)
    ensures var i := IndexOf(s, c);
      && (i < |s| ==> s == s[..i] + [c] + s[i + 1..])
      && (i == |s| ==> s[..i] == s)
  {
  }

  /** Whatever `parseVersion` returns is a match of the grammar with its groups. */
  lemma ParseVersionSound(s: string)
    ensures ParseVersion(s).Ok? ==> IsParseOf(s, ParseVersion(s).value)
    ensures ParseVersion(s).Err? ==> ParseVersion(s).error == InvalidVersion(s)
  {
    if ParseVersion(s).Ok? {
      var v := ParseVersion(s).value;
      var build := ParsedBuild(s);
      AcceptsIffGrammar(v, build);
      assert IsBuildMetadata(build) && s == Render(v, build);
    }
  }

  /** A failed parse reports the input. */
  lemma ParseVersionFails(s: string)
    ensures ParseVersion(s).Err? ==> ParseVersion(s).error == InvalidVersion(s)
  {
  }

  /** The groups of a successful parse satisfy the grammar. */
  lemma ParsedIsWellFormed(s: string)
    requires ParseVersion(s).Ok?
    ensures IsWellFormed(ParseVersion(s).value)
  {
    ParseVersionSound(s);
  }

  /** The build metadata `parseVersion` drops, and the facts that make the rest a match. */
  lemma ParsedBuild(s: string) returns (build: string)
    requires ParseVersion(s).Ok?
    ensures Accepts(ParseVersion(s).value, build) && s == Render(ParseVersion(s).value, build)
  {
    var plus := IndexOf(s, '+');
    var front := s[..plus];
    CutAt(s, '+');
    assert '+' !in front;
    if plus < |s| {
      build := s[plus + 1..];
      assert AllPieces(build, IsBuildIdentifier);
      EmptyHasNoPieces();
      assert s == front + ("+" + build);
    } else {
      build := "";
      assert s == front + "";
    }
    ParseVersionAt(s, front, build);
    ParsedFront(front);
  }

  /** `parseVersion` of a front and a build, joined by the first `+`. */
  lemma ParseVersionAt(s: string, front: string, build: string)
    requires '+' !in front
    requires s == front + (if build == "" then "" else "+" + build)
    ensures ParseVersion(s) ==
      if build != "" && !AllPieces(build, IsBuildIdentifier) then Err(InvalidVersion(s))
      else if ParseFront(front).Some? then Ok(ParseFront(front).value)
      else Err(InvalidVersion(s))
  {
    CutAtFirst(front, '+', build);
  }

  /** `ParseFront` of numerals and a pre-release, joined by the first `-`. */
  lemma ParseFrontAt(front: string, main: string, pre: string)
    requires '-' !in main
    requires front == main + (if pre == "" then "" else "-" + pre)
    ensures ParseFront(front) ==
      if pre != "" && !AllPieces(pre, IsPreReleaseIdentifier) then None else ParseNumbers(main, pre)
  {
    CutAtFirst(main, '-', pre);
  }

  /** `""` is no identifier, so neither group can be empty once its sign is present. */
  lemma EmptyHasNoPieces()
    ensures !AllPieces("", IsPreReleaseIdentifier) && !AllPieces("", IsBuildIdentifier)
  {
    assert Split("", '.')[0] == "";
  }

  lemma ParsedFront(front: string)
    requires ParseFront(front).Some?
    ensures var v := ParseFront(front).value;
      && Accepts(v, "")
      && front == FrontText(v)
  {
    var main, pre := CutFront(front);
    ParsedNumbers(main, pre);
  }

  /** An accepted front, cut at its first `-` into numerals and pre-release. */
  lemma CutFront(front: string) returns (main: string, pre: string)
    requires ParseFront(front).Some?
    ensures '-' !in main && front == main + (if pre == "" then "" else "-" + pre)
    ensures pre == "" || AllPieces(pre, IsPreReleaseIdentifier)
    ensures ParseFront(front) == ParseNumbers(main, pre)
  {
    var dash := IndexOf(front, '-');
    main := front[..dash];
    pre := if dash < |front| then front[dash + 1..] else "";
    assert ParseFront(front) == ParseNumbers(main, pre);
    CutAt(front, '-');
    if dash < |front| {
      EmptyHasNoPieces();
      Associate(main, ['-'], pre);
    } else {
      EmptyTail(main);
    }
  }

  /** What `ParseNumbers` accepts is three numerals between dots. */
  lemma ParsedNumbers(main: string, pre: string)
    requires ParseNumbers(main, pre).Some?
    ensures var v := ParseNumbers(main, pre).value;
      && v.preRelease == pre
      && IsNumericIdentifier(v.major) && IsNumericIdentifier(v.minor) && IsNumericIdentifier(v.patch)
      && main == v.major + "." + v.minor + "." + v.patch
  {
    var numbers := Split(main, '.');
    assert numbers == [numbers[0], numbers[1], numbers[2]];
    JoinThree(numbers[0], numbers[1], numbers[2]);
  }

  lemma NumeralHasOnlyDigits(s: string)
    requires IsNumericIdentifier(s)
    ensures '.' !in s && '-' !in s && '+' !in s
  {
  }

  /** A pre-release whose pieces are identifiers contains no `+`. */
  lemma PiecesHaveNoPlus(pre: string)
    requires AllPieces(pre, IsPreReleaseIdentifier)
    ensures '+' !in pre
  {
    var ids := Split(pre, '.');
    NotInJoin(ids, '.', '+');
  }

  /** Every match of the grammar is accepted, with exactly its groups. */
  lemma ParseVersionComplete(s: string, v: SemanticVersion)
    requires IsParseOf(s, v)
    ensures ParseVersion(s) == Ok(v)
  {
    var build :| IsBuildMetadata(build) && s == Render(v, build);
    AcceptsIffGrammar(v, build);
    ParseRendered(v, build);
  }

  /** `parseVersion` cuts a rendered version back into its groups. */
  lemma ParseRendered(v: SemanticVersion, build: string)
    requires Accepts(v, build)
    ensures ParseVersion(Render(v, build)) == Ok(v)
  {
    NumeralsHaveNoSeparator(v);
    if v.preRelease != "" {
      PiecesHaveNoPlus(v.preRelease);
    }
    assert '+' !in FrontText(v);
    ParseVersionAt(Render(v, build), FrontText(v), build);
    ParseRenderedFront(v);
  }

  lemma NumeralsHaveNoSeparator(v: SemanticVersion)
    requires IsNumericIdentifier(v.major) && IsNumericIdentifier(v.minor) && IsNumericIdentifier(v.patch)
    ensures var main := v.major + "." + v.minor + "." + v.patch;
      && Join([v.major, v.minor, v.patch], '.') == main
      && '-' !in main && '+' !in main
  {
    NumeralHasOnlyDigits(v.major);
    NumeralHasOnlyDigits(v.minor);
    NumeralHasOnlyDigits(v.patch);
    JoinThree(v.major, v.minor, v.patch);
    NotInJoin([v.major, v.minor, v.patch], '.', '-');
    NotInJoin([v.major, v.minor, v.patch], '.', '+');
  }

  lemma ParseRenderedFront(v: SemanticVersion)
    requires Accepts(v, "")
    ensures ParseFront(FrontText(v)) == Some(v)
  {
    var main := v.major + "." + v.minor + "." + v.patch;
    NumeralsHaveNoSeparator(v);
    ParseFrontAt(FrontText(v), main, v.preRelease);
    ParseNumbersOf(v.major, v.minor, v.patch, v.preRelease);
  }

  /** Three numerals between dots are what `ParseNumbers` accepts. */
  lemma ParseNumbersOf(major: string, minor: string, patch: string, pre: string)
    requires IsNumericIdentifier(major) && IsNumericIdentifier(minor) && IsNumericIdentifier(patch)
    ensures ParseNumbers(major + "." + minor + "." + patch, pre) == Some(SemanticVersion(major, minor, patch, pre))
  {
    var numbers := [major, minor, patch];
    NumeralHasOnlyDigits(major);
    NumeralHasOnlyDigits(minor);
    NumeralHasOnlyDigits(patch);
    JoinThree(major, minor, patch);
    SplitJoin(numbers, '.');
  }

  /** A string that `parseVersion` rejects matches the grammar in no way at all. */
  lemma ParseVersionRejects(s: string)
    requires ParseVersion(s).Err?
    ensures forall v :: !IsParseOf(s, v)
  {
    forall v | IsParseOf(s, v) ensures false {
      ParseVersionComplete(s, v);
    }
  }

  /** The groups of a match hold no path separator of any platform. */
  lemma WellFormedHasNoSlash(v: SemanticVersion)
    requires IsWellFormed(v)
    ensures '/' !in v.major + v.minor + v.patch + v.preRelease
    ensures '\\' !in v.major + v.minor + v.patch + v.preRelease
  {
    NumeralHasOnlyDigits(v.major);
    NumeralHasOnlyDigits(v.minor);
    NumeralHasOnlyDigits(v.patch);
    if v.preRelease != "" {
      var ids :| |ids| > 0 && Join(ids, '.') == v.preRelease
        && forall k :: 0 <= k < |ids| ==> IsPreReleaseIdentifier(ids[k]);
      assert forall k :: 0 <= k < |ids| ==> AllIdentifierChars(ids[k]);
      NotInJoin(ids, '.', '/');
      NotInJoin(ids, '.', '\\');
    }
  }

  /** `3.5.2`, from the action's own tests. */
  lemma ParseRelease()
    ensures ParseVersion("3.5.2") == Ok(SemanticVersion("3", "5", "2", ""))
  {
    ParseReleaseText("3.5.2", "3", "5", "2");
  }

  /** `4.0.0`: a release with a zero patch. */
  lemma ParseZeroPatch()
    ensures ParseVersion("4.0.0") == Ok(SemanticVersion("4", "0", "0", ""))
  {
    ParseReleaseText("4.0.0", "4", "0", "0");
  }

  /** `3.5.1`: a release with a patch. */
  lemma ParsePatchRelease()
    ensures ParseVersion("3.5.1") == Ok(SemanticVersion("3", "5", "1", ""))
  {
    ParseReleaseText("3.5.1", "3", "5", "1");
  }

  /** A release spelled as its three numerals. */
  lemma ParseReleaseText(s: string, major: string, minor: string, patch: string)
    requires IsNumericIdentifier(major) && IsNumericIdentifier(minor) && IsNumericIdentifier(patch)
    requires s == major + "." + minor + "." + patch
    ensures ParseVersion(s) == Ok(SemanticVersion(major, minor, patch, ""))
  {
    var v := SemanticVersion(major, minor, patch, "");
    assert FrontText(v) == s + "";
    EmptyTail(s);
    NumeralsHaveNoSeparator(v);
    ParsePlainFront(s);
    ParseRenderedFront(v);
  }

  lemma EmptyTail(s: string)
    ensures s + "" == s
  {
  }

  /** A pre-release spelled as its numerals and its label. */
  lemma ParsePreReleaseText(s: string, major: string, minor: string, patch: string, pre: string)
    requires IsNumericIdentifier(major) && IsNumericIdentifier(minor) && IsNumericIdentifier(patch)
    requires pre != "" && AllPieces(pre, IsPreReleaseIdentifier) && '+' !in pre
    requires s == major + "." + minor + "." + patch + "-" + pre
    ensures ParseVersion(s) == Ok(SemanticVersion(major, minor, patch, pre))
  {
    var v := SemanticVersion(major, minor, patch, pre);
    var main := major + "." + minor + "." + patch;
    assert FrontText(v) == main + ("-" + pre);
    Associate(main, "-", pre);
    NumeralsHaveNoSeparator(v);
    assert '+' !in s;
    ParsePlainFront(s);
    ParseRenderedFront(v);
  }

  lemma Associate(a: string, b: string, c: string)
    ensures a + b + c == a + (b + c)
  {
  }

  /** `4.0.0-beta1`, from the action's own tests. */
  lemma ParsePreRelease()
    ensures ParseVersion("4.0.0-beta1") == Ok(SemanticVersion("4", "0", "0", "beta1"))
  {
    PiecesOf(["beta1"], "beta1");
    PreReleaseText("4.0.0-beta1", "beta1");
    ParsePreReleaseText("4.0.0-beta1", "4", "0", "0", "beta1");
  }

  /** `4.0.0-beta.16`, from the action's own tests: the label keeps its dot. */
  lemma ParseDottedPreRelease()
    ensures ParseVersion("4.0.0-beta.16") == Ok(SemanticVersion("4", "0", "0", "beta.16"))
  {
    PiecesOf(["beta", "16"], "beta.16");
    PreReleaseText("4.0.0-beta.16", "beta.16");
    ParsePreReleaseText("4.0.0-beta.16", "4", "0", "0", "beta.16");
  }

  lemma PreReleaseText(s: string, pre: string)
    requires s == "4.0.0-" + pre
    ensures s == "4" + "." + "0" + "." + "0" + "-" + pre
  {
  }

  /** Build metadata is accepted and dropped. */
  lemma ParseDropsBuild()
    ensures ParseVersion("1.0.0-rc.1+build.5") == Ok(SemanticVersion("1", "0", "0", "rc.1"))
  {
    var v := SemanticVersion("1", "0", "0", "rc.1");
    RcBuildAccepted();
    assert Render(v, "build.5") == "1.0.0-rc.1+build.5";
    ParseRendered(v, "build.5");
  }

  /** The split of a joined example, with no dot and no plus inside. */
  lemma PiecesOf(ids: seq<string>, s: string)
    requires |ids| > 0 && Join(ids, '.') == s
    requires forall k :: 0 <= k < |ids| ==> AllIdentifierChars(ids[k]) && ids[k] != ""
    ensures Split(s, '.') == ids
    ensures '+' !in s
  {
    assert forall k :: 0 <= k < |ids| ==> '.' !in ids[k] && '+' !in ids[k];
    SplitJoin(ids, '.');
    NotInJoin(ids, '.', '+');
  }

  /** A pre-release written out as its identifiers passes the split-based check. */
  lemma PreReleaseFrom(ids: seq<string>, s: string)
    requires |ids| > 0 && Join(ids, '.') == s
    requires forall k :: 0 <= k < |ids| ==> IsPreReleaseIdentifier(ids[k])
    ensures AllPieces(s, IsPreReleaseIdentifier) && '+' !in s
  {
    forall k | 0 <= k < |ids|
      ensures AllIdentifierChars(ids[k]) && ids[k] != ""
    {
      var id := ids[k];
      if !IsNumericIdentifier(id) {
        assert !AllDigits(id);
      }
    }
    PiecesOf(ids, s);
  }

  lemma RcBuildAccepted()
    ensures Accepts(SemanticVersion("1", "0", "0", "rc.1"), "build.5") && '+' !in "rc.1"
  {
    PiecesOf(["rc", "1"], "rc.1");
    PiecesOf(["build", "5"], "build.5");
  }

  /** With neither `-` nor `+`, only the numerals decide. */
  lemma ParsePlainNumbers(s: string)
    requires '+' !in s && '-' !in s
    ensures ParseVersion(s) == if ParseNumbers(s, "").Some? then Ok(ParseNumbers(s, "").value) else Err(InvalidVersion(s))
  {
    assert s[..|s|] == s;
  }

  /** Without build metadata the whole string is the front. */
  lemma ParsePlainFront(s: string)
    requires '+' !in s
    ensures ParseVersion(s) == if ParseFront(s).Some? then Ok(ParseFront(s).value) else Err(InvalidVersion(s))
  {
    EmptyTail(s);
    ParseVersionAt(s, s, "");
  }

  /** Numerals that are not exactly three numeric identifiers are rejected. */
  lemma RejectedNumbers(s: string, parts: seq<string>)
    requires '+' !in s && '-' !in s
    requires |parts| > 0 && Join(parts, '.') == s
    requires forall k :: 0 <= k < |parts| ==> '.' !in parts[k]
    requires !(|parts| == 3 && IsNumericIdentifier(parts[0]) && IsNumericIdentifier(parts[1]) && IsNumericIdentifier(parts[2]))
    ensures ParseVersion(s).Err?
  {
    SplitJoin(parts, '.');
    ParsePlainNumbers(s);
  }

  /** Two numerals are too few. */
  lemma ParseRejectsTwoParts()
    ensures ParseVersion("4.0").Err?
  {
    assert Join(["4", "0"], '.') == "4" + "." + "0" == "4.0";
    RejectedNumbers("4.0", ["4", "0"]);
  }

  /** A letter is no numeral. */
  lemma ParseRejectsLetter()
    ensures ParseVersion("4.x.0").Err?
  {
    JoinThree("4", "x", "0");
    assert "4" + "." + "x" + "." + "0" == "4.x.0";
    assert !IsNumericIdentifier("x") by {
      assert !IsDigit("x"[0]);
    }
    RejectedNumbers("4.x.0", ["4", "x", "0"]);
  }

  /** A numeral may not start with zero. */
  lemma ParseRejectsLeadingZero()
    ensures ParseVersion("04.0.0").Err?
  {
    JoinThree("04", "0", "0");
    assert "04" + "." + "0" + "." + "0" == "04.0.0";
    ZeroLedIsNoIdentifier();
    RejectedNumbers("04.0.0", ["04", "0", "0"]);
  }

  lemma ZeroLedIsNoIdentifier()
    ensures !IsNumericIdentifier("01") && !IsNumericIdentifier("04")
    ensures !IsPreReleaseIdentifier("01")
  {
    assert "01"[0] == '0' && "04"[0] == '0';
    assert AllDigits("01") by {
      assert IsDigit("01"[0]) && IsDigit("01"[1]);
    }
  }

  /** Nor may a numeric pre-release identifier. */
  lemma ParseRejectsZeroLedPreRelease()
    ensures ParseVersion("4.0.0-01").Err?
  {
    RejectedPreRelease("4.0.0-01", "4.0.0", "01");
  }

  lemma RejectedPreRelease(s: string, main: string, pre: string)
    requires main == "4.0.0" && pre == "01" && s == main + "-" + pre
    ensures ParseVersion(s).Err?
  {
    assert '-' !in main && '+' !in s;
    assert s == main + ("-" + pre);
    ParseFrontAt(s, main, pre);
    SplitJoin([pre], '.');
    ZeroLedIsNoIdentifier();
    assert !AllPieces(pre, IsPreReleaseIdentifier);
    ParsePlainFront(s);
  }

}
