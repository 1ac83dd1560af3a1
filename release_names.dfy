// The release-name rule: which project names carry a version, and how a
// project name and a repository name combine into the lower-case string the
// generated configuration uses.

module ReleaseNames {
  import opened Strings

  // ---------------------------------------------------------------------------
  // The pattern `.+-[0-9\.]+$`

  /** The characters of the class `[0-9\.]`. */
  predicate IsVersionChar(c: char) {
    '0' <= c <= '9' || c == '.'
  }

  predicate IsVersion(s: string) {
    s != [] && forall j :: 0 <= j < |s| ==> IsVersionChar(s[j])
  }

  /**
   * The regular expression `.+-[0-9\.]+$`, unanchored at the start, as Go's
   * RE2 reads it: a `-` that is neither the first nor the last character,
   * preceded by a character other than a newline (`.` does not match one),
   * and followed by version characters up to the end of the text.
   */
  predicate ReleaseMatch(s: string) {
    exists i :: 1 <= i < |s| - 1 && s[i] == '-' && s[i - 1] != '\n' && IsVersion(s[i + 1..])
  }

  /** Where the longest run of version characters at the end of `s` begins. */
  function VersionStart(s: string): (k: nat)
    ensures k <= |s|
    ensures forall j :: k <= j < |s| ==> IsVersionChar(s[j])
    ensures k == 0 || !IsVersionChar(s[k - 1])
  {
    if |s| > 0 && IsVersionChar(s[|s| - 1]) then VersionStart(s[..|s| - 1]) else |s|
  }

  /** The scan from the right: the trailing version run is preceded by a `-` that has a non-newline before it. */
  predicate ScanMatch(s: string) {
    var k := VersionStart(s);
    2 <= k < |s| && s[k - 1] == '-' && s[k - 2] != '\n'
  }

  /** The scan from the right decides the pattern exactly, in both directions. */
  lemma ScanDecides(s: string)
    ensures ScanMatch(s) <==> ReleaseMatch(s)
  {
    var k := VersionStart(s);
    if ScanMatch(s) {
      assert IsVersion(s[k..]);
    }
    if ReleaseMatch(s) {
      var i :| 1 <= i < |s| - 1 && s[i] == '-' && s[i - 1] != '\n' && IsVersion(s[i + 1..]);
      forall j | i < j < |s|
        ensures IsVersionChar(s[j])
      {
        assert s[i + 1..][j - i - 1] == s[j];
      }
      assert !IsVersionChar(s[i]);
      assert k == i + 1;
    }
  }

  /**
   * `isReleased`: the regex finds a non-empty match. Every match of the
   * pattern has at least three characters, so this is also what
   * `releaseRegex.MatchString` answers.
   */
  function IsReleased(projName: string): (r: bool)
    ensures r <==> ReleaseMatch(projName)
  {
    ScanDecides(projName);
    ScanMatch(projName)
  }

  // ---------------------------------------------------------------------------
  // Splitting off the version

  /** The last piece of a split on `c` is what follows the last `c`. */
  lemma SplitLast(a: string, c: char, v: string)
    requires c !in v
    ensures Split(a + [c] + v, c)[|Split(a + [c] + v, c)| - 1] == v
  {
    var parts := Split(a, c);
    JoinSplit(a, c);
    JoinSnoc(parts, v, c);
    SplitPieces(a, c);
    assert forall i :: 0 <= i < |parts + [v]| ==> c !in (parts + [v])[i] by {
      forall i | 0 <= i < |parts + [v]| ensures c !in (parts + [v])[i] {
        if i < |parts| { assert (parts + [v])[i] == parts[i]; }
      }
    }
    SplitJoin(parts + [v], c);
  }

  /** No version contains a `-`. */
  lemma VersionNoDash(version: string)
    requires IsVersion(version)
    ensures '-' !in version
  {
    forall j | 0 <= j < |version|
      ensures version[j] != '-'
    {
      assert IsVersionChar(version[j]);
    }
  }

  /** A released name splits on `-` with its trailing version as the last piece. */
  lemma ReleasedVersion(base: string, version: string)
    requires base != [] && base[|base| - 1] != '\n' && IsVersion(version)
    ensures IsReleased(base + "-" + version)
    ensures VersionOf(base + "-" + version) == version
  {
    var s := base + "-" + version;
    var i := |base|;
    assert s[i] == '-' && s[i - 1] == base[|base| - 1] && s[i + 1..] == version;
    assert ReleaseMatch(s);
    assert Split(s, '-')[|Split(s, '-')| - 1] == version by {
      VersionNoDash(version);
      SplitLast(base, '-', version);
    }
  }

  // ---------------------------------------------------------------------------
  // buildProjRepoStr

  /** The `projVersion` of `buildProjRepoStr`: the last `-` piece of a released name, else empty. */
  function VersionOf(projName: string): (v: string)
    ensures '-' !in v
    ensures !IsReleased(projName) ==> v == ""
  {
    var parts := Split(projName, '-');
    if IsReleased(projName) then
      SplitPieces(projName, '-');
      parts[|parts| - 1]
    else ""
  }

  /** `<name>-<repo>`, with `-<version>` appended when there is a version. */
  function Joined(name: string, repoName: string, version: string): string {
    name + "-" + (if version != "" then repoName + "-" + version else repoName)
  }

  /**
   * `buildProjRepoStr` as written: the base name is cut with
   * `strings.TrimRight(projName, "-" + version)`, which drops every trailing
   * character that occurs in `"-" + version`, not the suffix itself.
   */
  function BuildProjRepoStrAsWritten(projName: string, repoName: string): (r: string)
    ensures IsLower(r)
  {
    var version := VersionOf(projName);
    var name := if IsReleased(projName) then TrimRight(projName, "-" + version) else projName;
    ToLower(Joined(name, repoName, version))
  }

  /**
   * `buildProjRepoStr` as its comment describes it: the version is split off
   * as a suffix, so the base name before the last `-` is kept whole.
   */
  function BuildProjRepoStr(projName: string, repoName: string): (r: string)
    ensures IsLower(r)
  {
    var version := VersionOf(projName);
    var name := if IsReleased(projName) then TrimSuffix(projName, "-" + version) else projName;
    ToLower(Joined(name, repoName, version))
  }

  /** A name without a version is joined to the repository as it is, in both definitions. */
  lemma BuildProjRepoStrPlain(projName: string, repoName: string)
    requires !ReleaseMatch(projName)
    ensures BuildProjRepoStr(projName, repoName) == ToLower(projName + "-" + repoName)
    ensures BuildProjRepoStrAsWritten(projName, repoName) == ToLower(projName + "-" + repoName)
  {
    ScanDecides(projName);
  }

  /** A released name `<base>-<version>` becomes `<base>-<repo>-<version>`, lower-cased. */
  lemma BuildProjRepoStrRelease(base: string, version: string, repoName: string)
    requires base != [] && base[|base| - 1] != '\n' && IsVersion(version)
    ensures ReleaseMatch(base + "-" + version)
    ensures BuildProjRepoStr(base + "-" + version, repoName) == ToLower(base + "-" + repoName + "-" + version)
  {
    var s := base + "-" + version;
    var suffix := "-" + version;
    ReleasedVersion(base, version);
    assert s == base + suffix;
    assert s[|s| - |suffix|..] == suffix;
    assert TrimSuffix(s, suffix) == base;
    JoinedVersion(base, repoName, version);
  }

  /** The version's own characters are all in the cutset `"-" + version`. */
  lemma InOwnCutset(version: string)
    ensures forall j :: 0 <= j < |version| ==> version[j] in "-" + version
  {
    forall j | 0 <= j < |version|
      ensures version[j] in "-" + version
    {
      assert ("-" + version)[j + 1] == version[j];
    }
  }

  /**
   * The written form agrees with the intended one whenever the base name does
   * not end in a character of the cutset `"-" + version`.
   */
  lemma BuildProjRepoStrAsWrittenAgrees(base: string, version: string, repoName: string)
    requires base != [] && base[|base| - 1] != '\n' && IsVersion(version)
    requires base[|base| - 1] !in "-" + version
    ensures BuildProjRepoStrAsWritten(base + "-" + version, repoName) == BuildProjRepoStr(base + "-" + version, repoName)
  {
    var s := base + "-" + version;
    var cut := "-" + version;
    ReleasedVersion(base, version);
    BuildProjRepoStrRelease(base, version, repoName);
    InOwnCutset(version);
    calc {
      BuildProjRepoStrAsWritten(s, repoName);
      == { AsWrittenReleased(s, repoName); }
      ToLower(Joined(TrimRight(s, "-" + VersionOf(s)), repoName, VersionOf(s)));
      ==
      ToLower(Joined(TrimRight(s, cut), repoName, version));
      == { TrimRightSuffix(base, version, cut); }
      ToLower(Joined(base, repoName, version));
      == { JoinedVersion(base, repoName, version); }
      ToLower(base + "-" + repoName + "-" + version);
    }
  }

  lemma JoinedVersion(name: string, repoName: string, version: string)
    requires version != ""
    ensures Joined(name, repoName, version) == name + "-" + repoName + "-" + version
  {
    ConcatAssoc(name + "-", repoName + "-", version);
    ConcatAssoc(name, "-", repoName + "-");
    ConcatAssoc(name + "-", repoName, "-");
  }

  lemma ConcatAssoc<T>(a: seq<T>, b: seq<T>, c: seq<T>)
    ensures a + (b + c) == a + b + c
  {
  }

  lemma AsWrittenReleased(projName: string, repoName: string)
    requires IsReleased(projName)
    ensures var version := VersionOf(projName);
      BuildProjRepoStrAsWritten(projName, repoName) == ToLower(Joined(TrimRight(projName, "-" + version), repoName, version))
  {
  }

  /** Trimming the characters of `cut` from `base + "-" + tail` stops at the end of `base`. */
  lemma {:induction false} TrimRightSuffix(base: string, tail: string, cut: string)
    requires base != [] && base[|base| - 1] !in cut
    requires forall j :: 0 <= j < |tail| ==> tail[j] in cut
    requires '-' in cut
    ensures TrimRight(base + "-" + tail, cut) == base
    decreases |tail|
  {
    var s := base + "-" + tail;
    if tail == [] {
      assert s[..|s| - 1] == base;
      assert TrimRight(base, cut) == base;
    } else {
      var front := tail[..|tail| - 1];
      assert s[|s| - 1] == tail[|tail| - 1];
      assert s[..|s| - 1] == base + "-" + front;
      TrimRightSuffix(base, front, cut);
    }
  }

  /** The example the source's comment gives: `knative-sandbox-0.15` keeps `knative-sandbox` as its base. */
  lemma BuildProjRepoStrSandbox(repoName: string)
    ensures BuildProjRepoStrAsWritten("knative-sandbox-0.15", repoName)
            == ToLower("knative-sandbox-" + repoName + "-0.15")
  {
    var base, version := "knative-sandbox", "0.15";
    SandboxStrings(repoName);
    assert BuildProjRepoStrAsWritten(base + "-" + version, repoName) == BuildProjRepoStr(base + "-" + version, repoName) by {
      BuildProjRepoStrAsWrittenAgrees(base, version, repoName);
    }
    assert BuildProjRepoStr(base + "-" + version, repoName) == ToLower(base + "-" + repoName + "-" + version) by {
      BuildProjRepoStrRelease(base, version, repoName);
    }
  }

  /** The strings of the source's example, spelled out. */
  lemma SandboxStrings(repoName: string)
    ensures IsVersion("0.15")
    ensures "knative-sandbox" + "-" + "0.15" == "knative-sandbox-0.15"
    ensures 'x' !in "-0.15"
    ensures "knative-sandbox" + "-" + repoName + "-" + "0.15" == "knative-sandbox-" + repoName + "-0.15"
  {
    assert forall j :: 0 <= j < 4 ==> IsVersionChar("0.15"[j]);
    assert "knative-sandbox" + "-" == "knative-sandbox-";
  }

  /** Trimming passes over a tail made of cutset characters. */
  lemma {:induction false} TrimRightTail(p: string, tail: string, cut: string)
    requires forall j :: 0 <= j < |tail| ==> tail[j] in cut
    ensures TrimRight(p + tail, cut) == TrimRight(p, cut)
    decreases |tail|
  {
    if tail == [] {
      assert p + tail == p;
    } else {
      var front := tail[..|tail| - 1];
      assert (p + tail)[|p + tail| - 1] == tail[|tail| - 1];
      assert (p + tail)[..|p + tail| - 1] == p + front;
      TrimRightTail(p, front, cut);
    }
  }

  /** The last character of the base, the `-` and the version all lie in the cutset `"-" + version`. */
  lemma TailInCutset(c: char, version: string)
    requires c in version
    ensures forall j :: 0 <= j < |[c] + "-" + version| ==> ([c] + "-" + version)[j] in "-" + version
  {
    var cut := "-" + version;
    var tail := [c] + "-" + version;
    forall j | 0 <= j < |tail|
      ensures tail[j] in cut
    {
      if j == 0 {
        assert cut[1..] == version;
      } else if j == 1 {
        assert cut[0] == '-';
      } else {
        assert tail[j] == version[j - 2] == cut[j - 1];
      }
    }
  }

  lemma SplitBeforeLast(base: string, version: string)
    requires base != []
    ensures base + "-" + version == base[..|base| - 1] + ([base[|base| - 1]] + "-" + version)
  {
    assert base == base[..|base| - 1] + [base[|base| - 1]];
  }

  /**
   * Whenever the base name ends in a character of its own version, the
   * written form cuts into the base name and so differs from the intended
   * result: it is strictly shorter.
   */
  lemma BuildProjRepoStrAsWrittenDiffers(base: string, version: string, repoName: string)
    requires base != [] && base[|base| - 1] != '\n' && IsVersion(version)
    requires base[|base| - 1] in version
    ensures |BuildProjRepoStrAsWritten(base + "-" + version, repoName)| < |BuildProjRepoStr(base + "-" + version, repoName)|
  {
    var s := base + "-" + version;
    var cut := "-" + version;
    var front := base[..|base| - 1];
    var tail := [base[|base| - 1]] + "-" + version;
    ReleasedVersion(base, version);
    BuildProjRepoStrRelease(base, version, repoName);
    TailInCutset(base[|base| - 1], version);
    SplitBeforeLast(base, version);
    TrimRightTail(front, tail, cut);
    var name := TrimRight(s, cut);
    assert |name| <= |front|;
    AsWrittenReleased(s, repoName);
    JoinedVersion(base, repoName, version);
    JoinedVersion(name, repoName, version);
  }

  /** The strings of the smallest case, spelled out. */
  lemma CutsBaseStrings(repoName: string)
    requires repoName == "repo"
    ensures "release1" + "-" + "1.1" == "release1-1.1" == "release" + "1-1.1"
    ensures "release1" + "-" + repoName + "-" + "1.1" == "release1-repo-1.1"
    ensures "release" + "-" + repoName + "-" + "1.1" == "release-repo-1.1"
    ensures IsLower("release1-repo-1.1") && IsLower("release-repo-1.1")
    ensures IsVersion("1.1") && "-" + "1.1" == "-1.1"
    ensures forall j :: 0 <= j < 5 ==> "1-1.1"[j] in "-1.1"
  {
  }

  /**
   * The smallest such case: `release1-1.1` with `repo` gives
   * `release-repo-1.1`, where `release1-repo-1.1` is meant.
   */
  lemma TrimRightCutsBase(projName: string, repoName: string)
    requires projName == "release1-1.1" && repoName == "repo"
    ensures BuildProjRepoStrAsWritten(projName, repoName) == "release-repo-1.1"
  {
    CutsBaseStrings(repoName);
    calc {
      BuildProjRepoStrAsWritten(projName, repoName);
      == { assert IsReleased(projName) by { ReleasedVersion("release1", "1.1"); }
           AsWrittenReleased(projName, repoName); }
      ToLower(Joined(TrimRight(projName, "-" + VersionOf(projName)), repoName, VersionOf(projName)));
      == { ReleasedVersion("release1", "1.1"); }
      ToLower(Joined(TrimRight(projName, "-1.1"), repoName, "1.1"));
      == { CutsBaseTrim(projName); }
      ToLower(Joined("release", repoName, "1.1"));
      == { JoinedVersion("release", repoName, "1.1"); }
      ToLower("release-repo-1.1");
      == { ToLowerIdentity("release-repo-1.1"); }
      "release-repo-1.1";
    }
  }

  /** `strings.TrimRight("release1-1.1", "-1.1")` is `release`. */
  lemma CutsBaseTrim(projName: string)
    requires projName == "release1-1.1"
    ensures TrimRight(projName, "-1.1") == "release"
  {
    CutsBaseStrings("repo");
    TrimRightTail("release", "1-1.1", "-1.1");
    assert TrimRight("release", "-1.1") == "release";
  }

  /** For the same input the intended definition keeps the base name whole. */
  lemma TrimSuffixKeepsBase(projName: string, repoName: string)
    requires projName == "release1-1.1" && repoName == "repo"
    ensures BuildProjRepoStr(projName, repoName) == "release1-repo-1.1"
  {
    CutsBaseStrings(repoName);
    BuildProjRepoStrRelease("release1", "1.1", repoName);
    ToLowerIdentity("release1-repo-1.1");
  }
}
