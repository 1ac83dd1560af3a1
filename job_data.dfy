/**
 * The Prow job record (`baseProwJobTemplateData`), its defaults, and the pure meaning of every
 * step that fills it in from a job's override entries. The class in JobBuilder performs these
 * steps in place and is proved against the functions here.
 */
module JobData {
  import opened Wrappers
  import opened Yaml
  import opened Strings

  /** The global values that the command-line flags set once, at start-up. */
  datatype Flags = Flags(
    prowHost: string,
    testGridHost: string,
    gubernatorHost: string,
    gcsBucket: string,
    testGridGcsBucket: string,
    logsDir: string,
    presubmitLogsDir: string,
    testAccount: string,
    prowTestsDockerImage: string,
    repositoryOverride: string,
    jobNameFilter: string,
    preCommand: string,
    extraEnvVars: seq<string>,
    timeoutOverride: int)

  /** Basic data about one repository (`repositoryData`). */
  datatype Repository = Repository(
    name: string,
    enablePerformanceTests: bool,
    enableGoCoverage: bool,
    goCoverageThreshold: int,
    processed: bool)

  /** Everything a job template is rendered from. */
  datatype JobRecord = JobRecord(
    orgName: string,
    repoName: string,
    repoNameForJob: string,
    gcsBucket: string,
    gcsLogDir: string,
    gcsPresubmitLogDir: string,
    repoURI: string,
    repoBranch: string,
    cloneURI: string,
    securityContext: seq<string>,
    skipBranches: seq<string>,
    branches: seq<string>,
    decorationConfig: seq<string>,
    extraRefs: seq<string>,
    command: string,
    args: seq<string>,
    env: seq<string>,
    volumes: seq<string>,
    volumeMounts: seq<string>,
    resources: seq<string>,
    reporterConfig: seq<string>,
    jobStatesToReport: seq<string>,
    timeout: int,
    alwaysRun: bool,
    optional: bool,
    testAccount: string,
    serviceAccount: string,
    releaseGcs: string,
    goCoverageThreshold: int,
    image: string,
    labels: seq<string>,
    pathAlias: string,
    cluster: string,
    needsMonitor: bool,
    annotations: seq<string>)

  /** GitHub organisations whose repositories use the knative.dev path alias ... */
  const PathAliasOrgs: set<string> := {"knative", "knative-sandbox"}
  /** ... except these repositories. */
  const NonPathAliasRepos: set<string> := {"knative/docs"}

  const DefaultTimeout: int := 50

  // ---------------------------------------------------------------------------
  // Defaults

  /** `newbaseProwJobTemplateData`: the record of a job of `repo` ("org/name") before overrides. */
  function NewBaseRecord(flags: Flags, repo: string): (r: JobRecord)
    ensures r.timeout == DefaultTimeout && r.alwaysRun && !r.optional && !r.needsMonitor
    ensures r.repoBranch == "main" && r.command == "" && r.args == [] && r.env == []
    ensures r.volumes == [] && r.volumeMounts == [] && r.securityContext == []
    ensures r.gcsBucket == flags.gcsBucket && r.image == flags.prowTestsDockerImage
    ensures r.serviceAccount == flags.testAccount
    ensures '/' !in r.orgName
    ensures '/' in repo ==> r.orgName + "/" + r.repoName == repo
    ensures '/' !in repo ==> r.orgName == repo && r.repoName == repo
    ensures r.pathAlias != "" <==> r.orgName in PathAliasOrgs && repo !in NonPathAliasRepos
    ensures IsLower(r.repoNameForJob) && '/' !in r.repoNameForJob
    ensures '/' in repo && '/' !in r.repoName ==> r.repoNameForJob == ToLower(r.orgName + "-" + r.repoName)
    ensures r.pathAlias == (if r.orgName in PathAliasOrgs && repo !in NonPathAliasRepos
                            then "path_alias: knative.dev/" + r.repoName else "")
    ensures r.extraRefs == ["- org: " + r.orgName, "  repo: " + r.repoName]
      + (if r.pathAlias != "" then ["  " + r.pathAlias] else [])
    ensures r.repoURI == "github.com/" + repo
    ensures r.cloneURI == "\"https://" + r.repoURI + ".git\""
    ensures '/' in repo ==> r.releaseGcs == "knative-releases/" + r.repoName
    ensures r.gcsLogDir == "gs://" + flags.gcsBucket + "/" + flags.logsDir
    ensures r.gcsPresubmitLogDir == "gs://" + flags.gcsBucket + "/" + flags.presubmitLogsDir
    ensures r.cluster == "cluster: \"build-knative\""
    ensures r.labels == [] && r.annotations == []
    ensures r.skipBranches == [] && r.branches == []
  {
    var org := Split(repo, '/')[0];
    var name := ReplaceFirst(repo, org + "/", "");
    var usesAlias := org in PathAliasOrgs && repo !in NonPathAliasRepos;
    var alias := if usesAlias then "path_alias: knative.dev/" + name else "";
    var uri := "github.com/" + repo;
    OrgRepoSplit(repo);
    RepoNamesOf(repo);
    JobRecord(
      orgName := org,
      repoName := name,
      repoNameForJob := ToLower(ReplaceAllChars(repo, '/', '-')),
      gcsBucket := flags.gcsBucket,
      gcsLogDir := "gs://" + flags.gcsBucket + "/" + flags.logsDir,
      gcsPresubmitLogDir := "gs://" + flags.gcsBucket + "/" + flags.presubmitLogsDir,
      repoURI := uri,
      repoBranch := "main",
      cloneURI := "\"https://" + uri + ".git\"",
      securityContext := [],
      skipBranches := [],
      branches := [],
      decorationConfig := [],
      extraRefs := ["- org: " + org, "  repo: " + name] + (if usesAlias then ["  " + alias] else []),
      command := "",
      args := [],
      env := [],
      volumes := [],
      volumeMounts := [],
      resources := [],
      reporterConfig := [],
      jobStatesToReport := [],
      timeout := DefaultTimeout,
      alwaysRun := true,
      optional := false,
      testAccount := "",
      serviceAccount := flags.testAccount,
      releaseGcs := ReplaceFirst(repo, org + "/", "knative-releases/"),
      goCoverageThreshold := 0,
      image := flags.prowTestsDockerImage,
      labels := [],
      pathAlias := alias,
      cluster := "cluster: \"build-knative\"",
      needsMonitor := false,
      annotations := [])
  }

  /** The organisation is the text before the first `/`, and removing "org/" once leaves the rest. */
  /** The release bucket path and the job name of a repository "org/name" whose name has no further `/`. */
  lemma RepoNamesOf(repo: string)
    ensures var org := Split(repo, '/')[0];
      var name := ReplaceFirst(repo, org + "/", "");
      && ('/' in repo ==> ReplaceFirst(repo, org + "/", "knative-releases/") == "knative-releases/" + name)
      && ('/' in repo && '/' !in name ==> ReplaceAllChars(repo, '/', '-') == org + "-" + name)
  {
    var org := Split(repo, '/')[0];
    var name := ReplaceFirst(repo, org + "/", "");
    if '/' in repo {
      OrgRepoSplit(repo);
      assert HasPrefix(repo, org + "/");
      ReplaceFirstPrefix(repo, org + "/", "knative-releases/");
      ReplaceFirstPrefix(repo, org + "/", "");
      if '/' !in name {
        assert repo == org + ['/'] + name;
        ReplaceAllCharsAround(org, name, '/', '-');
      }
    }
  }

  lemma OrgRepoSplit(repo: string)
    ensures var org := Split(repo, '/')[0];
      && '/' !in org
      && ('/' in repo ==> org + "/" + ReplaceFirst(repo, org + "/", "") == repo)
      && ('/' !in repo ==> org == repo && ReplaceFirst(repo, org + "/", "") == repo)
  {
    var org := Split(repo, '/')[0];
    SplitHead(repo, '/');
    if '/' in repo {
      var i := IndexOf(repo, '/');
      var rest := repo[i + 1..];
      assert org == repo[..i];
      assert repo == org + "/" + rest by {
        AroundIndex(repo, i);
      }
      assert HasPrefix(repo, org + "/") by {
        assert repo[..|org + "/"|] == org + "/";
      }
      assert ReplaceFirst(repo, org + "/", "") == rest by {
        ReplaceFirstPrefix(repo, org + "/", "");
        assert "" + repo[|org + "/"|..] == rest;
      }
    } else {
      ReplaceFirstTooLong(repo, org + "/", "");
    }
  }

  // ---------------------------------------------------------------------------
  // Command and repository reference

  /** `createCommand`: the optional pre-command, then the job's command, then its arguments. */
  function CreateCommand(flags: Flags, r: JobRecord): (c: seq<string>)
    ensures |c| == |r.args| + 1 + (if flags.preCommand != "" then 1 else 0)
    ensures c[|c| - |r.args|..] == r.args
    ensures c[|c| - |r.args| - 1] == r.command
    ensures flags.preCommand != "" ==> c[0] == flags.preCommand
  {
    var c := [r.command];
    var c := if flags.preCommand != "" then [flags.preCommand] + c else c;
    c + r.args
  }

  /** `gitHubRepo`: the repository override if one is set, else "uri[=branch]". */
  function GitHubRepo(flags: Flags, r: JobRecord): (ref: string)
    ensures flags.repositoryOverride != "" ==> ref == flags.repositoryOverride
    ensures flags.repositoryOverride == "" ==>
      HasPrefix(ref, r.repoURI) && ref[|r.repoURI|..] == (if r.repoBranch != "" then "=" + r.repoBranch else "")
  {
    if flags.repositoryOverride != "" then flags.repositoryOverride
    else if r.repoBranch != "" then r.repoURI + "=" + r.repoBranch
    else r.repoURI
  }

  /** Without an override, the reference splits back at its first `=` into the URI and the branch. */
  lemma GitHubRepoRoundTrip(flags: Flags, r: JobRecord)
    requires flags.repositoryOverride == "" && '=' !in r.repoURI
    ensures SplitAtFirst(GitHubRepo(flags, r), '=')
      == [r.repoURI] + (if r.repoBranch != "" then [r.repoBranch] else [])
  {
    var s := GitHubRepo(flags, r);
    if r.repoBranch != "" {
      assert s[|r.repoURI|] == '=';
      var parts := SplitAtFirst(s, '=');
      var i := IndexOf(s, '=');
      assert s[..|r.repoURI|] == r.repoURI;
      assert i == |r.repoURI|;
      assert s[i + 1..] == r.repoBranch;
    }
  }

  // ---------------------------------------------------------------------------
  // Environment variables

  function EnvNameToKey(key: string): string {
    "- name: " + key
  }

  function EnvValueToValue(value: string): string {
    "  value: " + value
  }

  /** Values that look like numbers are quoted so that the YAML stays a string. */
  function QuoteIfNum(value: string): (q: string)
    ensures !IsNum(value) ==> q == value
    ensures IsNum(value) ==> |q| == |value| + 2 && q[0] == '"' && q[|q| - 1] == '"' && q[1..|q| - 1] == value
  {
    if IsNum(value) then "\"" + value + "\"" else value
  }

  /** The two lines `addEnvToJob` appends for one variable. */
  function EnvLines(key: string, value: string): (lines: seq<string>)
    ensures |lines| == 2 && lines[0] == "- name: " + key
    ensures lines[1] == "  value: " + value <==> !IsNum(value)
    ensures IsNum(value) ==> lines[1] == "  value: " + "\"" + value + "\""
  {
    [EnvNameToKey(key), EnvValueToValue(QuoteIfNum(value))]
  }

  function WithEnv(r: JobRecord, key: string, value: string): JobRecord {
    r.(env := r.env + EnvLines(key, value))
  }

  /** The two lines of one "key=value" entry, or the fatal error for an entry without `=`. */
  function EntryLines(entry: string): Res<seq<string>> {
    var pair := SplitAtFirst(entry, '=');
    if |pair| != 2 then Err(MalformedEnvVar(entry)) else Ok(EnvLines(pair[0], pair[1]))
  }

  /**
   * The lines of each element of `xs` in turn, as `f` gives them, concatenated;
   * the first element `f` rejects makes the whole result that error.
   */
  function ConcatLines(f: string -> Res<seq<string>>, xs: seq<string>): Res<seq<string>> {
    if xs == [] then Ok([])
    else
      var first :- f(xs[0]);
      var rest :- ConcatLines(f, xs[1..]);
      Ok(first + rest)
  }

  /** The lines `addExtraEnvVarsToJob` appends for "key=value" entries; an entry without `=` is fatal. */
  function ExtraEnvLines(envVars: seq<string>): Res<seq<string>> {
    ConcatLines(EntryLines, envVars)
  }

  /** `PrependOk(pre, r)`: `r` with `pre` put in front of its lines, failures kept. */
  function PrependOk(pre: seq<string>, r: Res<seq<string>>): Res<seq<string>> {
    match r
    case Ok(lines) => Ok(pre + lines)
    case Err(e) => Err(e)
  }

  lemma PrependOkAssoc(a: seq<string>, b: seq<string>, r: Res<seq<string>>)
    ensures PrependOk(a, PrependOk(b, r)) == PrependOk(a + b, r)
  {
    if r.Ok? {
      assert a + (b + r.value) == (a + b) + r.value;
    }
  }

  /** The lines of the elements from `i` on: those of element `i`, then those of the rest. */
  lemma ConcatLinesStep(f: string -> Res<seq<string>>, xs: seq<string>, i: nat)
    requires i < |xs|
    ensures f(xs[i]).Err? ==> ConcatLines(f, xs[i..]) == Err(f(xs[i]).error)
    ensures f(xs[i]).Ok? ==> ConcatLines(f, xs[i..]) == PrependOk(f(xs[i]).value, ConcatLines(f, xs[i + 1..]))
  {
    assert xs[i..][0] == xs[i] && xs[i..][1..] == xs[i + 1..];
  }

  /** The lines of the entries from `i` on: those of entry `i`, then those of the rest. */
  lemma ExtraEnvLinesStep(envVars: seq<string>, i: nat)
    requires i < |envVars|
    ensures EntryLines(envVars[i]).Err? ==> ExtraEnvLines(envVars[i..]) == Err(EntryLines(envVars[i]).error)
    ensures EntryLines(envVars[i]).Ok? ==>
      ExtraEnvLines(envVars[i..]) == PrependOk(EntryLines(envVars[i]).value, ExtraEnvLines(envVars[i + 1..]))
  {
    ConcatLinesStep(EntryLines, envVars, i);
  }

  /** The name part of an entry: everything before its first `=`. */
  function EnvKey(entry: string): string
    requires '=' in entry
  {
    entry[..IndexOf(entry, '=')]
  }

  /** The value part of an entry: everything after its first `=`, further `=` included. */
  function EnvValue(entry: string): string
    requires '=' in entry
  {
    entry[IndexOf(entry, '=') + 1..]
  }

  /** The concatenation succeeds exactly when `f` accepts every element. */
  lemma {:induction false} ConcatLinesAccepts(f: string -> Res<seq<string>>, xs: seq<string>)
    ensures ConcatLines(f, xs).Ok? <==> forall i :: 0 <= i < |xs| ==> f(xs[i]).Ok?
  {
    if xs != [] {
      ConcatLinesAccepts(f, xs[1..]);
      assert forall i :: 0 < i < |xs| ==> xs[i] == xs[1..][i - 1];
    }
  }

  /**
   * When `f` gives two lines for every element it accepts, a successful concatenation
   * holds two lines per element, and lines `2i` and `2i+1` are those of element `i`.
   */
  lemma {:induction false} ConcatLinesPairs(f: string -> Res<seq<string>>, xs: seq<string>, i: nat)
    requires forall y :: f(y).Ok? ==> |f(y).value| == 2
    requires ConcatLines(f, xs).Ok? && i < |xs|
    ensures f(xs[i]).Ok?
    ensures |ConcatLines(f, xs).value| == 2 * |xs|
    ensures ConcatLines(f, xs).value[2 * i..2 * i + 2] == f(xs[i]).value
  {
    var first, rest := f(xs[0]).value, ConcatLines(f, xs[1..]).value;
    assert ConcatLines(f, xs).value == first + rest;
    if |xs| == 1 {
      assert rest == [];
    } else {
      ConcatLinesPairs(f, xs[1..], if i == 0 then 0 else i - 1);
      if i > 0 {
        assert xs[i] == xs[1..][i - 1];
        assert (first + rest)[2 * i..2 * i + 2] == rest[2 * (i - 1)..2 * (i - 1) + 2];
      }
    }
  }

  /** An entry with `=` gives its name line and its value line; one without is fatal. */
  lemma EntryLinesShape(entry: string)
    ensures '=' !in entry ==> EntryLines(entry) == Err(MalformedEnvVar(entry))
    ensures '=' in entry ==>
      EntryLines(entry) == Ok(["- name: " + EnvKey(entry), "  value: " + QuoteIfNum(EnvValue(entry))])
  {
  }

  /** Every accepted entry gives exactly two lines. */
  lemma EntryLinesPair()
    ensures forall entry :: EntryLines(entry).Ok? ==> |EntryLines(entry).value| == 2
  {
  }

  /** The entries are accepted exactly when each of them has an `=`. */
  lemma ExtraEnvLinesAccepts(envVars: seq<string>)
    ensures ExtraEnvLines(envVars).Ok? <==> forall i :: 0 <= i < |envVars| ==> '=' in envVars[i]
  {
    ConcatLinesAccepts(EntryLines, envVars);
    forall i | 0 <= i < |envVars| {
      EntryLinesShape(envVars[i]);
    }
  }

  /** A well-formed list yields two lines per entry. */
  lemma ExtraEnvLinesLength(envVars: seq<string>)
    requires ExtraEnvLines(envVars).Ok?
    ensures |ExtraEnvLines(envVars).value| == 2 * |envVars|
  {
    if envVars != [] {
      EntryLinesPair();
      ConcatLinesPairs(EntryLines, envVars, 0);
    }
  }

  /** Entry `i` becomes lines `2i` and `2i+1`, which are that entry's own two lines. */
  lemma ExtraEnvLinesAt(envVars: seq<string>, i: nat)
    requires ExtraEnvLines(envVars).Ok? && i < |envVars|
    ensures '=' in envVars[i] && EntryLines(envVars[i]).Ok?
    ensures |ExtraEnvLines(envVars).value| == 2 * |envVars|
    ensures ExtraEnvLines(envVars).value[2 * i..2 * i + 2] == EntryLines(envVars[i]).value
  {
    EntryLinesPair();
    ConcatLinesPairs(EntryLines, envVars, i);
    EntryLinesShape(envVars[i]);
  }

  /** A numeric value is written quoted; other values are written as they are. */
  lemma EnvQuotingExamples()
    ensures EnvLines("PORT", "8080") == ["- name: PORT", "  value: \"8080\""]
    ensures EnvLines("FLAG", "true") == ["- name: FLAG", "  value: true"]
    ensures EnvLines("NAME", "foo") == ["- name: NAME", "  value: foo"]
  {
    assert AllDigits("8080") by {
      assert forall i :: 0 <= i < 4 ==> "8080"[i] == '8' || "8080"[i] == '0';
    }
    assert IsNum("8080");
    assert !IsDigit("true"[0]) && !IsNum("true");
    assert !IsDigit("foo"[0]) && !IsNum("foo");
    assert EnvValueToValue(QuoteIfNum("8080")) == "  value: \"8080\"";
    assert EnvValueToValue(QuoteIfNum("true")) == "  value: true";
    assert EnvValueToValue(QuoteIfNum("foo")) == "  value: foo";
    assert EnvNameToKey("PORT") == "- name: PORT";
    assert EnvNameToKey("FLAG") == "- name: FLAG";
    assert EnvNameToKey("NAME") == "- name: NAME";
  }

  // ---------------------------------------------------------------------------
  // Volumes and the service account

  function MountLines(mountPath: string, name: string, isSecret: bool): seq<string> {
    ["- name: " + name, "  mountPath: " + mountPath] + (if isSecret then ["  readOnly: true"] else [])
  }

  function Indented(content: seq<string>): (r: seq<string>)
    ensures |r| == |content|
    ensures forall i :: 0 <= i < |r| ==> r[i] == "  " + content[i]
  {
    seq(|content|, i requires 0 <= i < |content| => "  " + content[i])
  }

  function VolumeLines(name: string, isSecret: bool, content: seq<string>): seq<string> {
    ["- name: " + name] + (if isSecret then ["  secret:", "    secretName: " + name] else []) + Indented(content)
  }

  /** `addVolumeToJob`. */
  function WithVolume(r: JobRecord, mountPath: string, name: string, isSecret: bool, content: seq<string>): JobRecord {
    r.(volumeMounts := r.volumeMounts + MountLines(mountPath, name, isSecret),
       volumes := r.volumes + VolumeLines(name, isSecret, content))
  }

  /** The number of volumes in a list of volume lines: each volume starts with "- name: ". */
  function VolumeCount(lines: seq<string>): nat {
    if lines == [] then 0
    else (if HasPrefix(lines[0], "- name: ") then 1 else 0) + VolumeCount(lines[1..])
  }

  lemma {:induction false} VolumeCountAppend(a: seq<string>, b: seq<string>)
    ensures VolumeCount(a + b) == VolumeCount(a) + VolumeCount(b)
  {
    if a == [] {
      assert a + b == b;
    } else {
      assert (a + b)[0] == a[0];
      assert (a + b)[1..] == a[1..] + b;
      VolumeCountAppend(a[1..], b);
    }
  }

  lemma {:induction false} VolumeCountIndented(content: seq<string>)
    ensures VolumeCount(Indented(content)) == 0
  {
    if content != [] {
      assert Indented(content)[1..] == Indented(content[1..]);
      assert !HasPrefix(Indented(content)[0], "- name: ") by {
        assert Indented(content)[0][0] == ' ';
      }
      VolumeCountIndented(content[1..]);
    }
  }

  /** Every call of `addVolumeToJob` adds exactly one volume. */
  lemma VolumeLinesAddOne(name: string, isSecret: bool, content: seq<string>)
    ensures VolumeCount(VolumeLines(name, isSecret, content)) == 1
  {
    var head := ["- name: " + name];
    var secret := if isSecret then ["  secret:", "    secretName: " + name] else [];
    assert VolumeLines(name, isSecret, content) == head + (secret + Indented(content));
    VolumeCountAppend(head, secret + Indented(content));
    VolumeCountAppend(secret, Indented(content));
    VolumeCountIndented(content);
    assert HasPrefix(head[0], "- name: ");
    assert VolumeCount(head) == 1 by { assert head[1..] == []; }
    if isSecret {
      assert secret[1..][1..] == [];
      assert !HasPrefix(secret[0], "- name: ") by { assert secret[0][0] == ' '; }
      assert !HasPrefix(secret[1], "- name: ") by { assert secret[1][0] == ' '; }
    }
  }

  /** The secret name in a service-account path "/etc/<name>/service-account.json". */
  function ServiceAccountName(path: string): Option<string> {
    var p := Split(path, '/');
    if |p| != 4 || p[0] != "" || p[1] != "etc" || p[3] != "service-account.json" then None
    else Some(p[2])
  }

  lemma JoinFour(a: string, b: string, c: string, d: string, sep: char)
    ensures Join([a, b, c, d], sep) == a + [sep] + b + [sep] + c + [sep] + d
  {
    var parts := [a, b, c, d];
    assert parts[1..][1..][1..] == [d];
    assert Join(parts[1..][1..], sep) == c + [sep] + d;
    assert Join(parts[1..], sep) == b + [sep] + (c + [sep] + d);
  }

  lemma ServiceAccountPathJoin(name: string)
    ensures Join(["", "etc", name, "service-account.json"], '/') == "/etc/" + name + "/service-account.json"
  {
    JoinFour("", "etc", name, "service-account.json", '/');
    var pre := "" + ['/'] + "etc" + ['/'];
    assert pre == "/etc/";
    assert "" + ['/'] + "etc" + ['/'] + name + ['/'] + "service-account.json"
        == pre + name + ("/" + "service-account.json");
  }

  /** An accepted path reads "/etc/<name>/service-account.json" with no `/` in the name. */
  lemma ServiceAccountPathOnlyIf(path: string, name: string)
    requires ServiceAccountName(path) == Some(name)
    ensures path == "/etc/" + name + "/service-account.json" && '/' !in name
  {
    assert Split(path, '/') == ["", "etc", name, "service-account.json"];
    SplitPieces(path, '/');
    assert Split(path, '/')[2] == name;
    JoinSplit(path, '/');
    ServiceAccountPathJoin(name);
  }

  /** Every such path is accepted, with that name. */
  lemma ServiceAccountPathIf(name: string)
    requires '/' !in name
    ensures ServiceAccountName("/etc/" + name + "/service-account.json") == Some(name)
  {
    var parts := ["", "etc", name, "service-account.json"];
    ServiceAccountPathJoin(name);
    assert '/' !in "service-account.json";
    assert forall i :: 0 <= i < |parts| ==> '/' !in parts[i];
    SplitJoin(parts, '/');
  }

  /** A path is accepted exactly when it reads "/etc/<name>/service-account.json" with no `/` in the name. */
  lemma ServiceAccountPathShape(path: string, name: string)
    ensures ServiceAccountName(path) == Some(name)
      <==> path == "/etc/" + name + "/service-account.json" && '/' !in name
  {
    if ServiceAccountName(path) == Some(name) {
      ServiceAccountPathOnlyIf(path, name);
    }
    if path == "/etc/" + name + "/service-account.json" && '/' !in name {
      ServiceAccountPathIf(name);
    }
  }

  /** `configureServiceAccountForJob`: mounts the account's secret, or fails on a malformed path. */
  function WithServiceAccount(r: JobRecord): (res: Res<JobRecord>)
    ensures r.serviceAccount == "" ==> res == Ok(r)
    ensures res.Err? <==> r.serviceAccount != "" && ServiceAccountName(r.serviceAccount).None?
    ensures res.Ok? ==> r.volumeMounts <= res.value.volumeMounts && r.volumes <= res.value.volumes
    ensures res.Ok? ==> res.value.(volumeMounts := r.volumeMounts, volumes := r.volumes) == r
  {
    if r.serviceAccount == "" then Ok(r)
    else
      match ServiceAccountName(r.serviceAccount)
      case None => Err(MalformedServiceAccount(r.serviceAccount))
      case Some(name) => Ok(WithVolume(r, "/etc/" + name, name, true, []))
  }

  /** No account leaves the record as it is; otherwise the account must have the shape of a mounted secret. */
  lemma ServiceAccountEffect(r: JobRecord)
    ensures r.serviceAccount == "" ==> WithServiceAccount(r) == Ok(r)
    ensures r.serviceAccount != "" ==>
      (WithServiceAccount(r).Ok? <==>
        exists name :: r.serviceAccount == "/etc/" + name + "/service-account.json" && '/' !in name)
  {
    if r.serviceAccount != "" {
      match ServiceAccountName(r.serviceAccount)
      case None =>
        forall name | r.serviceAccount == "/etc/" + name + "/service-account.json" && '/' !in name
          ensures false
        {
          ServiceAccountPathShape(r.serviceAccount, name);
        }
      case Some(name) =>
        ServiceAccountPathShape(r.serviceAccount, name);
    }
  }

  /** A well-formed account mounts the secret named by its directory read-only at "/etc/<name>". */
  lemma ServiceAccountVolume(r: JobRecord)
    requires r.serviceAccount != "" && WithServiceAccount(r).Ok?
    ensures var name := ServiceAccountName(r.serviceAccount).value;
      && r.serviceAccount == "/etc/" + name + "/service-account.json"
      && WithServiceAccount(r).value.volumeMounts
        == r.volumeMounts + ["- name: " + name, "  mountPath: /etc/" + name, "  readOnly: true"]
      && WithServiceAccount(r).value.volumes
        == r.volumes + ["- name: " + name, "  secret:", "    secretName: " + name]
  {
    var name := ServiceAccountName(r.serviceAccount).value;
    ServiceAccountPathShape(r.serviceAccount, name);
    assert Indented([]) == [];
    assert "  mountPath: " + ("/etc/" + name) == "  mountPath: /etc/" + name;
  }

  // ---------------------------------------------------------------------------
  // Docker-in-Docker

  const DockerGraphContent: seq<string> := ["emptyDir: {}"]
  const ModulesContent: seq<string> := ["hostPath:", "  path: /lib/modules", "  type: Directory"]
  const CgroupContent: seq<string> := ["hostPath:", "  path: /sys/fs/cgroup", "  type: Directory"]

  /** `setupDockerInDockerForJob`. */
  function WithDockerInDocker(r: JobRecord): (d: JobRecord)
    ensures d.securityContext == ["privileged: true"]
    ensures r.volumes <= d.volumes && r.volumeMounts <= d.volumeMounts && r.env <= d.env
    ensures d.(volumes := r.volumes, volumeMounts := r.volumeMounts, env := r.env, securityContext := r.securityContext) == r
  {
    var r1 := WithVolume(r, "/docker-graph", "docker-graph", false, DockerGraphContent);
    var r2 := WithVolume(r1, "/lib/modules", "modules", false, ModulesContent);
    var r3 := WithVolume(r2, "/sys/fs/cgroup", "cgroup", false, CgroupContent);
    var r4 := WithEnv(r3, "DOCKER_IN_DOCKER_ENABLED", "\"true\"");
    r4.(securityContext := ["privileged: true"])
  }

  /** A value that starts with a quote is not a number, so it is not quoted again. */
  lemma QuotedNotNum(value: string)
    requires |value| > 0 && value[0] == '"'
    ensures !IsNum(value)
  {
    assert !IsDigit(value[0]);
  }

  lemma DockerInDockerEnv()
    ensures EnvLines("DOCKER_IN_DOCKER_ENABLED", "\"true\"")
      == ["- name: DOCKER_IN_DOCKER_ENABLED", "  value: \"true\""]
  {
    var value := "\"true\"";
    QuotedNotNum(value);
    var lines := EnvLines("DOCKER_IN_DOCKER_ENABLED", value);
    assert lines[0] == "- name: DOCKER_IN_DOCKER_ENABLED";
    assert lines[1] == "  value: \"true\"";
  }

  lemma DockerInDockerVolumes(r: JobRecord)
    ensures VolumeCount(WithDockerInDocker(r).volumes) == VolumeCount(r.volumes) + 3
  {
    var a := VolumeLines("docker-graph", false, DockerGraphContent);
    var b := VolumeLines("modules", false, ModulesContent);
    var c := VolumeLines("cgroup", false, CgroupContent);
    assert WithDockerInDocker(r).volumes == r.volumes + a + b + c;
    VolumeLinesAddOne("docker-graph", false, DockerGraphContent);
    VolumeLinesAddOne("modules", false, ModulesContent);
    VolumeLinesAddOne("cgroup", false, CgroupContent);
    VolumeCountAppend(r.volumes + a + b, c);
    VolumeCountAppend(r.volumes + a, b);
    VolumeCountAppend(r.volumes, a);
  }

  /** Docker-in-Docker adds three volumes, six mount lines, one variable and a privileged context, and nothing else. */
  lemma DockerInDockerEffect(r: JobRecord)
    ensures var d := WithDockerInDocker(r);
      && VolumeCount(d.volumes) == VolumeCount(r.volumes) + 3
      && |d.volumeMounts| == |r.volumeMounts| + 6
      && d.securityContext == ["privileged: true"]
      && d.env == r.env + ["- name: DOCKER_IN_DOCKER_ENABLED", "  value: \"true\""]
      && d.(volumes := r.volumes, volumeMounts := r.volumeMounts, env := r.env,
            securityContext := r.securityContext) == r
  {
    DockerInDockerVolumes(r);
    DockerInDockerEnv();
  }

  // ---------------------------------------------------------------------------
  // Resources and reporter configuration

  /** The "    key: value" lines of one resource kind, appended to `acc`. */
  function ResourceEntryLines(items: seq<Item>, acc: seq<string>): (r: Res<seq<string>>)
    ensures r.Ok? ==> acc <= r.value && |r.value| == |acc| + |items|
  {
    if items == [] then Ok(acc)
    else
      var k :- GetKeyString(items[0].key);
      var v :- GetString(items[0].value);
      ResourceEntryLines(items[1..], acc + ["    " + k + ": " + v])
  }

  /** The lines `setResourcesReqForJob` builds: one "  <kind>:" header per entry, then its pairs. */
  function ResourceLines(res: seq<Item>, acc: seq<string>): (r: Res<seq<string>>)
    ensures r.Ok? ==> acc <= r.value && |r.value| >= |acc| + |res|
  {
    if res == [] then Ok(acc)
    else
      var k :- GetKeyString(res[0].key);
      var items :- GetMapSlice(res[0].value);
      var acc1 :- ResourceEntryLines(items, acc + ["  " + k + ":"]);
      ResourceLines(res[1..], acc1)
  }

  /** Reporter lines so far and the job states to report. */
  datatype Reporter = Reporter(lines: seq<string>, states: seq<string>)

  /** One reporter entry's pairs: a list value sets the job states; any other pair becomes a line. */
  function ReporterEntryLines(items: seq<Item>, acc: Reporter): (r: Res<Reporter>)
    ensures r.Ok? ==> acc.lines <= r.value.lines && |r.value.lines| <= |acc.lines| + |items|
  {
    if items == [] then Ok(acc)
    else if items[0].value.List? then
      var states :- StringsOf(items[0].value.items);
      ReporterEntryLines(items[1..], acc.(states := states))
    else
      var k :- GetKeyString(items[0].key);
      var v :- GetString(items[0].value);
      ReporterEntryLines(items[1..], acc.(lines := acc.lines + ["    " + k + ": " + v]))
  }

  /** `setReporterConfigReqForJob`, applied to an accumulator. */
  function ReporterLines(res: seq<Item>, acc: Reporter): (r: Res<Reporter>)
    ensures r.Ok? ==> acc.lines <= r.value.lines && |r.value.lines| >= |acc.lines| + |res|
  {
    if res == [] then Ok(acc)
    else
      var k :- GetKeyString(res[0].key);
      var items :- GetMapSlice(res[0].value);
      var acc1 :- ReporterEntryLines(items, acc.(lines := acc.lines + ["  " + k + ":"]));
      ReporterLines(res[1..], acc1)
  }

  /** The resource lines from entry `i` on: its header and pairs, then the rest. */
  lemma ResourceLinesStep(res: seq<Item>, i: nat, acc: seq<string>)
    requires i < |res|
    ensures ResourceLines(res[i..], acc) ==
      if res[i].key.None? then Err(NotAString)
      else if !res[i].value.Mapping? then Err(NotAMapping)
      else
        var r1 := ResourceEntryLines(res[i].value.entries, acc + ["  " + res[i].key.value + ":"]);
        if r1.Err? then Err(r1.error) else ResourceLines(res[i + 1..], r1.value)
  {
    assert res[i..][0] == res[i] && res[i..][1..] == res[i + 1..];
  }

  /** The reporter lines from entry `i` on: its header and pairs, then the rest. */
  lemma ReporterLinesStep(res: seq<Item>, i: nat, acc: Reporter)
    requires i < |res|
    ensures ReporterLines(res[i..], acc) ==
      if res[i].key.None? then Err(NotAString)
      else if !res[i].value.Mapping? then Err(NotAMapping)
      else
        var r1 := ReporterEntryLines(res[i].value.entries, acc.(lines := acc.lines + ["  " + res[i].key.value + ":"]));
        if r1.Err? then Err(r1.error) else ReporterLines(res[i + 1..], r1.value)
  {
    assert res[i..][0] == res[i] && res[i..][1..] == res[i + 1..];
  }

  // What the resource and reporter lines hold

  /** A `key: value` pair both helpers turn into a line: a key and a string value. */
  predicate PairOk(it: Item) {
    it.key.Some? && it.value.Str?
  }

  function PairLine(it: Item): string
    requires PairOk(it)
  {
    "    " + it.key.value + ": " + it.value.s
  }

  /** One line per pair, in order. */
  function PairLines(items: seq<Item>): (r: seq<string>)
    requires forall j :: 0 <= j < |items| ==> PairOk(items[j])
    ensures |r| == |items|
  {
    seq(|items|, j requires 0 <= j < |items| => PairLine(items[j]))
  }

  /** A resource entry `setResourcesReqForJob` accepts: a named kind whose value maps keys to strings. */
  predicate ResourceEntryOk(e: Item) {
    e.key.Some? && e.value.Mapping?
    && forall j :: 0 <= j < |e.value.entries| ==> PairOk(e.value.entries[j])
  }

  /** The lines of the resource entries: per entry its `  <kind>:` header, then its pairs. */
  function ResourceText(res: seq<Item>): seq<string>
    requires forall i :: 0 <= i < |res| ==> ResourceEntryOk(res[i])
  {
    if res == [] then []
    else
      assert ResourceEntryOk(res[0]) && forall i :: 0 <= i < |res| - 1 ==> res[1..][i] == res[i + 1];
      ["  " + res[0].key.value + ":"] + PairLines(res[0].value.entries) + ResourceText(res[1..])
  }

  /** One resource kind's pairs are accepted exactly when each has a key and a string value, and give one line each. */
  lemma {:induction false} ResourceEntryLinesContents(items: seq<Item>, acc: seq<string>)
    ensures ResourceEntryLines(items, acc).Ok? <==> forall j :: 0 <= j < |items| ==> PairOk(items[j])
    ensures ResourceEntryLines(items, acc).Ok? ==> ResourceEntryLines(items, acc).value == acc + PairLines(items)
    decreases |items|
  {
    if items != [] {
      assert forall j :: 0 < j < |items| ==> items[j] == items[1..][j - 1];
      if PairOk(items[0]) {
        ResourceEntryLinesContents(items[1..], acc + [PairLine(items[0])]);
        if ResourceEntryLines(items, acc).Ok? {
          assert PairLines(items) == [PairLine(items[0])] + PairLines(items[1..]);
        }
      }
    }
  }

  /**
   * `setResourcesReqForJob` succeeds exactly when every entry is a named kind holding string
   * pairs, and then writes exactly each entry's header followed by its pairs, in order.
   */
  lemma {:induction false} ResourceLinesContents(res: seq<Item>, acc: seq<string>)
    ensures ResourceLines(res, acc).Ok? <==> forall i :: 0 <= i < |res| ==> ResourceEntryOk(res[i])
    ensures ResourceLines(res, acc).Ok? ==> ResourceLines(res, acc).value == acc + ResourceText(res)
    decreases |res|
  {
    if res != [] {
      assert forall i :: 0 < i < |res| ==> res[i] == res[1..][i - 1];
      var e := res[0];
      if e.key.Some? && e.value.Mapping? {
        var header := acc + ["  " + e.key.value + ":"];
        ResourceEntryLinesContents(e.value.entries, header);
        if ResourceEntryOk(e) {
          var acc1 := ResourceEntryLines(e.value.entries, header).value;
          ResourceLinesContents(res[1..], acc1);
        }
      }
    }
  }

  /** A reporter pair the helper accepts: a list of strings (the job states), or a pair that becomes a line. */
  predicate ReporterPairOk(it: Item) {
    if it.value.List? then forall k :: 0 <= k < |it.value.items| ==> it.value.items[k].Str?
    else PairOk(it)
  }

  /** The lines of a reporter entry's pairs: the list values add none. */
  function ReporterPairText(items: seq<Item>): seq<string>
    requires forall j :: 0 <= j < |items| ==> ReporterPairOk(items[j])
  {
    if items == [] then []
    else
      assert ReporterPairOk(items[0]) && forall j :: 0 <= j < |items| - 1 ==> items[1..][j] == items[j + 1];
      (if items[0].value.List? then [] else [PairLine(items[0])]) + ReporterPairText(items[1..])
  }

  /** A reporter entry the helper accepts: a named mapping of accepted pairs. */
  predicate ReporterEntryOk(e: Item) {
    e.key.Some? && e.value.Mapping?
    && forall j :: 0 <= j < |e.value.entries| ==> ReporterPairOk(e.value.entries[j])
  }

  /** The reporter lines: per entry its `  <name>:` header, then its non-list pairs. */
  function ReporterText(res: seq<Item>): seq<string>
    requires forall i :: 0 <= i < |res| ==> ReporterEntryOk(res[i])
  {
    if res == [] then []
    else
      assert ReporterEntryOk(res[0]) && forall i :: 0 <= i < |res| - 1 ==> res[1..][i] == res[i + 1];
      ["  " + res[0].key.value + ":"] + ReporterPairText(res[0].value.entries) + ReporterText(res[1..])
  }

  /** Every pair of every entry, in order (an entry that is not a mapping has none). */
  function ReporterPairs(res: seq<Item>): seq<Item> {
    if res == [] then []
    else (if res[0].value.Mapping? then res[0].value.entries else []) + ReporterPairs(res[1..])
  }

  /** The position of the last pair whose value is a list, or none. */
  function LastList(items: seq<Item>): (r: Option<nat>)
    ensures r.None? ==> forall j :: 0 <= j < |items| ==> !items[j].value.List?
    ensures r.Some? ==>
      (r.value < |items| && items[r.value].value.List? && forall j :: r.value < j < |items| ==> !items[j].value.List?)
    decreases |items|
  {
    if items == [] then None
    else if items[|items| - 1].value.List? then Some(|items| - 1)
    else
      assert forall j :: 0 <= j < |items| - 1 ==> items[j] == items[..|items| - 1][j];
      LastList(items[..|items| - 1])
  }

  lemma {:induction false} LastListAppend(a: seq<Item>, b: seq<Item>)
    ensures LastList(a + b) == if LastList(b).Some? then Some(|a| + LastList(b).value) else LastList(a)
    decreases |b|
  {
    if b != [] {
      var ab := a + b;
      assert ab[|ab| - 1] == b[|b| - 1];
      assert ab[..|ab| - 1] == a + b[..|b| - 1];
      LastListAppend(a, b[..|b| - 1]);
    } else {
      assert a + b == a;
    }
  }

  /** The job states after pairs `items`: those of the last list value, or `states` when there is none. */
  predicate StatesAfter(items: seq<Item>, states: seq<string>, result: seq<string>) {
    var l := LastList(items);
    if l.None? then result == states else StringsOf(items[l.value].value.items) == Ok(result)
  }

  /** A reporter entry's pairs with one that is not accepted make the helper fail. */
  lemma {:induction false} ReporterEntryLinesRejects(items: seq<Item>, acc: Reporter)
    requires exists j :: 0 <= j < |items| && !ReporterPairOk(items[j])
    ensures ReporterEntryLines(items, acc).Err?
    decreases |items|
  {
    var it := items[0];
    if ReporterPairOk(it) {
      var j :| 0 <= j < |items| && !ReporterPairOk(items[j]);
      assert items[1..][j - 1] == items[j];
      var acc1 := if it.value.List? then acc.(states := StringsOf(it.value.items).value)
        else acc.(lines := acc.lines + [PairLine(it)]);
      ReporterEntryLinesRejects(items[1..], acc1);
    }
  }

  /** The states after `a` and then `b` are the states after `a + b`: the last list value wins. */
  lemma StatesAfterAppend(a: seq<Item>, b: seq<Item>, states: seq<string>, mid: seq<string>, result: seq<string>)
    requires StatesAfter(a, states, mid) && StatesAfter(b, mid, result)
    ensures StatesAfter(a + b, states, result)
  {
    LastListAppend(a, b);
    var l := LastList(b);
    if l.Some? {
      assert (a + b)[|a| + l.value] == b[l.value];
    } else {
      var la := LastList(a);
      if la.Some? {
        assert (a + b)[la.value] == a[la.value];
      }
    }
  }

  /** What one accepted reporter pair does: a list value sets the states, any other pair adds its line. */
  function ReporterStep(acc: Reporter, it: Item): Reporter
    requires ReporterPairOk(it)
  {
    if it.value.List? then acc.(states := StringsOf(it.value.items).value)
    else acc.(lines := acc.lines + [PairLine(it)])
  }

  lemma ReporterEntryLinesCons(items: seq<Item>, acc: Reporter)
    requires items != [] && ReporterPairOk(items[0])
    ensures ReporterEntryLines(items, acc) == ReporterEntryLines(items[1..], ReporterStep(acc, items[0]))
  {
  }

  /** Accepted pairs give the non-list pairs as lines. */
  lemma {:induction false} ReporterEntryLinesAccepted(items: seq<Item>, acc: Reporter)
    requires forall j :: 0 <= j < |items| ==> ReporterPairOk(items[j])
    ensures ReporterEntryLines(items, acc).Ok?
    ensures ReporterEntryLines(items, acc).value.lines == acc.lines + ReporterPairText(items)
    decreases |items|
  {
    if items != [] {
      var tail := items[1..];
      assert forall j :: 0 <= j < |tail| ==> tail[j] == items[j + 1];
      ReporterEntryLinesCons(items, acc);
      ReporterEntryLinesAccepted(tail, ReporterStep(acc, items[0]));
      assert ReporterPairText(items) == (if items[0].value.List? then [] else [PairLine(items[0])]) + ReporterPairText(tail);
    }
  }

  /** Accepted pairs leave the job states of the last list value, or the incoming ones. */
  lemma {:induction false} ReporterEntryLinesStates(items: seq<Item>, acc: Reporter)
    requires forall j :: 0 <= j < |items| ==> ReporterPairOk(items[j])
    ensures ReporterEntryLines(items, acc).Ok?
    ensures StatesAfter(items, acc.states, ReporterEntryLines(items, acc).value.states)
    decreases |items|
  {
    ReporterEntryLinesAccepted(items, acc);
    if items != [] {
      var it, tail := items[0], items[1..];
      assert forall j :: 0 <= j < |tail| ==> tail[j] == items[j + 1];
      var acc1 := ReporterStep(acc, it);
      ReporterEntryLinesCons(items, acc);
      ReporterEntryLinesStates(tail, acc1);
      assert StatesAfter([it], acc.states, acc1.states) by {
        if !it.value.List? {
          assert LastList([it]) == None;
        }
      }
      assert [it] + tail == items;
      StatesAfterAppend([it], tail, acc.states, acc1.states, ReporterEntryLines(items, acc).value.states);
    }
  }

  /** One reporter entry's pairs: accepted exactly when each is, with the non-list pairs as lines and the last list as the states. */
  lemma ReporterEntryLinesContents(items: seq<Item>, acc: Reporter)
    ensures ReporterEntryLines(items, acc).Ok? <==> forall j :: 0 <= j < |items| ==> ReporterPairOk(items[j])
    ensures ReporterEntryLines(items, acc).Ok? ==>
      ReporterEntryLines(items, acc).value.lines == acc.lines + ReporterPairText(items)
    ensures ReporterEntryLines(items, acc).Ok? ==> StatesAfter(items, acc.states, ReporterEntryLines(items, acc).value.states)
  {
    if forall j :: 0 <= j < |items| ==> ReporterPairOk(items[j]) {
      ReporterEntryLinesAccepted(items, acc);
      ReporterEntryLinesStates(items, acc);
    } else {
      ReporterEntryLinesRejects(items, acc);
    }
  }

  /** The header line of a reporter entry, added before its pairs. */
  function WithHeader(acc: Reporter, e: Item): Reporter
    requires e.key.Some?
  {
    acc.(lines := acc.lines + ["  " + e.key.value + ":"])
  }

  /** Reporter entries with one that is not accepted make the helper fail. */
  lemma {:induction false} ReporterLinesRejects(res: seq<Item>, acc: Reporter)
    requires exists i :: 0 <= i < |res| && !ReporterEntryOk(res[i])
    ensures ReporterLines(res, acc).Err?
    decreases |res|
  {
    var e := res[0];
    if e.key.Some? && e.value.Mapping? {
      var header := WithHeader(acc, e);
      ReporterEntryLinesContents(e.value.entries, header);
      if ReporterEntryOk(e) {
        var i :| 0 <= i < |res| && !ReporterEntryOk(res[i]);
        assert res[1..][i - 1] == res[i];
        ReporterLinesRejects(res[1..], ReporterEntryLines(e.value.entries, header).value);
      }
    }
  }

  lemma ReporterLinesCons(res: seq<Item>, acc: Reporter)
    requires res != [] && ReporterEntryOk(res[0])
    ensures ReporterEntryLines(res[0].value.entries, WithHeader(acc, res[0])).Ok?
    ensures ReporterLines(res, acc)
      == ReporterLines(res[1..], ReporterEntryLines(res[0].value.entries, WithHeader(acc, res[0])).value)
  {
    ReporterEntryLinesAccepted(res[0].value.entries, WithHeader(acc, res[0]));
  }

  /** Accepted entries give their headers and non-list pairs as lines. */
  lemma {:induction false} ReporterLinesAccepted(res: seq<Item>, acc: Reporter)
    requires forall i :: 0 <= i < |res| ==> ReporterEntryOk(res[i])
    ensures ReporterLines(res, acc).Ok?
    ensures ReporterLines(res, acc).value.lines == acc.lines + ReporterText(res)
    decreases |res|
  {
    if res != [] {
      var e, tail := res[0], res[1..];
      assert forall i :: 0 <= i < |tail| ==> tail[i] == res[i + 1];
      ReporterLinesCons(res, acc);
      ReporterEntryLinesAccepted(e.value.entries, WithHeader(acc, e));
      ReporterLinesAccepted(tail, ReporterEntryLines(e.value.entries, WithHeader(acc, e)).value);
      assert ReporterText(res) == ["  " + e.key.value + ":"] + ReporterPairText(e.value.entries) + ReporterText(tail);
    }
  }

  /** Accepted entries leave the job states of the last list value over all their pairs, or the incoming ones. */
  lemma {:induction false} ReporterLinesStates(res: seq<Item>, acc: Reporter)
    requires forall i :: 0 <= i < |res| ==> ReporterEntryOk(res[i])
    ensures ReporterLines(res, acc).Ok?
    ensures StatesAfter(ReporterPairs(res), acc.states, ReporterLines(res, acc).value.states)
    decreases |res|
  {
    ReporterLinesAccepted(res, acc);
    if res != [] {
      var e, tail := res[0], res[1..];
      assert forall i :: 0 <= i < |tail| ==> tail[i] == res[i + 1];
      ReporterLinesCons(res, acc);
      var acc1 := ReporterEntryLines(e.value.entries, WithHeader(acc, e)).value;
      ReporterEntryLinesStates(e.value.entries, WithHeader(acc, e));
      ReporterLinesStates(tail, acc1);
      assert ReporterPairs(res) == e.value.entries + ReporterPairs(tail);
      StatesAfterAppend(e.value.entries, ReporterPairs(tail), acc.states, acc1.states, ReporterLines(res, acc).value.states);
    }
  }

  /**
   * `setReporterConfigReqForJob` succeeds exactly when every entry is a named mapping of accepted
   * pairs. It then writes each entry's header followed by its non-list pairs, and the job states
   * are those of the last list value over all entries, or the incoming ones when there is none.
   */
  lemma ReporterLinesContents(res: seq<Item>, acc: Reporter)
    ensures ReporterLines(res, acc).Ok? <==> forall i :: 0 <= i < |res| ==> ReporterEntryOk(res[i])
    ensures ReporterLines(res, acc).Ok? ==> ReporterLines(res, acc).value.lines == acc.lines + ReporterText(res)
    ensures ReporterLines(res, acc).Ok? ==> StatesAfter(ReporterPairs(res), acc.states, ReporterLines(res, acc).value.states)
  {
    if forall i :: 0 <= i < |res| ==> ReporterEntryOk(res[i]) {
      ReporterLinesAccepted(res, acc);
      ReporterLinesStates(res, acc);
    } else {
      ReporterLinesRejects(res, acc);
    }
  }

  // ---------------------------------------------------------------------------
  // The override entries of one job

  /** Whether the repository entry is named by the job's repository (`path.Base`). */
  predicate NamesRepo(repo: Repository, repoName: string) {
    PathBase(repo.name) == repoName
  }

  /** The repositories after a `performance` entry with value `enabled`. */
  function WithPerformance(repos: seq<Repository>, repoName: string, enabled: bool): (r: seq<Repository>)
    ensures |r| == |repos|
    ensures forall i :: 0 <= i < |r| ==> r[i].name == repos[i].name
  {
    seq(|repos|, i requires 0 <= i < |repos| => WithRepoPerformance(repos[i], repoName, enabled))
  }

  /** One repository after a `performance` entry with value `enabled`: changed only when it is the one named. */
  function WithRepoPerformance(repo: Repository, repoName: string, enabled: bool): Repository {
    if NamesRepo(repo, repoName) then repo.(enablePerformanceTests := enabled) else repo
  }

  /** The `performance` entry: its value is read (and must be a boolean) only when some repository matches. */
  function SetPerformance(repos: seq<Repository>, repoName: string, value: Node): Res<seq<Repository>> {
    if exists i :: 0 <= i < |repos| && NamesRepo(repos[i], repoName) then
      var enabled :- GetBool(value);
      Ok(WithPerformance(repos, repoName, enabled))
    else Ok(repos)
  }

  /** A boolean value sets the flag on the named repositories; without a named repository nothing is read. */
  lemma SetPerformanceCases(repos: seq<Repository>, repoName: string, value: Node)
    ensures value.Bool? ==> SetPerformance(repos, repoName, value) == Ok(WithPerformance(repos, repoName, value.b))
    ensures !value.Bool? && (forall j :: 0 <= j < |repos| ==> !NamesRepo(repos[j], repoName)) ==>
      SetPerformance(repos, repoName, value) == Ok(repos)
    ensures !value.Bool? && (exists j :: 0 <= j < |repos| && NamesRepo(repos[j], repoName)) ==>
      SetPerformance(repos, repoName, value).Err?
  {
    if value.Bool? && forall j :: 0 <= j < |repos| ==> !NamesRepo(repos[j], repoName) {
      assert WithPerformance(repos, repoName, value.b) == repos;
    }
  }

  /** The repositories with the first `n` of them updated as `WithRepoPerformance` says. */
  function PerformanceUpTo(repos: seq<Repository>, n: int, repoName: string, enabled: bool): (r: seq<Repository>)
    ensures |r| == |repos|
  {
    seq(|repos|, j requires 0 <= j < |repos| => if j < n then WithRepoPerformance(repos[j], repoName, enabled) else repos[j])
  }

  /** Updating one more repository; one that is not named stays as it is. */
  lemma PerformanceUpToStep(repos: seq<Repository>, i: int, repoName: string, enabled: bool)
    requires 0 <= i < |repos|
    ensures PerformanceUpTo(repos, i + 1, repoName, enabled)
      == PerformanceUpTo(repos, i, repoName, enabled)[i := WithRepoPerformance(repos[i], repoName, enabled)]
    ensures !NamesRepo(repos[i], repoName) ==>
      PerformanceUpTo(repos, i + 1, repoName, enabled) == PerformanceUpTo(repos, i, repoName, enabled)
  {
    var a := PerformanceUpTo(repos, i + 1, repoName, enabled);
    var b := PerformanceUpTo(repos, i, repoName, enabled)[i := WithRepoPerformance(repos[i], repoName, enabled)];
    assert |a| == |b|;
    forall j | 0 <= j < |a|
      ensures a[j] == b[j]
    {
    }
    assert a == b;
  }

  /** A walk over all repositories that met no failing read ends where `SetPerformance` does. */
  lemma PerformanceDone(repos: seq<Repository>, repoName: string, value: Node)
    ensures value.Bool? ==> SetPerformance(repos, repoName, value) == Ok(PerformanceUpTo(repos, |repos|, repoName, value.b))
    ensures !value.Bool? && (forall j :: 0 <= j < |repos| ==> !NamesRepo(repos[j], repoName)) ==>
      SetPerformance(repos, repoName, value) == Ok(repos)
  {
    SetPerformanceCases(repos, repoName, value);
    if value.Bool? {
      assert PerformanceUpTo(repos, |repos|, repoName, value.b) == WithPerformance(repos, repoName, value.b);
    }
  }

  /** A named repository with a non-boolean value makes the entry fatal. */
  lemma PerformanceFails(repos: seq<Repository>, i: int, repoName: string, value: Node)
    requires 0 <= i < |repos| && NamesRepo(repos[i], repoName) && !value.Bool?
    ensures SetPerformance(repos, repoName, value).Err?
  {
    SetPerformanceCases(repos, repoName, value);
  }

  /** What one job's overrides update: its record and the global repository list. */
  datatype OverrideState = OverrideState(job: JobRecord, repos: seq<Repository>)

  /** The 13 entry names a job may carry. */
  const OverrideKeys: set<string> := {
    "skip_branches", "branches", "args", "timeout", "command", "needs-monitor", "needs-dind",
    "always-run", "performance", "env-vars", "optional", "resources", "reporter_config"
  }

  /** The case of the `switch` an entry name selects. */
  datatype OverrideKey =
    | SkipBranches | Branches | Args | Timeout | Command | NeedsMonitor | NeedsDind
    | AlwaysRun | Performance | EnvVars | Optional | Resources | ReporterConfig | Unknown

  /** The case for entry name `k`; exactly the 13 names have a case of their own. */
  function KeyOf(k: string): (key: OverrideKey)
    ensures key.Unknown? <==> k !in OverrideKeys
    ensures key == Timeout <==> k == "timeout"
  {
    if k == "skip_branches" then SkipBranches
    else if k == "branches" then Branches
    else if k == "args" then Args
    else if k == "timeout" then Timeout
    else if k == "command" then Command
    else if k == "needs-monitor" then NeedsMonitor
    else if k == "needs-dind" then NeedsDind
    else if k == "always-run" then AlwaysRun
    else if k == "performance" then Performance
    else if k == "env-vars" then EnvVars
    else if k == "optional" then Optional
    else if k == "resources" then Resources
    else if k == "reporter_config" then ReporterConfig
    else Unknown
  }

  /** The cases of the `switch` that update the job record alone (all but `performance`). */
  function ApplyJobOverride(r: JobRecord, key: OverrideKey, value: Node): Res<JobRecord>
    requires key != Performance && key != Unknown
  {
    match key
    case SkipBranches =>
      var v :- GetStringArray(value); Ok(r.(skipBranches := v))
    case Branches =>
      var v :- GetStringArray(value); Ok(r.(branches := v))
    case Args =>
      var v :- GetStringArray(value); Ok(r.(args := v))
    case Timeout =>
      var v :- GetInt(value); Ok(r.(timeout := v))
    case Command =>
      var v :- GetString(value); Ok(r.(command := v))
    case NeedsMonitor =>
      var v :- GetBool(value); Ok(r.(needsMonitor := v))
    case NeedsDind =>
      var v :- GetBool(value); Ok(if v then WithDockerInDocker(r) else r)
    case AlwaysRun =>
      var v :- GetBool(value); Ok(r.(alwaysRun := v))
    case EnvVars =>
      var envVars :- GetStringArray(value);
      var lines :- ExtraEnvLines(envVars);
      Ok(r.(env := r.env + lines))
    case Optional =>
      var v :- GetBool(value); Ok(r.(optional := v))
    case Resources =>
      var res :- GetMapSlice(value);
      var lines :- ResourceLines(res, []);
      Ok(r.(resources := lines))
    case ReporterConfig =>
      var res :- GetMapSlice(value);
      var rep :- ReporterLines(res, Reporter([], r.jobStatesToReport));
      Ok(r.(reporterConfig := rep.lines, jobStatesToReport := rep.states))
  }

  /** The list-valued cases: a list of strings replaces that field, anything else is fatal. */
  lemma ListOverride(r: JobRecord, key: OverrideKey, value: Node)
    requires key == SkipBranches || key == Branches || key == Args
    ensures GetStringArray(value).Err? ==> ApplyJobOverride(r, key, value).Err?
    ensures GetStringArray(value).Ok? ==> var v := GetStringArray(value).value;
      ApplyJobOverride(r, key, value) ==
        Ok(if key == SkipBranches then r.(skipBranches := v) else if key == Branches then r.(branches := v) else r.(args := v))
  {
  }

  /** The scalar cases: an integer `timeout` or a string `command` replaces that field, anything else is fatal. */
  lemma ScalarOverride(r: JobRecord, key: OverrideKey, value: Node)
    requires key == Timeout || key == Command
    ensures key == Timeout ==>
      ApplyJobOverride(r, key, value) == if GetInt(value).Err? then Err(GetInt(value).error) else Ok(r.(timeout := GetInt(value).value))
    ensures key == Command ==>
      ApplyJobOverride(r, key, value) == if GetString(value).Err? then Err(GetString(value).error) else Ok(r.(command := GetString(value).value))
  {
  }

  /** The boolean cases: a boolean replaces that flag, anything else is fatal. */
  lemma BoolOverride(r: JobRecord, key: OverrideKey, value: Node)
    requires key == NeedsMonitor || key == AlwaysRun || key == Optional
    ensures GetBool(value).Err? ==> ApplyJobOverride(r, key, value).Err?
    ensures GetBool(value).Ok? ==> var v := GetBool(value).value;
      ApplyJobOverride(r, key, value) ==
        Ok(if key == NeedsMonitor then r.(needsMonitor := v) else if key == AlwaysRun then r.(alwaysRun := v) else r.(optional := v))
  {
  }

  /** One iteration of the loop in `parseBasicJobConfigOverrides`. */
  function ApplyOverride(st: OverrideState, item: Item): (r: Res<OverrideState>)
    ensures item.key.None? ==> r == Ok(st)
    ensures item.key.Some? && item.key.value !in OverrideKeys ==> r == Err(UnknownEntry(item.key.value))
    ensures r.Ok? && item.key != Some("performance") ==> r.value.repos == st.repos
    ensures r.Ok? && item.key == Some("performance") ==> r.value.job == st.job
  {
    match item.key
    case None => Ok(st)
    case Some(k) =>
      match KeyOf(k)
      case Performance =>
        var repos :- SetPerformance(st.repos, st.job.repoName, item.value); Ok(st.(repos := repos))
      case Unknown => Err(UnknownEntry(k))
      case _ =>
        var job :- ApplyJobOverride(st.job, KeyOf(k), item.value); Ok(st.(job := job))
  }

  /** All entries, in order; the first fatal entry stops the walk. */
  function ApplyOverrides(st: OverrideState, items: seq<Item>): (r: Res<OverrideState>)
    ensures r.Err? ==> exists i :: 0 <= i < |items| && items[i].key.Some?
    ensures (forall i :: 0 <= i < |items| ==> items[i].key.Some? ==> KeyOf(items[i].key.value) != Performance) && r.Ok?
      ==> r.value.repos == st.repos
    decreases |items|
  {
    if items == [] then Ok(st)
    else
      assert forall i :: 0 < i < |items| ==> items[i] == items[1..][i - 1];
      var st1 :- ApplyOverride(st, items[0]);
      ApplyOverrides(st1, items[1..])
  }

  function WithBaseRef(r: JobRecord): JobRecord {
    r.(extraRefs := r.extraRefs + ["  base_ref: " + r.repoBranch])
  }

  function WithTimeoutOverride(flags: Flags, st: OverrideState): OverrideState {
    if flags.timeoutOverride > 0 then st.(job := st.job.(timeout := flags.timeoutOverride)) else st
  }

  /** `parseBasicJobConfigOverrides`: base_ref line, every entry, then the global timeout override. */
  function ParseOverrides(flags: Flags, st: OverrideState, items: seq<Item>): (r: Res<OverrideState>)
    ensures r.Err? ==> exists i :: 0 <= i < |items| && items[i].key.Some?
    ensures r.Ok? && flags.timeoutOverride > 0 ==> r.value.job.timeout == flags.timeoutOverride
  {
    var st2 :- ApplyOverrides(st.(job := WithBaseRef(st.job)), items);
    Ok(WithTimeoutOverride(flags, st2))
  }

  /** The config after the walk: every processed entry replaced by the empty entry. */
  function Knocked(items: seq<Item>): (r: seq<Item>)
    ensures |r| == |items|
    ensures forall i :: 0 <= i < |r| ==> r[i].key.None?
  {
    seq(|items|, i requires 0 <= i < |items| => if items[i].key.None? then items[i] else Consumed)
  }

  lemma {:induction false} ApplyOverridesAppend(st: OverrideState, a: seq<Item>, b: seq<Item>)
    ensures ApplyOverrides(st, a).Err? ==> ApplyOverrides(st, a + b) == ApplyOverrides(st, a)
    ensures ApplyOverrides(st, a).Ok? ==> ApplyOverrides(st, a + b) == ApplyOverrides(ApplyOverrides(st, a).value, b)
    decreases |a|
  {
    if a == [] {
      assert a + b == b;
    } else {
      assert (a + b)[0] == a[0];
      assert (a + b)[1..] == a[1..] + b;
      match ApplyOverride(st, a[0])
      case Err(e) =>
      case Ok(st1) => ApplyOverridesAppend(st1, a[1..], b);
    }
  }

  /** The value of the last `timeout` entry, or `incoming` if there is none. */
  function LastTimeout(items: seq<Item>, incoming: int): int {
    if items == [] then incoming
    else
      var last := items[|items| - 1];
      if last.key == Some("timeout") && last.value.Int? then last.value.i
      else LastTimeout(items[..|items| - 1], incoming)
  }

  lemma ApplyJobOverrideTimeout(r: JobRecord, key: OverrideKey, value: Node)
    requires key != Performance && key != Unknown && ApplyJobOverride(r, key, value).Ok?
    ensures ApplyJobOverride(r, key, value).value.timeout == if key == Timeout then value.i else r.timeout
  {
    match key
    case NeedsDind => DockerInDockerEffect(r);
    case SkipBranches =>
    case Branches =>
    case Args =>
    case Timeout =>
    case Command =>
    case NeedsMonitor =>
    case AlwaysRun =>
    case EnvVars =>
    case Optional =>
    case Resources =>
    case ReporterConfig =>
  }

  lemma ApplyOverrideTimeout(st: OverrideState, item: Item)
    requires ApplyOverride(st, item).Ok?
    ensures ApplyOverride(st, item).value.job.timeout
      == if item.key == Some("timeout") then item.value.i else st.job.timeout
  {
    if item.key.Some? {
      var key := KeyOf(item.key.value);
      if key != Performance && key != Unknown {
        ApplyJobOverrideTimeout(st.job, key, item.value);
      }
    }
  }

  lemma {:induction false} ApplyOverridesTimeout(st: OverrideState, items: seq<Item>)
    requires ApplyOverrides(st, items).Ok?
    ensures ApplyOverrides(st, items).value.job.timeout == LastTimeout(items, st.job.timeout)
    decreases |items|
  {
    if items != [] {
      var n := |items| - 1;
      var front := items[..n];
      assert items == front + [items[n]];
      ApplyOverridesAppend(st, front, [items[n]]);
      var st1 := ApplyOverrides(st, front).value;
      ApplyOverridesTimeout(st, front);
      ApplyOverrideTimeout(st1, items[n]);
      assert ApplyOverrides(st1, [items[n]]) == ApplyOverride(st1, items[n]);
    }
  }

  /** The final timeout: the positive global override if set, else the last `timeout` entry, else the incoming one. */
  lemma FinalTimeout(flags: Flags, st: OverrideState, items: seq<Item>)
    requires ParseOverrides(flags, st, items).Ok?
    ensures ParseOverrides(flags, st, items).value.job.timeout
      == if flags.timeoutOverride > 0 then flags.timeoutOverride else LastTimeout(items, st.job.timeout)
  {
    ApplyOverridesTimeout(st.(job := WithBaseRef(st.job)), items);
  }

  /** A non-nil entry outside the 13 names is fatal, wherever it stands. */
  lemma {:induction false} UnknownEntryIsFatal(flags: Flags, st: OverrideState, items: seq<Item>, k: nat)
    requires k < |items| && items[k].key.Some? && items[k].key.value !in OverrideKeys
    ensures ParseOverrides(flags, st, items).Err?
  {
    UnknownEntryStops(st.(job := WithBaseRef(st.job)), items, k);
  }

  lemma {:induction false} UnknownEntryStops(st: OverrideState, items: seq<Item>, k: nat)
    requires k < |items| && items[k].key.Some? && items[k].key.value !in OverrideKeys
    ensures ApplyOverrides(st, items).Err?
    decreases k
  {
    match ApplyOverride(st, items[0])
    case Err(_) =>
    case Ok(st1) =>
      if k > 0 {
        UnknownEntryStops(st1, items[1..], k - 1);
      }
  }

  /** After a walk, the config holds only nil keys, so walking it again applies no override. */
  lemma {:induction false} KnockedAppliesNothing(st: OverrideState, items: seq<Item>)
    ensures ApplyOverrides(st, Knocked(items)) == Ok(st)
    decreases |items|
  {
    if items != [] {
      assert Knocked(items)[1..] == Knocked(items[1..]);
      KnockedAppliesNothing(st, items[1..]);
    }
  }

  /** A second call on the consumed config only adds another base_ref line and reapplies the timeout override. */
  lemma SecondParseAppliesNothing(flags: Flags, st: OverrideState, items: seq<Item>)
    ensures ParseOverrides(flags, st, Knocked(items))
      == Ok(WithTimeoutOverride(flags, st.(job := WithBaseRef(st.job))))
  {
    KnockedAppliesNothing(st.(job := WithBaseRef(st.job)), items);
  }

  lemma ApplyJobOverrideKeepsIdentity(r: JobRecord, key: OverrideKey, value: Node)
    requires key != Performance && key != Unknown && ApplyJobOverride(r, key, value).Ok?
    ensures var r1 := ApplyJobOverride(r, key, value).value;
      && r1.orgName == r.orgName && r1.repoName == r.repoName
      && r1.repoBranch == r.repoBranch && r1.serviceAccount == r.serviceAccount
  {
    match key
    case NeedsDind => DockerInDockerEffect(r);
    case SkipBranches =>
    case Branches =>
    case Args =>
    case Timeout =>
    case Command =>
    case NeedsMonitor =>
    case AlwaysRun =>
    case EnvVars =>
    case Optional =>
    case Resources =>
    case ReporterConfig =>
  }

  lemma ApplyOverrideKeepsIdentity(st: OverrideState, item: Item)
    requires ApplyOverride(st, item).Ok?
    ensures var st1 := ApplyOverride(st, item).value;
      && st1.job.orgName == st.job.orgName && st1.job.repoName == st.job.repoName
      && st1.job.repoBranch == st.job.repoBranch && st1.job.serviceAccount == st.job.serviceAccount
      && |st1.repos| == |st.repos|
      && forall i :: 0 <= i < |st.repos| ==> st1.repos[i].name == st.repos[i].name
  {
    if item.key.Some? {
      var key := KeyOf(item.key.value);
      if key == Performance {
        var repos := SetPerformance(st.repos, st.job.repoName, item.value).value;
        assert |repos| == |st.repos| && forall i :: 0 <= i < |st.repos| ==> repos[i].name == st.repos[i].name;
      } else if key != Unknown {
        ApplyJobOverrideKeepsIdentity(st.job, key, item.value);
      }
    }
  }

  /** Overrides never touch the job's identity or the names in the repository list. */
  lemma {:induction false} OverridesKeepIdentity(st: OverrideState, items: seq<Item>)
    requires ApplyOverrides(st, items).Ok?
    ensures var st2 := ApplyOverrides(st, items).value;
      && st2.job.orgName == st.job.orgName && st2.job.repoName == st.job.repoName
      && st2.job.repoBranch == st.job.repoBranch && st2.job.serviceAccount == st.job.serviceAccount
      && |st2.repos| == |st.repos|
      && forall i :: 0 <= i < |st.repos| ==> st2.repos[i].name == st.repos[i].name
    decreases |items|
  {
    if items != [] {
      var st1 := ApplyOverride(st, items[0]).value;
      ApplyOverrideKeepsIdentity(st, items[0]);
      OverridesKeepIdentity(st1, items[1..]);
    }
  }
}
