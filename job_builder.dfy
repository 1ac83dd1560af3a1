/**
 * The mutable job record (`*baseProwJobTemplateData`) and the helpers that append to it in
 * place. Every method is proved against the meaning of its step in JobData, and
 * `ParseBasicJobConfigOverrides` against `ParseOverrides` and `Knocked`.
 */
module JobBuilder {
  import opened Wrappers
  import opened Yaml
  import opened Strings
  import opened JobData

  class JobTemplateData {
    var orgName: string
    var repoName: string
    var repoNameForJob: string
    var gcsBucket: string
    var gcsLogDir: string
    var gcsPresubmitLogDir: string
    var repoURI: string
    var repoBranch: string
    var cloneURI: string
    var securityContext: seq<string>
    var skipBranches: seq<string>
    var branches: seq<string>
    var decorationConfig: seq<string>
    var extraRefs: seq<string>
    var command: string
    var args: seq<string>
    var env: seq<string>
    var volumes: seq<string>
    var volumeMounts: seq<string>
    var resources: seq<string>
    var reporterConfig: seq<string>
    var jobStatesToReport: seq<string>
    var timeout: int
    var alwaysRun: bool
    var optional: bool
    var testAccount: string
    var serviceAccount: string
    var releaseGcs: string
    var goCoverageThreshold: int
    var image: string
    var labels: seq<string>
    var pathAlias: string
    var cluster: string
    var needsMonitor: bool
    var annotations: seq<string>

    /** The record's current value. */
    function Record(): JobRecord
      reads this
    {
      JobRecord(orgName, repoName, repoNameForJob, gcsBucket, gcsLogDir, gcsPresubmitLogDir,
        repoURI, repoBranch, cloneURI, securityContext, skipBranches, branches, decorationConfig,
        extraRefs, command, args, env, volumes, volumeMounts, resources, reporterConfig,
        jobStatesToReport, timeout, alwaysRun, optional, testAccount, serviceAccount, releaseGcs,
        goCoverageThreshold, image, labels, pathAlias, cluster, needsMonitor, annotations)
    }

    /** A mutable record holding `r`, typically `NewBaseRecord(flags, repo)`. */
    constructor (r: JobRecord)
      ensures Record() == r
    {
      orgName, repoName, repoNameForJob := r.orgName, r.repoName, r.repoNameForJob;
      gcsBucket, gcsLogDir, gcsPresubmitLogDir := r.gcsBucket, r.gcsLogDir, r.gcsPresubmitLogDir;
      repoURI, repoBranch, cloneURI := r.repoURI, r.repoBranch, r.cloneURI;
      securityContext, skipBranches, branches := r.securityContext, r.skipBranches, r.branches;
      decorationConfig, extraRefs, command, args := r.decorationConfig, r.extraRefs, r.command, r.args;
      env, volumes, volumeMounts := r.env, r.volumes, r.volumeMounts;
      resources, reporterConfig, jobStatesToReport := r.resources, r.reporterConfig, r.jobStatesToReport;
      timeout, alwaysRun, optional := r.timeout, r.alwaysRun, r.optional;
      testAccount, serviceAccount, releaseGcs := r.testAccount, r.serviceAccount, r.releaseGcs;
      goCoverageThreshold, image, labels := r.goCoverageThreshold, r.image, r.labels;
      pathAlias, cluster, needsMonitor, annotations := r.pathAlias, r.cluster, r.needsMonitor, r.annotations;
    }

    /** `addEnvToJob`: appends the name line and the (quoted if numeric) value line. */
    method AddEnvToJob(key: string, value: string)
      modifies this
      ensures Record() == WithEnv(old(Record()), key, value)
    {
      var v := value;
      if IsNum(v) {
        v := "\"" + v + "\"";
      }
      env := env + [EnvNameToKey(key), EnvValueToValue(v)];
    }

    /** `addLabelToJob`: appends one "key: value" label. */
    method AddLabelToJob(key: string, value: string)
      modifies this
      ensures Record() == old(Record()).(labels := old(labels) + [key + ": " + value])
    {
      labels := labels + [key + ": " + value];
    }

    /** `addMonitoringPubsubLabelsToJob`: the three pubsub labels, in this order. */
    method AddMonitoringPubsubLabelsToJob(runID: string)
      modifies this
      ensures Record() == old(Record()).(labels := old(labels) + [
        "prow.k8s.io/pubsub.project: knative-tests",
        "prow.k8s.io/pubsub.topic: knative-monitoring",
        "prow.k8s.io/pubsub.runID: " + runID])
    {
      AddLabelToJob("prow.k8s.io/pubsub.project", "knative-tests");
      AddLabelToJob("prow.k8s.io/pubsub.topic", "knative-monitoring");
      AddLabelToJob("prow.k8s.io/pubsub.runID", runID);
      assert "prow.k8s.io/pubsub.project" + ": " + "knative-tests" == "prow.k8s.io/pubsub.project: knative-tests";
      assert "prow.k8s.io/pubsub.topic" + ": " + "knative-monitoring" == "prow.k8s.io/pubsub.topic: knative-monitoring";
      assert "prow.k8s.io/pubsub.runID" + ": " + runID == "prow.k8s.io/pubsub.runID: " + runID;
      assert labels == old(labels) + [
        "prow.k8s.io/pubsub.project: knative-tests",
        "prow.k8s.io/pubsub.topic: knative-monitoring",
        "prow.k8s.io/pubsub.runID: " + runID];
    }

    /** `addVolumeToJob`: the mount lines, then the volume lines with `content` indented. */
    method AddVolumeToJob(mountPath: string, name: string, isSecret: bool, content: seq<string>)
      modifies this
      ensures Record() == WithVolume(old(Record()), mountPath, name, isSecret, content)
    {
      var mounts, vols := VolumeBlocks(mountPath, name, isSecret, content);
      SetVolumeMounts(volumeMounts + mounts);
      SetVolumes(volumes + vols);
    }

    /** `configureServiceAccountForJob`: `false` where the path is malformed (fatal in the source). */
    method ConfigureServiceAccountForJob() returns (ok: bool)
      modifies this
      ensures ok == WithServiceAccount(old(Record())).Ok?
      ensures ok ==> Record() == WithServiceAccount(old(Record())).value
    {
      if serviceAccount == "" {
        return true;
      }
      var p := Split(serviceAccount, '/');
      if |p| != 4 || p[0] != "" || p[1] != "etc" || p[3] != "service-account.json" {
        return false;
      }
      var name := p[2];
      AddVolumeToJob("/etc/" + name, name, true, []);
      return true;
    }

    /** `addExtraEnvVarsToJob`: `false` at the first entry without `=` (fatal in the source). */
    method AddExtraEnvVarsToJob(envVars: seq<string>) returns (ok: bool)
      modifies this
      ensures ok == ExtraEnvLines(envVars).Ok?
      ensures ok ==> Record() == old(Record()).(env := old(env) + ExtraEnvLines(envVars).value)
    {
      var lines := ExtraEnvBlock(envVars);
      ok := lines.Ok?;
      if ok {
        env := env + lines.value;
      }
    }

    /** `setupDockerInDockerForJob`. */
    method SetupDockerInDockerForJob()
      modifies this
      ensures Record() == WithDockerInDocker(old(Record()))
    {
      AddVolumeToJob("/docker-graph", "docker-graph", false, DockerGraphContent);
      AddVolumeToJob("/lib/modules", "modules", false, ModulesContent);
      AddVolumeToJob("/sys/fs/cgroup", "cgroup", false, CgroupContent);
      AddEnvToJob("DOCKER_IN_DOCKER_ENABLED", "\"true\"");
      securityContext := ["privileged: true"];
    }

    /** `setResourcesReqForJob`: replaces the resource lines; `false` on a mistyped entry. */
    method SetResourcesReqForJob(res: seq<Item>) returns (ok: bool)
      modifies this
      ensures ok == ResourceLines(res, []).Ok?
      ensures ok ==> Record() == old(Record()).(resources := ResourceLines(res, []).value)
      ensures ok <==> forall i :: 0 <= i < |res| ==> ResourceEntryOk(res[i])
      ensures ok ==> resources == ResourceText(res)
    {
      ResourceLinesContents(res, []);
      var lines := ResourceBlock(res);
      ok := lines.Ok?;
      if ok {
        resources := lines.value;
      }
    }

    /** `setReporterConfigReqForJob`: replaces the reporter lines; a list value sets the job states. */
    method SetReporterConfigReqForJob(res: seq<Item>) returns (ok: bool)
      modifies this
      ensures ok == ReporterLines(res, Reporter([], old(jobStatesToReport))).Ok?
      ensures ok ==> var rep := ReporterLines(res, Reporter([], old(jobStatesToReport))).value;
        Record() == old(Record()).(reporterConfig := rep.lines, jobStatesToReport := rep.states)
      ensures ok <==> forall i :: 0 <= i < |res| ==> ReporterEntryOk(res[i])
      ensures ok ==> reporterConfig == ReporterText(res)
      ensures ok ==> StatesAfter(ReporterPairs(res), old(jobStatesToReport), jobStatesToReport)
    {
      ReporterLinesContents(res, Reporter([], jobStatesToReport));
      var rep := ReporterBlock(res, jobStatesToReport);
      ok := rep.Ok?;
      if ok {
        SetReporterConfig(rep.value.lines);
        SetJobStatesToReport(rep.value.states);
      }
    }

    /** The list cases of the `switch`; `false` where the value is not a list of strings. */
    method ApplyListField(key: OverrideKey, value: Node) returns (ok: bool)
      requires key == SkipBranches || key == Branches || key == Args
      modifies this
      ensures ok == ApplyJobOverride(old(Record()), key, value).Ok?
      ensures ok ==> Record() == ApplyJobOverride(old(Record()), key, value).value
    {
      ListOverride(Record(), key, value);
      var v := GetStringArray(value);
      ok := v.Ok?;
      if ok {
        if key == SkipBranches {
          SetSkipBranches(v.value);
        } else if key == Branches {
          SetBranches(v.value);
        } else {
          SetArgs(v.value);
        }
      }
    }

    /** The `timeout` and `command` cases of the `switch`; `false` where the value has the wrong type. */
    method ApplyScalarField(key: OverrideKey, value: Node) returns (ok: bool)
      requires key == Timeout || key == Command
      modifies this
      ensures ok == ApplyJobOverride(old(Record()), key, value).Ok?
      ensures ok ==> Record() == ApplyJobOverride(old(Record()), key, value).value
    {
      ScalarOverride(Record(), key, value);
      if key == Timeout {
        var v := GetInt(value);
        ok := v.Ok?;
        if ok {
          SetTimeout(v.value);
        }
      } else {
        var v := GetString(value);
        ok := v.Ok?;
        if ok {
          SetCommand(v.value);
        }
      }
    }

    /** The boolean cases of the `switch`; `false` where the value is not a boolean. */
    method ApplyBoolField(key: OverrideKey, value: Node) returns (ok: bool)
      requires key == NeedsMonitor || key == AlwaysRun || key == Optional
      modifies this
      ensures ok == ApplyJobOverride(old(Record()), key, value).Ok?
      ensures ok ==> Record() == ApplyJobOverride(old(Record()), key, value).value
    {
      BoolOverride(Record(), key, value);
      var v := GetBool(value);
      ok := v.Ok?;
      if ok {
        if key == NeedsMonitor {
          SetNeedsMonitor(v.value);
        } else if key == AlwaysRun {
          SetAlwaysRun(v.value);
        } else {
          SetOptional(v.value);
        }
      }
    }

    // One assignment each, as in the `switch` cases.

    method SetSkipBranches(v: seq<string>)
      modifies this
      ensures Record() == old(Record()).(skipBranches := v)
    {
      skipBranches := v;
    }

    method SetBranches(v: seq<string>)
      modifies this
      ensures Record() == old(Record()).(branches := v)
    {
      branches := v;
    }

    method SetArgs(v: seq<string>)
      modifies this
      ensures Record() == old(Record()).(args := v)
    {
      args := v;
    }

    method SetTimeout(v: int)
      modifies this
      ensures Record() == old(Record()).(timeout := v)
    {
      timeout := v;
    }

    method SetCommand(v: string)
      modifies this
      ensures Record() == old(Record()).(command := v)
    {
      command := v;
    }

    method SetNeedsMonitor(v: bool)
      modifies this
      ensures Record() == old(Record()).(needsMonitor := v)
    {
      needsMonitor := v;
    }

    method SetAlwaysRun(v: bool)
      modifies this
      ensures Record() == old(Record()).(alwaysRun := v)
    {
      alwaysRun := v;
    }

    method SetVolumeMounts(v: seq<string>)
      modifies this
      ensures Record() == old(Record()).(volumeMounts := v)
    {
      volumeMounts := v;
    }

    method SetVolumes(v: seq<string>)
      modifies this
      ensures Record() == old(Record()).(volumes := v)
    {
      volumes := v;
    }

    method SetReporterConfig(v: seq<string>)
      modifies this
      ensures Record() == old(Record()).(reporterConfig := v)
    {
      reporterConfig := v;
    }

    method SetJobStatesToReport(v: seq<string>)
      modifies this
      ensures Record() == old(Record()).(jobStatesToReport := v)
    {
      jobStatesToReport := v;
    }

    method SetOptional(v: bool)
      modifies this
      ensures Record() == old(Record()).(optional := v)
    {
      optional := v;
    }

    /** The cases of the `switch` that append blocks of lines; `false` where the source is fatal. */
    method ApplyBlockField(key: OverrideKey, value: Node) returns (ok: bool)
      requires key == NeedsDind || key == EnvVars || key == Resources || key == ReporterConfig
      modifies this
      ensures ok == ApplyJobOverride(old(Record()), key, value).Ok?
      ensures ok ==> Record() == ApplyJobOverride(old(Record()), key, value).value
    {
      ok := true;
      match key
      case NeedsDind =>
        var v := GetBool(value);
        if v.Err? {
          return false;
        }
        if v.value {
          SetupDockerInDockerForJob();
        }
      case EnvVars =>
        var v := GetStringArray(value);
        if v.Err? {
          return false;
        }
        ok := AddExtraEnvVarsToJob(v.value);
        return;
      case Resources =>
        var v := GetMapSlice(value);
        if v.Err? {
          return false;
        }
        ok := SetResourcesReqForJob(v.value);
        return;
      case ReporterConfig =>
        var v := GetMapSlice(value);
        if v.Err? {
          return false;
        }
        ok := SetReporterConfigReqForJob(v.value);
    }

    /** One case of the `switch` in `parseBasicJobConfigOverrides`; `false` where the source is fatal. */
    method ApplyConfigItem(item: Item, repos: array<Repository>) returns (ok: bool)
      modifies this, repos
      ensures ok == ApplyOverride(OverrideState(old(Record()), old(repos[..])), item).Ok?
      ensures ok ==>
        OverrideState(Record(), repos[..]) == ApplyOverride(OverrideState(old(Record()), old(repos[..])), item).value
    {
      if item.key.None? {
        return true;
      }
      var k := item.key.value;
      var key := KeyOf(k);
      if key == Performance {
        ok := SetRepoPerformance(repos, repoName, item.value);
      } else if key == Unknown {
        ok := false;
      } else if key == SkipBranches || key == Branches || key == Args {
        ok := ApplyListField(key, item.value);
      } else if key == Timeout || key == Command {
        ok := ApplyScalarField(key, item.value);
      } else if key == NeedsMonitor || key == AlwaysRun || key == Optional {
        ok := ApplyBoolField(key, item.value);
      } else {
        ok := ApplyBlockField(key, item.value);
      }
    }

    /**
     * `parseBasicJobConfigOverrides`: adds the base_ref line, applies the entries in order while
     * knocking each processed one out of `config`, then applies the global timeout override.
     */
    method ParseBasicJobConfigOverrides(flags: Flags, config: array<Item>, repos: array<Repository>)
      returns (ok: bool)
      modifies this, config, repos
      ensures ok == ParseOverrides(flags, OverrideState(old(Record()), old(repos[..])), old(config[..])).Ok?
      ensures ok ==>
        OverrideState(Record(), repos[..]) == ParseOverrides(flags, OverrideState(old(Record()), old(repos[..])), old(config[..])).value
      ensures ok ==> config[..] == Knocked(old(config[..]))
    {
      AddBaseRef();
      ok := ApplyConfigItems(config, repos);
      if ok && flags.timeoutOverride > 0 {
        SetTimeout(flags.timeoutOverride);
      }
    }

    /** The `base_ref` line added before the entries are walked. */
    method AddBaseRef()
      modifies this
      ensures Record() == WithBaseRef(old(Record()))
    {
      extraRefs := extraRefs + ["  base_ref: " + repoBranch];
    }

    /** The loop of `parseBasicJobConfigOverrides`: each entry is applied, then knocked out. */
    method ApplyConfigItems(config: array<Item>, repos: array<Repository>) returns (ok: bool)
      modifies this, config, repos
      ensures ok == ApplyOverrides(OverrideState(old(Record()), old(repos[..])), old(config[..])).Ok?
      ensures ok ==>
        OverrideState(Record(), repos[..]) == ApplyOverrides(OverrideState(old(Record()), old(repos[..])), old(config[..])).value
      ensures ok ==> config[..] == Knocked(old(config[..]))
    {
      ghost var items := config[..];
      ghost var st0 := OverrideState(Record(), repos[..]);
      var i := 0;
      while i < config.Length
        invariant 0 <= i <= config.Length
        invariant config[i..] == items[i..]
        invariant config[..i] == Knocked(items)[..i]
        invariant ApplyOverrides(st0, items) == ApplyOverrides(OverrideState(Record(), repos[..]), items[i..])
      {
        var item := config[i];
        assert items[i..][0] == item && items[i..][1..] == items[i + 1..];
        ok := ApplyConfigItem(item, repos);
        if !ok {
          return;
        }
        if item.key.Some? {
          config[i] := Consumed;
        }
        assert config[..i + 1] == Knocked(items)[..i + 1];
        i := i + 1;
      }
      assert items[i..] == [];
      assert config[..] == config[..i];
      return true;
    }
  }

  /** The lines `addVolumeToJob` appends to the mounts and to the volumes. */
  method VolumeBlocks(mountPath: string, name: string, isSecret: bool, content: seq<string>)
    returns (mounts: seq<string>, vols: seq<string>)
    ensures mounts == MountLines(mountPath, name, isSecret)
    ensures vols == VolumeLines(name, isSecret, content)
  {
    mounts := ["- name: " + name, "  mountPath: " + mountPath];
    if isSecret {
      mounts := mounts + ["  readOnly: true"];
    }
    vols := ["- name: " + name];
    if isSecret {
      vols := vols + ["  secret:", "    secretName: " + name];
    }
    var indented := IndentLines(content);
    vols := vols + indented;
  }

  /** The loop of `addExtraEnvVarsToJob`: each entry split at its first `=`, as `addEnvToJob` adds it. */
  method ExtraEnvBlock(envVars: seq<string>) returns (r: Res<seq<string>>)
    ensures r == ExtraEnvLines(envVars)
  {
    var acc: seq<string> := [];
    var i := 0;
    assert PrependOk(acc, ExtraEnvLines(envVars)) == ExtraEnvLines(envVars) by {
      if ExtraEnvLines(envVars).Ok? {
        assert acc + ExtraEnvLines(envVars).value == ExtraEnvLines(envVars).value;
      }
    }
    while i < |envVars|
      invariant 0 <= i <= |envVars|
      invariant ExtraEnvLines(envVars) == PrependOk(acc, ExtraEnvLines(envVars[i..]))
    {
      ExtraEnvLinesStep(envVars, i);
      var pair := SplitAtFirst(envVars[i], '=');
      if |pair| != 2 {
        return Err(MalformedEnvVar(envVars[i]));
      }
      var lines := EnvLines(pair[0], pair[1]);
      PrependOkAssoc(acc, lines, ExtraEnvLines(envVars[i + 1..]));
      acc := acc + lines;
      i := i + 1;
    }
    assert envVars[i..] == [];
    assert acc + [] == acc;
    return Ok(acc);
  }

  /** The outer loop of `setResourcesReqForJob`: a "  <kind>:" header per entry, then its pairs. */
  method ResourceBlock(res: seq<Item>) returns (r: Res<seq<string>>)
    ensures r == ResourceLines(res, [])
  {
    var lines: seq<string> := [];
    var i := 0;
    while i < |res|
      invariant 0 <= i <= |res|
      invariant ResourceLines(res, []) == ResourceLines(res[i..], lines)
    {
      ResourceLinesStep(res, i, lines);
      var k := GetKeyString(res[i].key);
      if k.Err? {
        return Err(k.error);
      }
      var items := GetMapSlice(res[i].value);
      if items.Err? {
        return Err(items.error);
      }
      var entry := ResourceEntryBlock(items.value, lines + ["  " + k.value + ":"]);
      if entry.Err? {
        return Err(entry.error);
      }
      lines := entry.value;
      i := i + 1;
    }
    assert res[i..] == [];
    return Ok(lines);
  }

  /** The inner loop of `setResourcesReqForJob`: one "    key: value" line per pair, after `acc`. */
  method ResourceEntryBlock(items: seq<Item>, acc: seq<string>) returns (r: Res<seq<string>>)
    ensures r == ResourceEntryLines(items, acc)
  {
    var lines := acc;
    var j := 0;
    while j < |items|
      invariant 0 <= j <= |items|
      invariant ResourceEntryLines(items, acc) == ResourceEntryLines(items[j..], lines)
    {
      assert items[j..][0] == items[j] && items[j..][1..] == items[j + 1..];
      var k := GetKeyString(items[j].key);
      if k.Err? {
        return Err(k.error);
      }
      var v := GetString(items[j].value);
      if v.Err? {
        return Err(v.error);
      }
      lines := lines + ["    " + k.value + ": " + v.value];
      j := j + 1;
    }
    assert items[j..] == [];
    return Ok(lines);
  }

  /** The outer loop of `setReporterConfigReqForJob`, starting from no lines and the current job states. */
  method ReporterBlock(res: seq<Item>, states: seq<string>) returns (r: Res<Reporter>)
    ensures r == ReporterLines(res, Reporter([], states))
  {
    var rep := Reporter([], states);
    var i := 0;
    while i < |res|
      invariant 0 <= i <= |res|
      invariant ReporterLines(res, Reporter([], states)) == ReporterLines(res[i..], rep)
    {
      ReporterLinesStep(res, i, rep);
      var k := GetKeyString(res[i].key);
      if k.Err? {
        return Err(k.error);
      }
      var items := GetMapSlice(res[i].value);
      if items.Err? {
        return Err(items.error);
      }
      var entry := ReporterEntryBlock(items.value, rep.(lines := rep.lines + ["  " + k.value + ":"]));
      if entry.Err? {
        return Err(entry.error);
      }
      rep := entry.value;
      i := i + 1;
    }
    assert res[i..] == [];
    return Ok(rep);
  }

  /** The inner loop of `setReporterConfigReqForJob`: a list value sets the job states, any other pair a line. */
  method ReporterEntryBlock(items: seq<Item>, acc: Reporter) returns (r: Res<Reporter>)
    ensures r == ReporterEntryLines(items, acc)
  {
    var rep := acc;
    var j := 0;
    while j < |items|
      invariant 0 <= j <= |items|
      invariant ReporterEntryLines(items, acc) == ReporterEntryLines(items[j..], rep)
    {
      assert items[j..][0] == items[j] && items[j..][1..] == items[j + 1..];
      if items[j].value.List? {
        var states := StringsOf(items[j].value.items);
        if states.Err? {
          return Err(states.error);
        }
        rep := rep.(states := states.value);
      } else {
        var k := GetKeyString(items[j].key);
        if k.Err? {
          return Err(k.error);
        }
        var v := GetString(items[j].value);
        if v.Err? {
          return Err(v.error);
        }
        rep := rep.(lines := rep.lines + ["    " + k.value + ": " + v.value]);
      }
      j := j + 1;
    }
    assert items[j..] == [];
    return Ok(rep);
  }

  /** The loop of `addVolumeToJob` that indents the volume's content lines. */
  method IndentLines(content: seq<string>) returns (s: seq<string>)
    ensures s == Indented(content)
  {
    s := [];
    var i := 0;
    while i < |content|
      invariant 0 <= i <= |content|
      invariant s == Indented(content[..i])
    {
      assert Indented(content[..i + 1]) == Indented(content[..i]) + ["  " + content[i]];
      s := s + ["  " + content[i]];
      i := i + 1;
    }
    assert content[..i] == content;
  }

  /**
   * The `performance` case: sets the flag on every repository named by `repoName`, reading the
   * value as a boolean only when one matches; `false` where that read is fatal.
   */
  method SetRepoPerformance(repos: array<Repository>, repoName: string, value: Node) returns (ok: bool)
    modifies repos
    ensures ok == SetPerformance(old(repos[..]), repoName, value).Ok?
    ensures ok ==> repos[..] == SetPerformance(old(repos[..]), repoName, value).value
  {
    ghost var orig := repos[..];
    var i := 0;
    while i < repos.Length
      invariant 0 <= i <= repos.Length
      invariant value.Bool? ==> repos[..] == PerformanceUpTo(orig, i, repoName, value.b)
      invariant !value.Bool? ==> repos[..] == orig && forall j :: 0 <= j < i ==> !NamesRepo(orig[j], repoName)
    {
      if NamesRepo(repos[i], repoName) {
        var enabled := GetBool(value);
        if enabled.Err? {
          PerformanceFails(orig, i, repoName, value);
          return false;
        }
        PerformanceUpToStep(orig, i, repoName, enabled.value);
        repos[i] := repos[i].(enablePerformanceTests := enabled.value);
      } else if value.Bool? {
        PerformanceUpToStep(orig, i, repoName, value.b);
      }
      i := i + 1;
    }
    PerformanceDone(orig, repoName, value);
    return true;
  }
}
