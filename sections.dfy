/**
 * Walking the top-level sections of the input document: `parseSection`, which hands every job
 * entry of the sections with a given title to a generator callback and then every repository to
 * a finalizer callback; `parseJob`, which looks a section up; and `getProwConfigData`, which
 * derives the tide repository list from the presubmit section.
 */
module Sections {
  import opened Wrappers
  import opened Yaml
  import opened Strings
  import opened JobData

  // ---------------------------------------------------------------------------
  // parseSection

  /**
   * One call `parseSection` makes into its callbacks. What the callbacks do is not part of
   * this model: a walk is described by the calls it makes, in order.
   */
  datatype Call =
    | Generate(title: string, repo: string, job: seq<Item>)
    | Finalize(title: string, repo: string)

  /** The generator calls for the job entries of one repository, after the calls `acc`. */
  function JobCalls(title: string, repo: string, jobs: seq<Node>, acc: seq<Call>): Res<seq<Call>> {
    if jobs == [] then Ok(acc)
    else
      var job :- GetMapSlice(jobs[0]);
      JobCalls(title, repo, jobs[1..], acc + [Generate(title, repo, job)])
  }

  /** The calls for the repositories of one section: each one's jobs, then (when asked for) its finalizer. */
  function RepoCalls(title: string, repos: seq<Item>, finalize: bool, acc: seq<Call>): Res<seq<Call>> {
    if repos == [] then Ok(acc)
    else
      var repo :- GetKeyString(repos[0].key);
      var jobs :- GetInterfaceArray(repos[0].value);
      var acc1 :- JobCalls(title, repo, jobs, acc);
      RepoCalls(title, repos[1..], finalize, if finalize then acc1 + [Finalize(title, repo)] else acc1)
  }

  /** The calls `parseSection(config, title, generate, finalize)` makes, after `acc`; other sections are skipped. */
  function SectionCalls(config: seq<Item>, title: string, finalize: bool, acc: seq<Call>): (r: Res<seq<Call>>)
    ensures r.Ok? ==> acc <= r.value
  {
    if config == [] then Ok(acc)
    else if config[0].key != Some(title) then SectionCalls(config[1..], title, finalize, acc)
    else
      var repos :- GetMapSlice(config[0].value);
      var acc1 :- RepoCalls(title, repos, finalize, acc);
      RepoCallsExtends(title, repos, finalize, acc);
      SectionCalls(config[1..], title, finalize, acc1)
  }

  /** Reference for one repository: a generator call per job entry, in input order. */
  function GeneratesFor(title: string, repo: string, jobs: seq<Node>): (r: seq<Call>)
    requires forall i :: 0 <= i < |jobs| ==> jobs[i].Mapping?
    ensures |r| == |jobs|
  {
    seq(|jobs|, i requires 0 <= i < |jobs| => Generate(title, repo, jobs[i].entries))
  }

  /** The repositories named by the finalizer calls of a trace, in order. */
  function Finalized(trace: seq<Call>): seq<string> {
    if trace == [] then []
    else
      var last := trace[|trace| - 1];
      Finalized(trace[..|trace| - 1]) + (if last.Finalize? then [last.repo] else [])
  }

  /** The number of generator calls in a trace. */
  function GenerateCount(trace: seq<Call>): nat {
    if trace == [] then 0
    else GenerateCount(trace[..|trace| - 1]) + (if trace[|trace| - 1].Generate? then 1 else 0)
  }

  /** Every call of the trace is for section `title`. */
  predicate Titled(trace: seq<Call>, title: string) {
    forall i :: 0 <= i < |trace| ==> trace[i].title == title
  }

  /** The number of job entries listed under the repositories of one section. */
  function JobCount(repos: seq<Item>): nat {
    if repos == [] then 0
    else (if repos[0].value.List? then |repos[0].value.items| else 0) + JobCount(repos[1..])
  }

  /** The names of the repositories of one section. */
  function RepoNames(repos: seq<Item>): seq<string> {
    if repos == [] then []
    else (if repos[0].key.Some? then [repos[0].key.value] else []) + RepoNames(repos[1..])
  }

  /** The number of job entries under every section titled `title`. */
  function SectionJobCount(config: seq<Item>, title: string): nat {
    if config == [] then 0
    else
      (if config[0].key == Some(title) && config[0].value.Mapping? then JobCount(config[0].value.entries) else 0)
      + SectionJobCount(config[1..], title)
  }

  /** The repositories of every section titled `title`, in input order. */
  function SectionRepoNames(config: seq<Item>, title: string): seq<string> {
    if config == [] then []
    else
      (if config[0].key == Some(title) && config[0].value.Mapping? then RepoNames(config[0].value.entries) else [])
      + SectionRepoNames(config[1..], title)
  }

  lemma FinalizedAppend(a: seq<Call>, c: Call)
    ensures Finalized(a + [c]) == Finalized(a) + (if c.Finalize? then [c.repo] else [])
    ensures GenerateCount(a + [c]) == GenerateCount(a) + (if c.Generate? then 1 else 0)
  {
    assert (a + [c])[..|a + [c]| - 1] == a;
  }

  /**
   * The jobs of a repository are accepted exactly when each is a mapping, and then they become
   * one generator call each, in input order, after the earlier calls.
   */
  lemma {:induction false} JobCallsSpec(title: string, repo: string, jobs: seq<Node>, acc: seq<Call>)
    ensures JobCalls(title, repo, jobs, acc).Ok? <==> forall i :: 0 <= i < |jobs| ==> jobs[i].Mapping?
    ensures JobCalls(title, repo, jobs, acc).Ok? ==>
      JobCalls(title, repo, jobs, acc).value == acc + GeneratesFor(title, repo, jobs)
  {
    if jobs != [] && jobs[0].Mapping? {
      var acc1 := acc + [Generate(title, repo, jobs[0].entries)];
      JobCallsSpec(title, repo, jobs[1..], acc1);
      assert forall i :: 0 < i < |jobs| ==> jobs[i] == jobs[1..][i - 1];
      if forall i :: 0 <= i < |jobs| ==> jobs[i].Mapping? {
        assert acc1 + GeneratesFor(title, repo, jobs[1..]) == acc + GeneratesFor(title, repo, jobs);
      }
    }
  }

  /** The calls for one repository's jobs are generator calls for that section and that repository only. */
  lemma JobCallsCounts(title: string, repo: string, jobs: seq<Node>, acc: seq<Call>)
    requires JobCalls(title, repo, jobs, acc).Ok?
    ensures GenerateCount(JobCalls(title, repo, jobs, acc).value) == GenerateCount(acc) + |jobs|
    ensures Finalized(JobCalls(title, repo, jobs, acc).value) == Finalized(acc)
    ensures Titled(acc, title) ==> Titled(JobCalls(title, repo, jobs, acc).value, title)
  {
    JobCallsSpec(title, repo, jobs, acc);
    GeneratesCounts(title, repo, jobs, acc);
  }

  lemma {:induction false} GeneratesCounts(title: string, repo: string, jobs: seq<Node>, acc: seq<Call>)
    requires forall i :: 0 <= i < |jobs| ==> jobs[i].Mapping?
    ensures GenerateCount(acc + GeneratesFor(title, repo, jobs)) == GenerateCount(acc) + |jobs|
    ensures Finalized(acc + GeneratesFor(title, repo, jobs)) == Finalized(acc)
    ensures Titled(acc, title) ==> Titled(acc + GeneratesFor(title, repo, jobs), title)
  {
    if jobs != [] {
      var front := jobs[..|jobs| - 1];
      var c := Generate(title, repo, jobs[|jobs| - 1].entries);
      var before := acc + GeneratesFor(title, repo, front);
      GeneratesCounts(title, repo, front, acc);
      assert GeneratesFor(title, repo, jobs) == GeneratesFor(title, repo, front) + [c];
      assert acc + GeneratesFor(title, repo, jobs) == before + [c];
      FinalizedAppend(before, c);
    } else {
      assert acc + GeneratesFor(title, repo, jobs) == acc;
    }
  }

  /**
   * A section's repositories: one generator call per job entry, one finalizer call per repository
   * (in input order) when a finalizer is given and none otherwise, all for this section.
   */
  lemma {:induction false} RepoCallsCounts(title: string, repos: seq<Item>, finalize: bool, acc: seq<Call>)
    requires RepoCalls(title, repos, finalize, acc).Ok?
    ensures GenerateCount(RepoCalls(title, repos, finalize, acc).value) == GenerateCount(acc) + JobCount(repos)
    ensures Finalized(RepoCalls(title, repos, finalize, acc).value)
      == Finalized(acc) + (if finalize then RepoNames(repos) else [])
    ensures Titled(acc, title) ==> Titled(RepoCalls(title, repos, finalize, acc).value, title)
  {
    if repos != [] {
      var repo, jobs := repos[0].key.value, repos[0].value.items;
      JobCallsCounts(title, repo, jobs, acc);
      var acc1 := JobCalls(title, repo, jobs, acc).value;
      var acc2 := if finalize then acc1 + [Finalize(title, repo)] else acc1;
      if finalize {
        FinalizedAppend(acc1, Finalize(title, repo));
      }
      RepoCallsCounts(title, repos[1..], finalize, acc2);
    }
  }

  /**
   * The first repository's calls open the trace: its job entries in order, then its finalizer,
   * before any call for a later repository.
   */
  lemma RepoCallsFirst(title: string, repos: seq<Item>, finalize: bool, acc: seq<Call>)
    requires RepoCalls(title, repos, finalize, acc).Ok? && repos != []
    ensures repos[0].key.Some? && repos[0].value.List?
    ensures forall i :: 0 <= i < |repos[0].value.items| ==> repos[0].value.items[i].Mapping?
    ensures acc + GeneratesFor(title, repos[0].key.value, repos[0].value.items)
      + (if finalize then [Finalize(title, repos[0].key.value)] else [])
      <= RepoCalls(title, repos, finalize, acc).value
  {
    var repo, jobs := repos[0].key.value, repos[0].value.items;
    JobCallsSpec(title, repo, jobs, acc);
    var acc1 := JobCalls(title, repo, jobs, acc).value;
    RepoCallsExtends(title, repos[1..], finalize, if finalize then acc1 + [Finalize(title, repo)] else acc1);
  }

  /** The walk only ever appends to the calls already made. */
  lemma {:induction false} RepoCallsExtends(title: string, repos: seq<Item>, finalize: bool, acc: seq<Call>)
    requires RepoCalls(title, repos, finalize, acc).Ok?
    ensures acc <= RepoCalls(title, repos, finalize, acc).value
  {
    if repos != [] {
      var repo, jobs := repos[0].key.value, repos[0].value.items;
      JobCallsSpec(title, repo, jobs, acc);
      var acc1 := JobCalls(title, repo, jobs, acc).value;
      RepoCallsExtends(title, repos[1..], finalize, if finalize then acc1 + [Finalize(title, repo)] else acc1);
    }
  }

  /**
   * The whole walk: one generator call per job entry of every section titled `title`, one finalizer
   * call per repository of those sections (in input order) when a finalizer is given, and every
   * call for that title.
   */
  lemma {:induction false} SectionCallsCounts(config: seq<Item>, title: string, finalize: bool, acc: seq<Call>)
    requires SectionCalls(config, title, finalize, acc).Ok?
    ensures GenerateCount(SectionCalls(config, title, finalize, acc).value)
      == GenerateCount(acc) + SectionJobCount(config, title)
    ensures Finalized(SectionCalls(config, title, finalize, acc).value)
      == Finalized(acc) + (if finalize then SectionRepoNames(config, title) else [])
    ensures Titled(acc, title) ==> Titled(SectionCalls(config, title, finalize, acc).value, title)
  {
    if config != [] {
      if config[0].key != Some(title) {
        SectionCallsCounts(config[1..], title, finalize, acc);
      } else {
        var repos := config[0].value.entries;
        RepoCallsCounts(title, repos, finalize, acc);
        SectionCallsCounts(config[1..], title, finalize, RepoCalls(title, repos, finalize, acc).value);
      }
    }
  }

  /** Sections with another title are never looked into: a document without `title` makes no call. */
  lemma {:induction false} SectionCallsNoTitle(config: seq<Item>, title: string, finalize: bool, acc: seq<Call>)
    requires forall i :: 0 <= i < |config| ==> config[i].key != Some(title)
    ensures SectionCalls(config, title, finalize, acc) == Ok(acc)
  {
    if config != [] {
      SectionCallsNoTitle(config[1..], title, finalize, acc);
    }
  }

  /** Sections with the title are walked in document order: the walk of `a + b` continues from that of `a`. */
  lemma {:induction false} SectionCallsAppend(a: seq<Item>, b: seq<Item>, title: string, finalize: bool, acc: seq<Call>)
    ensures SectionCalls(a, title, finalize, acc).Err? ==>
      SectionCalls(a + b, title, finalize, acc) == SectionCalls(a, title, finalize, acc)
    ensures SectionCalls(a, title, finalize, acc).Ok? ==>
      SectionCalls(a + b, title, finalize, acc) == SectionCalls(b, title, finalize, SectionCalls(a, title, finalize, acc).value)
  {
    if a == [] {
      assert a + b == b;
    } else {
      assert (a + b)[0] == a[0] && (a + b)[1..] == a[1..] + b;
      if a[0].key != Some(title) {
        SectionCallsAppend(a[1..], b, title, finalize, acc);
      } else if a[0].value.Mapping? && RepoCalls(title, a[0].value.entries, finalize, acc).Ok? {
        SectionCallsAppend(a[1..], b, title, finalize, RepoCalls(title, a[0].value.entries, finalize, acc).value);
      }
    }
  }

  /** `parseSection`'s inner loop over the job entries of one repository. */
  method WalkJobs(title: string, repo: string, jobs: seq<Node>, calls: seq<Call>) returns (r: Res<seq<Call>>)
    ensures r == JobCalls(title, repo, jobs, calls)
  {
    var acc := calls;
    var i := 0;
    while i < |jobs|
      invariant 0 <= i <= |jobs|
      invariant JobCalls(title, repo, jobs, calls) == JobCalls(title, repo, jobs[i..], acc)
    {
      assert jobs[i..][0] == jobs[i] && jobs[i..][1..] == jobs[i + 1..];
      var job := GetMapSlice(jobs[i]);
      if job.Err? {
        return Err(job.error);
      }
      acc := acc + [Generate(title, repo, job.value)];
      i := i + 1;
    }
    return Ok(acc);
  }

  /** `parseSection`'s loop over the repositories of one section. */
  method WalkRepos(title: string, repos: seq<Item>, finalize: bool, calls: seq<Call>) returns (r: Res<seq<Call>>)
    ensures r == RepoCalls(title, repos, finalize, calls)
  {
    var acc := calls;
    var i := 0;
    while i < |repos|
      invariant 0 <= i <= |repos|
      invariant RepoCalls(title, repos, finalize, calls) == RepoCalls(title, repos[i..], finalize, acc)
    {
      assert repos[i..][0] == repos[i] && repos[i..][1..] == repos[i + 1..];
      var repo := GetKeyString(repos[i].key);
      if repo.Err? {
        return Err(repo.error);
      }
      var jobs := GetInterfaceArray(repos[i].value);
      if jobs.Err? {
        return Err(jobs.error);
      }
      var walked := WalkJobs(title, repo.value, jobs.value, acc);
      if walked.Err? {
        return walked;
      }
      acc := walked.value;
      if finalize {
        acc := acc + [Finalize(title, repo.value)];
      }
      i := i + 1;
    }
    return Ok(acc);
  }

  /** `parseSection`: the calls it makes for the sections titled `title`, or the fatal error. */
  method ParseSection(config: seq<Item>, title: string, finalize: bool) returns (r: Res<seq<Call>>)
    ensures r == SectionCalls(config, title, finalize, [])
  {
    var calls: seq<Call> := [];
    var i := 0;
    while i < |config|
      invariant 0 <= i <= |config|
      invariant SectionCalls(config, title, finalize, []) == SectionCalls(config[i..], title, finalize, calls)
    {
      assert config[i..][0] == config[i] && config[i..][1..] == config[i + 1..];
      if config[i].key == Some(title) {
        var repos := GetMapSlice(config[i].value);
        if repos.Err? {
          return Err(repos.error);
        }
        var walked := WalkRepos(title, repos.value, finalize, calls);
        if walked.Err? {
          return walked;
        }
        calls := walked.value;
      }
      i := i + 1;
    }
    return Ok(calls);
  }

  // ---------------------------------------------------------------------------
  // parseJob

  /** `parseJob`: the entries of the first section named `jobName`; a missing section is fatal. */
  function ParseJob(config: seq<Item>, jobName: string): (r: Res<seq<Item>>)
    ensures r == Err(MissingSection(jobName)) <==> forall i :: 0 <= i < |config| ==> config[i].key != Some(jobName)
    ensures r.Ok? ==> exists i :: 0 <= i < |config| && config[i].key == Some(jobName) && config[i].value == Mapping(r.value)
  {
    assert forall i :: 0 < i < |config| ==> config[i] == config[1..][i - 1];
    if config == [] then Err(MissingSection(jobName))
    else if config[0].key == Some(jobName) then GetMapSlice(config[0].value)
    else ParseJob(config[1..], jobName)
  }

  /** Section `i` is the first one named `name`. */
  predicate FirstNamed(config: seq<Item>, i: nat, name: string) {
    i < |config| && config[i].key == Some(name) && forall j :: 0 <= j < i ==> config[j].key != Some(name)
  }

  /** The lookup reads the first section named `jobName`. */
  lemma {:induction false} ParseJobSpec(config: seq<Item>, jobName: string)
    ensures forall i: nat :: FirstNamed(config, i, jobName) ==> ParseJob(config, jobName) == GetMapSlice(config[i].value)
  {
    if config != [] && config[0].key != Some(jobName) {
      ParseJobSpec(config[1..], jobName);
      forall i: nat | FirstNamed(config, i, jobName)
        ensures ParseJob(config, jobName) == GetMapSlice(config[i].value)
      {
        FirstNamedTail(config, i, jobName);
      }
    }
  }

  /** The first section named `name`, when it is not the head, is the first one so named in the tail. */
  lemma FirstNamedTail(config: seq<Item>, i: nat, name: string)
    requires FirstNamed(config, i, name) && 0 < i
    ensures FirstNamed(config[1..], i - 1, name) && config[1..][i - 1] == config[i]
  {
    forall j | 0 <= j < i - 1
      ensures config[1..][j].key != Some(name)
    {
      assert config[1..][j] == config[j + 1];
    }
  }

  // ---------------------------------------------------------------------------
  // getProwConfigData

  /** The general Prow data (`prowConfigTemplateData`); the year is not part of this model. */
  datatype ProwConfig = ProwConfig(
    gcsBucket: string,
    presubmitLogsDir: string,
    logsDir: string,
    prowHost: string,
    testGridHost: string,
    gubernatorHost: string,
    testGridGcsBucket: string,
    tideRepos: seq<string>,
    managedRepos: seq<string>,
    managedOrgs: seq<string>,
    jobConfigPath: string,
    coreConfigPath: string,
    pluginConfigPath: string,
    testInfraRepo: string)

  /** The tide list and the test-infra repository gathered so far. */
  datatype Tide = Tide(repos: seq<string>, testInfra: string)

  function TideRepoScan(repos: seq<Item>, acc: Tide): Res<Tide> {
    if repos == [] then Ok(acc)
    else
      var name :- GetKeyString(repos[0].key);
      TideRepoScan(repos[1..], Tide(AppendIfUnique(acc.repos, name),
        if HasSuffix(name, "test-infra") then name else acc.testInfra))
  }

  /** What `getProwConfigData` gathers from every `presubmits` section, before sorting. */
  function TideScan(config: seq<Item>, acc: Tide): Res<Tide> {
    if config == [] then Ok(acc)
    else if config[0].key != Some("presubmits") then TideScan(config[1..], acc)
    else
      var repos :- GetMapSlice(config[0].value);
      var acc1 :- TideRepoScan(repos, acc);
      TideScan(config[1..], acc1)
  }

  /** Reference: the repository keys of every `presubmits` section, in document order. */
  function PresubmitKeys(config: seq<Item>): seq<string> {
    if config == [] then []
    else
      (if config[0].key == Some("presubmits") && config[0].value.Mapping? then RepoNames(config[0].value.entries) else [])
      + PresubmitKeys(config[1..])
  }

  /** The last name of `names` ending in `test-infra`, or `dflt` when there is none. */
  function LastTestInfra(names: seq<string>, dflt: string): (r: string)
    ensures r == dflt || (r in names && HasSuffix(r, "test-infra"))
  {
    if names == [] then dflt
    else
      var last := names[|names| - 1];
      if HasSuffix(last, "test-infra") then last else LastTestInfra(names[..|names| - 1], dflt)
  }

  lemma LastTestInfraAppend(a: seq<string>, b: seq<string>, dflt: string)
    ensures LastTestInfra(a + b, dflt) == LastTestInfra(b, LastTestInfra(a, dflt))
  {
    LastTestInfraAppendRec(a, b, dflt);
  }

  lemma {:induction false} LastTestInfraAppendRec(a: seq<string>, b: seq<string>, dflt: string)
    ensures LastTestInfra(a + b, dflt) == LastTestInfra(b, LastTestInfra(a, dflt))
  {
    if b == [] {
      assert a + b == a;
    } else {
      var front := b[..|b| - 1];
      assert (a + b)[..|a + b| - 1] == a + front;
      assert (a + b)[|a + b| - 1] == b[|b| - 1];
      LastTestInfraAppendRec(a, front, dflt);
    }
  }

  /** The set of a sequence's elements. */
  function Elements(s: seq<string>): set<string> {
    set x | x in s
  }

  lemma ElementsAppend(a: seq<string>, b: seq<string>)
    ensures Elements(a + b) == Elements(a) + Elements(b)
  {
  }

  /**
   * Scanning a section's repositories adds exactly their names to the tide list, never twice, and
   * keeps the last name ending in `test-infra`.
   */
  lemma {:induction false} TideRepoScanSpec(repos: seq<Item>, acc: Tide)
    requires TideRepoScan(repos, acc).Ok?
    ensures Elements(TideRepoScan(repos, acc).value.repos) == Elements(acc.repos) + Elements(RepoNames(repos))
    ensures NoDuplicates(acc.repos) ==> NoDuplicates(TideRepoScan(repos, acc).value.repos)
    ensures TideRepoScan(repos, acc).value.testInfra == LastTestInfra(RepoNames(repos), acc.testInfra)
  {
    if repos != [] {
      var name := repos[0].key.value;
      var acc1 := Tide(AppendIfUnique(acc.repos, name), if HasSuffix(name, "test-infra") then name else acc.testInfra);
      TideRepoScanSpec(repos[1..], acc1);
      assert RepoNames(repos) == [name] + RepoNames(repos[1..]);
      ElementsAppend([name], RepoNames(repos[1..]));
      LastTestInfraAppend([name], RepoNames(repos[1..]), acc.testInfra);
      assert LastTestInfra([name], acc.testInfra) == acc1.testInfra by {
        assert [name][..0] == [];
      }
    }
  }

  /** The same for the whole document: every presubmit repository key, each once, and the last test-infra one. */
  lemma TideScanSpec(config: seq<Item>, acc: Tide)
    requires TideScan(config, acc).Ok?
    ensures Elements(TideScan(config, acc).value.repos) == Elements(acc.repos) + Elements(PresubmitKeys(config))
    ensures NoDuplicates(acc.repos) ==> NoDuplicates(TideScan(config, acc).value.repos)
    ensures TideScan(config, acc).value.testInfra == LastTestInfra(PresubmitKeys(config), acc.testInfra)
  {
    TideScanElements(config, acc);
    if NoDuplicates(acc.repos) {
      TideScanNoDuplicates(config, acc);
    }
    TideScanTestInfra(config, acc);
  }

  lemma {:induction false} TideScanElements(config: seq<Item>, acc: Tide)
    requires TideScan(config, acc).Ok?
    ensures Elements(TideScan(config, acc).value.repos) == Elements(acc.repos) + Elements(PresubmitKeys(config))
  {
    if config != [] {
      var rest := PresubmitKeys(config[1..]);
      if config[0].key != Some("presubmits") {
        assert PresubmitKeys(config) == rest;
        TideScanElements(config[1..], acc);
      } else {
        var repos := config[0].value.entries;
        assert PresubmitKeys(config) == RepoNames(repos) + rest;
        TideRepoScanSpec(repos, acc);
        var acc1 := TideRepoScan(repos, acc).value;
        assert TideScan(config, acc) == TideScan(config[1..], acc1);
        TideScanElements(config[1..], acc1);
        ElementsAppend(RepoNames(repos), rest);
      }
    }
  }

  lemma {:induction false} TideScanNoDuplicates(config: seq<Item>, acc: Tide)
    requires TideScan(config, acc).Ok? && NoDuplicates(acc.repos)
    ensures NoDuplicates(TideScan(config, acc).value.repos)
  {
    if config != [] {
      if config[0].key != Some("presubmits") {
        TideScanNoDuplicates(config[1..], acc);
      } else {
        var repos := config[0].value.entries;
        TideRepoScanSpec(repos, acc);
        var acc1 := TideRepoScan(repos, acc).value;
        assert TideScan(config, acc) == TideScan(config[1..], acc1);
        TideScanNoDuplicates(config[1..], acc1);
      }
    }
  }

  lemma {:induction false} TideScanTestInfra(config: seq<Item>, acc: Tide)
    requires TideScan(config, acc).Ok?
    ensures TideScan(config, acc).value.testInfra == LastTestInfra(PresubmitKeys(config), acc.testInfra)
  {
    if config != [] {
      var rest := PresubmitKeys(config[1..]);
      if config[0].key != Some("presubmits") {
        assert PresubmitKeys(config) == rest;
        TideScanTestInfra(config[1..], acc);
      } else {
        var repos := config[0].value.entries;
        assert PresubmitKeys(config) == RepoNames(repos) + rest;
        TideRepoScanSpec(repos, acc);
        var acc1 := TideRepoScan(repos, acc).value;
        assert TideScan(config, acc) == TideScan(config[1..], acc1);
        TideScanTestInfra(config[1..], acc1);
        LastTestInfraAppend(RepoNames(repos), rest, acc.testInfra);
      }
    }
  }

  /** `getProwConfigData`: the data after the scan, the tide list sorted. */
  function ProwConfigOf(flags: Flags, config: seq<Item>): (r: Res<ProwConfig>)
    ensures r.Ok? <==> TideScan(config, Tide([], "")).Ok?
    ensures r.Ok? ==> Sorted(r.value.tideRepos)
    ensures r.Ok? ==> multiset(r.value.tideRepos) == multiset(TideScan(config, Tide([], "")).value.repos)
    ensures r.Ok? ==> r.value.gcsBucket == flags.gcsBucket && r.value.logsDir == flags.logsDir
    ensures r.Ok? ==> r.value.presubmitLogsDir == flags.presubmitLogsDir
    ensures r.Ok? ==> r.value.prowHost == flags.prowHost && r.value.testGridHost == flags.testGridHost
    ensures r.Ok? ==> r.value.gubernatorHost == flags.gubernatorHost && r.value.testGridGcsBucket == flags.testGridGcsBucket
    ensures r.Ok? ==> r.value.managedRepos == [] && r.value.managedOrgs == []
  {
    var tide :- TideScan(config, Tide([], ""));
    Ok(ProwConfig(flags.gcsBucket, flags.presubmitLogsDir, flags.logsDir, flags.prowHost, flags.testGridHost,
      flags.gubernatorHost, flags.testGridGcsBucket, SortStrings(tide.repos), [], [], "", "", "",
      tide.testInfra))
  }

  lemma {:induction false} CountAtMostOne(s: seq<string>, x: string)
    requires NoDuplicates(s)
    ensures multiset(s)[x] <= 1
  {
    if s != [] {
      assert s == [s[0]] + s[1..];
      CountAtMostOne(s[1..], x);
      if s[0] == x {
        assert x !in s[1..] by {
          forall k | 0 <= k < |s[1..]| ensures s[1..][k] != x {
            assert s[1..][k] == s[k + 1];
          }
        }
      }
    }
  }

  lemma CountTwo(s: seq<string>, i: nat, j: nat)
    requires i < j < |s| && s[i] == s[j]
    ensures multiset(s)[s[i]] >= 2
  {
    assert s == s[..i] + [s[i]] + s[i + 1..j] + [s[j]] + s[j + 1..];
  }

  /** Sorting keeps a list free of duplicates. */
  lemma SortStringsNoDuplicates(s: seq<string>)
    requires NoDuplicates(s)
    ensures NoDuplicates(SortStrings(s))
  {
    var r := SortStrings(s);
    forall i, j | 0 <= i < j < |r| ensures r[i] != r[j] {
      if r[i] == r[j] {
        CountTwo(r, i, j);
        CountAtMostOne(s, r[i]);
      }
    }
  }

  /**
   * The tide list is sorted, free of duplicates, and holds exactly the repository keys of the
   * presubmit sections; the test-infra repository is the last such key ending in `test-infra`,
   * or empty.
   */
  lemma ProwConfigTide(flags: Flags, config: seq<Item>)
    requires ProwConfigOf(flags, config).Ok?
    ensures Sorted(ProwConfigOf(flags, config).value.tideRepos)
    ensures NoDuplicates(ProwConfigOf(flags, config).value.tideRepos)
    ensures Elements(ProwConfigOf(flags, config).value.tideRepos) == Elements(PresubmitKeys(config))
    ensures ProwConfigOf(flags, config).value.testInfraRepo == LastTestInfra(PresubmitKeys(config), "")
  {
    var tide := TideScan(config, Tide([], "")).value;
    TideScanSpec(config, Tide([], ""));
    SortStringsNoDuplicates(tide.repos);
    var sorted := SortStrings(tide.repos);
    forall x ensures x in sorted <==> x in tide.repos {
      assert x in multiset(sorted) <==> x in multiset(tide.repos);
    }
  }

  /** `getProwConfigData`'s inner loop over the repositories of one presubmit section. */
  method ScanTideRepos(repos: seq<Item>, acc: Tide) returns (r: Res<Tide>)
    ensures r == TideRepoScan(repos, acc)
  {
    var tideRepos, testInfra := acc.repos, acc.testInfra;
    var i := 0;
    while i < |repos|
      invariant 0 <= i <= |repos|
      invariant TideRepoScan(repos, acc) == TideRepoScan(repos[i..], Tide(tideRepos, testInfra))
    {
      assert repos[i..][0] == repos[i] && repos[i..][1..] == repos[i + 1..];
      var name := GetKeyString(repos[i].key);
      if name.Err? {
        return Err(name.error);
      }
      tideRepos := AppendIfUnique(tideRepos, name.value);
      if HasSuffix(name.value, "test-infra") {
        testInfra := name.value;
      }
      i := i + 1;
    }
    return Ok(Tide(tideRepos, testInfra));
  }

  /** `getProwConfigData`. */
  method GetProwConfigData(flags: Flags, config: seq<Item>) returns (r: Res<ProwConfig>)
    ensures r == ProwConfigOf(flags, config)
  {
    var tide := Tide([], "");
    var i := 0;
    while i < |config|
      invariant 0 <= i <= |config|
      invariant TideScan(config, Tide([], "")) == TideScan(config[i..], tide)
    {
      assert config[i..][0] == config[i] && config[i..][1..] == config[i + 1..];
      if config[i].key == Some("presubmits") {
        var repos := GetMapSlice(config[i].value);
        if repos.Err? {
          return Err(repos.error);
        }
        var scanned := ScanTideRepos(repos.value, tide);
        if scanned.Err? {
          return Err(scanned.error);
        }
        tide := scanned.value;
      }
      i := i + 1;
    }
    return Ok(ProwConfig(flags.gcsBucket, flags.presubmitLogsDir, flags.logsDir, flags.prowHost, flags.testGridHost,
      flags.gubernatorHost, flags.testGridGcsBucket, SortStrings(tide.repos), [], [], "", "", "",
      tide.testInfra));
  }
}
