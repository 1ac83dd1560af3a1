/**
 * The dashboard metadata gathered for the Testgrid configuration: which repositories have the
 * go-coverage check (`parseGoCoverageMap`), and which job tags every repository has in which
 * project bucket (`collectMetaData`, `updateTestCoverageJobDataIfNeeded`,
 * `addRemainingTestCoverageJobs`).
 *
 * The metadata store is defined outside the generator. It is modelled as a map from project
 * bucket to repository to set of tags: looking a bucket up creates it on demand and records its
 * name in `projNames`, and adding a tag is a set insert.
 */
module MetaData {
  import opened Wrappers
  import opened Yaml
  import opened Strings

  // ---------------------------------------------------------------------------
  // parseGoCoverageMap

  /** The repository part of an `org/repo` key; a key without `/` makes the generator panic. */
  function RepoPart(key: Option<string>): Res<string> {
    var raw :- GetKeyString(key);
    var parts := Split(raw, '/');
    if |parts| < 2 then Err(IndexOutOfRange) else Ok(parts[1])
  }

  /** The value of the first `go-coverage` entry of one job, if it has one. */
  function FirstCoverage(items: seq<Item>): (r: Option<Node>)
    ensures r.Some? <==> exists i :: 0 <= i < |items| && items[i].key == Some("go-coverage")
  {
    if items == [] then None
    else if items[0].key == Some("go-coverage") then Some(items[0].value)
    else
      assert forall i :: 0 < i < |items| ==> items[i] == items[1..][i - 1];
      FirstCoverage(items[1..])
  }

  /** One job's effect on its repository's flag: its first `go-coverage` entry, if any, must be a boolean and wins. */
  function JobCoverage(items: seq<Item>, current: bool): Res<bool> {
    var found := FirstCoverage(items);
    if found.None? then Ok(current) else GetBool(found.value)
  }

  /** The flag of one repository after its jobs, starting from `current`. */
  function RepoCoverage(jobs: seq<Node>, current: bool): Res<bool> {
    if jobs == [] then Ok(current)
    else
      var items :- GetMapSlice(jobs[0]);
      var flag :- JobCoverage(items, current);
      RepoCoverage(jobs[1..], flag)
  }

  /** What `parseGoCoverageMap` builds from the presubmit repositories, after `acc`. */
  function CoverageScan(repos: seq<Item>, acc: map<string, bool>): (r: Res<map<string, bool>>)
    ensures r.Ok? ==> acc.Keys <= r.value.Keys
  {
    if repos == [] then Ok(acc)
    else
      var name :- RepoPart(repos[0].key);
      var jobs :- GetInterfaceArray(repos[0].value);
      var flag :- RepoCoverage(jobs, false);
      CoverageScan(repos[1..], acc[name := flag])
  }

  /** Reference: the `go-coverage` value of the last job that has one. */
  function LastCoverage(jobs: seq<Node>): Option<Node> {
    if jobs == [] then None
    else
      var last := jobs[|jobs| - 1];
      if last.Mapping? && FirstCoverage(last.entries).Some? then FirstCoverage(last.entries)
      else LastCoverage(jobs[..|jobs| - 1])
  }

  lemma RepoCoverageSnoc(jobs: seq<Node>, job: Node, current: bool)
    ensures RepoCoverage(jobs + [job], current)
      == (var r := RepoCoverage(jobs, current); if r.Err? then r else
          var items :- GetMapSlice(job); JobCoverage(items, r.value))
  {
    RepoCoverageSnocRec(jobs, job, current);
  }

  lemma {:induction false} RepoCoverageSnocRec(jobs: seq<Node>, job: Node, current: bool)
    ensures RepoCoverage(jobs + [job], current)
      == (var r := RepoCoverage(jobs, current); if r.Err? then r else
          var items :- GetMapSlice(job); JobCoverage(items, r.value))
  {
    if jobs == [] {
      assert [job][1..] == [];
    } else {
      assert (jobs + [job])[0] == jobs[0] && (jobs + [job])[1..] == jobs[1..] + [job];
      if jobs[0].Mapping? && JobCoverage(jobs[0].entries, current).Ok? {
        RepoCoverageSnocRec(jobs[1..], job, JobCoverage(jobs[0].entries, current).value);
      }
    }
  }

  /**
   * A repository's flag is the `go-coverage` value of its last job that has one, or the starting
   * value when none has.
   */
  lemma {:induction false} RepoCoverageLast(jobs: seq<Node>, current: bool)
    requires RepoCoverage(jobs, current).Ok?
    ensures LastCoverage(jobs).None? ==> RepoCoverage(jobs, current).value == current
    ensures LastCoverage(jobs).Some? ==> LastCoverage(jobs).value == Bool(RepoCoverage(jobs, current).value)
  {
    if jobs != [] {
      var front, last := jobs[..|jobs| - 1], jobs[|jobs| - 1];
      assert jobs == front + [last];
      RepoCoverageSnoc(front, last, current);
      RepoCoverageLast(front, current);
    }
  }

  /** The map after one more repository. */
  function ExtendCoverage(m: map<string, bool>, repo: Item): Res<map<string, bool>> {
    var name :- RepoPart(repo.key);
    var jobs :- GetInterfaceArray(repo.value);
    var flag :- RepoCoverage(jobs, false);
    Ok(m[name := flag])
  }

  /**
   * `parseGoCoverageMap` records every repository it reads; an entry is the flag computed for the
   * last repository of that name, and an earlier one of the same name is overwritten.
   */
  lemma {:induction false} CoverageScanAppend(repos: seq<Item>, repo: Item, acc: map<string, bool>)
    ensures CoverageScan(repos, acc).Err? ==> CoverageScan(repos + [repo], acc) == CoverageScan(repos, acc)
    ensures CoverageScan(repos, acc).Ok? ==>
      CoverageScan(repos + [repo], acc) == ExtendCoverage(CoverageScan(repos, acc).value, repo)
  {
    if repos == [] {
      assert [repo][1..] == [];
    } else {
      assert (repos + [repo])[0] == repos[0] && (repos + [repo])[1..] == repos[1..] + [repo];
      var name := RepoPart(repos[0].key);
      if name.Ok? && repos[0].value.List? && RepoCoverage(repos[0].value.items, false).Ok? {
        CoverageScanAppend(repos[1..], repo, acc[name.value := RepoCoverage(repos[0].value.items, false).value]);
      }
    }
  }

  /** The names of the repositories, as far as they can be read. */
  function RepoParts(repos: seq<Item>): set<string> {
    set i | 0 <= i < |repos| && RepoPart(repos[i].key).Ok? :: RepoPart(repos[i].key).value
  }

  /** The keys of the map are exactly the names of the repositories read (and those already present). */
  lemma {:induction false} CoverageScanKeys(repos: seq<Item>, acc: map<string, bool>)
    requires CoverageScan(repos, acc).Ok?
    ensures CoverageScan(repos, acc).value.Keys == acc.Keys + RepoParts(repos)
  {
    if repos != [] {
      var name := RepoPart(repos[0].key).value;
      var flag := RepoCoverage(repos[0].value.items, false).value;
      CoverageScanKeys(repos[1..], acc[name := flag]);
      assert RepoParts(repos) == {name} + RepoParts(repos[1..]) by {
        forall x ensures x in RepoParts(repos) <==> x in {name} + RepoParts(repos[1..]) {
          if x in RepoParts(repos) {
            var i :| 0 <= i < |repos| && RepoPart(repos[i].key).Ok? && RepoPart(repos[i].key).value == x;
            if i > 0 {
              assert repos[1..][i - 1] == repos[i];
            }
          }
          if x in RepoParts(repos[1..]) {
            var i :| 0 <= i < |repos[1..]| && RepoPart(repos[1..][i].key).Ok? && RepoPart(repos[1..][i].key).value == x;
            assert repos[i + 1] == repos[1..][i];
          }
        }
      }
    }
  }

  /** `parseGoCoverageMap`'s innermost loop: the first `go-coverage` entry of one job. */
  method ScanJob(items: seq<Item>, current: bool) returns (r: Res<bool>)
    ensures r == JobCoverage(items, current)
  {
    var i := 0;
    while i < |items|
      invariant 0 <= i <= |items|
      invariant FirstCoverage(items) == FirstCoverage(items[i..])
    {
      assert items[i..][0] == items[i] && items[i..][1..] == items[i + 1..];
      if items[i].key == Some("go-coverage") {
        return GetBool(items[i].value);
      }
      i := i + 1;
    }
    return Ok(current);
  }

  /** `parseGoCoverageMap`'s loop over the jobs of one repository. */
  method ScanRepo(jobs: seq<Node>) returns (r: Res<bool>)
    ensures r == RepoCoverage(jobs, false)
  {
    var flag := false;
    var i := 0;
    while i < |jobs|
      invariant 0 <= i <= |jobs|
      invariant RepoCoverage(jobs, false) == RepoCoverage(jobs[i..], flag)
    {
      assert jobs[i..][0] == jobs[i] && jobs[i..][1..] == jobs[i + 1..];
      var items := GetMapSlice(jobs[i]);
      if items.Err? {
        return Err(items.error);
      }
      var scanned := ScanJob(items.value, flag);
      if scanned.Err? {
        return scanned;
      }
      flag := scanned.value;
      i := i + 1;
    }
    return Ok(flag);
  }

  /** `parseGoCoverageMap`. */
  method ParseGoCoverageMap(presubmitJob: seq<Item>) returns (r: Res<map<string, bool>>)
    ensures r == CoverageScan(presubmitJob, map[])
  {
    var goCoverageMap: map<string, bool> := map[];
    var i := 0;
    while i < |presubmitJob|
      invariant 0 <= i <= |presubmitJob|
      invariant CoverageScan(presubmitJob, map[]) == CoverageScan(presubmitJob[i..], goCoverageMap)
    {
      assert presubmitJob[i..][0] == presubmitJob[i] && presubmitJob[i..][1..] == presubmitJob[i + 1..];
      var name := RepoPart(presubmitJob[i].key);
      if name.Err? {
        return Err(name.error);
      }
      var jobs := GetInterfaceArray(presubmitJob[i].value);
      if jobs.Err? {
        return Err(jobs.error);
      }
      var flag := ScanRepo(jobs.value);
      if flag.Err? {
        return Err(flag.error);
      }
      goCoverageMap := goCoverageMap[name.value := flag.value];
      i := i + 1;
    }
    return Ok(goCoverageMap);
  }

  // ---------------------------------------------------------------------------
  // Classifying one periodic job

  /** The six boolean keys that enable a job under their own name. */
  const JobTypes: set<string> := {"continuous", "dot-release", "auto-release", "performance", "nightly", "webhook-apicoverage"}

  /** What the scan of one job's entries has found so far. */
  datatype JobClass = JobClass(enabled: bool, jobName: string, releaseVersion: string)

  const Unclassified: JobClass := JobClass(false, "", "")

  /** The effect of one entry on the classification; entries with other keys are ignored. */
  function ClassifyItem(acc: JobClass, item: Item): Res<JobClass> {
    if item.key.None? then Ok(acc)
    else
      var k := item.key.value;
      if k in JobTypes then
        var on :- GetBool(item.value);
        Ok(if on then acc.(enabled := true, jobName := k) else acc)
      else if k == "branch-ci" then
        var on :- GetBool(item.value);
        Ok(acc.(enabled := on, jobName := "continuous"))
      else if k == "release" then
        var version :- GetString(item.value);
        Ok(acc.(releaseVersion := version))
      else if k == "custom-job" then
        var name :- GetString(item.value);
        Ok(acc.(enabled := true, jobName := name))
      else Ok(acc)
  }

  /** The classification of one job's entries, from `acc`. */
  function Classify(items: seq<Item>, acc: JobClass): (r: Res<JobClass>)
    ensures r.Ok? && r.value.enabled ==> acc.enabled || exists i :: 0 <= i < |items| && Decides(items[i])
    ensures r.Ok? && r.value.releaseVersion != acc.releaseVersion ==>
      exists i :: 0 <= i < |items| && items[i].key == Some("release")
  {
    if items == [] then Ok(acc)
    else
      assert forall i :: 0 < i < |items| ==> items[i] == items[1..][i - 1];
      var acc1 :- ClassifyItem(acc, items[0]);
      Classify(items[1..], acc1)
  }

  /** An entry that decides whether the job is enabled and under which tag. */
  predicate Decides(item: Item) {
    item.key.Some? &&
    (item.key.value == "branch-ci" || item.key.value == "custom-job"
     || (item.key.value in JobTypes && item.value == Bool(true)))
  }

  /** The tag a deciding entry gives: `continuous` for `branch-ci`, the value for `custom-job`, else the key. */
  function TagOf(item: Item): string
    requires Decides(item)
  {
    if item.key.value == "branch-ci" then "continuous"
    else if item.key.value == "custom-job" then (if item.value.Str? then item.value.s else "")
    else item.key.value
  }

  /** Whether a deciding entry enables the job: all do except a false `branch-ci`. */
  predicate EnablesBy(item: Item)
    requires Decides(item)
  {
    item.key.value != "branch-ci" || item.value == Bool(true)
  }

  /** The position of the last deciding entry. */
  function LastDecider(items: seq<Item>): (r: Option<nat>)
    ensures r.None? ==> forall j :: 0 <= j < |items| ==> !Decides(items[j])
    ensures r.Some? ==>
      (r.value < |items| && Decides(items[r.value]) && forall j :: r.value < j < |items| ==> !Decides(items[j]))
  {
    if items == [] then None
    else
      assert forall j :: 0 < j < |items| ==> items[j] == items[1..][j - 1];
      var rest := LastDecider(items[1..]);
      if rest.Some? then Some(rest.value + 1)
      else if Decides(items[0]) then Some(0)
      else None
  }

  /** The position of the last `release` entry. */
  function LastRelease(items: seq<Item>): (r: Option<nat>)
    ensures r.None? ==> forall j :: 0 <= j < |items| ==> items[j].key != Some("release")
    ensures r.Some? ==>
      (r.value < |items| && items[r.value].key == Some("release")
       && forall j :: r.value < j < |items| ==> items[j].key != Some("release"))
  {
    if items == [] then None
    else
      assert forall j :: 0 < j < |items| ==> items[j] == items[1..][j - 1];
      var rest := LastRelease(items[1..]);
      if rest.Some? then Some(rest.value + 1)
      else if items[0].key == Some("release") then Some(0)
      else None
  }

  lemma ClassifyItemSpec(acc: JobClass, item: Item)
    requires ClassifyItem(acc, item).Ok?
    ensures Decides(item) ==>
      (ClassifyItem(acc, item).value.enabled == EnablesBy(item) && ClassifyItem(acc, item).value.jobName == TagOf(item))
    ensures !Decides(item) ==>
      (ClassifyItem(acc, item).value.enabled == acc.enabled && ClassifyItem(acc, item).value.jobName == acc.jobName)
    ensures item.key == Some("release") ==> item.value.Str? && ClassifyItem(acc, item).value.releaseVersion == item.value.s
    ensures item.key != Some("release") ==> ClassifyItem(acc, item).value.releaseVersion == acc.releaseVersion
  {
  }

  /**
   * The classification of a job: enabled and tagged as its last deciding entry says (unchanged
   * when there is none), and with the version of its last `release` entry (unchanged when none).
   */
  lemma {:induction false} ClassifySpec(items: seq<Item>, acc: JobClass)
    requires Classify(items, acc).Ok?
    ensures var r := Classify(items, acc).value; var d := LastDecider(items);
      if d.None? then r.enabled == acc.enabled && r.jobName == acc.jobName
      else r.enabled == EnablesBy(items[d.value]) && r.jobName == TagOf(items[d.value])
    ensures var r := Classify(items, acc).value; var v := LastRelease(items);
      if v.None? then r.releaseVersion == acc.releaseVersion
      else items[v.value].value.Str? && r.releaseVersion == items[v.value].value.s
  {
    if items != [] {
      ClassifyItemSpec(acc, items[0]);
      var acc1 := ClassifyItem(acc, items[0]).value;
      ClassifySpec(items[1..], acc1);
      assert forall j :: 0 < j < |items| ==> items[j] == items[1..][j - 1];
    }
  }

  // ---------------------------------------------------------------------------
  // The metadata store and its updates

  /** The state `collectMetaData` works on: the metadata store and what is left of the go-coverage map. */
  datatype Meta = Meta(
    md: map<string, map<string, set<string>>>,
    projNames: seq<string>,
    goCoverage: map<string, bool>)

  /** The repositories of one bucket; an absent bucket is empty. */
  function Bucket(m: Meta, proj: string): map<string, set<string>> {
    if proj in m.md then m.md[proj] else map[]
  }

  /** The tags of one repository in one bucket. */
  function Tags(m: Meta, proj: string, repo: string): set<string> {
    var b := Bucket(m, proj);
    if repo in b then b[repo] else {}
  }

  /** `metaData.Get(proj)`: the bucket exists afterwards; a new one is recorded in `projNames`. */
  function WithProject(m: Meta, proj: string): Meta {
    if proj in m.md then m else m.(md := m.md[proj := map[]], projNames := m.projNames + [proj])
  }

  /** `metaData.EnsureRepo(proj, repo)`: the repository is listed in the bucket, with its tags kept. */
  function WithRepo(m: Meta, proj: string, repo: string): Meta {
    var b := Bucket(m, proj);
    m.(md := m.md[proj := if repo in b then b else b[repo := {}]])
  }

  /** `Add(repo, tag)` on bucket `proj`: a set insert. */
  function WithTag(m: Meta, proj: string, repo: string, tag: string): Meta {
    m.(md := m.md[proj := Bucket(m, proj)[repo := Tags(m, proj, repo) + {tag}]])
  }

  /** Looking a bucket up creates it if needed and changes no tags, no coverage entry, no earlier name. */
  lemma WithProjectSpec(m: Meta, proj: string)
    ensures proj in WithProject(m, proj).md
    ensures forall p, r :: Tags(WithProject(m, proj), p, r) == Tags(m, p, r)
    ensures WithProject(m, proj).goCoverage == m.goCoverage
    ensures m.projNames <= WithProject(m, proj).projNames
    ensures proj !in m.md ==> WithProject(m, proj).projNames == m.projNames + [proj]
  {
  }

  /** Adding a tag adds it to that repository of that bucket and nowhere else. */
  lemma WithTagSpec(m: Meta, proj: string, repo: string, tag: string)
    ensures forall p, r ::
      Tags(WithTag(m, proj, repo, tag), p, r) == Tags(m, p, r) + (if p == proj && r == repo then {tag} else {})
    ensures WithTag(m, proj, repo, tag).goCoverage == m.goCoverage
    ensures WithTag(m, proj, repo, tag).projNames == m.projNames
  {
  }

  /** `updateTestCoverageJobDataIfNeeded(bucket, repo)`. */
  function WithCoverageUpdate(m: Meta, bucket: string, repo: string): (r: Meta)
    ensures !(repo in r.goCoverage && r.goCoverage[repo])
    ensures r.projNames == m.projNames
  {
    if repo in m.goCoverage && m.goCoverage[repo] then
      var m1 := WithTag(m, bucket, repo, "test-coverage");
      m1.(goCoverage := m1.goCoverage - {repo})
    else m
  }

  /** A covered repository gets `test-coverage` and leaves the map; any other repository changes nothing. */
  lemma WithCoverageUpdateSpec(m: Meta, bucket: string, repo: string)
    ensures var m1 := WithCoverageUpdate(m, bucket, repo);
      !(repo in m1.goCoverage && m1.goCoverage[repo])
      && (forall r :: r in m1.goCoverage ==> r in m.goCoverage && m1.goCoverage[r] == m.goCoverage[r])
      && (forall r :: r != repo && r in m.goCoverage ==> r in m1.goCoverage)
    ensures var covered := repo in m.goCoverage && m.goCoverage[repo];
      forall p, r :: Tags(WithCoverageUpdate(m, bucket, repo), p, r)
        == Tags(m, p, r) + (if covered && p == bucket && r == repo then {"test-coverage"} else {})
  {
    WithTagSpec(m, bucket, repo, "test-coverage");
  }

  /** The bucket a job's tag goes into: `<org>-<release>` for a release job, `<org>` otherwise. */
  function BucketFor(proj: string, releaseVersion: string): string {
    if releaseVersion != "" then proj + "-" + releaseVersion else proj
  }

  /** The state after one job, and the bucket the generator's `jobDetailMap` then refers to. */
  datatype Walk = Walk(meta: Meta, bucket: string)

  /** One job of a periodic repository. */
  function CollectedJob(m: Meta, proj: string, repo: string, conf: Node): (r: Res<Walk>)
    ensures r.Ok? ==> r.value.meta.goCoverage == m.goCoverage
    ensures r.Ok? ==> proj in r.value.meta.md && r.value.bucket in r.value.meta.md
    ensures r.Ok? ==> m.projNames <= r.value.meta.projNames
  {
    var m1 := WithProject(m, proj);
    var items :- GetMapSlice(conf);
    var cls :- Classify(items, Unclassified);
    if cls.enabled then
      var bucket := BucketFor(proj, cls.releaseVersion);
      Ok(Walk(WithTag(WithProject(m1, bucket), bucket, repo, cls.jobName), bucket))
    else Ok(Walk(m1, proj))
  }

  /** The jobs of one periodic repository, in order; `bucket` is the bucket the last job left. */
  function CollectedJobs(m: Meta, proj: string, repo: string, confs: seq<Node>, bucket: string): Res<Walk>
    decreases |confs|
  {
    if confs == [] then Ok(Walk(m, bucket))
    else
      var w :- CollectedJob(m, proj, repo, confs[0]);
      CollectedJobs(w.meta, proj, repo, confs[1..], w.bucket)
  }

  /** The organization and repository parts of an `org/repo` key; a key without `/` panics. */
  function OrgAndRepo(key: Option<string>): Res<(string, string)> {
    var raw :- GetKeyString(key);
    var parts := Split(raw, '/');
    if |parts| < 2 then Err(IndexOutOfRange) else Ok((parts[0], parts[1]))
  }

  /**
   * Splitting succeeds exactly on a string key holding a `/`; the org is the
   * text before the first `/` and the repository the text up to the next one.
   */
  lemma OrgAndRepoSpec(key: Option<string>)
    ensures OrgAndRepo(key).Ok? <==> key.Some? && '/' in key.value
    ensures OrgAndRepo(key).Ok? ==>
              var (org, repo) := OrgAndRepo(key).value;
              '/' !in org && '/' !in repo
              && (key.value == org + "/" + repo || HasPrefix(key.value, org + "/" + repo + "/"))
  {
    if key.Some? && '/' in key.value {
      SplitFirstTwo(key.value, '/');
    }
  }

  /** One periodic repository: its jobs, then its coverage entry, in the bucket its last job left. */
  function CollectedRepo(m: Meta, item: Item): Res<Meta> {
    var names :- OrgAndRepo(item.key);
    var (proj, repo) := names;
    var m1 := WithRepo(WithProject(m, proj), proj, repo);
    var confs :- GetInterfaceArray(item.value);
    var w :- CollectedJobs(m1, proj, repo, confs, proj);
    Ok(WithCoverageUpdate(w.meta, w.bucket, repo))
  }

  /** The loop of `collectMetaData` over the periodic repositories. */
  function CollectedRepos(m: Meta, periodics: seq<Item>): Res<Meta>
    decreases |periodics|
  {
    if periodics == [] then Ok(m)
    else
      var m1 :- CollectedRepo(m, periodics[0]);
      CollectedRepos(m1, periodics[1..])
  }

  /** The repositories still marked for coverage. */
  function Covered(m: Meta): set<string> {
    set r | r in m.goCoverage && m.goCoverage[r]
  }

  /** The bucket `b` with `tag` added to each repository of `repos`. */
  function TagAll(b: map<string, set<string>>, repos: set<string>, tag: string): map<string, set<string>> {
    map r | r in b.Keys + repos :: (if r in b then b[r] else {}) + (if r in repos then {tag} else {})
  }

  /** `Add(repo, tag)` on a bucket. */
  function AddTag(bucket: map<string, set<string>>, repo: string, tag: string): map<string, set<string>> {
    bucket[repo := (if repo in bucket then bucket[repo] else {}) + {tag}]
  }

  /** Tagging no repository leaves the bucket as it is. */
  lemma TagAllNone(b: map<string, set<string>>, tag: string)
    ensures TagAll(b, {}, tag) == b
  {
    var t := TagAll(b, {}, tag);
    assert t.Keys == b.Keys;
    forall x | x in t
      ensures t[x] == b[x]
    {
    }
  }

  /** Tagging one more repository is one more `Add`, whichever repository it is. */
  lemma TagAllStep(b: map<string, set<string>>, done: set<string>, tag: string, repo: string)
    ensures TagAll(b, done + {repo}, tag) == AddTag(TagAll(b, done, tag), repo, tag)
  {
    var lhs := TagAll(b, done + {repo}, tag);
    var rhs := AddTag(TagAll(b, done, tag), repo, tag);
    assert lhs.Keys == rhs.Keys;
    forall x | x in lhs
      ensures lhs[x] == rhs[x]
    {
    }
  }

  lemma TagAllSteps(b: map<string, set<string>>, tag: string)
    ensures forall done: set<string>, repo: string ::
              AddTag(TagAll(b, done, tag), repo, tag) == TagAll(b, done + {repo}, tag)
  {
    forall done: set<string>, repo: string
      ensures AddTag(TagAll(b, done, tag), repo, tag) == TagAll(b, done + {repo}, tag)
    {
      TagAllStep(b, done, tag, repo);
    }
  }

  /**
   * Walks `keys` in an arbitrary order, as a `range` over a Go map does, applying `step` to each.
   * When every step takes `f(done)` to `f(done + {k})`, the order does not matter and the result is `f(keys)`.
   */
  method ForEachKey<K, M>(keys: set<K>, init: M, step: (M, K) -> M, ghost f: set<K> -> M) returns (m: M)
    requires init == f({})
    requires forall done: set<K>, k: K :: step(f(done), k) == f(done + {k})
    ensures m == f(keys)
  {
    m := init;
    var todo := keys;
    ghost var done: set<K> := {};
    while todo != {}
      invariant todo + done == keys && todo !! done
      invariant m == f(done)
      decreases |todo|
    {
      var k :| k in todo;
      m := step(m, k);
      todo := todo - {k};
      done := done + {k};
    }
    assert done == keys;
  }

  /** `addRemainingTestCoverageJobs`: every repository still marked gets `test-coverage` in the first bucket. */
  function WithRemainingCoverage(m: Meta): (r: Res<Meta>)
    ensures r.Err? <==> Covered(m) != {} && |m.projNames| == 0
    ensures r.Ok? ==> r.value.goCoverage == m.goCoverage && m.projNames <= r.value.projNames
  {
    if Covered(m) == {} then Ok(m)
    else if |m.projNames| == 0 then Err(IndexOutOfRange)
    else
      var first := m.projNames[0];
      var m1 := WithProject(m, first);
      Ok(m1.(md := m1.md[first := TagAll(Bucket(m1, first), Covered(m), "test-coverage")]))
  }

  /** `collectMetaData`. */
  function Collected(m: Meta, periodics: seq<Item>): (r: Res<Meta>)
    ensures r.Ok? ==> forall i :: 0 <= i < |periodics| ==> OrgAndRepo(periodics[i].key).Ok?
    ensures r.Ok? ==> forall repo :: repo in r.value.goCoverage ==>
      repo in m.goCoverage && r.value.goCoverage[repo] == m.goCoverage[repo]
  {
    var m1 :- CollectedRepos(m, periodics);
    CollectedReposCoverage(m, periodics);
    WithRemainingCoverage(m1)
  }

  /**
   * One job: when enabled it adds exactly its tag to its repository, in bucket `<org>-<release>`
   * for a job with a release version and `<org>` otherwise; a disabled job adds nothing. The
   * coverage map is left alone.
   */
  lemma CollectedJobSpec(m: Meta, proj: string, repo: string, conf: Node)
    requires CollectedJob(m, proj, repo, conf).Ok?
    ensures conf.Mapping? && Classify(conf.entries, Unclassified).Ok?
    ensures var cls := Classify(conf.entries, Unclassified).value;
      var w := CollectedJob(m, proj, repo, conf).value;
      w.bucket == (if cls.enabled then BucketFor(proj, cls.releaseVersion) else proj)
      && w.bucket in w.meta.md
      && w.meta.goCoverage == m.goCoverage
      && forall p, r ::
        Tags(w.meta, p, r) == Tags(m, p, r) + (if cls.enabled && p == w.bucket && r == repo then {cls.jobName} else {})
  {
    var m1 := WithProject(m, proj);
    WithProjectSpec(m, proj);
    var cls := Classify(conf.entries, Unclassified).value;
    if cls.enabled {
      var bucket := BucketFor(proj, cls.releaseVersion);
      WithProjectSpec(m1, bucket);
      WithTagSpec(WithProject(m1, bucket), bucket, repo, cls.jobName);
    }
  }

  /** The jobs of one repository never touch the coverage map, and the last bucket exists. */
  lemma {:induction false} CollectedJobsCoverage(m: Meta, proj: string, repo: string, confs: seq<Node>, bucket: string)
    requires CollectedJobs(m, proj, repo, confs, bucket).Ok?
    requires bucket in m.md
    ensures CollectedJobs(m, proj, repo, confs, bucket).value.meta.goCoverage == m.goCoverage
    ensures CollectedJobs(m, proj, repo, confs, bucket).value.bucket in CollectedJobs(m, proj, repo, confs, bucket).value.meta.md
    decreases |confs|
  {
    if confs != [] {
      CollectedJobSpec(m, proj, repo, confs[0]);
      var w := CollectedJob(m, proj, repo, confs[0]).value;
      CollectedJobsCoverage(w.meta, proj, repo, confs[1..], w.bucket);
    }
  }

  /**
   * After one periodic repository its coverage entry, if it was true, is gone, and the coverage
   * map has lost nothing else and gained nothing.
   */
  lemma CollectedRepoCoverage(m: Meta, item: Item)
    requires CollectedRepo(m, item).Ok?
    ensures var repo := OrgAndRepo(item.key).value.1;
      var c := CollectedRepo(m, item).value.goCoverage;
      !Marked(c, repo)
      && (forall r :: r in c ==> r in m.goCoverage && c[r] == m.goCoverage[r])
      && (forall r :: r != repo && r in m.goCoverage ==> r in c)
  {
    var (proj, repo) := OrgAndRepo(item.key).value;
    var m1 := WithRepo(WithProject(m, proj), proj, repo);
    CollectedJobsCoverage(m1, proj, repo, item.value.items, proj);
    var w := CollectedJobs(m1, proj, repo, item.value.items, proj).value;
    WithCoverageUpdateSpec(w.meta, w.bucket, repo);
  }

  /** `repo` is still marked for coverage in `c`. */
  predicate Marked(c: map<string, bool>, repo: string) {
    repo in c && c[repo]
  }

  /**
   * After the periodic repositories, none of them is still marked for coverage, and every entry
   * left is one of the original entries: the final sweep only adds repositories that no periodic
   * repository names.
   */
  lemma {:induction false} CollectedReposCoverage(m: Meta, periodics: seq<Item>)
    requires CollectedRepos(m, periodics).Ok?
    ensures forall i :: 0 <= i < |periodics| ==> OrgAndRepo(periodics[i].key).Ok?
    ensures var c := CollectedRepos(m, periodics).value.goCoverage;
      forall r :: r in c ==> r in m.goCoverage && c[r] == m.goCoverage[r]
    ensures var c := CollectedRepos(m, periodics).value.goCoverage;
      forall i :: 0 <= i < |periodics| ==> !Marked(c, OrgAndRepo(periodics[i].key).value.1)
    decreases |periodics|
  {
    if periodics != [] {
      CollectedRepoCoverage(m, periodics[0]);
      var m1 := CollectedRepo(m, periodics[0]).value;
      CollectedReposCoverage(m1, periodics[1..]);
      assert forall i :: 0 < i < |periodics| ==> periodics[i] == periodics[1..][i - 1];
    }
  }

  /**
   * The sweep tags exactly the repositories still marked, with `test-coverage`, in the first
   * bucket; with some marked and no bucket at all the generator panics.
   */
  lemma WithRemainingCoverageSpec(m: Meta)
    ensures Covered(m) != {} && |m.projNames| == 0 ==> WithRemainingCoverage(m) == Err(IndexOutOfRange)
    ensures Covered(m) != {} && |m.projNames| > 0 ==> WithRemainingCoverage(m).Ok?
    ensures Covered(m) != {} && |m.projNames| > 0 ==> forall p, r ::
      Tags(WithRemainingCoverage(m).value, p, r)
      == Tags(m, p, r) + (if p == m.projNames[0] && r in Covered(m) then {"test-coverage"} else {})
    ensures Covered(m) == {} ==> WithRemainingCoverage(m) == Ok(m)
  {
    if Covered(m) != {} && |m.projNames| > 0 {
      WithProjectSpec(m, m.projNames[0]);
    }
  }

  // ---------------------------------------------------------------------------
  // The generator's metadata state

  /** The globals `metaData` (its bucket map and `projNames`) and `goCoverageMap`. */
  class TestgridState {
    var md: map<string, map<string, set<string>>>
    var projNames: seq<string>
    var goCoverageMap: map<string, bool>

    function State(): Meta
      reads this
    {
      Meta(md, projNames, goCoverageMap)
    }

    constructor (goCoverage: map<string, bool>)
      ensures State() == Meta(map[], [], goCoverage)
    {
      md := map[];
      projNames := [];
      goCoverageMap := goCoverage;
    }

    /** `metaData.Get(proj)`. */
    method Get(proj: string)
      modifies this
      ensures State() == WithProject(old(State()), proj)
    {
      if proj !in md {
        md := md[proj := map[]];
        projNames := projNames + [proj];
      }
    }

    /** `metaData.EnsureRepo(proj, repo)`. */
    method EnsureRepo(proj: string, repo: string)
      modifies this
      ensures State() == WithRepo(old(State()), proj, repo)
    {
      var b := if proj in md then md[proj] else map[];
      if repo !in b {
        b := b[repo := {}];
      }
      md := md[proj := b];
    }

    /** `Add(repo, tag)` on the bucket `proj`. */
    method Add(proj: string, repo: string, tag: string)
      modifies this
      ensures State() == WithTag(old(State()), proj, repo, tag)
    {
      var b := if proj in md then md[proj] else map[];
      var tags := if repo in b then b[repo] else {};
      md := md[proj := b[repo := tags + {tag}]];
    }

    /** `updateTestCoverageJobDataIfNeeded`. */
    method UpdateTestCoverageJobDataIfNeeded(bucket: string, repo: string)
      modifies this
      ensures State() == WithCoverageUpdate(old(State()), bucket, repo)
    {
      if repo in goCoverageMap && goCoverageMap[repo] {
        Add(bucket, repo, "test-coverage");
        goCoverageMap := goCoverageMap - {repo};
      }
    }

    /** The body of `collectMetaData`'s job loop; returns the bucket `jobDetailMap` refers to afterwards. */
    method CollectJob(proj: string, repo: string, conf: Node) returns (r: Res<string>)
      modifies this
      ensures var w := CollectedJob(old(State()), proj, repo, conf);
        r.Ok? == w.Ok? && (r.Ok? ==> r.value == w.value.bucket && State() == w.value.meta)
    {
      Get(proj);
      var items := GetMapSlice(conf);
      if items.Err? {
        return Err(items.error);
      }
      var cls := ClassifyJob(items.value);
      if cls.Err? {
        return Err(cls.error);
      }
      var bucket := proj;
      if cls.value.enabled {
        if cls.value.releaseVersion != "" {
          bucket := proj + "-" + cls.value.releaseVersion;
          Get(bucket);
        }
        Add(bucket, repo, cls.value.jobName);
      }
      return Ok(bucket);
    }

    /** The body of `collectMetaData`'s repository loop. */
    method CollectRepo(item: Item) returns (ok: bool)
      modifies this
      ensures ok == CollectedRepo(old(State()), item).Ok?
      ensures ok ==> State() == CollectedRepo(old(State()), item).value
    {
      var names := OrgAndRepo(item.key);
      if names.Err? {
        return false;
      }
      var (proj, repo) := names.value;
      Get(proj);
      EnsureRepo(proj, repo);
      var confs := GetInterfaceArray(item.value);
      if confs.Err? {
        return false;
      }
      ghost var start := State();
      var bucket := proj;
      var i := 0;
      while i < |confs.value|
        invariant 0 <= i <= |confs.value|
        invariant CollectedJobs(start, proj, repo, confs.value, proj)
          == CollectedJobs(State(), proj, repo, confs.value[i..], bucket)
      {
        assert confs.value[i..][0] == confs.value[i] && confs.value[i..][1..] == confs.value[i + 1..];
        var b := CollectJob(proj, repo, confs.value[i]);
        if b.Err? {
          return false;
        }
        bucket := b.value;
        i := i + 1;
      }
      UpdateTestCoverageJobDataIfNeeded(bucket, repo);
      return true;
    }

    /** `addRemainingTestCoverageJobs`: the map is walked in no particular order. */
    method AddRemainingTestCoverageJobs() returns (ok: bool)
      modifies this
      ensures ok == WithRemainingCoverage(old(State())).Ok?
      ensures ok ==> State() == WithRemainingCoverage(old(State())).value
    {
      var todo := set r | r in goCoverageMap && goCoverageMap[r];
      assert todo == Covered(State());
      if todo == {} {
        return true;
      }
      if |projNames| == 0 {
        return false;
      }
      var first := projNames[0];
      Get(first);
      AddToEach(first, todo, "test-coverage");
      return true;
    }

    /** `Add(repo, tag)` on bucket `proj` for every repository of `repos`, in no particular order. */
    method AddToEach(proj: string, repos: set<string>, tag: string)
      requires proj in md
      modifies this
      ensures State() == old(State()).(md := old(md)[proj := TagAll(old(md[proj]), repos, tag)])
    {
      var bucket := md[proj];
      ghost var b0 := bucket;
      TagAllNone(b0, tag);
      TagAllSteps(b0, tag);
      bucket := ForEachKey(repos, bucket, (b, r) => AddTag(b, r, tag), done => TagAll(b0, done, tag));
      md := md[proj := bucket];
    }

    /** `collectMetaData`. */
    method CollectMetaData(periodicJob: seq<Item>) returns (ok: bool)
      modifies this
      ensures ok == Collected(old(State()), periodicJob).Ok?
      ensures ok ==> State() == Collected(old(State()), periodicJob).value
    {
      ghost var m0 := State();
      var i := 0;
      while i < |periodicJob|
        invariant 0 <= i <= |periodicJob|
        invariant CollectedRepos(m0, periodicJob) == CollectedRepos(State(), periodicJob[i..])
      {
        assert periodicJob[i..][0] == periodicJob[i] && periodicJob[i..][1..] == periodicJob[i + 1..];
        var repoOk := CollectRepo(periodicJob[i]);
        if !repoOk {
          return false;
        }
        i := i + 1;
      }
      ok := AddRemainingTestCoverageJobs();
    }
  }

  /** The classification loop over one job's entries. */
  method ClassifyJob(items: seq<Item>) returns (r: Res<JobClass>)
    ensures r == Classify(items, Unclassified)
  {
    var cls := Unclassified;
    var i := 0;
    while i < |items|
      invariant 0 <= i <= |items|
      invariant Classify(items, Unclassified) == Classify(items[i..], cls)
    {
      assert items[i..][0] == items[i] && items[i..][1..] == items[i + 1..];
      var next := ClassifyItem(cls, items[i]);
      if next.Err? {
        return next;
      }
      cls := next.value;
      i := i + 1;
    }
    return Ok(cls);
  }
}
