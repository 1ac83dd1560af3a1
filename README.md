# Knative Prow config generator: a Dafny model

`tools/config-generator/main.go` turns a compact YAML description of the Knative repositories
into the Prow job configuration and the Testgrid dashboard metadata. This project models the
core of that transformation and proves properties about it:

- **The job record** (`baseProwJobTemplateData`): its defaults (`newbaseProwJobTemplateData`),
  the helpers that append lines to it in place (environment variables, volumes, the service
  account secret, Docker-in-Docker, resources, reporter configuration, labels), and
  `parseBasicJobConfigOverrides`, which applies a job's override entries in order, knocks each
  processed entry out of the input and applies the global timeout override last
  (modules `JobData` and `JobBuilder`).
- **The section walk**: `parseSection`, described by the calls it makes into its generator and
  finalizer callbacks; `parseJob`; and `getProwConfigData`, which builds the sorted,
  duplicate-free tide repository list (module `Sections`).
- **Output bookkeeping**: the `outputter`, which drops blank lines, right-trims spaces and counts
  its writes, and `executeJobTemplate` with its `sectionMap`. As in the source, the section
  map is a set of strings: a title header is marked under the title, and a repository header
  under `title + repoName`. Beside it, a reference scheme with distinct keys proves when the two
  agree (module `Output`).
- **Dashboard metadata**: `parseGoCoverageMap`, `collectMetaData`,
  `updateTestCoverageJobDataIfNeeded` and `addRemainingTestCoverageJobs` over a metadata store
  modelled as a map from project bucket to repository to set of tags (module `MetaData`).
- **Release names**: the regular expression `.+-[0-9\.]+$` as a predicate, `isReleased`,
  `buildProjRepoStr` as written and corrected, and `parseOrgAndRepoFromMapItem`
  (modules `ReleaseNames` and `MetaData`).

The parsed YAML document is a `Yaml.Node` tree whose mappings are ordered sequences of
`Item(key: Option<string>, value: Node)`. A `None` key is the nil key of an entry that was
already consumed. Every `logFatalf` and every Go panic (an index out of range) becomes an
`Err` result or a `false` return. The flag globals are an immutable `JobData.Flags` record.
Stateful code is modelled with classes:

- `JobBuilder.JobTemplateData` is the mutable job record. The `repositories` global it updates
  is an `array<Repository>`, and the `config` slice that is knocked out is an `array<Item>`.
- `Output.Outputter` holds the written lines and the write count. `Output.JobEmitter` holds
  the outputter and the `sectionMap` strings already marked.
- `MetaData.TestgridState` holds `metaData` and `goCoverageMap`.

Each method with a loop is proved equal to a specification function over values. The
properties themselves are proved as lemmas about those functions.

Supporting modules: `Wrappers` holds the `Option` and `Result` types. `Strings` holds the Go
`strings`, `path` and `sort` functions the generator uses: `Split`, `SplitN(…, 2)`, `Replace`,
`TrimRight`, `TrimSpace`, `ToLower`, `path.Base`, `sort.Strings` and `appendIfUnique`, each with
its contract.

## Model

| member | source | states |
|---|---|---|
| JobData.NewBaseRecord | tools/config-generator/main.go:227-259 | timeout 50, always-run on, optional and monitoring off, no security context, branch `main`, empty command, args, env and volumes, bucket, image and service account from the flags; the org has no `/` and `org + "/" + name` rebuilds a repository holding `/` (an org-only name is both org and repository); a path alias `path_alias: knative.dev/<name>` exactly for orgs `knative`/`knative-sandbox` minus `knative/docs`; the job name is lower case without `/`, and for `org/name` it is `lower(org + "-" + name)`; the extra refs are the `- org:` and `  repo:` lines; the repository URI is `github.com/<repo>` and the clone URI its quoted `https://….git`; the release bucket is `knative-releases/<name>`; the log directories are `gs://<bucket>/<logs dir>` and `gs://<bucket>/<presubmit logs dir>`, the cluster is `cluster: "build-knative"`, and labels, annotations, skipped branches and branches are empty |
| JobData.OrgRepoSplit | tools/config-generator/main.go:230-231 | the org (text before the first `/`) has no `/`, and removing `org/` once leaves the rest so that `org + "/" + rest` is the repository; without `/` both are the whole string |
| JobData.RepoNamesOf | tools/config-generator/main.go:231-244 | replacing `org/` by `knative-releases/` gives `knative-releases/<name>`, and turning every `/` of `org/name` into `-` gives `org-name` when the name has no `/` |
| JobData.GitHubRepo | tools/config-generator/main.go:492-501 | a repository override is the reference as it is; otherwise the reference is the repository URI followed by `=<branch>` when the branch is non-empty, and by nothing otherwise |
| JobData.QuoteIfNum | tools/config-generator/main.go:284-288 | a non-numeric value is kept; a numeric one is wrapped in double quotes with the value unchanged inside |
| JobData.EnvLines | tools/config-generator/main.go:282-289 | two lines: `- name: <key>`, then `  value: <value>`, which holds the value as it is exactly when it is not numeric, and quoted otherwise |
| JobData.QuotedNotNum | tools/config-generator/main.go:284-288 | a value starting with a double quote is never numeric, so an already quoted value is not quoted again |
| JobData.CreateCommand | tools/config-generator/main.go:264-271 | the invocation has `|args| + 1` entries plus one for a non-empty pre-command, which then comes first; the command comes right before the args, which end the list unchanged and in order |
| JobData.GitHubRepoRoundTrip | tools/config-generator/main.go:492-501 | without a repository override, and with a URI holding no `=`, the reference splits back at its first `=` into the URI and, when the branch is non-empty, the branch |
| JobData.EntryLinesShape | tools/config-generator/main.go:336-341 | an entry with no `=` is fatal; otherwise it yields `- name: <before first =>` and `  value: <rest>`, the value quoted exactly when it is numeric, so the value may itself hold `=` |
| JobData.EntryLinesPair | tools/config-generator/main.go:336-338 | every accepted entry yields exactly two lines |
| JobData.ConcatLinesAccepts | tools/config-generator/main.go:335-342 | a loop that fails on the first rejected element succeeds exactly when every element is accepted |
| JobData.ConcatLinesPairs | tools/config-generator/main.go:335-342 | when every accepted element yields two lines, element `i`'s lines sit at positions `2i` and `2i+1` |
| JobData.ExtraEnvLinesAccepts | tools/config-generator/main.go:334-343 | `addExtraEnvVarsToJob` succeeds exactly when every entry contains `=` |
| JobData.ExtraEnvLinesLength | tools/config-generator/main.go:334-343 | on success the env vars add exactly two lines per entry |
| JobData.ExtraEnvLinesAt | tools/config-generator/main.go:334-343 | on success entry `i` contributes the name and value lines at positions `2i`, `2i+1`, in input order |
| JobData.EnvQuotingExamples | tools/config-generator/main.go:284-288 | a numeric value is quoted (`"8080"`), a non-numeric one (`true`, `foo`) is not |
| JobData.Indented | tools/config-generator/main.go:314-316 | every content line is prefixed by two spaces, one output line per input line |
| JobData.VolumeLinesAddOne | tools/config-generator/main.go:309-317 | the lines `addVolumeToJob` appends to the volumes declare exactly one volume (one `- name:` line) whatever the content |
| JobData.VolumeCountIndented | tools/config-generator/main.go:314-316 | indented content lines never declare a volume |
| JobData.WithServiceAccount | tools/config-generator/main.go:321-331 | an empty account keeps the record; the call fails exactly when the account is non-empty and not a well-formed path; on success only mounts and volumes change, and only by appending |
| JobData.ServiceAccountPathShape | tools/config-generator/main.go:325-329 | the path is accepted with name `n` exactly when it is `/etc/<n>/service-account.json` and `n` has no `/` |
| JobData.ServiceAccountPathOnlyIf | tools/config-generator/main.go:325-329 | an accepted path has that shape |
| JobData.ServiceAccountPathIf | tools/config-generator/main.go:325-329 | every path of that shape is accepted, with that name |
| JobData.ServiceAccountEffect | tools/config-generator/main.go:321-328 | an empty service account leaves the record unchanged; a non-empty one is fatal exactly when it does not have the shape `/etc/<name>/service-account.json` |
| JobData.ServiceAccountVolume | tools/config-generator/main.go:329-330 | an accepted account appends the three mount lines (`- name`, `mountPath: /etc/<name>`, `readOnly: true`) and the three secret volume lines (`- name`, `secret:`, `secretName`) |
| JobData.DockerInDockerEnv | tools/config-generator/main.go:352 | the Docker-in-Docker variable is added as `- name: DOCKER_IN_DOCKER_ENABLED`, `  value: "true"` |
| JobData.DockerInDockerVolumes | tools/config-generator/main.go:349-351 | Docker-in-Docker adds exactly three volumes |
| JobData.WithDockerInDocker | tools/config-generator/main.go:346-354 | the security context becomes `privileged: true`; volumes, mounts and env keep their old lines as a prefix; every other field is unchanged |
| JobData.ResourceEntryLines | tools/config-generator/main.go:361-363 | on success the pairs of one entry add exactly one line each after the lines so far |
| JobData.ResourceLines | tools/config-generator/main.go:357-365 | on success the resource lines so far stay a prefix, and each entry adds at least its header line |
| JobData.ReporterEntryLines | tools/config-generator/main.go:372-378 | on success the reporter lines so far stay a prefix, and each pair adds at most one line |
| JobData.ReporterLines | tools/config-generator/main.go:368-380 | on success the reporter lines so far stay a prefix, and each entry adds at least its header line |
| JobData.ResourceEntryLinesContents | tools/config-generator/main.go:361-363 | one kind's pairs are accepted exactly when every pair has a key and a string value, and then add exactly one `    key: value` line per pair, in order |
| JobData.ResourceLinesContents | tools/config-generator/main.go:357-365 | the resource lines are built exactly when every entry has a key and a mapping of such pairs, and are then exactly each entry's `  <kind>:` header followed by its pair lines, in input order |
| JobData.LastList | tools/config-generator/main.go:373-374 | the position of the last pair whose value is a list, or none |
| JobData.LastListAppend | tools/config-generator/main.go:373-374 | the last list over `a + b` is the last one in `b`, or else the last one in `a` |
| JobData.StatesAfterAppend | tools/config-generator/main.go:373-374 | the job states after pairs `a` and then `b` are those after `a + b`: the last list value wins |
| JobData.ReporterEntryLinesRejects | tools/config-generator/main.go:372-378 | one reporter entry fails when some pair is neither a list of strings nor a pair with a key and a string value |
| JobData.ReporterEntryLinesAccepted | tools/config-generator/main.go:372-378 | otherwise it succeeds, and every non-list pair adds its `    key: value` line in order while list pairs add none |
| JobData.ReporterEntryLinesStates | tools/config-generator/main.go:373-374 | and the job states become the strings of the last list value, or stay as they were when there is none |
| JobData.ReporterEntryLinesContents | tools/config-generator/main.go:372-378 | both directions: accepted exactly when every pair is, with those lines and those states |
| JobData.ReporterLinesRejects | tools/config-generator/main.go:368-380 | the reporter configuration fails when some entry has no key, is not a mapping or holds a pair that is not accepted |
| JobData.ReporterLinesAccepted | tools/config-generator/main.go:368-380 | otherwise it succeeds with each entry's `  <name>:` header followed by its non-list pair lines, in input order |
| JobData.ReporterLinesStates | tools/config-generator/main.go:368-380 | and the job states are the strings of the last list value over all entries' pairs, or the incoming ones when there is none |
| JobData.ReporterLinesContents | tools/config-generator/main.go:368-380 | both directions: `setReporterConfigReqForJob` succeeds exactly when every entry is accepted, with those lines and those job states |
| JobData.DockerInDockerEffect | tools/config-generator/main.go:346-354 | three volumes, six mount lines, the privileged security context and the env pair are added, and nothing else in the record changes |
| JobData.WithPerformance | tools/config-generator/main.go:407-412 | the repository list keeps its length and every repository's name |
| JobData.SetPerformanceCases | tools/config-generator/main.go:407-412 | a boolean value sets the flag on every repository whose base name is the job's repository; a non-boolean value is fatal exactly when some repository matches, and changes nothing when none does |
| JobData.KeyOf | tools/config-generator/main.go:388-425 | an entry name has a case of its own exactly when it is one of the 13 recognised names; `timeout` is the timeout case |
| JobData.ApplyOverride | tools/config-generator/main.go:388-427 | a nil key changes nothing; an unknown name fails with that name; only a `performance` entry touches the repositories, and it leaves the job record alone |
| JobData.ApplyOverrides | tools/config-generator/main.go:386-428 | a failure needs some entry with a non-nil key; without `performance` entries a successful walk keeps the repositories |
| JobData.ParseOverrides | tools/config-generator/main.go:385-434 | a failure needs some entry with a non-nil key; on success a positive timeout override is the final timeout |
| JobData.Knocked | tools/config-generator/main.go:426-427 | the knocked-out input has the same length and only nil keys |
| JobData.ApplyOverridesAppend | tools/config-generator/main.go:387-428 | applying `a + b` is applying `a` and then `b`, and a failure in `a` ends the walk |
| JobData.ListOverride | tools/config-generator/main.go:389-394 | a list entry (`skip_branches`, `branches`, `args`) is fatal unless its value is a list of strings, and otherwise replaces exactly its own field with that list |
| JobData.ApplyJobOverrideTimeout | tools/config-generator/main.go:395-396 | only a `timeout` entry changes the timeout, to its integer value |
| JobData.ApplyOverrideTimeout | tools/config-generator/main.go:387-427 | one entry of any kind (nil keys and `performance` included) leaves the timeout alone unless it is a `timeout` entry |
| JobData.ApplyOverridesTimeout | tools/config-generator/main.go:387-428 | after the walk the timeout is that of the last `timeout` entry, or the incoming one when there is none |
| JobData.FinalTimeout | tools/config-generator/main.go:430-433 | the final timeout is `timeoutOverride` whenever it is positive, whatever the entries say; otherwise the last `timeout` entry's value or the incoming value |
| JobData.UnknownEntryStops | tools/config-generator/main.go:423-424 | a non-nil key outside the 13 names makes the walk fail |
| JobData.UnknownEntryIsFatal | tools/config-generator/main.go:423-424 | so `parseBasicJobConfigOverrides` fails on any input holding such a key |
| JobData.KnockedAppliesNothing | tools/config-generator/main.go:421-427 | walking a knocked-out input changes nothing |
| JobData.SecondParseAppliesNothing | tools/config-generator/main.go:385-433 | a second call on the knocked-out input only appends another `base_ref` line and reapplies the timeout override |
| JobData.ApplyJobOverrideKeepsIdentity | tools/config-generator/main.go:388-425 | no override touches the org, repository, branch or service account |
| JobData.ApplyOverrideKeepsIdentity | tools/config-generator/main.go:388-425 | one entry also keeps the repository list's length and names |
| JobData.OverridesKeepIdentity | tools/config-generator/main.go:387-428 | the whole walk keeps the job's identity and the repository list's names |
| JobBuilder.JobTemplateData.constructor | tools/config-generator/main.go:227-259 | the new job object holds exactly the given record (the defaults built by `NewBaseRecord`) |
| JobBuilder.JobTemplateData.AddEnvToJob | tools/config-generator/main.go:282-289 | appends the name line and the value line (quoted when numeric) to the env lines; nothing else changes |
| JobBuilder.JobTemplateData.AddLabelToJob | tools/config-generator/main.go:292-294 | appends `key: value` to the labels; nothing else changes |
| JobBuilder.JobTemplateData.AddMonitoringPubsubLabelsToJob | tools/config-generator/main.go:297-301 | appends the pubsub project, topic and run-ID labels in this order; nothing else changes |
| JobBuilder.JobTemplateData.AddVolumeToJob | tools/config-generator/main.go:304-318 | appends the mount lines and the volume lines (`readOnly` and `secret` lines only for a secret, content indented) and changes nothing else |
| JobBuilder.VolumeBlocks | tools/config-generator/main.go:305-317 | computes exactly those mount and volume lines |
| JobBuilder.IndentLines | tools/config-generator/main.go:314-316 | the content loop yields the content indented by two spaces |
| JobBuilder.JobTemplateData.ConfigureServiceAccountForJob | tools/config-generator/main.go:321-331 | succeeds exactly when the account is empty or well-formed, and then leaves the record as the specification says (unchanged, or with the secret volume added) |
| JobBuilder.JobTemplateData.AddExtraEnvVarsToJob | tools/config-generator/main.go:334-343 | succeeds exactly when every entry has `=`, and then appends each entry's two lines in order after the earlier env lines, which stay unchanged |
| JobBuilder.ExtraEnvBlock | tools/config-generator/main.go:335-342 | the loop over the entries yields the env lines, or the error of the first entry without `=` |
| JobBuilder.JobTemplateData.SetupDockerInDockerForJob | tools/config-generator/main.go:346-354 | the record afterwards is the Docker-in-Docker record (three volumes, the env pair, the privileged context) |
| JobBuilder.JobTemplateData.SetResourcesReqForJob | tools/config-generator/main.go:357-365 | succeeds exactly when `ResourceLines` does and then replaces the resource lines with its result, changing nothing else; by `ResourceLinesContents` that is exactly when every entry is well typed, and the lines are a `  <kind>:` header per entry followed by its `    key: value` pairs |
| JobBuilder.ResourceBlock | tools/config-generator/main.go:359-364 | the outer loop yields those resource lines |
| JobBuilder.ResourceEntryBlock | tools/config-generator/main.go:361-363 | the inner loop appends one `    key: value` line per pair, failing on a non-string key or value |
| JobBuilder.JobTemplateData.SetReporterConfigReqForJob | tools/config-generator/main.go:368-380 | succeeds exactly when `ReporterLines` does from the old job states, and then sets the reporter lines and job states to its result, changing nothing else; by `ReporterLinesContents` the lines are each entry's header and non-list pairs, and a list value sets the job states (the last one wins) |
| JobBuilder.ReporterBlock | tools/config-generator/main.go:370-379 | the outer loop yields those reporter lines and job states |
| JobBuilder.ReporterEntryBlock | tools/config-generator/main.go:372-378 | the inner loop, with the list case and the line case |
| JobBuilder.JobTemplateData.ApplyListField | tools/config-generator/main.go:389-394 | `skip_branches`, `branches` and `args` replace their field with a list of strings, and are fatal on anything else |
| JobBuilder.JobTemplateData.ApplyScalarField | tools/config-generator/main.go:395-400 | `timeout` and `command` set their field from an integer or a string, and are fatal on any other type |
| JobBuilder.JobTemplateData.ApplyBoolField | tools/config-generator/main.go:399-416 | `needs-monitor`, `always-run` and `optional` set their flag from a boolean, and are fatal on any other type |
| JobBuilder.JobTemplateData.ApplyBlockField | tools/config-generator/main.go:401-420 | `needs-dind`, `env-vars`, `resources` and `reporter_config` call their helper with the coerced value |
| JobBuilder.SetRepoPerformance | tools/config-generator/main.go:407-412 | updates the repository array in place exactly as `SetPerformance` says, reading the value only when a repository matches, and fails where that read is fatal |
| JobBuilder.JobTemplateData.ApplyConfigItem | tools/config-generator/main.go:388-425 | one `switch` case: the record and the repository array become what `ApplyOverride` gives; a nil key changes nothing and an unknown key fails |
| JobBuilder.JobTemplateData.AddBaseRef | tools/config-generator/main.go:385 | appends the `  base_ref: <branch>` line to the extra refs; nothing else changes |
| JobBuilder.JobTemplateData.ApplyConfigItems | tools/config-generator/main.go:386-427 | the loop applies the entries in order as `ApplyOverrides` says, failing where it does, and on success every processed entry of `config` has been knocked out |
| JobBuilder.JobTemplateData.ParseBasicJobConfigOverrides | tools/config-generator/main.go:385-434 | record and repositories end as `ParseOverrides` says (base_ref line, entries in order, timeout override last), and on success every entry of `config` has been knocked out |
| Yaml.StringsOf | tools/config-generator/main.go:373-374 | a list converts exactly when every element is a string, element by element |
| Sections.GeneratesFor | tools/config-generator/main.go:479-481 | one generator call per job entry |
| Sections.JobCallsSpec | tools/config-generator/main.go:479-481 | a repository's jobs are walked exactly when each is a mapping, giving one generator call per job entry in input order |
| Sections.JobCallsCounts | tools/config-generator/main.go:479-481 | the generator is called once per job entry, the finalizer not at all, and all calls carry the section's title |
| Sections.GeneratesCounts | tools/config-generator/main.go:479-481 | the same counts, stated for the reference calls |
| Sections.RepoCallsCounts | tools/config-generator/main.go:477-485 | over a section's repositories: one generator call per job entry, one finalizer call per repository (in order) exactly when a finalizer is given |
| Sections.RepoCallsFirst | tools/config-generator/main.go:477-485 | the first repository's generator calls come first, in order, followed by its finalizer call |
| Sections.RepoCallsExtends | tools/config-generator/main.go:477-485 | the walk only appends calls |
| Sections.SectionCalls | tools/config-generator/main.go:472-487 | on success the calls so far stay a prefix: the walk only appends |
| Sections.SectionCallsCounts | tools/config-generator/main.go:472-487 | over the whole document: generator calls equal the job entries of the sections with that title, finalizer calls list their repositories in order |
| Sections.SectionCallsNoTitle | tools/config-generator/main.go:473-476 | sections with other titles are skipped: with none titled, no call is made |
| Sections.SectionCallsAppend | tools/config-generator/main.go:473-486 | walking `a + b` is walking `a` and then `b` |
| Sections.WalkJobs | tools/config-generator/main.go:479-481 | the job loop makes exactly the calls `JobCalls` gives |
| Sections.WalkRepos | tools/config-generator/main.go:477-485 | the repository loop makes exactly the calls `RepoCalls` gives |
| Sections.ParseSection | tools/config-generator/main.go:472-487 | `parseSection` makes exactly the calls `SectionCalls` gives |
| Sections.ParseJob | tools/config-generator/main.go:553-562 | the lookup fails with a missing section exactly when no section is named `jobName`; on success the result is the mapping of some section of that name |
| Sections.ParseJobSpec | tools/config-generator/main.go:553-562 | the lookup reads the first section named `jobName` |
| Sections.LastTestInfra | tools/config-generator/main.go:458-460 | the test-infra repository is the default or a key ending in `test-infra` |
| Sections.LastTestInfraAppend | tools/config-generator/main.go:458-460 | the last match over `a + b` is the last over `b`, starting from the last over `a` |
| Sections.TideRepoScanSpec | tools/config-generator/main.go:455-461 | one section adds exactly its repository keys to the tide list, keeps it free of duplicates, and sets the test-infra repository to the last key ending in `test-infra` |
| Sections.TideScanSpec | tools/config-generator/main.go:451-462 | the same over every `presubmits` section of the document |
| Sections.TideScanElements | tools/config-generator/main.go:451-462 | the tide list holds exactly the presubmit repository keys |
| Sections.TideScanNoDuplicates | tools/config-generator/main.go:457 | the tide list never holds a key twice |
| Sections.TideScanTestInfra | tools/config-generator/main.go:458-460 | the test-infra repository is the last presubmit key ending in `test-infra` |
| Sections.SortStringsNoDuplicates | tools/config-generator/main.go:465 | sorting keeps the list free of duplicates |
| Sections.ProwConfigOf | tools/config-generator/main.go:437-469 | succeeds exactly when the presubmit scan does; the tide list is then sorted and a permutation of the scanned repositories, the bucket, log directories, hosts and testgrid bucket are the flags' values, and the managed repositories and organisations are empty |
| Sections.ProwConfigTide | tools/config-generator/main.go:437-469 | the tide list is sorted, duplicate-free and holds exactly the presubmit repository keys; the test-infra repository is the last such key ending in `test-infra`, or empty |
| Sections.ScanTideRepos | tools/config-generator/main.go:455-461 | the inner loop of `getProwConfigData` yields what `TideRepoScan` gives |
| Sections.GetProwConfigData | tools/config-generator/main.go:437-469 | `getProwConfigData` yields what `ProwConfigOf` gives |
| Output.WrittenClean | tools/config-generator/main.go:147-152 | a non-blank line is written right-trimmed: still non-blank, with no trailing space, and only spaces removed |
| Output.CleanWrittenAsIs | tools/config-generator/main.go:147-152 | a clean line is written as it is |
| Output.EmittedSpec | tools/config-generator/main.go:147-152 | a run of `outputConfig` calls writes only clean lines, one per non-blank input line |
| Output.EmittedAppend | tools/config-generator/main.go:536-538 | the lines written for `ls + [l]` are those for `ls` followed by those for `l` |
| Output.Outputter.constructor | tools/config-generator/main.go:142-144 | a new outputter has written nothing and its count is 0 |
| Output.Outputter.OutputConfig | tools/config-generator/main.go:147-152 | writes nothing for a blank line and the right-trimmed line otherwise; the count rises by the number of lines written; the count always equals the number of lines written, all of them clean |
| Output.Outputter.OutputLines | tools/config-generator/main.go:536-538 | one `outputConfig` per line, in order; the count rises by the number of non-blank lines |
| Output.Outputter.ExecuteTemplate | tools/config-generator/main.go:536-538 | the rendered text is split at newlines and each part written through `outputConfig` |
| Output.HeaderLines | tools/config-generator/main.go:509-514 | one header line per header |
| Output.HeaderLineClean | tools/config-generator/main.go:509-514 | header lines (`title:`, `  repo:`) are clean, so `outputConfig` writes them unchanged |
| Output.HeaderStepAsWritten | tools/config-generator/main.go:508-516 | one call, as written: `title:` is written exactly when the title is not in the section map; no header written has its string in the map already, and the two written have different strings |
| Output.MarkAsWritten | tools/config-generator/main.go:508-516 | the section map afterwards is the old one plus the strings of exactly the headers written |
| Output.SectionMapAfterKeys | tools/config-generator/main.go:504-517 | over a run as written, the final section map is the starting one plus the strings of every header written |
| Output.HeaderRunAsWrittenOnce | tools/config-generator/main.go:504-517 | over any run as written, no header is written whose string was marked at the start, and no two headers written share a string: each string is written at most once |
| Output.SectionMapAfterMarks | tools/config-generator/main.go:504-517 | a string is in the final section map exactly when it was there at the start or some call that is not filtered out marks it (its title, or `title + repoName` with grouping on) |
| Output.HeaderRunAsWrittenFrom | tools/config-generator/main.go:504-517 | a header is written over a run exactly when some call that is not filtered out writes it, given the section map the earlier calls left |
| Output.HeaderRunAsWrittenTitle | tools/config-generator/main.go:508-511 | `title:` is written exactly when some call of that section that is not filtered out finds the title not yet marked |
| Output.HeaderRunAsWrittenRepo | tools/config-generator/main.go:512-517 | `  repo:` of a section is written exactly when some grouped call of that section and repository that is not filtered out finds `title + repoName` not marked once its title is |
| Output.HeaderRunOnce | tools/config-generator/main.go:508-517 | with distinct keys for titles and title-repository pairs, no header already written is written again, and none is written twice |
| Output.HeaderRunWritten | tools/config-generator/main.go:504-517 | with distinct keys, a header is written by the end exactly when it had been or some call that is not filtered out asks for it |
| Output.StepAgrees | tools/config-generator/main.go:508-516 | one call: when no two of the headers involved share a string, the section map as written writes and marks exactly what the distinct keys do |
| Output.AsWrittenAgrees | tools/config-generator/main.go:504-517 | over a run: when no two headers of the run share a string, the section map as written writes exactly the headers of the distinct-key scheme, and ends holding their strings |
| Output.JobEmitter.constructor | tools/config-generator/main.go:769 | a fresh section map is empty |
| Output.JobEmitter.ExecuteJobTemplate | tools/config-generator/main.go:504-519 | a filtered-out job writes nothing and marks nothing; otherwise the headers `HeaderStepAsWritten` gives are written and their strings marked, then the job's rendered lines |
| Output.JobEmitter.WriteHeaders | tools/config-generator/main.go:508-517 | `title:` only if the title is not marked, then with grouping `  repo:` only if `title + repoName` is not marked once the title is; both strings end up marked |
| Output.JobEmitter.WriteHeader | tools/config-generator/main.go:509-515 | writes one header line and marks its string |
| Output.SectionMapCollision | tools/config-generator/main.go:508-516 | as written: after a grouped job of repository `b` in section `a`, a job in section `ab` writes no `ab:` header; the distinct keys write it |
| Output.EmptyRepoCollision | tools/config-generator/main.go:512-516 | as written: a grouped job with an empty repository name writes only `title:`, because its repository string is the title itself; the distinct keys also write `  :` |
| Output.SectionKeysNoCollision | tools/config-generator/main.go:508-516 | with distinct keys for titles and for title-repository pairs the same two calls do write the `ab:` header |
| MetaData.FirstCoverage | tools/config-generator/main.go:571-576 | a job has a coverage value exactly when one of its entries is `go-coverage`; the first one is taken (`break`) |
| MetaData.RepoCoverageSnoc | tools/config-generator/main.go:570-577 | one more job updates the repository's flag with its own `go-coverage` entry, if any |
| MetaData.RepoCoverageLast | tools/config-generator/main.go:566-577 | a repository's flag is the value of the last job that has a `go-coverage` entry, or the starting value (false) when none does |
| MetaData.CoverageScan | tools/config-generator/main.go:565-581 | on success the scan only adds keys to the map |
| MetaData.CoverageScanAppend | tools/config-generator/main.go:567-578 | one more presubmit repository sets its own entry in the map |
| MetaData.CoverageScanKeys | tools/config-generator/main.go:567-569 | the map's keys are exactly the repository parts of the presubmit keys |
| MetaData.ScanJob | tools/config-generator/main.go:571-576 | the entry loop of one job yields `JobCoverage` |
| MetaData.ScanRepo | tools/config-generator/main.go:569-577 | the job loop of one repository yields `RepoCoverage` from false |
| MetaData.ParseGoCoverageMap | tools/config-generator/main.go:565-581 | `parseGoCoverageMap` yields `CoverageScan` from the empty map |
| MetaData.LastDecider | tools/config-generator/main.go:599-619 | the position of the last entry that decides the job's tag, or none |
| MetaData.LastRelease | tools/config-generator/main.go:610-611 | the position of the last `release` entry, or none |
| MetaData.ClassifyItemSpec | tools/config-generator/main.go:600-618 | a deciding entry sets whether the job is enabled and its tag (`continuous` for `branch-ci`, the value for `custom-job`, else the key); `release` sets the version; other entries change nothing |
| MetaData.Classify | tools/config-generator/main.go:599-619 | a job comes out enabled only if it came in enabled or some entry decides its tag; its release version changes only if some entry is `release` |
| MetaData.ClassifySpec | tools/config-generator/main.go:599-619 | a job's tag and enabled flag come from its last deciding entry, its release version from its last `release` entry |
| MetaData.ClassifyJob | tools/config-generator/main.go:596-619 | the entry loop yields `Classify` from the unclassified state |
| MetaData.WithProjectSpec | tools/config-generator/main.go:589 | `Get` makes the bucket exist, records a new name at the end of `projNames`, and changes no tags |
| MetaData.WithTagSpec | tools/config-generator/main.go:629 | `Add` adds the tag to that repository of that bucket and nowhere else |
| MetaData.WithCoverageUpdate | tools/config-generator/main.go:640-647 | afterwards the repository is not marked for coverage, and the project names are unchanged |
| MetaData.WithCoverageUpdateSpec | tools/config-generator/main.go:640-647 | a repository marked for coverage gets `test-coverage` in the given bucket and leaves the map; any other repository changes nothing |
| MetaData.OrgAndRepoSpec | tools/config-generator/main.go:856-861 | the split succeeds exactly on a key holding `/`; the org is the text before the first `/`, the repository the text up to the next one |
| MetaData.CollectedJob | tools/config-generator/main.go:593-630 | on success the coverage map is unchanged, the project bucket and the bucket the job was recorded in exist, and the project names only grow at the end |
| MetaData.CollectedJobSpec | tools/config-generator/main.go:593-630 | an enabled job adds exactly its tag to its repository, in `<org>-<release>` when it has a release version and `<org>` otherwise; a disabled job adds nothing; the coverage map is untouched |
| MetaData.CollectedJobsCoverage | tools/config-generator/main.go:593-631 | a repository's jobs leave the coverage map untouched and end on an existing bucket |
| MetaData.CollectedRepoCoverage | tools/config-generator/main.go:585-633 | after a periodic repository it is no longer marked for coverage, and no other entry of the map changes or disappears |
| MetaData.CollectedReposCoverage | tools/config-generator/main.go:585-633 | after all periodic repositories none of them is still marked, so the final sweep only adds repositories never seen among the periodics |
| MetaData.Collected | tools/config-generator/main.go:584-637 | on success every periodic key has the `org/repo` shape, and the coverage map keeps only entries it had, with their old values |
| MetaData.WithRemainingCoverage | tools/config-generator/main.go:650-658 | fails exactly when some repository is still marked and no project is recorded (the `projNames[0]` panic); on success the coverage map is unchanged and the project names only grow |
| MetaData.WithRemainingCoverageSpec | tools/config-generator/main.go:650-658 | with repositories still marked, each gets `test-coverage` in the first recorded bucket and nothing else changes; with none recorded the index panics; with none marked nothing happens |
| MetaData.ForEachKey | tools/config-generator/main.go:652-656 | a step applied once per key of a set, in any order, ends where the order-independent reference says |
| MetaData.TestgridState.constructor | tools/config-generator/main.go:831 | the store starts with no buckets and no project names, holding the coverage map parsed from the presubmits |
| MetaData.TestgridState.Get | tools/config-generator/main.go:589 | the state becomes `WithProject` of the old one |
| MetaData.TestgridState.EnsureRepo | tools/config-generator/main.go:590 | the repository is listed in the bucket with its tags kept |
| MetaData.TestgridState.Add | tools/config-generator/main.go:629 | the state becomes `WithTag` of the old one |
| MetaData.TestgridState.UpdateTestCoverageJobDataIfNeeded | tools/config-generator/main.go:640-647 | the state becomes `WithCoverageUpdate` of the old one |
| MetaData.TestgridState.CollectJob | tools/config-generator/main.go:593-630 | one job's step: the state and the bucket `jobDetailMap` then refers to are those of `CollectedJob` |
| MetaData.TestgridState.CollectRepo | tools/config-generator/main.go:585-633 | one repository's step ends in the state `CollectedRepo` gives, failing where it does |
| MetaData.TestgridState.AddToEach | tools/config-generator/main.go:652-656 | tagging every repository of a set in map order equals the order-independent `TagAll` |
| MetaData.TestgridState.AddRemainingTestCoverageJobs | tools/config-generator/main.go:650-658 | the state becomes `WithRemainingCoverage` of the old one, failing exactly when it panics |
| MetaData.TestgridState.CollectMetaData | tools/config-generator/main.go:584-637 | `collectMetaData` ends in the state `Collected` gives, failing exactly where it does |
| ReleaseNames.VersionStart | tools/config-generator/main.go:205 | the start of the longest trailing run of digits and dots |
| ReleaseNames.ScanDecides | tools/config-generator/main.go:680-682 | the scan for the longest trailing run of digits and dots decides the expression `.+-[0-9\.]+$` exactly |
| ReleaseNames.IsReleased | tools/config-generator/main.go:680-682 | `isReleased` holds exactly when the name matches `.+-[0-9\.]+$` |
| ReleaseNames.VersionOf | tools/config-generator/main.go:663-668 | the version has no `-`, and a name that is not a release name has the empty version |
| ReleaseNames.VersionNoDash | tools/config-generator/main.go:205 | a version has no `-`, so it is the last part of the split |
| ReleaseNames.SplitLast | tools/config-generator/main.go:664-668 | the last part of splitting `a + c + v`, where `v` has no `c`, is `v` |
| ReleaseNames.ReleasedVersion | tools/config-generator/main.go:663-668 | a base (non-empty, not ending in a newline) joined to a version by `-` is a release name whose version is that version |
| ReleaseNames.BuildProjRepoStrAsWritten | tools/config-generator/main.go:661-677 | `buildProjRepoStr` as written, with the character-cutset `TrimRight`; the result is lower case |
| ReleaseNames.BuildProjRepoStr | tools/config-generator/main.go:661-677 | the corrected rule, which strips the `-<version>` suffix only; the result is lower case |
| ReleaseNames.BuildProjRepoStrPlain | tools/config-generator/main.go:663-676 | a name that does not match the release rule yields `lower(proj + "-" + repo)`, for both the written and the corrected rule |
| ReleaseNames.BuildProjRepoStrRelease | tools/config-generator/main.go:663-676 | the corrected rule turns `base-version` into `lower(base + "-" + repo + "-" + version)` |
| ReleaseNames.AsWrittenReleased | tools/config-generator/main.go:663-676 | as written, a release name becomes its cutset-trimmed base, the repository and the version |
| ReleaseNames.TrimRightSuffix | tools/config-generator/main.go:669 | the cutset trim removes exactly `-` + tail when the base's last character is not in the cutset |
| ReleaseNames.TrimRightTail | tools/config-generator/main.go:669 | characters of the cutset at the end are all removed, however many |
| ReleaseNames.BuildProjRepoStrAsWrittenAgrees | tools/config-generator/main.go:669 | as written and corrected agree whenever the base's last character is neither `-` nor a character of the version |
| ReleaseNames.BuildProjRepoStrSandbox | tools/config-generator/main.go:665-667 | `knative-sandbox-0.15` yields `knative-sandbox-<repo>-0.15` as written, as the comment says |
| ReleaseNames.BuildProjRepoStrAsWrittenDiffers | tools/config-generator/main.go:669 | as written, a base ending in a character of the version loses it: the result is strictly shorter than the corrected one |
| ReleaseNames.CutsBaseTrim | tools/config-generator/main.go:669 | `TrimRight("release1-1.1", "-1.1")` is `release` |
| ReleaseNames.TrimRightCutsBase | tools/config-generator/main.go:669 | as written, `release1-1.1` with repository `repo` yields `release-repo-1.1` |
| ReleaseNames.TrimSuffixKeepsBase | tools/config-generator/main.go:669 | corrected, the same input yields `release1-repo-1.1` |
| Strings.Split | tools/config-generator/main.go:230 | `strings.Split` on one separator yields at least one part |
| Strings.SplitPieces | tools/config-generator/main.go:230 | no part of a split holds the separator |
| Strings.JoinSnoc | tools/config-generator/main.go:325 | joining one more part appends the separator and that part |
| Strings.JoinSplit | tools/config-generator/main.go:325 | joining the parts of a split with the separator gives the string back |
| Strings.SplitJoin | tools/config-generator/main.go:325 | splitting a join of separator-free parts gives the parts back |
| Strings.SplitFirstTwo | tools/config-generator/main.go:856-861 | with the separator present the first two parts are separator-free, and with the separator between them they are all of the string or a prefix followed by another separator |
| Strings.SplitAtFirst | tools/config-generator/main.go:336 | `strings.SplitN(s, sep, 2)`: two parts exactly when the separator occurs, the first free of it, and together with the separator they rebuild `s` |
| Strings.ReplaceFirstPrefix | tools/config-generator/main.go:231 | replacing a leading occurrence once replaces that prefix |
| Strings.ReplaceAllChars | tools/config-generator/main.go:237 | same length; every occurrence of the character becomes the other one, every other character stays, so none of the old character is left (used to turn `/` into `-`) |
| Strings.ReplaceAllCharsAround | tools/config-generator/main.go:237 | with the character once between two parts free of it, only that one position changes |
| Strings.ToLower | tools/config-generator/main.go:237 | same length, no upper-case letters; upper-case ASCII letters move to lower case (code plus 32), other characters unchanged |
| Strings.TrimRight | tools/config-generator/main.go:149 | a prefix of the input; only cutset characters are removed, and the result does not end in one |
| Strings.TrimSuffix | tools/config-generator/main.go:669 | `strings.TrimSuffix`, which the source does not call: the corrected `BuildProjRepoStr` uses it in place of the cutset `TrimRight` of this line; it removes the suffix when present, otherwise returns the input |
| Strings.TrimSpace | tools/config-generator/main.go:148 | the trimmed line is empty exactly when the line is blank |
| Strings.PathBase | tools/config-generator/main.go:409 | `path.Base`: never empty, and holding `/` only as `/` itself |
| Strings.AfterLastSlash | tools/config-generator/main.go:409 | the text after the last `/`, a suffix with no `/` |
| Strings.AppendIfUnique | tools/config-generator/main.go:457 | the elements become the old ones plus `x`, and a duplicate-free list stays duplicate-free |
| Strings.SortStrings | tools/config-generator/main.go:465 | `sort.Strings`: sorted, and a permutation of the input |
| Strings.LexLeTotal | tools/config-generator/main.go:465 | the string order is total |
| Strings.LexLeTransitive | tools/config-generator/main.go:465 | the string order is transitive |
| Strings.LexLeAntisymmetric | tools/config-generator/main.go:465 | the string order is antisymmetric |

## Left out

- File and template I/O are not modelled: `readTemplate`, `setOutput`, and the file reads and
  writes in `main` (they depend on the file system and `runtime.Caller`).
- Template rendering is not modelled: `text/template` and its function map. A rendered job
  enters `executeTemplate` as text.
- `main` itself, flag parsing and the `stringArrayFlag` methods are not modelled. The flag
  values are the `Flags` record.
- `upgradeReleaseBranches` and the GitHub client are not modelled (network access).
- `yaml.Unmarshal` is not modelled. The parsed, ordered document is the input.
- `time.Now().Year()` is not modelled; `ProwConfig` has no year field.
- The Kubernetes testgrid org-to-repository grouping (main.go:797-819) is not modelled.
- The callbacks defined outside this file are not modelled: `generatePresubmit`,
  `generatePeriodic`, `generateGoCoveragePeriodic`, `generateK8sTestgrid`,
  `addCustomJobsTestgrid` and the metadata store's generate methods.
  - `Sections.ParseSection` records the calls it would make into them.
  - The loops of `main` that call them over `repositories` are not modelled.
- The coercion helpers are defined outside this file. They are modelled as strict type
  assertions that are fatal on any other shape.
- State after a fatal error is unspecified in the model. The source exits, possibly after
  appending part of its output; the model only returns `false` or `Err`.
- Strings.IsNum: models `strconv.Atoi` success as an optional sign followed by at least one
  digit. The 64-bit range check is left out, because that helper is defined outside this file.
- Strings.ToLower: ASCII letters only. Non-ASCII case folding is not modelled.
- Strings.AppendIfUnique: assumed to append exactly when the value is absent, because the
  helper is defined outside this file.
- The metadata store (`metaData`, `JobDetailMap`) is defined outside this file. It is modelled
  as a map from bucket to repository to set of tags. `Get` creates a bucket and records it in
  `projNames`; `Add` is a set insert. How the store orders its output is not modelled.
- MetaData.TestgridState.AddRemainingTestCoverageJobs: looks up `projNames[0]` once before the
  sweep instead of once per repository. After the first lookup, further lookups change nothing.
- ReleaseNames.IsReleased: the RE2 expression is stated as a predicate, not as a regular
  expression engine. RE2's `.` does not match a newline, and the match is not anchored at the
  start.
- Output.HeaderRunOnce: states the at-most-once property for the distinct-key reference, not for
  the string-keyed section map of the source. The source's behaviour is
  `Output.HeaderRunAsWrittenOnce`, and the two agree by `Output.AsWrittenAgrees` when no two
  headers share a string.
- Output.HeaderRunWritten: likewise states written-iff-asked for the distinct-key reference. For
  the source, `Output.HeaderRunAsWrittenTitle` and `Output.HeaderRunAsWrittenRepo` state it
  relative to the section map the earlier calls left.
- ReleaseNames.VersionOf: does not state that the version is the name's trailing run of digits
  and dots for every release name. `ReleaseNames.ReleasedVersion` states it for names built as
  `base-version`.
- Output.Outputter.OutputConfig: the writer is a sequence of lines. The `io.Writer` error
  handling is not modelled, and neither is the fact that `fmt.Fprintln` adds a newline.
- Integers are unbounded. `getInt` and `timeoutOverride` are Go `int` values; overflow is not
  modelled.

## Findings

| source | as written | input that shows it | evidently intended | confidence | as-written member | corrected member |
|---|---|---|---|---|---|---|
| tools/config-generator/main.go:669 | `strings.TrimRight(projName, "-"+projVersion)` removes every trailing character in the cutset `-` + version, so it can eat the end of the base name | project `release1-1.1`, repository `repo`: the result is `release-repo-1.1` | remove only the `-<version>` suffix, giving `release1-repo-1.1`, as the comment at lines 665-667 describes | high for bases ending in a digit or `.`; not executed | ReleaseNames.TrimRightCutsBase | ReleaseNames.BuildProjRepoStr |
| tools/config-generator/main.go:508-516 | the section map uses the plain concatenation `title+repoName` as the key for a repository header, in the same map as the title keys | a grouped job of repository `b` in section `a`, then a job in section `ab`: the `ab:` header is never written; likewise a grouped job with an empty repository name never writes its `  :` header | keep title keys and title-repository keys apart | low, because no real section title has that shape; not executed | Output.SectionMapCollision, Output.EmptyRepoCollision | Output.SectionKeysNoCollision, Output.AsWrittenAgrees |
