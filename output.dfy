/**
 * The generator's output: the `outputter`, which drops blank lines, right-trims the rest and
 * counts its writes, and `executeJobTemplate`, which writes each section header and each
 * repository sub-header once before a job's rendered lines. Template rendering itself is not
 * part of this model: a rendered job arrives as text.
 */
module Output {
  import opened Wrappers
  import opened Strings

  // ---------------------------------------------------------------------------
  // outputter

  /** A line as the outputter writes it: not blank, and without trailing spaces. */
  predicate Clean(line: string) {
    !IsBlank(line) && line[|line| - 1] != ' '
  }

  /** What `outputConfig(line)` writes: nothing for a blank line, otherwise the line right-trimmed of spaces. */
  function Written(line: string): seq<string> {
    if IsBlank(line) then [] else [TrimRight(line, " ")]
  }

  /** What a sequence of `outputConfig` calls writes. */
  function Emitted(lines: seq<string>): seq<string> {
    if lines == [] then [] else Emitted(lines[..|lines| - 1]) + Written(lines[|lines| - 1])
  }

  /** The number of lines of `lines` that are not blank. */
  function NonBlankCount(lines: seq<string>): nat {
    if lines == [] then 0 else NonBlankCount(lines[..|lines| - 1]) + if IsBlank(lines[|lines| - 1]) then 0 else 1
  }

  /**
   * A line that is not blank is written as itself minus its trailing spaces: still not blank,
   * with no trailing space, and only spaces taken off.
   */
  lemma WrittenClean(line: string)
    requires !IsBlank(line)
    ensures Clean(TrimRight(line, " "))
    ensures forall i :: |TrimRight(line, " ")| <= i < |line| ==> line[i] == ' '
  {
    var r := TrimRight(line, " ");
    var k :| 0 <= k < |line| && !IsSpace(line[k]);
    assert line[k] != ' ';
    assert k < |r|;
    assert r[k] == line[k];
    assert r[|r| - 1] !in " ";
  }

  /** A clean line is written unchanged. */
  lemma CleanWrittenAsIs(line: string)
    requires Clean(line)
    ensures Written(line) == [line]
  {
    assert line[|line| - 1] !in " ";
  }

  /** Every line the outputter writes is clean, and it writes one line per non-blank input line. */
  lemma {:induction false} EmittedSpec(lines: seq<string>)
    ensures forall i :: 0 <= i < |Emitted(lines)| ==> Clean(Emitted(lines)[i])
    ensures |Emitted(lines)| == NonBlankCount(lines)
  {
    if lines != [] {
      var front, last := lines[..|lines| - 1], lines[|lines| - 1];
      EmittedSpec(front);
      if !IsBlank(last) {
        WrittenClean(last);
      }
    }
  }

  lemma EmittedAppend(lines: seq<string>, line: string)
    ensures Emitted(lines + [line]) == Emitted(lines) + Written(line)
  {
    assert (lines + [line])[..|lines + [line]| - 1] == lines;
  }

  /** The `outputter`: the lines written so far and the number of writes. */
  class Outputter {
    var lines: seq<string>
    var count: int

    /** The count is the number of lines written, and every written line is clean. */
    ghost predicate Valid()
      reads this
    {
      count == |lines| && forall i :: 0 <= i < |lines| ==> Clean(lines[i])
    }

    /** `newOutputter`. */
    constructor ()
      ensures lines == [] && count == 0
      ensures Valid()
    {
      lines := [];
      count := 0;
    }

    /** `outputConfig(line)`. */
    method OutputConfig(line: string)
      requires Valid()
      modifies this
      ensures Valid()
      ensures lines == old(lines) + Written(line)
      ensures count == old(count) + |Written(line)|
    {
      if !IsBlank(line) {
        WrittenClean(line);
        lines := lines + [TrimRight(line, " ")];
        count := count + 1;
      }
    }

    /** The output loop of `executeTemplate`: every line of the rendered text goes through `outputConfig`. */
    method ExecuteTemplate(rendered: string)
      requires Valid()
      modifies this
      ensures Valid()
      ensures lines == old(lines) + Emitted(Split(rendered, '\n'))
      ensures count == old(count) + NonBlankCount(Split(rendered, '\n'))
    {
      var parts := Split(rendered, '\n');
      OutputLines(parts);
    }

    /** `outputConfig` on each of `parts` in turn. */
    method OutputLines(parts: seq<string>)
      requires Valid()
      modifies this
      ensures Valid()
      ensures lines == old(lines) + Emitted(parts)
      ensures count == old(count) + NonBlankCount(parts)
    {
      var i := 0;
      while i < |parts|
        invariant 0 <= i <= |parts|
        invariant Valid()
        invariant lines == old(lines) + Emitted(parts[..i])
      {
        EmittedAppend(parts[..i], parts[i]);
        assert parts[..i + 1] == parts[..i] + [parts[i]];
        OutputConfig(parts[i]);
        i := i + 1;
      }
      assert parts[..i] == parts;
      EmittedSpec(parts);
    }
  }

  // ---------------------------------------------------------------------------
  // executeJobTemplate and its section headers

  /** A header the generator writes at most once: a section title, or a repository within a section. */
  datatype SectionKey = Title(title: string) | TitleRepo(title: string, repo: string)

  /** The line a header is written as. */
  function HeaderLine(key: SectionKey): string {
    match key
    case Title(t) => t + ":"
    case TitleRepo(_, r) => "  " + r + ":"
  }

  function HeaderLines(keys: seq<SectionKey>): (r: seq<string>)
    ensures |r| == |keys|
  {
    seq(|keys|, i requires 0 <= i < |keys| => HeaderLine(keys[i]))
  }

  function KeySet(keys: seq<SectionKey>): set<SectionKey> {
    set k | k in keys
  }

  /** `jobNameFilter` set and naming another job: the call writes nothing. */
  predicate Filtered(jobNameFilter: string, jobName: string) {
    jobNameFilter != "" && jobNameFilter != jobName
  }

  /** The headers one call writes, in order, given those already written. */
  function HeaderStep(written: set<SectionKey>, title: string, repoName: string, groupByRepo: bool): seq<SectionKey> {
    (if Title(title) !in written then [Title(title)] else [])
    + (if groupByRepo && TitleRepo(title, repoName) !in written then [TitleRepo(title, repoName)] else [])
  }

  /** Every header line ends in `:`, so it is clean and written as it is. */
  lemma HeaderLineClean(key: SectionKey)
    ensures Clean(HeaderLine(key))
  {
    var line := HeaderLine(key);
    assert line[|line| - 1] == ':';
    assert !IsSpace(line[|line| - 1]);
  }

  /** One `executeJobTemplate` call. */
  datatype JobCall = JobCall(title: string, repoName: string, jobName: string, groupByRepo: bool)

  /** The headers a run of calls writes, in order, starting from the headers in `written`. */
  function HeaderRun(jobNameFilter: string, written: set<SectionKey>, calls: seq<JobCall>): seq<SectionKey>
    decreases |calls|
  {
    if calls == [] then []
    else
      var c := calls[0];
      if Filtered(jobNameFilter, c.jobName) then HeaderRun(jobNameFilter, written, calls[1..])
      else
        var step := HeaderStep(written, c.title, c.repoName, c.groupByRepo);
        step + HeaderRun(jobNameFilter, written + KeySet(step), calls[1..])
  }

  /** A call that is not filtered out asks for the header `key`. */
  predicate Wants(jobNameFilter: string, c: JobCall, key: SectionKey) {
    !Filtered(jobNameFilter, c.jobName)
    && (key == Title(c.title) || (c.groupByRepo && key == TitleRepo(c.title, c.repoName)))
  }

  /**
   * Headers are written at most once: none already written is written again, and no header
   * appears twice in a run.
   */
  lemma {:induction false} HeaderRunOnce(jobNameFilter: string, written: set<SectionKey>, calls: seq<JobCall>)
    ensures forall i :: 0 <= i < |HeaderRun(jobNameFilter, written, calls)| ==>
      HeaderRun(jobNameFilter, written, calls)[i] !in written
    ensures NoDuplicates(HeaderRun(jobNameFilter, written, calls))
    decreases |calls|
  {
    if calls != [] {
      var c := calls[0];
      if Filtered(jobNameFilter, c.jobName) {
        HeaderRunOnce(jobNameFilter, written, calls[1..]);
      } else {
        var step := HeaderStep(written, c.title, c.repoName, c.groupByRepo);
        var rest := HeaderRun(jobNameFilter, written + KeySet(step), calls[1..]);
        HeaderRunOnce(jobNameFilter, written + KeySet(step), calls[1..]);
        var run := step + rest;
        assert NoDuplicates(step);
        forall i, j | 0 <= i < j < |run| ensures run[i] != run[j] {
          if i < |step| && j >= |step| {
            assert run[i] in KeySet(step);
            assert run[j] == rest[j - |step|];
          } else if i >= |step| {
            assert run[i] == rest[i - |step|] && run[j] == rest[j - |step|];
          }
        }
      }
    }
  }

  /**
   * By the end of a run, a header has been written exactly when it was written before or some
   * call that was not filtered out asked for it.
   */
  lemma {:induction false} HeaderRunWritten(jobNameFilter: string, written: set<SectionKey>, calls: seq<JobCall>, key: SectionKey)
    ensures key in written + KeySet(HeaderRun(jobNameFilter, written, calls))
      <==> key in written || exists i :: 0 <= i < |calls| && Wants(jobNameFilter, calls[i], key)
    decreases |calls|
  {
    if calls != [] {
      var c := calls[0];
      assert forall i :: 0 < i < |calls| ==> calls[i] == calls[1..][i - 1];
      if Filtered(jobNameFilter, c.jobName) {
        HeaderRunWritten(jobNameFilter, written, calls[1..], key);
        assert !Wants(jobNameFilter, calls[0], key);
      } else {
        var step := HeaderStep(written, c.title, c.repoName, c.groupByRepo);
        HeaderRunWritten(jobNameFilter, written + KeySet(step), calls[1..], key);
        assert KeySet(step + HeaderRun(jobNameFilter, written + KeySet(step), calls[1..]))
          == KeySet(step) + KeySet(HeaderRun(jobNameFilter, written + KeySet(step), calls[1..]));
        assert key in written + KeySet(step) <==> key in written || Wants(jobNameFilter, c, key);
        if exists i :: 0 <= i < |calls| && Wants(jobNameFilter, calls[i], key) {
          var i :| 0 <= i < |calls| && Wants(jobNameFilter, calls[i], key);
          if i > 0 {
            assert Wants(jobNameFilter, calls[1..][i - 1], key);
          }
        }
      }
    }
  }

  // ---------------------------------------------------------------------------
  // The section map as written: one set of strings for both kinds of header

  /** The string a header is marked under in `sectionMap`: the title, or the plain concatenation `title + repoName`. */
  function MapKey(key: SectionKey): string {
    match key
    case Title(t) => t
    case TitleRepo(t, r) => t + r
  }

  function MapKeys(keys: seq<SectionKey>): set<string> {
    set k | k in keys :: MapKey(k)
  }

  lemma MapKeysAppend(a: seq<SectionKey>, b: seq<SectionKey>)
    ensures MapKeys(a + b) == MapKeys(a) + MapKeys(b)
  {
    assert forall k :: k in a + b <==> k in a || k in b;
  }

  /**
   * The headers one `executeJobTemplate` call writes, as written: the title is looked up and
   * marked first, and only then is `title + repoName` looked up.
   */
  function HeaderStepAsWritten(sectionMap: set<string>, title: string, repoName: string, groupByRepo: bool): (keys: seq<SectionKey>)
    ensures Title(title) in keys <==> title !in sectionMap
    ensures forall i :: 0 <= i < |keys| ==> MapKey(keys[i]) !in sectionMap
    ensures forall i, j :: 0 <= i < j < |keys| ==> MapKey(keys[i]) != MapKey(keys[j])
  {
    (if title !in sectionMap then [Title(title)] else [])
    + (if groupByRepo && title + repoName !in sectionMap + {title} then [TitleRepo(title, repoName)] else [])
  }

  /** The section map after one call: the title is marked, and with grouping on `title + repoName` as well. */
  function MarkAsWritten(sectionMap: set<string>, title: string, repoName: string, groupByRepo: bool): (m: set<string>)
    ensures m == sectionMap + MapKeys(HeaderStepAsWritten(sectionMap, title, repoName, groupByRepo))
  {
    var keys := HeaderStepAsWritten(sectionMap, title, repoName, groupByRepo);
    assert title in sectionMap + MapKeys(keys) by {
      if title !in sectionMap {
        assert keys[0] == Title(title);
      }
    }
    assert groupByRepo ==> title + repoName in sectionMap + MapKeys(keys) by {
      if groupByRepo && title + repoName !in sectionMap + {title} {
        assert keys[|keys| - 1] == TitleRepo(title, repoName);
      }
    }
    sectionMap + {title} + (if groupByRepo then {title + repoName} else {})
  }

  /** The headers a run of calls writes as written, starting from the section map `sectionMap`. */
  function HeaderRunAsWritten(jobNameFilter: string, sectionMap: set<string>, calls: seq<JobCall>): seq<SectionKey>
    decreases |calls|
  {
    if calls == [] then []
    else
      var c := calls[0];
      if Filtered(jobNameFilter, c.jobName) then HeaderRunAsWritten(jobNameFilter, sectionMap, calls[1..])
      else
        HeaderStepAsWritten(sectionMap, c.title, c.repoName, c.groupByRepo)
        + HeaderRunAsWritten(jobNameFilter, MarkAsWritten(sectionMap, c.title, c.repoName, c.groupByRepo), calls[1..])
  }

  /** The section map after a run of calls. */
  function SectionMapAfter(jobNameFilter: string, sectionMap: set<string>, calls: seq<JobCall>): set<string>
    decreases |calls|
  {
    if calls == [] then sectionMap
    else
      var c := calls[0];
      if Filtered(jobNameFilter, c.jobName) then SectionMapAfter(jobNameFilter, sectionMap, calls[1..])
      else SectionMapAfter(jobNameFilter, MarkAsWritten(sectionMap, c.title, c.repoName, c.groupByRepo), calls[1..])
  }

  /** A call that is not filtered out marks the string `key`: its title, or with grouping on, its `title + repoName`. */
  predicate Marks(jobNameFilter: string, c: JobCall, key: string) {
    !Filtered(jobNameFilter, c.jobName)
    && (key == c.title || (c.groupByRepo && key == c.title + c.repoName))
  }

  /** As written, the section map at the end of a run holds exactly the strings it started with and those of the headers written. */
  lemma {:induction false} SectionMapAfterKeys(jobNameFilter: string, sectionMap: set<string>, calls: seq<JobCall>)
    ensures SectionMapAfter(jobNameFilter, sectionMap, calls) == sectionMap + MapKeys(HeaderRunAsWritten(jobNameFilter, sectionMap, calls))
    decreases |calls|
  {
    if calls != [] {
      var c := calls[0];
      if Filtered(jobNameFilter, c.jobName) {
        SectionMapAfterKeys(jobNameFilter, sectionMap, calls[1..]);
      } else {
        var step := HeaderStepAsWritten(sectionMap, c.title, c.repoName, c.groupByRepo);
        var map1 := MarkAsWritten(sectionMap, c.title, c.repoName, c.groupByRepo);
        var rest := HeaderRunAsWritten(jobNameFilter, map1, calls[1..]);
        SectionMapAfterKeys(jobNameFilter, map1, calls[1..]);
        MapKeysAppend(step, rest);
      }
    }
  }

  /** None of `keys` is marked under a string of `sectionMap`, and no two of them under the same string. */
  predicate FreshKeys(keys: seq<SectionKey>, sectionMap: set<string>) {
    (forall i :: 0 <= i < |keys| ==> MapKey(keys[i]) !in sectionMap)
    && (forall i, j :: 0 <= i < j < |keys| ==> MapKey(keys[i]) != MapKey(keys[j]))
  }

  lemma FreshAppend(step: seq<SectionKey>, rest: seq<SectionKey>, sectionMap: set<string>)
    requires FreshKeys(step, sectionMap) && FreshKeys(rest, sectionMap + MapKeys(step))
    ensures FreshKeys(step + rest, sectionMap)
  {
    var run := step + rest;
    forall i | 0 <= i < |run| ensures MapKey(run[i]) !in sectionMap {
      if i >= |step| {
        assert run[i] == rest[i - |step|];
      }
    }
    forall i, j | 0 <= i < j < |run| ensures MapKey(run[i]) != MapKey(run[j]) {
      if i < |step| && j >= |step| {
        assert run[i] == step[i] && MapKey(step[i]) in MapKeys(step);
        assert run[j] == rest[j - |step|];
      } else if i >= |step| {
        assert run[i] == rest[i - |step|] && run[j] == rest[j - |step|];
      }
    }
  }

  /** As written, no header is written under a string already in the section map, and no string is written under twice in a run. */
  lemma {:induction false} HeaderRunAsWrittenOnce(jobNameFilter: string, sectionMap: set<string>, calls: seq<JobCall>)
    ensures FreshKeys(HeaderRunAsWritten(jobNameFilter, sectionMap, calls), sectionMap)
    decreases |calls|
  {
    if calls != [] {
      var c := calls[0];
      if Filtered(jobNameFilter, c.jobName) {
        HeaderRunAsWrittenOnce(jobNameFilter, sectionMap, calls[1..]);
      } else {
        var step := HeaderStepAsWritten(sectionMap, c.title, c.repoName, c.groupByRepo);
        var map1 := MarkAsWritten(sectionMap, c.title, c.repoName, c.groupByRepo);
        HeaderRunAsWrittenOnce(jobNameFilter, map1, calls[1..]);
        FreshAppend(step, HeaderRunAsWritten(jobNameFilter, map1, calls[1..]), sectionMap);
      }
    }
  }


  /**
   * As written, a string is in the section map by the end of a run exactly when it was at the
   * start or some call that was not filtered out marks it.
   */
  lemma {:induction false} SectionMapAfterMarks(jobNameFilter: string, sectionMap: set<string>, calls: seq<JobCall>, key: string)
    ensures key in SectionMapAfter(jobNameFilter, sectionMap, calls)
      <==> key in sectionMap || exists i :: 0 <= i < |calls| && Marks(jobNameFilter, calls[i], key)
    decreases |calls|
  {
    if calls != [] {
      var c := calls[0];
      assert forall i :: 0 < i < |calls| ==> calls[i] == calls[1..][i - 1];
      var map1 := if Filtered(jobNameFilter, c.jobName) then sectionMap
        else MarkAsWritten(sectionMap, c.title, c.repoName, c.groupByRepo);
      SectionMapAfterMarks(jobNameFilter, map1, calls[1..], key);
      assert key in map1 <==> key in sectionMap || Marks(jobNameFilter, c, key);
      if exists i :: 0 <= i < |calls| && Marks(jobNameFilter, calls[i], key) {
        var i :| 0 <= i < |calls| && Marks(jobNameFilter, calls[i], key);
        if i > 0 {
          assert Marks(jobNameFilter, calls[1..][i - 1], key);
        }
      }
    }
  }

  /** Call `i` of a run is not filtered out and writes the header `key`, given the section map the calls before it left. */
  predicate WritesAt(jobNameFilter: string, sectionMap: set<string>, calls: seq<JobCall>, i: int, key: SectionKey)
    requires 0 <= i < |calls|
  {
    !Filtered(jobNameFilter, calls[i].jobName)
    && key in HeaderStepAsWritten(SectionMapAfter(jobNameFilter, sectionMap, calls[..i]),
                                  calls[i].title, calls[i].repoName, calls[i].groupByRepo)
  }

  /** A header appears in a run as written exactly when some call writes it, given the map the calls before it left. */
  lemma {:induction false} HeaderRunAsWrittenFrom(jobNameFilter: string, sectionMap: set<string>, calls: seq<JobCall>, key: SectionKey)
    ensures key in HeaderRunAsWritten(jobNameFilter, sectionMap, calls)
      <==> exists i :: 0 <= i < |calls| && WritesAt(jobNameFilter, sectionMap, calls, i, key)
    decreases |calls|
  {
    if calls != [] {
      var c, tail := calls[0], calls[1..];
      var map1 := if Filtered(jobNameFilter, c.jobName) then sectionMap
        else MarkAsWritten(sectionMap, c.title, c.repoName, c.groupByRepo);
      HeaderRunAsWrittenFrom(jobNameFilter, map1, tail, key);
      assert calls[..0] == [];
      assert WritesAt(jobNameFilter, sectionMap, calls, 0, key) <==>
        !Filtered(jobNameFilter, c.jobName) && key in HeaderStepAsWritten(sectionMap, c.title, c.repoName, c.groupByRepo);
      assert HeaderRunAsWritten(jobNameFilter, sectionMap, calls)
        == (if Filtered(jobNameFilter, c.jobName) then [] else HeaderStepAsWritten(sectionMap, c.title, c.repoName, c.groupByRepo))
          + HeaderRunAsWritten(jobNameFilter, map1, tail);
      forall i | 0 < i < |calls|
        ensures WritesAt(jobNameFilter, sectionMap, calls, i, key) <==> WritesAt(jobNameFilter, map1, tail, i - 1, key)
      {
        assert calls[..i][0] == c && calls[..i][1..] == tail[..i - 1];
        assert calls[i] == tail[i - 1];
      }
      if exists i :: 0 < i < |calls| && WritesAt(jobNameFilter, sectionMap, calls, i, key) {
        var i :| 0 < i < |calls| && WritesAt(jobNameFilter, sectionMap, calls, i, key);
        assert WritesAt(jobNameFilter, map1, tail, i - 1, key);
      }
      if exists j :: 0 <= j < |tail| && WritesAt(jobNameFilter, map1, tail, j, key) {
        var j :| 0 <= j < |tail| && WritesAt(jobNameFilter, map1, tail, j, key);
        assert WritesAt(jobNameFilter, sectionMap, calls, j + 1, key);
      }
    }
  }

  /**
   * As written, a run writes the `title:` header exactly when some call of that section that is
   * not filtered out finds the title not yet in the section map.
   */
  lemma HeaderRunAsWrittenTitle(jobNameFilter: string, sectionMap: set<string>, calls: seq<JobCall>, title: string)
    ensures Title(title) in HeaderRunAsWritten(jobNameFilter, sectionMap, calls)
      <==> (exists i :: 0 <= i < |calls| && !Filtered(jobNameFilter, calls[i].jobName) && calls[i].title == title
              && title !in SectionMapAfter(jobNameFilter, sectionMap, calls[..i]))
  {
    HeaderRunAsWrittenFrom(jobNameFilter, sectionMap, calls, Title(title));
    forall i | 0 <= i < |calls|
      ensures WritesAt(jobNameFilter, sectionMap, calls, i, Title(title)) <==>
        !Filtered(jobNameFilter, calls[i].jobName) && calls[i].title == title
        && title !in SectionMapAfter(jobNameFilter, sectionMap, calls[..i])
    {
      var m := SectionMapAfter(jobNameFilter, sectionMap, calls[..i]);
      var c := calls[i];
      assert Title(title) in HeaderStepAsWritten(m, c.title, c.repoName, c.groupByRepo) <==> c.title == title && title !in m;
    }
  }

  /**
   * As written, a run writes the `  repo:` header of section `title` exactly when some grouped
   * call of that section and repository that is not filtered out finds `title + repoName` not in
   * the section map once its title is marked.
   */
  lemma HeaderRunAsWrittenRepo(jobNameFilter: string, sectionMap: set<string>, calls: seq<JobCall>, title: string, repoName: string)
    ensures TitleRepo(title, repoName) in HeaderRunAsWritten(jobNameFilter, sectionMap, calls)
      <==> (exists i :: 0 <= i < |calls| && !Filtered(jobNameFilter, calls[i].jobName) && calls[i].groupByRepo
              && calls[i].title == title && calls[i].repoName == repoName
              && title + repoName !in SectionMapAfter(jobNameFilter, sectionMap, calls[..i]) + {title})
  {
    HeaderRunAsWrittenFrom(jobNameFilter, sectionMap, calls, TitleRepo(title, repoName));
    forall i | 0 <= i < |calls|
      ensures WritesAt(jobNameFilter, sectionMap, calls, i, TitleRepo(title, repoName)) <==>
        !Filtered(jobNameFilter, calls[i].jobName) && calls[i].groupByRepo
        && calls[i].title == title && calls[i].repoName == repoName
        && title + repoName !in SectionMapAfter(jobNameFilter, sectionMap, calls[..i]) + {title}
    {
      var m := SectionMapAfter(jobNameFilter, sectionMap, calls[..i]);
      var c := calls[i];
      assert TitleRepo(title, repoName) in HeaderStepAsWritten(m, c.title, c.repoName, c.groupByRepo)
        <==> c.groupByRepo && c.title == title && c.repoName == repoName && title + repoName !in m + {title};
    }
  }

  // ---------------------------------------------------------------------------
  // When the section map as written and the distinct keys agree

  /** Every header some call of the run that is not filtered out asks for. */
  function CallKeys(jobNameFilter: string, calls: seq<JobCall>): set<SectionKey>
    decreases |calls|
  {
    if calls == [] then {}
    else
      var c := calls[0];
      (if Filtered(jobNameFilter, c.jobName) then {}
       else {Title(c.title)} + (if c.groupByRepo then {TitleRepo(c.title, c.repoName)} else {}))
      + CallKeys(jobNameFilter, calls[1..])
  }

  /** No two of `keys` are marked under the same string: no `title + repoName` is another header's string. */
  predicate MapKeysDistinct(keys: set<SectionKey>) {
    forall k1, k2 | k1 in keys && k2 in keys && MapKey(k1) == MapKey(k2) :: k1 == k2
  }

  function MapKeySet(keys: set<SectionKey>): set<string> {
    set k | k in keys :: MapKey(k)
  }

  lemma StepAgrees(written: set<SectionKey>, title: string, repoName: string, groupByRepo: bool)
    requires MapKeysDistinct(written + {Title(title)} + (if groupByRepo then {TitleRepo(title, repoName)} else {}))
    ensures HeaderStepAsWritten(MapKeySet(written), title, repoName, groupByRepo) == HeaderStep(written, title, repoName, groupByRepo)
    ensures MarkAsWritten(MapKeySet(written), title, repoName, groupByRepo)
      == MapKeySet(written + KeySet(HeaderStep(written, title, repoName, groupByRepo)))
  {
    var keys := written + {Title(title)} + (if groupByRepo then {TitleRepo(title, repoName)} else {});
    var sectionMap := MapKeySet(written);
    assert title in sectionMap <==> Title(title) in written by {
      if title in sectionMap {
        var k :| k in written && MapKey(k) == title;
        assert MapKey(k) == MapKey(Title(title));
      }
    }
    if groupByRepo {
      assert title + repoName != title by {
        assert MapKey(TitleRepo(title, repoName)) != MapKey(Title(title));
      }
      assert title + repoName in sectionMap <==> TitleRepo(title, repoName) in written by {
        if title + repoName in sectionMap {
          var k :| k in written && MapKey(k) == title + repoName;
          assert MapKey(k) == MapKey(TitleRepo(title, repoName));
        }
      }
    }
    var step := HeaderStep(written, title, repoName, groupByRepo);
    assert MapKeySet(written + KeySet(step)) == sectionMap + MapKeys(step);
  }

  /**
   * When no header of a run is marked under the same string as another, the section map as
   * written writes exactly the headers the distinct keys do, and ends holding their strings.
   */
  lemma {:induction false} AsWrittenAgrees(jobNameFilter: string, written: set<SectionKey>, calls: seq<JobCall>)
    requires MapKeysDistinct(written + CallKeys(jobNameFilter, calls))
    ensures HeaderRunAsWritten(jobNameFilter, MapKeySet(written), calls) == HeaderRun(jobNameFilter, written, calls)
    ensures SectionMapAfter(jobNameFilter, MapKeySet(written), calls)
      == MapKeySet(written + KeySet(HeaderRun(jobNameFilter, written, calls)))
    decreases |calls|
  {
    if calls != [] {
      var c := calls[0];
      if Filtered(jobNameFilter, c.jobName) {
        AsWrittenAgrees(jobNameFilter, written, calls[1..]);
      } else {
        var step := HeaderStep(written, c.title, c.repoName, c.groupByRepo);
        StepAgrees(written, c.title, c.repoName, c.groupByRepo);
        assert KeySet(step) <= CallKeys(jobNameFilter, calls);
        AsWrittenAgrees(jobNameFilter, written + KeySet(step), calls[1..]);
        var rest := HeaderRun(jobNameFilter, written + KeySet(step), calls[1..]);
        assert KeySet(step + rest) == KeySet(step) + KeySet(rest);
        assert written + KeySet(step + rest) == written + KeySet(step) + KeySet(rest);
      }
    }
  }

  /**
   * As written, a repository header's string can stand for a later section title: after the
   * grouped job of repository `b` in section `a`, a job in section `ab` finds `ab` marked and
   * its `ab:` header is never written; the distinct keys write it.
   */
  lemma SectionMapCollision()
    ensures var calls := [JobCall("a", "b", "x", true), JobCall("ab", "c", "y", false)];
      HeaderRunAsWritten("", {}, calls) == [Title("a"), TitleRepo("a", "b")]
      && HeaderRun("", {}, calls) == [Title("a"), TitleRepo("a", "b"), Title("ab")]
  {
    assert "a" + "b" == "ab";
    var calls := [JobCall("a", "b", "x", true), JobCall("ab", "c", "y", false)];
    assert calls[1..][1..] == [];
    assert MarkAsWritten({}, "a", "b", true) == {"a", "ab"};
  }

  /**
   * As written, a grouped job with an empty repository name finds its repository string, the
   * title itself, already marked, and its `  :` header is never written; the distinct keys write it.
   */
  lemma EmptyRepoCollision(title: string, jobName: string)
    ensures HeaderRunAsWritten("", {}, [JobCall(title, "", jobName, true)]) == [Title(title)]
    ensures HeaderRun("", {}, [JobCall(title, "", jobName, true)]) == [Title(title), TitleRepo(title, "")]
  {
    assert title + "" == title;
  }

  /** The generator's section bookkeeping: where it writes, and the strings it has marked in `sectionMap`. */
  class JobEmitter {
    const out: Outputter
    var sectionMap: set<string>

    constructor (out: Outputter)
      ensures this.out == out && sectionMap == {}
    {
      this.out := out;
      sectionMap := {};
    }

    /**
     * `executeJobTemplate` for a job rendered as `rendered`: unless filtered out, the headers the
     * section map does not hold yet, then the job's lines.
     */
    method ExecuteJobTemplate(jobNameFilter: string, title: string, repoName: string, jobName: string,
                              groupByRepo: bool, rendered: string)
      requires out.Valid()
      modifies this, out
      ensures out.Valid()
      ensures Filtered(jobNameFilter, jobName) ==>
        out.lines == old(out.lines) && out.count == old(out.count) && sectionMap == old(sectionMap)
      ensures !Filtered(jobNameFilter, jobName) ==>
        sectionMap == MarkAsWritten(old(sectionMap), title, repoName, groupByRepo)
        && out.lines == old(out.lines) + HeaderLines(HeaderStepAsWritten(old(sectionMap), title, repoName, groupByRepo))
          + Emitted(Split(rendered, '\n'))
    {
      if Filtered(jobNameFilter, jobName) {
        return;
      }
      WriteHeaders(title, repoName, groupByRepo);
      out.ExecuteTemplate(rendered);
    }

    /**
     * The header part of `executeJobTemplate`: `title:` if the title is not marked yet, then with
     * grouping on `  repo:` if `title + repoName` is not marked once the title is; each is marked.
     */
    method WriteHeaders(title: string, repoName: string, groupByRepo: bool)
      requires out.Valid()
      modifies this, out
      ensures out.Valid()
      ensures sectionMap == MarkAsWritten(old(sectionMap), title, repoName, groupByRepo)
      ensures out.lines == old(out.lines) + HeaderLines(HeaderStepAsWritten(old(sectionMap), title, repoName, groupByRepo))
      ensures out.count == |out.lines|
    {
      ghost var keys := HeaderStepAsWritten(sectionMap, title, repoName, groupByRepo);
      if title !in sectionMap {
        WriteHeader(Title(title));
      }
      if groupByRepo {
        if title + repoName !in sectionMap {
          WriteHeader(TitleRepo(title, repoName));
        }
      }
      assert HeaderLines(keys) == (if title !in old(sectionMap) then [HeaderLine(Title(title))] else [])
        + (if groupByRepo && title + repoName !in old(sectionMap) + {title} then [HeaderLine(TitleRepo(title, repoName))] else []);
    }

    /** Writes one header line and marks its string in the section map. */
    method WriteHeader(key: SectionKey)
      requires out.Valid()
      modifies this, out
      ensures out.Valid()
      ensures sectionMap == old(sectionMap) + {MapKey(key)}
      ensures out.lines == old(out.lines) + [HeaderLine(key)]
    {
      HeaderLineClean(key);
      CleanWrittenAsIs(HeaderLine(key));
      var line := if key.Title? then key.title + ":" else "  " + key.repo + ":";
      assert line == HeaderLine(key);
      out.OutputConfig(line);
      sectionMap := sectionMap + {if key.Title? then key.title else key.title + key.repo};
    }
  }

  /** With keys that tell the two kinds of header apart, the same two calls do write the `ab:` header. */
  lemma SectionKeysNoCollision()
    ensures Title("ab") in HeaderRun("", {}, [JobCall("a", "b", "x", true), JobCall("ab", "c", "y", false)])
  {
    var calls := [JobCall("a", "b", "x", true), JobCall("ab", "c", "y", false)];
    HeaderRunWritten("", {}, calls, Title("ab"));
    assert Wants("", calls[1], Title("ab"));
  }
}
