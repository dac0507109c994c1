/** The daily coverage aggregation of CI pipelines: executing the service on
    a pipeline writes one daily report result per coverage-bearing build,
    keyed by project, ref path, parameter type, title and date, inserting a
    new row or overwriting the row with the same key. */
module DailyReport {
  import opened Wrappers
  import opened Seqs

  /** A calendar day, the pipeline's creation time truncated to its date. */
  datatype Date = Date(year: int, month: int, day: int)

  /** A CI build: its name and its coverage, if it reported one. */
  datatype Build = Build(name: string, coverage: Option<real>)

  /** The parts of a pipeline the service reads. */
  datatype Pipeline = Pipeline(
    id: int,
    projectId: int,
    sourceRefPath: string,
    createdOn: Date,
    builds: seq<Build>)

  /** The unique key of a daily report result. */
  datatype Key = Key(projectId: int, refPath: string, paramType: string, title: string, date: Date)

  /** The columns an upsert writes besides the key. */
  datatype Attributes = Attributes(value: real, lastPipelineId: int)

  /** One row to upsert. */
  datatype Entry = Entry(key: Key, attrs: Attributes)

  const CoverageParamType: string := "coverage"

  // ---------------------------------------------------------------------
  // The rows a pipeline produces

  /** The builds that reported a coverage value, in pipeline order. */
  function WithCoverage(builds: seq<Build>): (r: seq<Build>)
    ensures forall b :: b in r <==> b in builds && b.coverage.Some?
  {
    if builds == [] then []
    else if builds[0].coverage.Some? then [builds[0]] + WithCoverage(builds[1..])
    else WithCoverage(builds[1..])
  }

  /** The filter keeps every coverage-bearing build as often as the
      pipeline has it, in pipeline order. */
  lemma {:induction false} WithCoverageKeepsOrder(builds: seq<Build>)
    ensures forall b: Build :: b.coverage.Some? ==> multiset(WithCoverage(builds))[b] == multiset(builds)[b]
    ensures IsSubsequence(WithCoverage(builds), builds)
  {
    if builds != [] {
      WithCoverageKeepsOrder(builds[1..]);
      assert builds == [builds[0]] + builds[1..];
      var r := WithCoverage(builds);
      if builds[0].coverage.None? {
        if r != [] {
          assert r[0] in r;
        }
      }
    }
  }

  /** Filtering a concatenation filters each part. */
  lemma {:induction false} WithCoverageAppend(a: seq<Build>, b: seq<Build>)
    ensures WithCoverage(a + b) == WithCoverage(a) + WithCoverage(b)
  {
    if a == [] {
      assert a + b == b;
    } else {
      assert (a + b)[0] == a[0];
      assert (a + b)[1..] == a[1..] + b;
      WithCoverageAppend(a[1..], b);
    }
  }

  /** The row a coverage-bearing build contributes. */
  function CoverageEntry(p: Pipeline, groupName: string -> string, b: Build): (e: Entry)
    requires b.coverage.Some?
  {
    Entry(
      Key(p.projectId, p.sourceRefPath, CoverageParamType, groupName(b.name), p.createdOn),
      Attributes(b.coverage.value, p.id))
  }

  /** The rows the service upserts for `builds` of pipeline `p`: exactly one
      per build with a coverage value, in build order. */
  function CoverageEntries(p: Pipeline, groupName: string -> string, builds: seq<Build>): (r: seq<Entry>)
    ensures |r| == |WithCoverage(builds)|
    ensures forall k :: 0 <= k < |r| ==>
      && r[k].key.title == groupName(WithCoverage(builds)[k].name)
      && Some(r[k].attrs.value) == WithCoverage(builds)[k].coverage
    ensures forall e :: e in r ==>
      && e.key.projectId == p.projectId
      && e.key.refPath == p.sourceRefPath
      && e.key.paramType == CoverageParamType
      && e.key.date == p.createdOn
      && e.attrs.lastPipelineId == p.id
    ensures r == [] <==> forall b :: b in builds ==> b.coverage.None?
  {
    var withCoverage := WithCoverage(builds);
    assert withCoverage != [] ==> withCoverage[0] in withCoverage;
    seq(|withCoverage|, k requires 0 <= k < |withCoverage| => CoverageEntry(p, groupName, withCoverage[k]))
  }

  /** One more build appends at most one row. */
  lemma CoverageEntriesSnoc(p: Pipeline, groupName: string -> string, builds: seq<Build>, b: Build)
    ensures CoverageEntries(p, groupName, builds + [b])
      == CoverageEntries(p, groupName, builds) + (if b.coverage.Some? then [CoverageEntry(p, groupName, b)] else [])
  {
    WithCoverageAppend(builds, [b]);
    assert WithCoverage([b]) == if b.coverage.Some? then [b] else [] by {
      assert [b][1..] == [];
    }
    var w := WithCoverage(builds);
    var lhs := CoverageEntries(p, groupName, builds + [b]);
    var rhs := CoverageEntries(p, groupName, builds) + (if b.coverage.Some? then [CoverageEntry(p, groupName, b)] else []);
    assert |lhs| == |rhs|;
    forall k | 0 <= k < |lhs|
      ensures lhs[k] == rhs[k]
    {
      if k < |w| {
        assert WithCoverage(builds + [b])[k] == w[k];
      }
    }
  }

  // ---------------------------------------------------------------------
  // The report table

  /** No later entry of `entries` has the key of entry `i`. */
  ghost predicate LastForKey(entries: seq<Entry>, i: int)
    requires 0 <= i < |entries|
  {
    forall j :: i < j < |entries| ==> entries[j].key != entries[i].key
  }

  /** Upserting `entries` one after another: each key ends up with the
      attributes of its last entry, keys without an entry keep their row,
      and no key is ever present twice. */
  function UpsertAll(rows: map<Key, Attributes>, entries: seq<Entry>): (r: map<Key, Attributes>)
    decreases |entries|
  {
    if entries == [] then rows
    else
      var n := |entries| - 1;
      UpsertAll(rows, entries[..n])[entries[n].key := entries[n].attrs]
  }

  /** The keys after the upserts are the old keys and the entries' keys;
      no other key appears. */
  lemma {:induction false} UpsertAllKeys(rows: map<Key, Attributes>, entries: seq<Entry>)
    decreases |entries|
    ensures var r := UpsertAll(rows, entries);
      forall k :: k in r <==> k in rows || exists i :: 0 <= i < |entries| && entries[i].key == k
  {
    if entries != [] {
      var n := |entries| - 1;
      var init := entries[..n];
      UpsertAllKeys(rows, init);
      var r := UpsertAll(rows, entries);
      assert forall i :: 0 <= i < n ==> init[i] == entries[i];
      forall k | k in r && k != entries[n].key && k !in rows
        ensures exists i :: 0 <= i < |entries| && entries[i].key == k
      {
        var i :| 0 <= i < n && init[i].key == k;
        assert entries[i].key == k;
      }
    }
  }

  /** Each key an entry names ends up with the attributes of its last entry. */
  lemma {:induction false} UpsertAllLastWins(rows: map<Key, Attributes>, entries: seq<Entry>)
    decreases |entries|
    ensures var r := UpsertAll(rows, entries);
      forall i :: 0 <= i < |entries| && LastForKey(entries, i) ==>
        entries[i].key in r && r[entries[i].key] == entries[i].attrs
  {
    if entries != [] {
      var n := |entries| - 1;
      var init := entries[..n];
      UpsertAllLastWins(rows, init);
      forall i | 0 <= i < n && LastForKey(entries, i)
        ensures LastForKey(init, i)
      {
      }
    }
  }

  /** A key that no entry names keeps its row. */
  lemma {:induction false} UpsertAllUntouched(rows: map<Key, Attributes>, entries: seq<Entry>, k: Key)
    decreases |entries|
    requires k in rows
    requires forall i :: 0 <= i < |entries| ==> entries[i].key != k
    ensures k in UpsertAll(rows, entries) && UpsertAll(rows, entries)[k] == rows[k]
  {
    if entries != [] {
      var n := |entries| - 1;
      assert entries[n].key != k;
      UpsertAllUntouched(rows, entries[..n], k);
    }
  }

  /** The table after executing the service on pipeline `p`. */
  function Executed(rows: map<Key, Attributes>, p: Pipeline, groupName: string -> string): map<Key, Attributes>
  {
    UpsertAll(rows, CoverageEntries(p, groupName, p.builds))
  }

  /** A pipeline without coverage-bearing builds writes nothing. */
  lemma NoCoverageLeavesTableUnchanged(rows: map<Key, Attributes>, p: Pipeline, groupName: string -> string)
    requires forall b :: b in p.builds ==> b.coverage.None?
    ensures Executed(rows, p, groupName) == rows
  {
  }

  /** When every key a pipeline produces already has a row, executing it
      updates those rows and adds none. */
  lemma RerunUpdatesInPlace(rows: map<Key, Attributes>, p: Pipeline, groupName: string -> string)
    requires forall e :: e in CoverageEntries(p, groupName, p.builds) ==> e.key in rows
    ensures Executed(rows, p, groupName).Keys == rows.Keys
  {
    UpsertAllKeys(rows, CoverageEntries(p, groupName, p.builds));
  }

  /** The last execution wins, whatever the pipeline ids: after running
      `first` and then `second`, every key `second` produces holds the
      value of its last build in `second` and `second`'s id, and every other
      key holds what it held after `first`. */
  lemma LastExecutionWins(rows: map<Key, Attributes>, first: Pipeline, second: Pipeline, groupName: string -> string)
    ensures var mid := Executed(rows, first, groupName);
      var after := Executed(mid, second, groupName);
      var es := CoverageEntries(second, groupName, second.builds);
      && (forall i :: 0 <= i < |es| && LastForKey(es, i) ==>
            es[i].key in after && after[es[i].key] == es[i].attrs && after[es[i].key].lastPipelineId == second.id)
      && (forall k :: k in mid && (forall i :: 0 <= i < |es| ==> es[i].key != k) ==> k in after && after[k] == mid[k])
  {
    var mid := Executed(rows, first, groupName);
    var es := CoverageEntries(second, groupName, second.builds);
    UpsertAllLastWins(mid, es);
    forall k | k in mid && (forall i :: 0 <= i < |es| ==> es[i].key != k)
      ensures k in Executed(mid, second, groupName) && Executed(mid, second, groupName)[k] == mid[k]
    {
      UpsertAllUntouched(mid, es, k);
    }
  }

  lemma UpsertAllSnoc(rows: map<Key, Attributes>, entries: seq<Entry>, e: Entry)
    ensures UpsertAll(rows, entries + [e]) == UpsertAll(rows, entries)[e.key := e.attrs]
  {
    assert (entries + [e])[..|entries|] == entries;
  }

  /** Executing over one more build upserts that build's row, if any. */
  lemma ExecuteStep(rows: map<Key, Attributes>, p: Pipeline, groupName: string -> string, i: nat)
    requires i < |p.builds|
    ensures var before := UpsertAll(rows, CoverageEntries(p, groupName, p.builds[..i]));
      var b := p.builds[i];
      UpsertAll(rows, CoverageEntries(p, groupName, p.builds[..i + 1]))
        == if b.coverage.Some? then before[CoverageEntry(p, groupName, b).key := CoverageEntry(p, groupName, b).attrs]
           else before
  {
    var b := p.builds[i];
    var done := CoverageEntries(p, groupName, p.builds[..i]);
    assert p.builds[..i + 1] == p.builds[..i] + [b];
    CoverageEntriesSnoc(p, groupName, p.builds[..i], b);
    if b.coverage.Some? {
      UpsertAllSnoc(rows, done, CoverageEntry(p, groupName, b));
    } else {
      assert done + [] == done;
    }
  }

  /** The table of daily report results. */
  class DailyReportResults {
    var rows: map<Key, Attributes>

    constructor ()
      ensures rows == map[]
    {
      rows := map[];
    }

    /** Inserts the row for the entry's key, or overwrites the value and
        last pipeline id of the row that has it. */
    method Upsert(e: Entry)
      modifies this
      ensures rows == old(rows)[e.key := e.attrs]
    {
      rows := rows[e.key := e.attrs];
    }
  }

  /** `execute(pipeline)`: upserts the coverage row of every build with a
      coverage value, `groupName` giving the title of a build. */
  method Execute(results: DailyReportResults, pipeline: Pipeline, groupName: string -> string)
    modifies results
    ensures results.rows == Executed(old(results.rows), pipeline, groupName)
    ensures (forall b :: b in pipeline.builds ==> b.coverage.None?) ==> results.rows == old(results.rows)
  {
    ghost var start := results.rows;
    var i := 0;
    while i < |pipeline.builds|
      invariant 0 <= i <= |pipeline.builds|
      invariant results.rows == UpsertAll(start, CoverageEntries(pipeline, groupName, pipeline.builds[..i]))
    {
      var b := pipeline.builds[i];
      ExecuteStep(start, pipeline, groupName, i);
      if b.coverage.Some? {
        results.Upsert(CoverageEntry(pipeline, groupName, b));
      }
      i := i + 1;
    }
    assert pipeline.builds[..i] == pipeline.builds;
    assert results.rows == Executed(start, pipeline, groupName);
    if forall b :: b in pipeline.builds ==> b.coverage.None? {
      NoCoverageLeavesTableUnchanged(start, pipeline, groupName);
    }
  }

  // ---------------------------------------------------------------------
  // Group names

  function LeadingDigits(s: string): (n: nat)
    ensures n <= |s|
  {
    if s != [] && '0' <= s[0] <= '9' then 1 + LeadingDigits(s[1..]) else 0
  }

  function TrimLeadingSpaces(s: string): string
  {
    if s != [] && s[0] == ' ' then TrimLeadingSpaces(s[1..]) else s
  }

  /** A group name that drops a leading `N/M` shard prefix and the spaces
      after it; any other name is its own group name. */
  function ShardGroupName(name: string): (title: string)
    ensures name == [] || !('0' <= name[0] <= '9') ==> title == name
  {
    var a := LeadingDigits(name);
    if 0 < a < |name| && name[a] == '/' then
      var rest := name[a + 1..];
      var b := LeadingDigits(rest);
      if 0 < b then TrimLeadingSpaces(rest[b..]) else name
    else name
  }

  predicate AllDigits(s: string)
  {
    forall k :: 0 <= k < |s| ==> '0' <= s[k] <= '9'
  }

  lemma {:induction false} LeadingDigitsOf(digits: string, rest: string)
    requires AllDigits(digits)
    requires rest == [] || !('0' <= rest[0] <= '9')
    ensures LeadingDigits(digits + rest) == |digits|
  {
    if digits != [] {
      assert (digits + rest)[1..] == digits[1..] + rest;
      LeadingDigitsOf(digits[1..], rest);
    } else {
      assert digits + rest == rest;
    }
  }

  /** Spaces after the shard prefix are dropped. */
  lemma TrimOneSpace(title: string)
    requires title == [] || title[0] != ' '
    ensures TrimLeadingSpaces([' '] + title) == title
  {
    assert ([' '] + title)[1..] == title;
  }

  /** The parts of a name with a shard prefix. */
  lemma ShardNameSplit(n: string, m: string, title: string)
    requires n != [] && AllDigits(n) && m != [] && AllDigits(m)
    ensures var name := n + "/" + m + " " + title;
      && LeadingDigits(name) == |n| && |n| < |name| && name[|n|] == '/'
      && name[|n| + 1..] == m + ([' '] + title)
      && LeadingDigits(name[|n| + 1..]) == |m|
  {
    var tail := [' '] + title;
    var afterN := ['/'] + (m + tail);
    var name := n + "/" + m + " " + title;
    assert name == n + afterN;
    LeadingDigitsOf(n, afterN);
    assert name[|n| + 1..] == m + tail;
    LeadingDigitsOf(m, tail);
  }

  /** Every shard `N/M` of a job gets the job's own name as group name. */
  lemma ShardPrefixStripped(n: string, m: string, title: string)
    requires n != [] && AllDigits(n) && m != [] && AllDigits(m)
    requires title == [] || title[0] != ' '
    ensures ShardGroupName(n + "/" + m + " " + title) == title
  {
    ShardNameSplit(n, m, title);
    var rest := (n + "/" + m + " " + title)[|n| + 1..];
    assert rest[|m|..] == [' '] + title;
    TrimOneSpace(title);
  }

  /** A one-digit shard prefix `N/M ` is dropped. */
  lemma OneDigitShard(name: string)
    requires |name| > 4 && '0' <= name[0] <= '9' && name[1] == '/' && '0' <= name[2] <= '9' && name[3] == ' '
    requires name[4] != ' '
    ensures ShardGroupName(name) == name[4..]
  {
    ShardPrefixStripped(name[..1], name[2..3], name[4..]);
    assert name == name[..1] + "/" + name[2..3] + " " + name[4..];
  }

  /** The shard names of the service's test all reduce to their job name. */
  lemma ShardGroupNameMeetsExamples()
    ensures ShardGroupName("3/3 rspec") == "rspec"
    ensures ShardGroupName("4/4 rspec") == "rspec"
    ensures ShardGroupName("2/2 karma") == "karma"
    ensures ShardGroupName("3/3 karma") == "karma"
  {
    var r3, r4, k2, k3 := "3/3 rspec", "4/4 rspec", "2/2 karma", "3/3 karma";
    OneDigitShard(r3);
    assert r3[4..] == "rspec";
    OneDigitShard(r4);
    assert r4[4..] == "rspec";
    OneDigitShard(k2);
    assert k2[4..] == "karma";
    OneDigitShard(k3);
    assert k3[4..] == "karma";
  }

  // ---------------------------------------------------------------------
  // The service's test cases, for any group name that maps the shard
  // names of the test to their job names

  predicate MapsTestShards(groupName: string -> string)
  {
    && groupName("3/3 rspec") == "rspec" && groupName("4/4 rspec") == "rspec"
    && groupName("2/2 karma") == "karma" && groupName("3/3 karma") == "karma"
  }

  function CoverageKey(p: Pipeline, title: string): Key
  {
    Key(p.projectId, p.sourceRefPath, CoverageParamType, title, p.createdOn)
  }

  /** The first pipeline of the test: two sharded jobs with coverage and one
      job without. */
  predicate IsFirstTestPipeline(p: Pipeline)
  {
    && |p.builds| == 3
    && p.builds[0] == Build("3/3 rspec", Some(80.0))
    && p.builds[1] == Build("2/2 karma", Some(90.0))
    && p.builds[2] == Build("extra", None)
  }

  /** The second pipeline of the test: the same project, ref and day, with
      higher coverage. */
  predicate IsSecondTestPipeline(p: Pipeline, first: Pipeline)
  {
    && p.projectId == first.projectId && p.sourceRefPath == first.sourceRefPath && p.createdOn == first.createdOn
    && |p.builds| == 2
    && p.builds[0] == Build("4/4 rspec", Some(84.0))
    && p.builds[1] == Build("3/3 karma", Some(92.0))
  }

  lemma WithCoverageSingle(b: Build)
    ensures WithCoverage([b]) == if b.coverage.Some? then [b] else []
  {
    assert [b][1..] == [];
  }

  /** The rows of two upserts in a row. */
  lemma UpsertTwo(rows: map<Key, Attributes>, e0: Entry, e1: Entry)
    ensures UpsertAll(rows, [e0, e1]) == rows[e0.key := e0.attrs][e1.key := e1.attrs]
  {
    UpsertAllSnoc(rows, [], e0);
    assert [] + [e0] == [e0];
    UpsertAllSnoc(rows, [e0], e1);
    assert [e0] + [e1] == [e0, e1];
  }

  lemma FirstTestPipelineEntries(p: Pipeline, groupName: string -> string)
    requires MapsTestShards(groupName) && IsFirstTestPipeline(p)
    ensures CoverageEntries(p, groupName, p.builds)
      == [Entry(CoverageKey(p, "rspec"), Attributes(80.0, p.id)), Entry(CoverageKey(p, "karma"), Attributes(90.0, p.id))]
  {
    var b := p.builds;
    assert b == [b[0]] + ([b[1]] + [b[2]]);
    WithCoverageAppend([b[0]], [b[1]] + [b[2]]);
    WithCoverageAppend([b[1]], [b[2]]);
    WithCoverageSingle(b[0]);
    WithCoverageSingle(b[1]);
    WithCoverageSingle(b[2]);
    assert WithCoverage(b) == [b[0], b[1]];
  }

  lemma SecondTestPipelineEntries(p: Pipeline, first: Pipeline, groupName: string -> string)
    requires MapsTestShards(groupName) && IsSecondTestPipeline(p, first)
    ensures CoverageEntries(p, groupName, p.builds)
      == [Entry(CoverageKey(first, "rspec"), Attributes(84.0, p.id)), Entry(CoverageKey(first, "karma"), Attributes(92.0, p.id))]
  {
    var b := p.builds;
    assert b == [b[0]] + [b[1]];
    WithCoverageAppend([b[0]], [b[1]]);
    WithCoverageSingle(b[0]);
    WithCoverageSingle(b[1]);
    assert WithCoverage(b) == [b[0], b[1]];
  }

  /** A pipeline producing two rows upserts them in order. */
  lemma ExecutedTwo(rows: map<Key, Attributes>, p: Pipeline, groupName: string -> string, e0: Entry, e1: Entry)
    requires CoverageEntries(p, groupName, p.builds) == [e0, e1]
    ensures Executed(rows, p, groupName) == rows[e0.key := e0.attrs][e1.key := e1.attrs]
  {
    UpsertTwo(rows, e0, e1);
  }

  /** Overwriting two existing rows adds no key. */
  lemma OverwriteKeepsKeys(rows: map<Key, Attributes>, k0: Key, a0: Attributes, k1: Key, a1: Attributes)
    requires k0 in rows && k1 in rows
    ensures rows[k0 := a0][k1 := a1].Keys == rows.Keys
  {
  }

  lemma RspecIsNotKarma(p: Pipeline)
    ensures CoverageKey(p, "rspec") != CoverageKey(p, "karma")
  {
    assert "rspec"[0] != "karma"[0];
  }

  /** The first test case: one row per job with coverage, titled by its group
      name, and none for the job without coverage. */
  lemma FirstRunCreatesCoverageRows(p: Pipeline, groupName: string -> string)
    requires MapsTestShards(groupName) && IsFirstTestPipeline(p)
    ensures Executed(map[], p, groupName)
      == map[CoverageKey(p, "rspec") := Attributes(80.0, p.id), CoverageKey(p, "karma") := Attributes(90.0, p.id)]
    ensures forall k :: k in Executed(map[], p, groupName) ==> k.title != "extra"
  {
    FirstTestPipelineEntries(p, groupName);
    ExecutedTwo(map[], p, groupName,
      Entry(CoverageKey(p, "rspec"), Attributes(80.0, p.id)), Entry(CoverageKey(p, "karma"), Attributes(90.0, p.id)));
  }

  /** The second test case: a later run for the same project, ref and day
      overwrites both rows in place. */
  lemma RerunOverwritesRows(first: Pipeline, second: Pipeline, groupName: string -> string)
    requires MapsTestShards(groupName) && IsFirstTestPipeline(first) && IsSecondTestPipeline(second, first)
    ensures var before := Executed(map[], first, groupName);
      var after := Executed(before, second, groupName);
      && after.Keys == before.Keys
      && CoverageKey(first, "rspec") in after && after[CoverageKey(first, "rspec")] == Attributes(84.0, second.id)
      && CoverageKey(first, "karma") in after && after[CoverageKey(first, "karma")] == Attributes(92.0, second.id)
  {
    var rspec, karma := CoverageKey(first, "rspec"), CoverageKey(first, "karma");
    RspecIsNotKarma(first);
    FirstRunCreatesCoverageRows(first, groupName);
    var before := Executed(map[], first, groupName);
    SecondTestPipelineEntries(second, first, groupName);
    ExecutedTwo(before, second, groupName,
      Entry(rspec, Attributes(84.0, second.id)), Entry(karma, Attributes(92.0, second.id)));
    OverwriteKeepsKeys(before, rspec, Attributes(84.0, second.id), karma, Attributes(92.0, second.id));
  }

  /** The third test case: the older pipeline, executed after the newer
      one, overwrites the rows with its own id and coverage. */
  lemma OlderPipelineExecutedLastWins(older: Pipeline, newer: Pipeline, groupName: string -> string)
    requires MapsTestShards(groupName) && IsFirstTestPipeline(older) && IsSecondTestPipeline(newer, older)
    requires older.id < newer.id
    ensures var after := Executed(Executed(map[], newer, groupName), older, groupName);
      && CoverageKey(older, "rspec") in after && after[CoverageKey(older, "rspec")] == Attributes(80.0, older.id)
      && CoverageKey(older, "karma") in after && after[CoverageKey(older, "karma")] == Attributes(90.0, older.id)
  {
    RspecIsNotKarma(older);
    FirstTestPipelineEntries(older, groupName);
    ExecutedTwo(Executed(map[], newer, groupName), older, groupName,
      Entry(CoverageKey(older, "rspec"), Attributes(80.0, older.id)), Entry(CoverageKey(older, "karma"), Attributes(90.0, older.id)));
  }
}
