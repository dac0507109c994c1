# Issue-board removal and daily coverage reports

This project models two small, independent pieces of a GitLab-style web
application and proves properties of them in Dafny.

1. **Removing an issue from an issue board** (module `RemoveIssue`,
   `remove_issue.dfy`). The sidebar's "Remove from board" button builds an
   issue update that drops what placed the issue on the board:
   - the labels of the lists the issue is in and the board's own labels come off;
   - the board's default assignee comes off;
   - when the board has a milestone (a truthy `milestone_id`), the issue's
     milestone is cleared (`milestone_id: -1`);
   - when the board has a weight (a truthy `weight`), the issue's weight is
     cleared (`weight: null`).

   Otherwise the payload carries no `milestone_id` or `weight` key. An emptied label list is sent as `['']` and an emptied assignee list as
   `['0']`. The request goes to the issue-update URL with the project path
   filled in. The issue leaves every list of the local board store at once,
   and the detail sidebar is cleared. If the request fails, the issue is put
   back into the lists it was removed from. The board store is a class
   (`BoardStore`) holding the current board, the lists with the ids of their
   issues, and the detail issue. Its methods are proved against the pure
   functions `RemovedFrom` and `AddedTo`. The payload and the URL are pure
   functions with contracts.

2. **Daily coverage aggregation** (module `DailyReport`, `daily_report.dfy`).
   Executing the service on a pipeline takes every build that reported a
   coverage value. Each one gives an upserted row:
   - the key is (project id, ref path, `"coverage"`, the build's group name,
     the pipeline's date);
   - the attributes are the coverage value and the pipeline id.

   The table is a class (`DailyReportResults`) whose `rows` field is a map
   from key to attributes. `Execute` loops over the builds and upserts. It
   is proved equal to `Executed`, the fold of the upserts (`UpsertAll`) over
   the pipeline's coverage rows (`CoverageEntries`). The lemmas state that
   the last execution wins whatever the pipeline ids are. They also state
   that re-running updates rows in place, and that a pipeline without
   coverage writes nothing. Finally, they replay the four cases of the
   service's test:
   - the first run creates the coverage rows (`FirstRunCreatesCoverageRows`);
   - a re-run overwrites them (`RerunOverwritesRows`);
   - an older pipeline run last wins (`OlderPipelineExecutedLastWins`);
   - a pipeline without coverage does nothing (`NoCoverageLeavesTableUnchanged`).
   The model has no error path, so "does not raise" holds trivially.

   The service's own body is not part of this model. Its behaviour is taken
   from what `spec/services/ci/daily_report_result_service_spec.rb` asserts.
   The build's group name (`Ci::Build#group_name`) is not part of this model
   either. It is a parameter `groupName: string -> string`, and the test cases
   are proved for every function that maps the test's shard names (`3/3 rspec`,
   `4/4 rspec`, `2/2 karma`, `3/3 karma`) to their job names.
   `ShardGroupName` is one such function, and it strips a leading `N/M`
   shard prefix.

`wrappers.dfy` holds the `Option` type and `seqs.dfy` the `IsSubsequence`
predicate that the order-preservation contracts use.

JavaScript values that the handler compares or tests are modelled by
`JsValue`: label and assignee ids, the board's milestone, weight and default
assignee, and payload values. Strict equality and `Array.prototype.includes`
become datatype equality. `if (x)` becomes `Truthy(x)`.

Some helpers carry no contract of their own; the rowed members below state
what they mean:
- `RemoveIssue.Truthy` is JavaScript truthiness for the tests at
  `remove_issue.js:62` and `:66`, and `RemovalUpdate` states its use.
- `RemoveIssue.OrSentinel` is the empty-list fallback at `:43-45` and
  `:50-53`, and `PayloadLabelIds` and `PayloadAssigneeIds` state it.
- `RemoveIssue.RemovedFrom` and `RemoveIssue.AddedTo` are the list updates
  at `:80-82` and `:74-76`. `RemovalClearsMembership` and
  `RestoreUndoesRemoval` characterise them, and the `BoardStore` methods are
  proved against them.
- `DailyReport.UpsertAll` is the fold of the upserts, and `UpsertAllKeys`,
  `UpsertAllLastWins` and `UpsertAllUntouched` characterise it.
- `DailyReport.Executed` is one execution of the service on a table.

## Model

| member | source | states |
|---|---|---|
| `RemoveIssue.IndexOf` | app/assets/javascripts/boards/components/sidebar/remove_issue.js:28 | the result is the first position at or after `from` where the pattern occurs; `None` exactly when it occurs nowhere from there |
| `RemoveIssue.UpdateUrl` | app/assets/javascripts/boards/components/sidebar/remove_issue.js:27-29 | a template without `:project_path` is returned unchanged; otherwise the first occurrence, and only that one, is replaced by the project path |
| `RemoveIssue.Reject` | app/assets/javascripts/boards/components/sidebar/remove_issue.js:39-42 | the filtered ids keep exactly the ids that are not excluded, as often as the input has them and in input order (a subsequence) |
| `RemoveIssue.RejectTwice` | app/assets/javascripts/boards/components/sidebar/remove_issue.js:36-42 | filtering by the list labels and then by the board labels equals one set difference against both |
| `RemoveIssue.PayloadLabelIds` | app/assets/javascripts/boards/components/sidebar/remove_issue.js:35-45 | if no issue label survives, `label_ids` is exactly `['']`; otherwise it holds exactly the issue's labels that are neither a list label nor a board label, with their multiplicity and in the issue's order |
| `RemoveIssue.LabelIdsExcludeListAndBoardLabels` | app/assets/javascripts/boards/components/sidebar/remove_issue.js:35-45 | `label_ids` holds no label of the issue's lists and no board label, except that such a label equal to `''` can appear as the sentinel itself; a `''` beside other ids comes from the issue's own labels |
| `RemoveIssue.PayloadAssigneeIds` | app/assets/javascripts/boards/components/sidebar/remove_issue.js:47-53 | `assignee_ids` is the issue's assignee ids without the board's default assignee, with multiplicity and order kept, or exactly `['0']` when that leaves nothing |
| `RemoveIssue.RemovalUpdate` | app/assets/javascripts/boards/components/sidebar/remove_issue.js:55-68 | `label_ids` and `assignee_ids` are always present; `milestone_id` is present, and is `-1`, if and only if the board's milestone id is truthy; `weight` is present, and is `null`, if and only if the board's weight is truthy |
| `RemoveIssue.ListsContaining` | app/assets/javascripts/boards/components/sidebar/remove_issue.js:35 | the captured positions are exactly the lists that show the issue, in increasing store order |
| `RemoveIssue.RemovalClearsMembership` | app/assets/javascripts/boards/components/sidebar/remove_issue.js:79-82 | after the removal the issue is in no list; every list keeps its label and its other issues; lists that did not show the issue are unchanged |
| `RemoveIssue.RestoreUndoesRemoval` | app/assets/javascripts/boards/components/sidebar/remove_issue.js:71-82 | adding the issue back to the lists captured before the removal gives exactly the original lists |
| `RemoveIssue.BoardStore.RemoveFromLists` | app/assets/javascripts/boards/components/sidebar/remove_issue.js:80-82 | the new lists are the old lists with the issue removed from each captured list; board and detail are untouched |
| `RemoveIssue.BoardStore.RestoreAfterFailure` | app/assets/javascripts/boards/components/sidebar/remove_issue.js:71-77 | the failure notification is produced and the issue is added back to each captured list; nothing else changes |
| `RemoveIssue.BoardStore.RemoveIssue` | app/assets/javascripts/boards/components/sidebar/remove_issue.js:32-85 | the URL and payload are computed from the lists captured before the removal; afterwards the issue is in no list, lists it was not in are unchanged, the detail issue is empty and the board is unchanged |
| `RemoveIssue.BoardStore.RemoveIssueSettled` | app/assets/javascripts/boards/components/sidebar/remove_issue.js:32-85 | on request failure the lists are exactly as before and the notification is shown; on success no notification is shown and the lists are exactly `RemovedFrom` of the old lists at the captured positions, so labels are kept and the issue is gone from every list; the detail issue is empty and the board unchanged either way |
| `DailyReport.WithCoverage` | spec/services/ci/daily_report_result_service_spec.rb:7-9 | a build is kept if and only if it is one of the pipeline's builds and its coverage is not nil |
| `DailyReport.WithCoverageKeepsOrder` | spec/services/ci/daily_report_result_service_spec.rb:11-38 | every build with coverage is kept as often as the pipeline has it, in pipeline order |
| `DailyReport.CoverageEntries` | spec/services/ci/daily_report_result_service_spec.rb:15-23 | one row per coverage-bearing build, in order, titled by its group name and valued by its coverage; every row has the pipeline's project, ref path and date, parameter type `coverage` and the pipeline's id; no row at all exactly when no build has coverage |
| `DailyReport.UpsertAllKeys` | spec/services/ci/daily_report_result_service_spec.rb:41-77 | after the upserts the keys are the old keys plus the rows' keys and nothing else, so a key is never added twice |
| `DailyReport.UpsertAllLastWins` | spec/services/ci/daily_report_result_service_spec.rb:80-124 | each key ends up with the attributes of its last row in upsert order |
| `DailyReport.UpsertAllUntouched` | spec/services/ci/daily_report_result_service_spec.rb:41-77 | a row whose key no upserted row names keeps its attributes |
| `DailyReport.NoCoverageLeavesTableUnchanged` | spec/services/ci/daily_report_result_service_spec.rb:127-138 | a pipeline none of whose builds has coverage leaves the table unchanged |
| `DailyReport.RerunUpdatesInPlace` | spec/services/ci/daily_report_result_service_spec.rb:58-77 | when every key a pipeline produces already has a row, executing it adds no key |
| `DailyReport.LastExecutionWins` | spec/services/ci/daily_report_result_service_spec.rb:98-124 | after running one pipeline and then another, whatever their ids, every key of the second holds the second's pipeline id and its last coverage for that key; other keys keep what the first run left |
| `DailyReport.DailyReportResults.Upsert` | spec/services/ci/daily_report_result_service_spec.rb:41-77 | the row for the key is inserted or overwritten and no other row changes |
| `DailyReport.Execute` | spec/services/ci/daily_report_result_service_spec.rb:11-38 | the table after the loop over the builds equals `Executed`, the upserts of the pipeline's coverage rows applied to the old table; with no coverage-bearing build it is unchanged |
| `DailyReport.ShardPrefixStripped` | spec/services/ci/daily_report_result_service_spec.rb:7-8 | `ShardGroupName` maps `N/M title` to `title` whenever `N` and `M` are non-empty digit strings and `title` is empty or does not start with a space (so `3/3 2fa` gives `2fa`) |
| `DailyReport.ShardGroupNameMeetsExamples` | spec/services/ci/daily_report_result_service_spec.rb:50-51 | `3/3 rspec` and `4/4 rspec` both map to `rspec`; `2/2 karma` and `3/3 karma` both map to `karma` |
| `DailyReport.FirstTestPipelineEntries` | spec/services/ci/daily_report_result_service_spec.rb:6-9 | the test's first pipeline yields exactly the rows `rspec` (80) and `karma` (90) |
| `DailyReport.SecondTestPipelineEntries` | spec/services/ci/daily_report_result_service_spec.rb:42-51 | the test's second pipeline yields exactly the rows `rspec` (84) and `karma` (92), under the first pipeline's keys |
| `DailyReport.FirstRunCreatesCoverageRows` | spec/services/ci/daily_report_result_service_spec.rb:11-39 | on an empty table the first pipeline creates exactly two rows, `rspec` with 80 and `karma` with 90, both with its id, and no row titled `extra` |
| `DailyReport.RerunOverwritesRows` | spec/services/ci/daily_report_result_service_spec.rb:41-77 | running the second pipeline afterwards keeps the same two keys and sets them to 84 and 92 with the second pipeline's id |
| `DailyReport.OlderPipelineExecutedLastWins` | spec/services/ci/daily_report_result_service_spec.rb:80-124 | running the older pipeline after the newer one sets the rows to 80 and 90 with the older pipeline's id, although that id is smaller |

## Left out

- The Vue component is not modelled: `Vue.extend`, props, the template and the reactivity of the computed property. These are UI framework concerns.
- The PATCH request and its promise are not modelled. Its outcome is an input: `RestoreAfterFailure` is the failure callback, and `RemoveIssueSettled` takes `requestFailed`. User actions that interleave between the removal and the callback are not modelled.
- The flash notification is only the returned message text. Nothing is displayed.
- The globals `window.gl` and `gl.issueBoards.BoardsStore` are replaced by an explicit `BoardStore` object.
- The implementations of `issue.getLists`, `list.removeIssue` and `list.addIssue` are not shown. The model treats `getLists` as a filter over the store's lists by issue id, `removeIssue` as removing the id from the list's issue set and `addIssue` as inserting it. Any other side effect of either list method is out: issue order and position inside a list, issue counts, label bookkeeping on add or remove, and any request they might make.
- Every board list carries a label here. For a list without one, `list.label.id` would throw in the source, and the model does not cover that case.
- JavaScript numbers are modelled as integers, so `NaN` and `-0` do not arise.
- RemoveIssue.UpdateUrl: the `$` substitution patterns of `String.prototype.replace` (`$&`, `$$`, …) are not modelled. The project path is inserted literally, which matches the source for every path without `$`.
- The body of `Ci::DailyReportResultService#execute` is not part of this model. The model follows what its test asserts.
- Within one execution, two coverage builds with the same title upsert in build order, so the later one wins. The source's single batch `upsert_all` for such duplicates is not shown.
- The ORM and persistence are not modelled: `upsert_all`, `reload`, record ids and the test factories. A row's identity is its key.
- Database-level concurrency of the upsert is not modelled.
- The date is a given `Date` on the pipeline. Timestamp parsing and time zones in `created_at.to_date` are not modelled.
- Coverage values are exact reals, so floating-point rounding is not modelled.
- `Ci::Build#group_name` is a parameter, as its implementation is not part of this model. `ShardGroupName` strips only a leading `N/M` prefix with the spaces after it. It is a stand-in that meets the test's examples, not the real implementation.
