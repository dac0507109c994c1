/** The "Remove from board" action of the issue board sidebar: it computes
    the PATCH payload that takes an issue off the board, removes the issue
    from the lists of the local board store at once, and puts it back into
    those lists when the request fails. */
module RemoveIssue {
  import opened Wrappers
  import opened Seqs

  /** A JavaScript primitive as it occurs in board data: ids, flags and
      payload values. Numbers are integers; strict equality (`===`,
      `!==`, `Array.prototype.includes`) is equality of these values. */
  datatype JsValue = Undefined | Null | Bool(b: bool) | Num(n: int) | Str(s: string)

  /** JavaScript truthiness, as used by `if (board.milestone_id)`. */
  predicate Truthy(v: JsValue)
  {
    match v
    case Undefined => false
    case Null => false
    case Bool(b) => b
    case Num(n) => n != 0
    case Str(s) => s != ""
  }

  datatype Label = Label(id: JsValue)
  datatype Assignee = Assignee(id: JsValue)

  /** The sidebar's issue: its id, the path of its project, its labels and
      its assignees, in the order the issue lists them. */
  datatype Issue = Issue(id: int, projectPath: string, labels: seq<Label>, assignees: seq<Assignee>)

  /** The current board: its scoping labels, milestone, weight and default
      assignee. */
  datatype Board = Board(labels: seq<Label>, milestoneId: JsValue, weight: JsValue, assigneeId: JsValue)

  /** A board list: the label it stands for and the ids of the issues it shows. */
  datatype BoardList = BoardList(listLabel: Label, issues: set<int>)

  /** The `issue` object of the PATCH body. An optional key that the payload
      does not carry is `None`. */
  datatype IssueUpdate = IssueUpdate(
    labelIds: seq<JsValue>,
    assigneeIds: seq<JsValue>,
    milestoneId: Option<JsValue>,
    weight: Option<JsValue>)

  const ProjectPathPlaceholder: string := ":project_path"
  /** Sent as the only label id to clear all labels. */
  const NoLabelsSentinel: JsValue := Str("")
  /** Sent as the only assignee id to set "No Assignee" explicitly. */
  const NoAssigneeSentinel: JsValue := Str("0")
  /** Sent as the milestone id to take the board's milestone off the issue. */
  const NoMilestone: JsValue := Num(-1)
  const FailureMessage: string := "Failed to remove issue from board, please try again."

  // ---------------------------------------------------------------------
  // The update URL

  predicate OccursAt(s: string, pat: string, i: int)
  {
    0 <= i && i + |pat| <= |s| && s[i..i + |pat|] == pat
  }

  /** The first position at or after `from` where `pat` occurs in `s`. */
  function IndexOf(s: string, pat: string, from: nat): (r: Option<nat>)
    decreases |s| - from
    ensures r.Some? ==> from <= r.value && OccursAt(s, pat, r.value)
    ensures r.Some? ==> forall j :: from <= j < r.value ==> !OccursAt(s, pat, j)
    ensures r.None? ==> forall j :: from <= j ==> !OccursAt(s, pat, j)
  {
    if from + |pat| > |s| then None
    else if s[from..from + |pat|] == pat then Some(from)
    else IndexOf(s, pat, from + 1)
  }

  /** `updateUrl`: `String.prototype.replace` with a string pattern, which
      substitutes the project path for the first placeholder only. */
  function UpdateUrl(issueUpdate: string, projectPath: string): (url: string)
    ensures (forall j :: !OccursAt(issueUpdate, ProjectPathPlaceholder, j)) ==> url == issueUpdate
    ensures forall i :: OccursAt(issueUpdate, ProjectPathPlaceholder, i)
                     && (forall j :: 0 <= j < i ==> !OccursAt(issueUpdate, ProjectPathPlaceholder, j))
                     ==> url == issueUpdate[..i] + projectPath + issueUpdate[i + |ProjectPathPlaceholder|..]
  {
    match IndexOf(issueUpdate, ProjectPathPlaceholder, 0)
    case None => issueUpdate
    case Some(i) =>
      assert forall k :: OccursAt(issueUpdate, ProjectPathPlaceholder, k)
                      && (forall j :: 0 <= j < k ==> !OccursAt(issueUpdate, ProjectPathPlaceholder, j))
                      ==> k == i;
      issueUpdate[..i] + projectPath + issueUpdate[i + |ProjectPathPlaceholder|..]
  }

  // ---------------------------------------------------------------------
  // The label and assignee filters

  function LabelIds(labels: seq<Label>): seq<JsValue>
  {
    seq(|labels|, k requires 0 <= k < |labels| => labels[k].id)
  }

  function AssigneeIds(assignees: seq<Assignee>): seq<JsValue>
  {
    seq(|assignees|, k requires 0 <= k < |assignees| => assignees[k].id)
  }

  function ListLabelIds(lists: seq<BoardList>): seq<JsValue>
  {
    seq(|lists|, k requires 0 <= k < |lists| => lists[k].listLabel.id)
  }

  /** `ids.filter(id => !excluded.includes(id))`. */
  function Reject(ids: seq<JsValue>, excluded: seq<JsValue>): (r: seq<JsValue>)
    ensures forall x :: x in r <==> x in ids && x !in excluded
    ensures forall x :: multiset(r)[x] == if x in excluded then 0 else multiset(ids)[x]
    ensures IsSubsequence(r, ids)
  {
    if ids == [] then []
    else
      assert ids == [ids[0]] + ids[1..];
      if ids[0] in excluded then Reject(ids[1..], excluded)
      else [ids[0]] + Reject(ids[1..], excluded)
  }

  /** Filtering twice in a row is a single set difference against both
      exclusion lists. */
  lemma {:induction false} RejectTwice(ids: seq<JsValue>, first: seq<JsValue>, second: seq<JsValue>)
    ensures Reject(Reject(ids, first), second) == Reject(ids, first + second)
  {
    if ids != [] {
      RejectTwice(ids[1..], first, second);
    }
  }

  /** An empty id list is replaced by the one-element sentinel list. */
  function OrSentinel(ids: seq<JsValue>, sentinel: JsValue): seq<JsValue>
  {
    if |ids| == 0 then [sentinel] else ids
  }

  /** A label id the payload keeps: the issue has it, and neither one of
      the issue's lists nor the board is scoped by it. */
  predicate KeptLabel(x: JsValue, issue: Issue, lists: seq<BoardList>, board: Board)
  {
    x in LabelIds(issue.labels) && x !in ListLabelIds(lists) && x !in LabelIds(board.labels)
  }

  /** `label_ids` of the payload, given the lists the issue is in. */
  function PayloadLabelIds(issue: Issue, lists: seq<BoardList>, board: Board): (r: seq<JsValue>)
    ensures (forall x :: !KeptLabel(x, issue, lists, board)) ==> r == [NoLabelsSentinel]
    ensures (exists x :: KeptLabel(x, issue, lists, board)) ==>
              && (forall x :: x in r <==> KeptLabel(x, issue, lists, board))
              && (forall x :: KeptLabel(x, issue, lists, board) ==> multiset(r)[x] == multiset(LabelIds(issue.labels))[x])
              && IsSubsequence(r, LabelIds(issue.labels))
  {
    var ids := LabelIds(issue.labels);
    var kept := Reject(Reject(ids, ListLabelIds(lists)), LabelIds(board.labels));
    RejectTwice(ids, ListLabelIds(lists), LabelIds(board.labels));
    assert forall x :: x in kept <==> KeptLabel(x, issue, lists, board);
    assert forall x :: KeptLabel(x, issue, lists, board) ==> multiset(kept)[x] == multiset(ids)[x];
    OrSentinel(kept, NoLabelsSentinel)
  }

  /** The payload never names a label of one of the issue's lists or of the
      board, except as the clear-all sentinel when nothing else is left. */
  lemma LabelIdsExcludeListAndBoardLabels(issue: Issue, lists: seq<BoardList>, board: Board)
    ensures var r := PayloadLabelIds(issue, lists, board);
      forall x :: x in r && (x in ListLabelIds(lists) || x in LabelIds(board.labels)) ==>
        r == [NoLabelsSentinel] && x == NoLabelsSentinel
    ensures var r := PayloadLabelIds(issue, lists, board);
      NoLabelsSentinel in r && r != [NoLabelsSentinel] ==> NoLabelsSentinel in LabelIds(issue.labels)
  {
  }

  /** `assignee_ids` of the payload. */
  function PayloadAssigneeIds(issue: Issue, board: Board): (r: seq<JsValue>)
    ensures (forall x :: x in AssigneeIds(issue.assignees) ==> x == board.assigneeId) ==> r == [NoAssigneeSentinel]
    ensures (exists x :: x in AssigneeIds(issue.assignees) && x != board.assigneeId) ==>
              && (forall x :: x in r <==> x in AssigneeIds(issue.assignees) && x != board.assigneeId)
              && (forall x :: x != board.assigneeId ==> multiset(r)[x] == multiset(AssigneeIds(issue.assignees))[x])
              && IsSubsequence(r, AssigneeIds(issue.assignees))
  {
    OrSentinel(Reject(AssigneeIds(issue.assignees), [board.assigneeId]), NoAssigneeSentinel)
  }

  /** The whole `issue` object sent by the removal request. */
  function RemovalUpdate(issue: Issue, lists: seq<BoardList>, board: Board): (u: IssueUpdate)
    ensures u.labelIds == PayloadLabelIds(issue, lists, board)
    ensures u.assigneeIds == PayloadAssigneeIds(issue, board)
    ensures u.milestoneId.Some? <==> Truthy(board.milestoneId)
    ensures u.milestoneId.Some? ==> u.milestoneId.value == NoMilestone
    ensures u.weight.Some? <==> Truthy(board.weight)
    ensures u.weight.Some? ==> u.weight.value == Null
  {
    IssueUpdate(
      PayloadLabelIds(issue, lists, board),
      PayloadAssigneeIds(issue, board),
      if Truthy(board.milestoneId) then Some(NoMilestone) else None,
      if Truthy(board.weight) then Some(Null) else None)
  }

  // ---------------------------------------------------------------------
  // List membership in the board store

  /** `issue.getLists()`: the positions of the store's lists that show the
      issue, in store order. */
  function ListsContaining(lists: seq<BoardList>, id: int): (r: seq<nat>)
    ensures forall k :: 0 <= k < |r| ==> r[k] < |lists| && id in lists[r[k]].issues
    ensures forall i :: 0 <= i < |lists| && id in lists[i].issues ==> i in r
    ensures forall k, l :: 0 <= k < l < |r| ==> r[k] < r[l]
  {
    if lists == [] then []
    else
      var earlier := ListsContaining(lists[..|lists| - 1], id);
      if id in lists[|lists| - 1].issues then earlier + [|lists| - 1] else earlier
  }

  /** The lists at the given positions. */
  function Pick(lists: seq<BoardList>, idx: seq<nat>): seq<BoardList>
    requires forall k :: 0 <= k < |idx| ==> idx[k] < |lists|
  {
    seq(|idx|, k requires 0 <= k < |idx| => lists[idx[k]])
  }

  /** Every list at a position in `idx` with the issue removed. */
  function RemovedFrom(lists: seq<BoardList>, idx: seq<nat>, id: int): seq<BoardList>
  {
    seq(|lists|, i requires 0 <= i < |lists| =>
      if i in idx then lists[i].(issues := lists[i].issues - {id}) else lists[i])
  }

  /** Every list at a position in `idx` with the issue added. */
  function AddedTo(lists: seq<BoardList>, idx: seq<nat>, id: int): seq<BoardList>
  {
    seq(|lists|, i requires 0 <= i < |lists| =>
      if i in idx then lists[i].(issues := lists[i].issues + {id}) else lists[i])
  }

  /** Removing the issue from the lists that show it leaves it in no list,
      and changes no list that did not show it. */
  lemma RemovalClearsMembership(lists: seq<BoardList>, id: int)
    ensures var r := RemovedFrom(lists, ListsContaining(lists, id), id);
      && |r| == |lists|
      && (forall i :: 0 <= i < |r| ==> id !in r[i].issues)
      && (forall i :: 0 <= i < |r| ==> r[i].listLabel == lists[i].listLabel && r[i].issues == lists[i].issues - {id})
      && (forall i :: 0 <= i < |r| && id !in lists[i].issues ==> r[i] == lists[i])
  {
  }

  /** Adding the issue back to the lists captured before the removal
      restores the board lists exactly. */
  lemma RestoreUndoesRemoval(lists: seq<BoardList>, id: int)
    ensures var captured := ListsContaining(lists, id);
      AddedTo(RemovedFrom(lists, captured, id), captured, id) == lists
  {
    var captured := ListsContaining(lists, id);
    var r := AddedTo(RemovedFrom(lists, captured, id), captured, id);
    forall i | 0 <= i < |lists|
      ensures r[i] == lists[i]
    {
      if i in captured {
        assert lists[i].issues - {id} + {id} == lists[i].issues;
      }
    }
  }

  /** One more captured position, handled by one step of a loop. */
  lemma RemovedFromStep(lists: seq<BoardList>, captured: seq<nat>, k: nat, id: int)
    requires k < |captured| && captured[k] < |lists|
    ensures var prev := RemovedFrom(lists, captured[..k], id);
      RemovedFrom(lists, captured[..k + 1], id)
        == prev[captured[k] := prev[captured[k]].(issues := prev[captured[k]].issues - {id})]
  {
    var prev := RemovedFrom(lists, captured[..k], id);
    var next := RemovedFrom(lists, captured[..k + 1], id);
    assert captured[..k + 1] == captured[..k] + [captured[k]];
    forall i | 0 <= i < |lists|
      ensures next[i] == prev[captured[k] := prev[captured[k]].(issues := prev[captured[k]].issues - {id})][i]
    {
    }
  }

  lemma AddedToStep(lists: seq<BoardList>, captured: seq<nat>, k: nat, id: int)
    requires k < |captured| && captured[k] < |lists|
    ensures var prev := AddedTo(lists, captured[..k], id);
      AddedTo(lists, captured[..k + 1], id)
        == prev[captured[k] := prev[captured[k]].(issues := prev[captured[k]].issues + {id})]
  {
    var prev := AddedTo(lists, captured[..k], id);
    var next := AddedTo(lists, captured[..k + 1], id);
    assert captured[..k + 1] == captured[..k] + [captured[k]];
    forall i | 0 <= i < |lists|
      ensures next[i] == prev[captured[k] := prev[captured[k]].(issues := prev[captured[k]].issues + {id})][i]
    {
    }
  }

  /** The board store as the removal button sees it: the current board,
      its lists and the issue shown in the detail sidebar. */
  class BoardStore {
    var currentBoard: Board
    var lists: seq<BoardList>
    var detailIssue: Option<Issue>

    constructor (board: Board, initial: seq<BoardList>, detail: Option<Issue>)
      ensures currentBoard == board && lists == initial && detailIssue == detail
    {
      currentBoard := board;
      lists := initial;
      detailIssue := detail;
    }

    /** `removeIssue`: computes the URL and payload of the request, then
        removes the issue from every list that shows it and clears the
        detail sidebar. The positions of those lists are returned so that
        a failed request can put the issue back. */
    method RemoveIssue(issue: Issue, issueUpdate: string) returns (url: string, update: IssueUpdate, captured: seq<nat>)
      modifies this
      ensures captured == ListsContaining(old(lists), issue.id)
      ensures url == UpdateUrl(issueUpdate, issue.projectPath)
      ensures update == RemovalUpdate(issue, Pick(old(lists), captured), old(currentBoard))
      ensures lists == RemovedFrom(old(lists), captured, issue.id)
      ensures forall i :: 0 <= i < |lists| ==> issue.id !in lists[i].issues
      ensures forall i :: 0 <= i < |lists| && i !in captured ==> lists[i] == old(lists[i])
      ensures detailIssue == None
      ensures currentBoard == old(currentBoard)
    {
      var board := currentBoard;
      captured := ListsContaining(lists, issue.id);
      update := RemovalUpdate(issue, Pick(lists, captured), board);
      url := UpdateUrl(issueUpdate, issue.projectPath);
      // The request is sent here; its failure is handled by RestoreAfterFailure.
      RemoveFromLists(issue.id, captured);
      RemovalClearsMembership(old(lists), issue.id);
      detailIssue := None;
    }

    /** `lists.forEach(list => list.removeIssue(issue))`. */
    method RemoveFromLists(id: int, captured: seq<nat>)
      requires forall k :: 0 <= k < |captured| ==> captured[k] < |lists|
      modifies this
      ensures lists == RemovedFrom(old(lists), captured, id)
      ensures detailIssue == old(detailIssue) && currentBoard == old(currentBoard)
    {
      ghost var before := lists;
      var k := 0;
      while k < |captured|
        invariant 0 <= k <= |captured|
        invariant detailIssue == old(detailIssue) && currentBoard == old(currentBoard)
        invariant lists == RemovedFrom(before, captured[..k], id)
      {
        var i := captured[k];
        RemovedFromStep(before, captured, k, id);
        lists := lists[i := lists[i].(issues := lists[i].issues - {id})];
        k := k + 1;
      }
      assert captured[..k] == captured;
    }

    /** The failure callback of the request: it reports the failure and
        adds the issue back to each list captured before the removal. */
    method RestoreAfterFailure(issue: Issue, captured: seq<nat>) returns (flash: string)
      requires forall k :: 0 <= k < |captured| ==> captured[k] < |lists|
      modifies this
      ensures flash == FailureMessage
      ensures lists == AddedTo(old(lists), captured, issue.id)
      ensures detailIssue == old(detailIssue) && currentBoard == old(currentBoard)
    {
      flash := FailureMessage;
      ghost var before := lists;
      var k := 0;
      while k < |captured|
        invariant 0 <= k <= |captured|
        invariant detailIssue == old(detailIssue) && currentBoard == old(currentBoard)
        invariant lists == AddedTo(before, captured[..k], issue.id)
      {
        var i := captured[k];
        AddedToStep(before, captured, k, issue.id);
        lists := lists[i := lists[i].(issues := lists[i].issues + {issue.id})];
        k := k + 1;
      }
      assert captured[..k] == captured;
    }

    /** The removal followed by the outcome of its request: when the request
        fails, the lists are exactly as before and a notification is shown;
        otherwise the issue is in no list. The detail sidebar stays cleared
        either way. */
    method RemoveIssueSettled(issue: Issue, issueUpdate: string, requestFailed: bool)
      returns (url: string, update: IssueUpdate, flash: Option<string>)
      modifies this
      ensures url == UpdateUrl(issueUpdate, issue.projectPath)
      ensures update == RemovalUpdate(issue, Pick(old(lists), ListsContaining(old(lists), issue.id)), old(currentBoard))
      ensures requestFailed ==> lists == old(lists) && flash == Some(FailureMessage)
      ensures !requestFailed ==> flash == None && lists == RemovedFrom(old(lists), ListsContaining(old(lists), issue.id), issue.id)
      ensures !requestFailed ==> forall i :: 0 <= i < |lists| ==> lists[i].issues == old(lists[i].issues) - {issue.id}
      ensures detailIssue == None && currentBoard == old(currentBoard)
    {
      ghost var before := lists;
      var captured;
      url, update, captured := RemoveIssue(issue, issueUpdate);
      RemovalClearsMembership(before, issue.id);
      flash := None;
      if requestFailed {
        var message := RestoreAfterFailure(issue, captured);
        flash := Some(message);
        RestoreUndoesRemoval(before, issue.id);
      }
    }
  }
}
