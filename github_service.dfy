/**
 * The GitHub service (services/github_service.py): counting approvals,
 * listing reviews, mirroring a remote pull request into the local table, and
 * the collaborator check.
 *
 * The remote repository is a value (`Repository`); a failing remote call, like
 * a failing database commit, is an exception (`Call.Raised`) rather than an
 * HTTP error: the routes decide what a caller sees.
 */
module GitHubService {
  import opened Common
  import opened Models

  /** A Python call: the value it returns, or the text of the exception it raises. */
  datatype Call<+T> = Returned(value: T) | Raised(exception: string)

  datatype Review = Review(id: int, user: string, state: string, body: string, submittedAt: Option<string>)

  datatype RemotePr = RemotePr(
    number: int,
    htmlUrl: string,
    title: string,
    body: Option<string>,
    state: string,                 // "open" or "closed"
    merged: bool,
    mergedAt: Option<int>,
    closedAt: Option<int>,
    reviews: seq<Review>)

  /**
   * The remote repository: its pull requests by number, the permission level
   * of each user GitHub knows as a collaborator, and what opening a new pull
   * request returns (None when GitHub refuses it).
   */
  datatype Repository = Repository(
    pulls: map<int, RemotePr>,
    collaborators: map<string, string>,
    created: Option<RemotePr>)

  const REPOSITORY_UNREACHABLE := "repository not found"
  const PULL_NOT_FOUND := "pull request not found"
  const PULL_REFUSED := "pull request could not be created"
  const UNKNOWN_COLLABORATOR := "user not found"
  const CHANGE_TYPE_MISSING := "NOT NULL constraint failed: pull_requests.change_type"
  const PR_NUMBER_TAKEN := "UNIQUE constraint failed: pull_requests.github_pr_number"

  /** is_pull_request_approved's default threshold. */
  const REQUIRED_APPROVALS := 1

  /** The permission levels check_user_permission accepts. */
  const WRITE_LEVELS: set<string> := {"write", "admin", "maintain"}

  // ---- Remote calls

  /** get_repository: `repo` is None when the repository cannot be reached. */
  function GetRepository(repo: Option<Repository>): (r: Call<Repository>)
    ensures r.Returned? <==> repo.Some?
    ensures r.Returned? ==> r.value == repo.value
  {
    if repo.Some? then Returned(repo.value) else Raised(REPOSITORY_UNREACHABLE)
  }

  /** get_pull_request. */
  function GetPullRequest(repo: Option<Repository>, number: int): (r: Call<RemotePr>)
    ensures r.Returned? <==> repo.Some? && number in repo.value.pulls
    ensures r.Returned? ==> r.value == repo.value.pulls[number]
  {
    match GetRepository(repo)
    case Raised(e) => Raised(e)
    case Returned(repository) =>
      if number in repository.pulls then Returned(repository.pulls[number]) else Raised(PULL_NOT_FOUND)
  }

  /** create_pull_request: what GitHub returns for the new pull request. The
      title, body and branches go to GitHub and do not change the outcome here. */
  function CreatePullRequest(repo: Option<Repository>, title: string, body: string, head: string, base: string)
    : (r: Call<RemotePr>)
    ensures r.Returned? <==> repo.Some? && repo.value.created.Some?
    ensures r.Returned? ==> r.value == repo.value.created.value
  {
    match GetRepository(repo)
    case Raised(e) => Raised(e)
    case Returned(repository) =>
      if repository.created.Some? then Returned(repository.created.value) else Raised(PULL_REFUSED)
  }

  // ---- Approvals

  predicate IsApproval(r: Review)
  {
    r.state == "APPROVED"
  }

  /** The number of reviews in state "APPROVED", every one of them counted. */
  function ApprovalCount(reviews: seq<Review>): (c: nat)
    ensures c <= |reviews|
  {
    if reviews == [] then 0
    else ApprovalCount(reviews[..|reviews| - 1]) + (if IsApproval(reviews[|reviews| - 1]) then 1 else 0)
  }

  /** The count is zero exactly when no review is an approval, and full exactly when all are. */
  lemma {:induction false} ApprovalCountExtremes(reviews: seq<Review>)
    ensures ApprovalCount(reviews) == 0 <==> forall i :: 0 <= i < |reviews| ==> !IsApproval(reviews[i])
    ensures ApprovalCount(reviews) == |reviews| <==> forall i :: 0 <= i < |reviews| ==> IsApproval(reviews[i])
  {
    if reviews != [] {
      var front := reviews[..|reviews| - 1];
      ApprovalCountExtremes(front);
      assert forall i :: 0 <= i < |front| ==> front[i] == reviews[i];
    }
  }

  function Approved(pr: RemotePr, requiredApprovals: int): bool
  {
    ApprovalCount(pr.reviews) >= requiredApprovals
  }

  /** is_pull_request_approved: count the approvals one review at a time. */
  method IsPullRequestApproved(repo: Option<Repository>, number: int, requiredApprovals: int)
    returns (r: Call<bool>)
    ensures r.Raised? <==> GetPullRequest(repo, number).Raised?
    ensures r.Raised? ==> r == Raised(GetPullRequest(repo, number).exception)
    ensures r.Returned? ==> r.value == Approved(GetPullRequest(repo, number).value, requiredApprovals)
  {
    var pr := GetPullRequest(repo, number);
    if pr.Raised? {
      return Raised(pr.exception);
    }
    var reviews := pr.value.reviews;
    var approvals := 0;
    var i := 0;
    while i < |reviews|
      invariant 0 <= i <= |reviews|
      invariant approvals == ApprovalCount(reviews[..i])
    {
      assert reviews[..i + 1][..i] == reviews[..i];
      if reviews[i].state == "APPROVED" {
        approvals := approvals + 1;
      }
      i := i + 1;
    }
    assert reviews[..i] == reviews;
    r := Returned(approvals >= requiredApprovals);
  }

  /** The count is additive over concatenation, so it ignores where a review sits. */
  lemma {:induction false} ApprovalCountConcat(a: seq<Review>, b: seq<Review>)
    ensures ApprovalCount(a + b) == ApprovalCount(a) + ApprovalCount(b)
  {
    if b != [] {
      var b' := b[..|b| - 1];
      assert (a + b)[..|a + b| - 1] == a + b';
      ApprovalCountConcat(a, b');
    } else {
      assert a + b == a;
    }
  }

  /** A review that is not an approval, wherever it lands, leaves the count alone. */
  lemma OtherReviewKeepsCount(before: seq<Review>, after: seq<Review>, r: Review)
    requires !IsApproval(r)
    ensures ApprovalCount(before + [r] + after) == ApprovalCount(before + after)
  {
    ApprovalCountConcat(before + [r], after);
    ApprovalCountConcat(before, [r]);
    ApprovalCountConcat(before, after);
  }

  /** No new review, of any state, lowers the count. */
  lemma NewReviewNeverLowersCount(reviews: seq<Review>, r: Review)
    ensures ApprovalCount(reviews) <= ApprovalCount(reviews + [r])
  {
    ApprovalCountConcat(reviews, [r]);
  }

  /** The same approval submitted twice counts twice: reviewers are not deduplicated. */
  lemma RepeatedApprovalCountsTwice(reviews: seq<Review>, r: Review)
    requires IsApproval(r)
    ensures ApprovalCount(reviews + [r, r]) == ApprovalCount(reviews) + 2
  {
    ApprovalCountConcat(reviews, [r, r]);
    assert [r, r][..1] == [r];
  }

  /** With the default threshold, approved means at least one "APPROVED" review. */
  lemma DefaultApprovalNeedsOneApproval(pr: RemotePr)
    ensures Approved(pr, REQUIRED_APPROVALS) <==> exists i :: 0 <= i < |pr.reviews| && IsApproval(pr.reviews[i])
  {
    ApprovalCountExtremes(pr.reviews);
  }

  // ---- Reviews

  datatype ReviewInfo = ReviewInfo(id: int, user: string, state: string, body: string, submittedAt: Option<string>)

  function Info(r: Review): ReviewInfo
  {
    ReviewInfo(r.id, r.user, r.state, r.body, r.submittedAt)
  }

  /** get_pull_request_reviews: one summary per review, in review order. */
  function GetPullRequestReviews(repo: Option<Repository>, number: int): (r: Call<seq<ReviewInfo>>)
    ensures r.Raised? <==> GetPullRequest(repo, number).Raised?
    ensures r.Returned? ==>
      var reviews := GetPullRequest(repo, number).value.reviews;
      |r.value| == |reviews| &&
      forall i :: 0 <= i < |reviews| ==>
        && r.value[i].id == reviews[i].id && r.value[i].user == reviews[i].user && r.value[i].state == reviews[i].state
        && r.value[i].body == reviews[i].body && r.value[i].submittedAt == reviews[i].submittedAt
  {
    match GetPullRequest(repo, number)
    case Raised(e) => Raised(e)
    case Returned(pr) => Returned(seq(|pr.reviews|, i requires 0 <= i < |pr.reviews| => Info(pr.reviews[i])))
  }

  // ---- Collaborators

  /**
   * check_user_permission: an unreachable repository raises (that lookup is
   * outside the try); a failed collaborator lookup answers false. True exactly
   * for the levels write, admin and maintain. The requested `permission` is
   * not consulted.
   */
  function CheckUserPermission(repo: Option<Repository>, username: string, permission: string): (r: Call<bool>)
    ensures r.Raised? <==> repo.None?
    ensures r.Returned? ==>
      (r.value <==> username in repo.value.collaborators && repo.value.collaborators[username] in WRITE_LEVELS)
  {
    match GetRepository(repo)
    case Raised(e) => Raised(e)
    case Returned(repository) =>
      var level: Call<string> :=
        if username in repository.collaborators then Returned(repository.collaborators[username])
        else Raised(UNKNOWN_COLLABORATOR);
      match level
      case Raised(_) => Returned(false)
      case Returned(l) => Returned(l in WRITE_LEVELS)
  }

  lemma CheckUserPermissionIgnoresRequest(repo: Option<Repository>, username: string, p1: string, p2: string)
    ensures CheckUserPermission(repo, username, p1) == CheckUserPermission(repo, username, p2)
  {
  }

  // ---- Mirroring a pull request locally

  /** The local status sync writes: only ever "open" or "closed". */
  function SyncStatus(state: string): (s: string)
    ensures s in {"open", "closed"}
    ensures s == "open" <==> state == "open"
  {
    if state == "open" then "open" else "closed"
  }

  /**
   * The update of an existing mirror row: status, approval and merge flag are
   * overwritten; the merge and close instants only when GitHub has one; every
   * other column is kept.
   */
  function Reconcile(local: PullRequest, pr: RemotePr, approved: bool): (r: PullRequest)
    ensures r.status == SyncStatus(pr.state) && r.isApproved == approved && r.isMerged == pr.merged
    ensures r.mergedAt == if pr.mergedAt.Some? then pr.mergedAt else local.mergedAt
    ensures r.closedAt == if pr.closedAt.Some? then pr.closedAt else local.closedAt
    ensures r.number == local.number && r.url == local.url && r.title == local.title
    ensures r.description == local.description
    ensures r.changeType == local.changeType && r.changeTarget == local.changeTarget
    ensures r.changeData == local.changeData
  {
    local.(
      status := SyncStatus(pr.state),
      isApproved := approved,
      isMerged := pr.merged,
      mergedAt := if pr.mergedAt.Some? then pr.mergedAt else local.mergedAt,
      closedAt := if pr.closedAt.Some? then pr.closedAt else local.closedAt)
  }

  /** Reconciling again against the same remote state changes nothing. */
  lemma ReconcileIdempotent(local: PullRequest, pr: RemotePr, approved: bool)
    ensures Reconcile(Reconcile(local, pr, approved), pr, approved) == Reconcile(local, pr, approved)
  {
  }

  /**
   * The row sync builds for a pull request with no mirror yet. As written,
   * the source passes no change type (`changeType == None`), and the
   * database refuses the row; a caller-supplied change type makes it storable.
   */
  function Mirror(pr: RemotePr, approved: bool, changeType: Option<string>): (r: PullRequest)
    ensures r.number == pr.number && r.url == pr.htmlUrl && r.title == pr.title && r.description == pr.body
    ensures r.status == SyncStatus(pr.state) && r.isApproved == approved && r.isMerged == pr.merged
    ensures r.mergedAt == pr.mergedAt && r.closedAt == pr.closedAt
    ensures r.changeType == changeType && r.changeTarget.None? && r.changeData.None?
    ensures PullRequestStorable(r) <==> changeType.Some?
  {
    NewPullRequest(pr.number, pr.htmlUrl, pr.title).(
      description := pr.body,
      status := SyncStatus(pr.state),
      isApproved := approved,
      isMerged := pr.merged,
      changeType := changeType,
      mergedAt := pr.mergedAt,
      closedAt := pr.closedAt)
  }

  /** The mirror row with a given GitHub number, looked up as sync does. */
  function FindPrByNumber(prs: seq<PullRequest>, number: int): (r: Option<nat>)
    ensures r.None? <==> forall i :: 0 <= i < |prs| ==> prs[i].number != number
    ensures r.Some? ==> 1 <= r.value <= |prs| && prs[r.value - 1].number == number
    ensures r.Some? ==> forall i :: 0 <= i < r.value - 1 ==> prs[i].number != number
  {
    FirstWhere(prs, (p: PullRequest) => p.number == number)
  }

  /**
   * sync_pull_request_to_database as a transition on the mirror rows: a
   * remote failure raises and writes nothing; an existing row is reconciled in
   * place; otherwise one new row is committed, unless the database refuses it
   * (a missing change type, or a GitHub number already mirrored).
   */
  function Sync(repo: Option<Repository>, prs: seq<PullRequest>, number: int, changeType: Option<string>)
    : (Call<Entry<PullRequest>>, seq<PullRequest>)
  {
    match GetPullRequest(repo, number)
    case Raised(e) => (Raised(e), prs)
    case Returned(pr) =>
      var approved := Approved(pr, REQUIRED_APPROVALS);
      match FindPrByNumber(prs, number)
      case Some(id) =>
        var row := Reconcile(prs[id - 1], pr, approved);
        (Returned(Entry(id, row)), prs[id - 1 := row])
      case None =>
        var row := Mirror(pr, approved, changeType);
        if !PullRequestStorable(row) then (Raised(CHANGE_TYPE_MISSING), prs)
        else if FindPrByNumber(prs, row.number).Some? then (Raised(PR_NUMBER_TAKEN), prs)
        else (Returned(Entry(|prs| + 1, row)), prs + [row])
  }

  /** The remote numbers pull requests under their own number. */
  ghost predicate NumbersAgree(repo: Option<Repository>)
  {
    repo.Some? ==> forall n :: n in repo.value.pulls ==> repo.value.pulls[n].number == n
  }

  /** What sync returns and writes, case by case. */
  lemma SyncOutcomes(repo: Option<Repository>, prs: seq<PullRequest>, number: int, changeType: Option<string>)
    ensures var (r, after) := Sync(repo, prs, number, changeType);
      && (r.Raised? ==> after == prs)
      && (r.Returned? ==> r.value.row.status in {"open", "closed"})
      && (r.Returned? ==> 1 <= r.value.id <= |after| && after[r.value.id - 1] == r.value.row)
      && (r.Returned? && |after| == |prs| + 1 ==> r.value.id == |after| && after == prs + [r.value.row])
      && (FindPrByNumber(prs, number).Some? && GetPullRequest(repo, number).Returned? ==>
            && r.Returned? && r.value.id == FindPrByNumber(prs, number).value
            && |after| == |prs|
            && r.value.row == Reconcile(prs[r.value.id - 1], GetPullRequest(repo, number).value,
                                        Approved(GetPullRequest(repo, number).value, REQUIRED_APPROVALS))
            && forall i :: 0 <= i < |prs| && i != r.value.id - 1 ==> after[i] == prs[i])
  {
  }

  /**
   * Finding, as written: with no mirror row yet, sync builds the row without
   * a change type, the commit fails, and nothing is ever inserted.
   */
  lemma SyncInsertAsWrittenFails(repo: Option<Repository>, prs: seq<PullRequest>, number: int)
    requires GetPullRequest(repo, number).Returned?
    requires FindPrByNumber(prs, number).None?
    ensures Sync(repo, prs, number, None) == (Raised(CHANGE_TYPE_MISSING), prs)
  {
  }

  /** The same failure on a concrete input: pull request 7 exists on GitHub and
      the local table is empty. */
  lemma SyncInsertAsWrittenExample()
    ensures
      var pr := RemotePr(7, "https://github.com/forgeerp/forgeerp/pull/7", "Deploy", None, "open",
                         false, None, None, []);
      var repo := Some(Repository(map[7 := pr], map[], None));
      Sync(repo, [], 7, None).0.Raised?
  {
  }

  /**
   * Finding, corrected: given a change type, sync of an unmirrored pull
   * request whose remote number agrees commits exactly one storable row.
   */
  lemma SyncInsertWithChangeType(repo: Option<Repository>, prs: seq<PullRequest>, number: int, changeType: string)
    requires NumbersAgree(repo)
    requires GetPullRequest(repo, number).Returned?
    requires FindPrByNumber(prs, number).None?
    ensures var (r, after) := Sync(repo, prs, number, Some(changeType));
      && r.Returned? && r.value.id == |prs| + 1
      && after == prs + [r.value.row]
      && PullRequestStorable(r.value.row) && r.value.row.number == number
      && r.value.row.changeType == Some(changeType)
  {
  }

  /** Sync adds a row only under a number not yet mirrored. */
  lemma SyncKeepsNumbersUnique(repo: Option<Repository>, prs: seq<PullRequest>, number: int, changeType: Option<string>)
    requires UniquePrNumbers(prs)
    ensures UniquePrNumbers(Sync(repo, prs, number, changeType).1)
  {
    var after := Sync(repo, prs, number, changeType).1;
    if |after| == |prs| + 1 {
      forall i, j | 0 <= i < j < |after| ensures after[i].number != after[j].number {
        if j == |prs| {
          assert after[i] == prs[i];
        }
      }
    } else {
      assert |after| == |prs|;
      assert forall i :: 0 <= i < |prs| ==> after[i].number == prs[i].number;
    }
  }

  /** Rewriting one row without changing its number keeps what a number finds. */
  lemma {:induction false} FindPrSurvivesUpdate(prs: seq<PullRequest>, id: nat, row: PullRequest, number: int)
    requires 1 <= id <= |prs|
    requires row.number == prs[id - 1].number
    ensures FindPrByNumber(prs[id - 1 := row], number) == FindPrByNumber(prs, number)
  {
    var after := prs[id - 1 := row];
    assert forall i :: 0 <= i < |prs| ==> after[i].number == prs[i].number;
    var a := FindPrByNumber(after, number);
    var b := FindPrByNumber(prs, number);
    if a.Some? && b.Some? {
      assert after[b.value - 1].number == number;
      assert prs[a.value - 1].number == number;
    }
  }

  /**
   * Syncing twice against unchanged remote state: the second sync returns the
   * same row under the same key and leaves the table as the first left it.
   */
  lemma {:induction false} SyncIdempotent(repo: Option<Repository>, prs: seq<PullRequest>, number: int,
                                          changeType: Option<string>)
    requires NumbersAgree(repo)
    requires Sync(repo, prs, number, changeType).0.Returned?
    ensures var (r1, s1) := Sync(repo, prs, number, changeType);
      Sync(repo, s1, number, changeType) == (r1, s1)
  {
    if FindPrByNumber(prs, number).Some? {
      SyncAgainExisting(repo, prs, number, changeType);
    } else {
      SyncAgainCreated(repo, prs, number, changeType);
    }
  }

  /** The idempotence step for a pull request that was already mirrored. */
  lemma {:induction false} SyncAgainExisting(repo: Option<Repository>, prs: seq<PullRequest>, number: int,
                                             changeType: Option<string>)
    requires GetPullRequest(repo, number).Returned?
    requires FindPrByNumber(prs, number).Some?
    ensures var (r1, s1) := Sync(repo, prs, number, changeType);
      Sync(repo, s1, number, changeType) == (r1, s1)
  {
    var (r1, s1) := Sync(repo, prs, number, changeType);
    var pr := GetPullRequest(repo, number).value;
    var approved := Approved(pr, REQUIRED_APPROVALS);
    var id := FindPrByNumber(prs, number).value;
    var row := Reconcile(prs[id - 1], pr, approved);
    assert s1 == prs[id - 1 := row];
    FindPrSurvivesUpdate(prs, id, row, number);
    ReconcileIdempotent(prs[id - 1], pr, approved);
    assert s1[id - 1 := Reconcile(s1[id - 1], pr, approved)] == s1;
  }

  /** The idempotence step for a pull request the first sync mirrored. */
  lemma {:induction false} SyncAgainCreated(repo: Option<Repository>, prs: seq<PullRequest>, number: int,
                                            changeType: Option<string>)
    requires NumbersAgree(repo)
    requires Sync(repo, prs, number, changeType).0.Returned?
    requires FindPrByNumber(prs, number).None?
    ensures var (r1, s1) := Sync(repo, prs, number, changeType);
      Sync(repo, s1, number, changeType) == (r1, s1)
  {
    var (r1, s1) := Sync(repo, prs, number, changeType);
    var pr := GetPullRequest(repo, number).value;
    var approved := Approved(pr, REQUIRED_APPROVALS);
    var row := Mirror(pr, approved, changeType);
    assert s1 == prs + [row];
    assert FindPrByNumber(s1, number) == Some(|s1|) by {
      assert s1[|s1| - 1].number == number;
      assert forall i :: 0 <= i < |prs| ==> s1[i] == prs[i];
    }
    assert Reconcile(row, pr, approved) == row;
    assert s1[|s1| - 1 := row] == s1;
  }

  /**
   * sync_pull_request_to_database: fetch the pull request, count its
   * approvals, then reconcile the mirror row or create one.
   */
  method SyncPullRequestToDatabase(repo: Option<Repository>, prs: Table<PullRequest>, number: int,
                                   changeType: Option<string>)
    returns (r: Call<Entry<PullRequest>>)
    modifies prs
    ensures (r, prs.rows) == Sync(repo, old(prs.rows), number, changeType)
  {
    var pull := GetPullRequest(repo, number);
    if pull.Raised? {
      return Raised(pull.exception);
    }
    var pr := pull.value;
    var existing := FindPrByNumber(prs.rows, number);
    var approved := IsPullRequestApproved(repo, number, REQUIRED_APPROVALS);
    if existing.Some? {
      var row := Reconcile(prs.rows[existing.value - 1], pr, approved.value);
      prs.Put(existing.value, row);
      return Returned(Entry(existing.value, row));
    }
    var row := Mirror(pr, approved.value, changeType);
    if !PullRequestStorable(row) {
      return Raised(CHANGE_TYPE_MISSING);
    }
    if FindPrByNumber(prs.rows, row.number).Some? {
      return Raised(PR_NUMBER_TAKEN);
    }
    var id := prs.Insert(row);
    r := Returned(Entry(id, row));
  }
}
