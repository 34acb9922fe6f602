/**
 * The GitHub endpoints (api/routes/github.py): workflow generation for a
 * client, opening a pull request for a change and mirroring it, reading a
 * pull request's status through a sync, and listing the mirror rows.
 *
 * Building the GitHub service fails when no token is configured (`tokenSet`);
 * that failure happens outside the routes' try blocks, so it surfaces as the
 * server's generic 500 rather than the routes' own 500 details.
 */
module GitHubRoutes {
  import opened Common
  import opened Models
  import opened Authentication
  import opened Workflows
  import GitHubService

  const UNHANDLED := Error(INTERNAL_SERVER_ERROR, "Internal Server Error")

  // ---- Workflow generation

  datatype GenerateWorkflowsRequest = GenerateWorkflowsRequest(clientId: int, repoDir: Option<string>)

  datatype WorkflowsGenerated = WorkflowsGenerated(
    message: string,
    clientId: int,
    installedModules: seq<string>,
    workflows: seq<string>)

  /** The workflow list the route reports, whatever it generated. */
  const REPORTED_WORKFLOWS := [SETUP_CLIENT, DEPLOY_CLIENT, DIAGNOSE_SERVICES, FIX_COMMON_ISSUES]

  /** The environments the route hands the generator. */
  const ROUTE_ENVIRONMENTS := ["dev", "hml", "prod"]

  /** The module behind installation row `j`, if it still exists. */
  predicate NamesModule(cms: seq<ClientModule>, modules: seq<Module>, clientId: int, j: int, name: string)
    requires 0 <= j < |cms|
  {
    cms[j].clientId == clientId && 1 <= cms[j].moduleId <= |modules| && modules[cms[j].moduleId - 1].name == name
  }

  /**
   * Names of the modules behind the client's installation rows among the first
   * `n`, in row order: inactive rows count too, rows whose module is gone do not.
   */
  function ClientModuleNames(cms: seq<ClientModule>, clientId: int, modules: seq<Module>, n: nat): (names: seq<string>)
    requires n <= |cms|
    ensures |names| <= n
    ensures forall x :: x in names <==> exists j :: 0 <= j < n && NamesModule(cms, modules, clientId, j, x)
  {
    if n == 0 then []
    else
      var front := ClientModuleNames(cms, clientId, modules, n - 1);
      var cm := cms[n - 1];
      if cm.clientId == clientId && 1 <= cm.moduleId <= |modules| then
        var name := modules[cm.moduleId - 1].name;
        var names := front + [name];
        assert NamesModule(cms, modules, clientId, n - 1, name);
        assert forall x :: x in names <==> x in front || x == name;
        names
      else front
  }

  /** `request.repo_dir or GITHUB_REPO_DIR`. */
  function RepoDirFor(request: GenerateWorkflowsRequest, envRepoDir: string): string
  {
    if TruthyText(request.repoDir) then request.repoDir.value else envRepoDir
  }

  /**
   * generate_workflows: 403, then 404 for an unknown client; otherwise the
   * names of the client's modules are collected, the generator writes the
   * client's workflows into the chosen directory (whose earlier contents are
   * `disk`), and the route reports the fixed list of four workflows.
   */
  method GenerateWorkflows(user: User, clients: seq<Client>, modules: seq<Module>, cms: seq<ClientModule>,
                           request: GenerateWorkflowsRequest, envRepoDir: string, disk: map<string, Content>)
    returns (r: Result<WorkflowsGenerated>, workflowsDir: string, written: map<string, Content>)
    ensures !CheckPermission(user, "workflow_generate", Some(request.clientId), None) ==>
      r == Forbidden() && written == disk
    ensures CheckPermission(user, "workflow_generate", Some(request.clientId), None) &&
            Get(clients, request.clientId).None? ==>
      r == Err(Error(NOT_FOUND, "Client not found")) && written == disk
    ensures r.Ok? <==> CheckPermission(user, "workflow_generate", Some(request.clientId), None) &&
                       Get(clients, request.clientId).Some?
    ensures r.Ok? ==>
      var names := ClientModuleNames(cms, request.clientId, modules, |cms|);
      var clientData := ClientData(Some(clients[request.clientId - 1].code), Some(ROUTE_ENVIRONMENTS));
      && r.value == WorkflowsGenerated("Workflows generated successfully", request.clientId, names, REPORTED_WORKFLOWS)
      && workflowsDir == RepoDirFor(request, envRepoDir) + "/.github/workflows"
      && written == disk + WorkflowsFor(clientData, Some(names))
  {
    written := disk;
    workflowsDir := RepoDirFor(request, envRepoDir) + "/.github/workflows";
    if !CheckPermission(user, "workflow_generate", Some(request.clientId), None) {
      return Forbidden(), workflowsDir, written;
    }
    var client := Get(clients, request.clientId);
    if client.None? {
      return Err(Error(NOT_FOUND, "Client not found")), workflowsDir, written;
    }
    var installed: seq<string> := [];
    var i := 0;
    while i < |cms|
      invariant 0 <= i <= |cms|
      invariant installed == ClientModuleNames(cms, request.clientId, modules, i)
    {
      var cm := cms[i];
      if cm.clientId == request.clientId {
        var m := Get(modules, cm.moduleId);
        if m.Some? {
          installed := installed + [m.value.name];
        }
      }
      i := i + 1;
    }
    var generator := new WorkflowGenerator(RepoDirFor(request, envRepoDir), disk);
    var clientData := ClientData(Some(client.value.code), Some(ROUTE_ENVIRONMENTS));
    generator.GenerateWorkflowsForClient(clientData, Some(installed));
    written := generator.files;
    workflowsDir := generator.workflowsDir;
    r := Ok(WorkflowsGenerated("Workflows generated successfully", request.clientId, installed, REPORTED_WORKFLOWS));
  }

  /**
   * The disaster-recovery workflow is generated exactly when some installation
   * row of the client, active or not, points at an existing module named
   * "hetzner"; the reported list never names it.
   */
  lemma DisasterRecoveryFollowsHetzner(cms: seq<ClientModule>, clientId: int, modules: seq<Module>, clientData: ClientData)
    ensures DISASTER_RECOVERY in WorkflowsFor(clientData, Some(ClientModuleNames(cms, clientId, modules, |cms|))) <==>
      exists j :: 0 <= j < |cms| && NamesModule(cms, modules, clientId, j, HETZNER)
    ensures DISASTER_RECOVERY !in REPORTED_WORKFLOWS
  {
  }

  // ---- Opening a pull request

  datatype CreatePrRequest = CreatePrRequest(
    title: string,
    body: string,
    head: string,
    base: string,
    changeType: string,
    changeTarget: Option<string>,
    changeData: Option<seq<(string, string)>>)   // key and the Python repr of its value

  datatype PrCreated = PrCreated(message: string, prNumber: int, prUrl: string, id: nat)

  /** Python's str() of a dictionary whose values are given by their repr. */
  function DictRepr(items: seq<(string, string)>): string
  {
    "{" + DictItems(items) + "}"
  }

  function DictItems(items: seq<(string, string)>): string
  {
    if items == [] then ""
    else if |items| == 1 then "'" + items[0].0 + "': " + items[0].1
    else "'" + items[0].0 + "': " + items[0].1 + ", " + DictItems(items[1..])
  }

  /** The mirror row of a pull request just opened: local title and body, the
      remote number and url, open, the change fields of the request, and the
      change data as text only when it is a non-empty dictionary. */
  function OpenedRow(pr: GitHubService.RemotePr, request: CreatePrRequest): (row: PullRequest)
    ensures row.number == pr.number && row.url == pr.htmlUrl
    ensures row.title == request.title && row.description == Some(request.body)
    ensures row.status == "open" && !row.isApproved && !row.isMerged
    ensures row.changeType == Some(request.changeType) && row.changeTarget == request.changeTarget
    ensures row.changeData.Some? <==> request.changeData.Some? && request.changeData.value != []
    ensures PullRequestStorable(row)
  {
    NewPullRequest(pr.number, pr.htmlUrl, request.title).(
      description := Some(request.body),
      changeType := Some(request.changeType),
      changeTarget := request.changeTarget,
      changeData := if request.changeData.Some? && request.changeData.value != []
                    then Some(DictRepr(request.changeData.value)) else None)
  }

  function CreateFailed<T>(exception: string): Result<T>
  {
    Err(Error(INTERNAL_SERVER_ERROR, "Failed to create pull request: " + exception))
  }

  /**
   * create_pull_request as a transition on the mirror rows: 403 before any
   * remote call; then the pull request is opened on GitHub and only after
   * that is the mirror row committed. A remote failure or a refused commit
   * is 500 and leaves no row.
   */
  function CreatePr(user: User, tokenSet: bool, repo: Option<GitHubService.Repository>,
                    prs: seq<PullRequest>, request: CreatePrRequest): (Result<PrCreated>, seq<PullRequest>)
  {
    if !CheckPermission(user, "pr_create", None, None) then (Forbidden(), prs)
    else if !tokenSet then (Err(UNHANDLED), prs)
    else
      match GitHubService.CreatePullRequest(repo, request.title, request.body, request.head, request.base)
      case Raised(e) => (CreateFailed(e), prs)
      case Returned(pr) =>
        var row := OpenedRow(pr, request);
        if GitHubService.FindPrByNumber(prs, row.number).Some? then (CreateFailed(GitHubService.PR_NUMBER_TAKEN), prs)
        else (Ok(PrCreated("Pull request created successfully", pr.number, pr.htmlUrl, |prs| + 1)), prs + [row])
  }

  /** What create_pull_request returns and writes, case by case. */
  lemma CreatePrOutcomes(user: User, tokenSet: bool, repo: Option<GitHubService.Repository>,
                         prs: seq<PullRequest>, request: CreatePrRequest)
    ensures var (r, after) := CreatePr(user, tokenSet, repo, prs, request);
      && (r.Err? ==> after == prs)
      && (r == Forbidden() <==> !CheckPermission(user, "pr_create", None, None))
      && (r.Err? && r.error.status == FORBIDDEN ==> r == Forbidden())
      && (r.Err? && r.error.status != FORBIDDEN ==> r.error.status == INTERNAL_SERVER_ERROR)
      && (r.Ok? <==>
            && CheckPermission(user, "pr_create", None, None) && tokenSet
            && repo.Some? && repo.value.created.Some?
            && GitHubService.FindPrByNumber(prs, repo.value.created.value.number).None?)
      && (r.Ok? ==>
            && tokenSet && repo.Some? && repo.value.created.Some?
            && after == prs + [OpenedRow(repo.value.created.value, request)]
            && r.value.id == |after| && r.value.prNumber == repo.value.created.value.number
            && after[|prs|].status == "open" && PullRequestStorable(after[|prs|]))
      && (UniquePrNumbers(prs) ==> UniquePrNumbers(after))
  {
    var (r, after) := CreatePr(user, tokenSet, repo, prs, request);
    if r.Ok? && UniquePrNumbers(prs) {
      forall i, j | 0 <= i < j < |after| ensures after[i].number != after[j].number {
        assert after[i] == prs[i];
      }
    }
  }

  /** The permission check comes first: a refused user never reaches GitHub. */
  lemma CreatePrRefusalIgnoresRemote(user: User, t1: bool, t2: bool, repo1: Option<GitHubService.Repository>,
                                     repo2: Option<GitHubService.Repository>, prs: seq<PullRequest>,
                                     request: CreatePrRequest)
    requires !CheckPermission(user, "pr_create", None, None)
    ensures CreatePr(user, t1, repo1, prs, request) == CreatePr(user, t2, repo2, prs, request) == (Forbidden(), prs)
  {
  }

  method CreatePullRequest(user: User, tokenSet: bool, repo: Option<GitHubService.Repository>,
                           prs: Table<PullRequest>, request: CreatePrRequest)
    returns (r: Result<PrCreated>)
    modifies prs
    ensures (r, prs.rows) == CreatePr(user, tokenSet, repo, old(prs.rows), request)
  {
    if !CheckPermission(user, "pr_create", None, None) {
      return Forbidden();
    }
    if !tokenSet {
      return Err(UNHANDLED);
    }
    var created := GitHubService.CreatePullRequest(repo, request.title, request.body, request.head, request.base);
    if created.Raised? {
      return CreateFailed(created.exception);
    }
    var pr := created.value;
    var row := OpenedRow(pr, request);
    if GitHubService.FindPrByNumber(prs.rows, row.number).Some? {
      return CreateFailed(GitHubService.PR_NUMBER_TAKEN);
    }
    var id := prs.Insert(row);
    r := Ok(PrCreated("Pull request created successfully", pr.number, pr.htmlUrl, id));
  }

  // ---- Pull request status

  datatype PrStatus = PrStatus(
    prNumber: int,
    status: string,
    isApproved: bool,
    isMerged: bool,
    reviews: seq<GitHubService.ReviewInfo>,
    changeType: Option<string>,
    changeTarget: Option<string>)

  function StatusFailed<T>(exception: string): Result<T>
  {
    Err(Error(INTERNAL_SERVER_ERROR, "Failed to get PR status: " + exception))
  }

  /**
   * get_pr_status as a transition on the mirror rows: 404 when no row has the
   * number, decided locally; otherwise sync (without a change type, as the
   * source calls it), then read the reviews and report the synced row.
   */
  function PrStatusOf(tokenSet: bool, repo: Option<GitHubService.Repository>, prs: seq<PullRequest>, number: int)
    : (Result<PrStatus>, seq<PullRequest>)
  {
    if GitHubService.FindPrByNumber(prs, number).None? then (Err(Error(NOT_FOUND, "Pull request not found")), prs)
    else if !tokenSet then (Err(UNHANDLED), prs)
    else
      var (synced, after) := GitHubService.Sync(repo, prs, number, None);
      match synced
      case Raised(e) => (StatusFailed(e), after)
      case Returned(entry) =>
        match GitHubService.GetPullRequestReviews(repo, number)
        case Raised(e) => (StatusFailed(e), after)
        case Returned(reviews) =>
          var row := entry.row;
          (Ok(PrStatus(row.number, row.status, row.isApproved, row.isMerged, reviews, row.changeType, row.changeTarget)),
           after)
  }

  /** An unknown number is answered from the local table alone. */
  lemma UnknownPrIgnoresRemote(t1: bool, t2: bool, repo1: Option<GitHubService.Repository>,
                               repo2: Option<GitHubService.Repository>, prs: seq<PullRequest>, number: int)
    requires GitHubService.FindPrByNumber(prs, number).None?
    ensures PrStatusOf(t1, repo1, prs, number) == PrStatusOf(t2, repo2, prs, number)
    ensures PrStatusOf(t1, repo1, prs, number) == (Err(Error(NOT_FOUND, "Pull request not found")), prs)
  {
  }

  /**
   * With a mirror row and the pull request on GitHub, the route reports the
   * remote state as sync maps it, the change fields of the local row, and
   * updates that row in place.
   */
  lemma PrStatusReportsSync(repo: Option<GitHubService.Repository>, prs: seq<PullRequest>, number: int)
    requires GitHubService.FindPrByNumber(prs, number).Some?
    requires GitHubService.GetPullRequest(repo, number).Returned?
    ensures var (r, after) := PrStatusOf(true, repo, prs, number);
      var id := GitHubService.FindPrByNumber(prs, number).value;
      var pr := GitHubService.GetPullRequest(repo, number).value;
      && r.Ok?
      && r.value.status == GitHubService.SyncStatus(pr.state)
      && r.value.isApproved == GitHubService.Approved(pr, GitHubService.REQUIRED_APPROVALS)
      && r.value.isMerged == pr.merged
      && r.value.prNumber == number
      && r.value.changeType == prs[id - 1].changeType && r.value.changeTarget == prs[id - 1].changeTarget
      && r.value.reviews == GitHubService.GetPullRequestReviews(repo, number).value
      && |after| == |prs| && after[id - 1] == GitHubService.Reconcile(prs[id - 1], pr, r.value.isApproved)
  {
    GitHubService.SyncOutcomes(repo, prs, number, None);
  }

  /** Asking twice against unchanged remote state gives the same answer and table. */
  lemma PrStatusStable(repo: Option<GitHubService.Repository>, prs: seq<PullRequest>, number: int)
    requires GitHubService.NumbersAgree(repo)
    requires PrStatusOf(true, repo, prs, number).0.Ok?
    ensures var (r1, s1) := PrStatusOf(true, repo, prs, number);
      PrStatusOf(true, repo, s1, number) == (r1, s1)
  {
    var (r1, s1) := PrStatusOf(true, repo, prs, number);
    GitHubService.SyncIdempotent(repo, prs, number, None);
    GitHubService.SyncOutcomes(repo, prs, number, None);
    var id := GitHubService.FindPrByNumber(prs, number).value;
    assert s1[id - 1].number == number;
  }

  method GetPrStatus(tokenSet: bool, repo: Option<GitHubService.Repository>, prs: Table<PullRequest>, number: int)
    returns (r: Result<PrStatus>)
    modifies prs
    ensures (r, prs.rows) == PrStatusOf(tokenSet, repo, old(prs.rows), number)
  {
    if GitHubService.FindPrByNumber(prs.rows, number).None? {
      return Err(Error(NOT_FOUND, "Pull request not found"));
    }
    if !tokenSet {
      return Err(UNHANDLED);
    }
    var synced := GitHubService.SyncPullRequestToDatabase(repo, prs, number, None);
    if synced.Raised? {
      return StatusFailed(synced.exception);
    }
    var reviews := GitHubService.GetPullRequestReviews(repo, number);
    if reviews.Raised? {
      return StatusFailed(reviews.exception);
    }
    var row := synced.value.row;
    r := Ok(PrStatus(row.number, row.status, row.isApproved, row.isMerged, reviews.value, row.changeType, row.changeTarget));
  }

  // ---- Listing

  datatype PrSummary = PrSummary(
    id: nat,
    prNumber: int,
    prUrl: string,
    title: string,
    status: string,
    isApproved: bool,
    isMerged: bool,
    changeType: Option<string>)

  datatype PrList = PrList(prs: seq<PrSummary>, total: int)

  function Summary(e: Entry<PullRequest>): PrSummary
  {
    PrSummary(e.id, e.row.number, e.row.url, e.row.title, e.row.status, e.row.isApproved, e.row.isMerged, e.row.changeType)
  }

  function AllRows(prs: seq<PullRequest>): (r: seq<Entry<PullRequest>>)
    ensures forall e :: e in r ==> 1 <= e.id <= |prs| && prs[e.id - 1] == e.row
    ensures forall id :: Get(prs, id).Some? ==> Entry(id, Get(prs, id).value) in r
  {
    Where(prs, (p: PullRequest) => true)
  }

  function RowsWithStatus(prs: seq<PullRequest>, status: string): (r: seq<Entry<PullRequest>>)
    ensures forall e :: e in r ==> 1 <= e.id <= |prs| && prs[e.id - 1] == e.row && e.row.status == status
    ensures forall id :: Get(prs, id).Some? && Get(prs, id).value.status == status ==> Entry(id, Get(prs, id).value) in r
  {
    Where(prs, (p: PullRequest) => p.status == status)
  }

  /** The rows list_pull_requests pages through: those with the status, or all. */
  function Listed(prs: seq<PullRequest>, status: Option<string>): (r: seq<Entry<PullRequest>>)
    ensures forall e :: e in r ==>
      1 <= e.id <= |prs| && prs[e.id - 1] == e.row && (TruthyText(status) ==> e.row.status == status.value)
    ensures TruthyText(status) ==> r == RowsWithStatus(prs, status.value)
    ensures !TruthyText(status) ==> r == AllRows(prs)
  {
    if TruthyText(status) then RowsWithStatus(prs, status.value) else AllRows(prs)
  }

  function Summaries(page: seq<Entry<PullRequest>>): (r: seq<PrSummary>)
    ensures |r| == |page|
    ensures forall k :: 0 <= k < |page| ==> r[k] == Summary(page[k])
  {
    seq(|page|, k requires 0 <= k < |page| => Summary(page[k]))
  }

  /**
   * list_pull_requests: one page of the mirror rows, only those with the
   * given status when one is given (an empty status filters nothing); total
   * is the length of the page, not of the table.
   */
  function ListPullRequests(prs: seq<PullRequest>, status: Option<string>, skip: int, limit: int): (r: PrList)
    ensures r.total == |r.prs|
    ensures limit >= 0 ==> |r.prs| <= limit
    ensures r.prs == Summaries(Page(Listed(prs, status), skip, limit))
  {
    var summaries := Summaries(Page(Listed(prs, status), skip, limit));
    PrList(summaries, |summaries|)
  }

  /** The summary is that of the stored row under its key. */
  predicate Describes(prs: seq<PullRequest>, s: PrSummary)
  {
    1 <= s.id <= |prs| && s == Summary(Entry(s.id, prs[s.id - 1]))
  }

  /** Each listed summary describes a stored row under its key, with the
      status asked for when one is given. */
  lemma {:induction false} ListedPrsAreStored(prs: seq<PullRequest>, status: Option<string>, skip: int, limit: int)
    ensures var r := ListPullRequests(prs, status, skip, limit);
      forall k :: 0 <= k < |r.prs| ==>
        Describes(prs, r.prs[k]) && (TruthyText(status) ==> r.prs[k].status == status.value)
  {
    var page := Page(Listed(prs, status), skip, limit);
    var summaries := Summaries(page);
    assert ListPullRequests(prs, status, skip, limit).prs == summaries;
    forall k | 0 <= k < |summaries|
      ensures Describes(prs, summaries[k]) && (TruthyText(status) ==> summaries[k].status == status.value)
    {
      assert page[k] in Listed(prs, status);
    }
  }

  /** Unfiltered and unpaged, the list summarises every row once, in key order. */
  lemma UnpagedListHoldsEveryRow(prs: seq<PullRequest>, status: Option<string>, skip: int, limit: int)
    requires !TruthyText(status) && skip <= 0 && (limit < 0 || |prs| <= limit)
    ensures var r := ListPullRequests(prs, status, skip, limit);
      |r.prs| == |prs| && forall k :: 0 <= k < |prs| ==> r.prs[k] == Summary(Entry(k + 1, prs[k]))
  {
    AllRowsCoverTable(prs);
    assert Page(Listed(prs, status), skip, limit) == AllRows(prs);
  }

  /** Unfiltered, every row of the table appears once, in key order. */
  lemma {:induction false} AllRowsCoverTable(prs: seq<PullRequest>)
    ensures |AllRows(prs)| == |prs|
    ensures forall i :: 0 <= i < |prs| ==> AllRows(prs)[i] == Entry(i + 1, prs[i])
  {
    if prs != [] {
      var front := prs[..|prs| - 1];
      AllRowsCoverTable(front);
      var all := AllRows(prs);
      assert all == AllRows(front) + [Entry(|prs|, prs[|prs| - 1])];
      forall i | 0 <= i < |prs|
        ensures all[i] == Entry(i + 1, prs[i])
      {
        if i < |front| {
          assert all[i] == AllRows(front)[i];
          assert front[i] == prs[i];
        }
      }
    }
  }
}
