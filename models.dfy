/**
 * The persisted records of the backend, one datatype per table, with the
 * column defaults of the record classes, and the uniqueness constraints the
 * tables declare (plus the one they do not declare: one installation row per
 * (client, module) pair).
 *
 * Timestamps are whole seconds since the epoch. Every table also carries the
 * primary key and created/updated stamps of the shared base record; the key
 * is the row's position in its `Common.Table` and only the stamps that a
 * modelled operation writes are kept as fields.
 */
module Models {
  import opened Common

  /** A stored password hash. Bcrypt is one-way and salted; here a digest is a
      symbolic term that remembers its salt and the secret it was made from. */
  datatype Digest = Bcrypt(salt: nat, secret: string)

  datatype User = User(
    username: string,
    email: string,
    passwordHash: Digest,
    fullName: Option<string>,
    role: string,                  // "viewer", "user", "admin" or "superuser"
    isActive: bool,
    isSuperuser: bool,             // independent of role
    lastLoginAt: Option<int>,
    failedLoginAttempts: int,
    lockedUntil: Option<int>)

  datatype Client = Client(
    name: string,
    code: string,
    email: Option<string>,
    namespacePrefix: string,
    domain: Option<string>,
    isActive: bool,
    onboardingCompleted: bool,
    lastSyncAt: Option<int>,
    createdBy: Option<nat>,
    updatedBy: Option<nat>,
    createdAt: int,
    updatedAt: int)

  datatype Environment = Environment(
    clientId: int,
    name: string,
    namespace: string,
    domain: Option<string>,
    isProduction: bool,
    isActive: bool,
    createdAt: int,
    updatedAt: int)

  datatype Module = Module(
    name: string,
    displayName: string,
    description: Option<string>,
    category: string,              // "core" or "addon"
    dependsOn: Option<string>,     // the dependency list as text
    isActive: bool,
    isInstalled: bool)

  datatype ClientModule = ClientModule(
    clientId: int,
    moduleId: int,
    config: Option<string>,
    isActive: bool)

  datatype Permission = Permission(
    userId: int,
    permissionType: string,
    clientId: Option<int>,
    environment: Option<string>,
    isActive: bool)

  /** Local mirror of a GitHub pull request. `changeType` is a NOT NULL column;
      `None` stands for a row built without it, which the database refuses. */
  datatype PullRequest = PullRequest(
    number: int,
    url: string,
    title: string,
    description: Option<string>,
    status: string,                // "open", "approved", "merged", "closed", "rejected"
    isApproved: bool,
    isMerged: bool,
    changeType: Option<string>,
    changeTarget: Option<string>,
    changeData: Option<string>,
    mergedAt: Option<int>,
    closedAt: Option<int>)

  datatype PullRequestApproval = PullRequestApproval(
    pullRequestId: int,
    approverId: int,
    approved: bool,
    comment: Option<string>)

  datatype Configuration = Configuration(
    clientId: Option<int>,
    moduleId: Option<int>,
    key: string,
    value: string,
    valueType: string,             // "string", "json", "integer", "boolean"
    description: Option<string>,
    isActive: bool,
    createdAt: int,
    updatedAt: int)

  // ---- Records as the classes build them when only required columns are given

  function NewUser(username: string, email: string, passwordHash: Digest): (u: User)
    ensures u.username == username && u.email == email && u.passwordHash == passwordHash
    ensures u.role == "user" && u.isActive && !u.isSuperuser
    ensures u.failedLoginAttempts == 0 && u.lastLoginAt.None? && u.lockedUntil.None?
  {
    User(username, email, passwordHash, None, "user", true, false, None, 0, None)
  }

  function NewClient(name: string, code: string, now: int): (c: Client)
    ensures c.name == name && c.code == code
    ensures c.isActive && !c.onboardingCompleted && c.namespacePrefix == ""
    ensures c.createdAt == now && c.updatedAt == now
  {
    Client(name, code, None, "", None, true, false, None, None, None, now, now)
  }

  function NewEnvironment(clientId: int, name: string, namespace: string, now: int): (e: Environment)
    ensures e.clientId == clientId && e.name == name && e.namespace == namespace
    ensures !e.isProduction && e.isActive && e.domain.None?
  {
    Environment(clientId, name, namespace, None, false, true, now, now)
  }

  function NewModule(name: string, displayName: string): (m: Module)
    ensures m.name == name && m.displayName == displayName
    ensures m.category == "addon" && m.isActive && !m.isInstalled
    ensures m.description.None? && m.dependsOn.None?
  {
    Module(name, displayName, None, "addon", None, true, false)
  }

  function NewClientModule(clientId: int, moduleId: int): (cm: ClientModule)
    ensures cm.clientId == clientId && cm.moduleId == moduleId
    ensures cm.isActive && cm.config.None?
  {
    ClientModule(clientId, moduleId, None, true)
  }

  function NewPermission(userId: int, permissionType: string): (p: Permission)
    ensures p.userId == userId && p.permissionType == permissionType
    ensures p.isActive && p.clientId.None? && p.environment.None?
  {
    Permission(userId, permissionType, None, None, true)
  }

  function NewPullRequest(number: int, url: string, title: string): (pr: PullRequest)
    ensures pr.number == number && pr.url == url && pr.title == title
    ensures pr.status == "open" && !pr.isApproved && !pr.isMerged
    ensures pr.mergedAt.None? && pr.closedAt.None?
    ensures pr.changeType.None? && pr.changeTarget.None? && pr.changeData.None?
  {
    PullRequest(number, url, title, None, "open", false, false, None, None, None, None, None)
  }

  function NewPullRequestApproval(pullRequestId: int, approverId: int): (a: PullRequestApproval)
    ensures a.pullRequestId == pullRequestId && a.approverId == approverId
    ensures a.approved && a.comment.None?
  {
    PullRequestApproval(pullRequestId, approverId, true, None)
  }

  function NewConfiguration(key: string, value: string, now: int): (c: Configuration)
    ensures c.key == key && c.value == value
    ensures c.clientId.None? && c.moduleId.None?
    ensures c.valueType == "string" && c.description.None? && c.isActive
  {
    Configuration(None, None, key, value, "string", None, true, now, now)
  }

  // ---- Uniqueness constraints

  /** `users.username` is a unique column. */
  ghost predicate UniqueUsernames(users: seq<User>)
  {
    forall i, j :: 0 <= i < j < |users| ==> users[i].username != users[j].username
  }

  /** `users.email` is a unique column. */
  ghost predicate UniqueEmails(users: seq<User>)
  {
    forall i, j :: 0 <= i < j < |users| ==> users[i].email != users[j].email
  }

  /** `clients.code` is a unique column. */
  ghost predicate UniqueCodes(clients: seq<Client>)
  {
    forall i, j :: 0 <= i < j < |clients| ==> clients[i].code != clients[j].code
  }

  /** `environments.namespace` is a unique column. */
  ghost predicate UniqueNamespaces(envs: seq<Environment>)
  {
    forall i, j :: 0 <= i < j < |envs| ==> envs[i].namespace != envs[j].namespace
  }

  /** `modules.name` is a unique column. */
  ghost predicate UniqueModuleNames(modules: seq<Module>)
  {
    forall i, j :: 0 <= i < j < |modules| ==> modules[i].name != modules[j].name
  }

  /** `pull_requests.github_pr_number` is a unique column: the key sync looks rows up by. */
  ghost predicate UniquePrNumbers(prs: seq<PullRequest>)
  {
    forall i, j :: 0 <= i < j < |prs| ==> prs[i].number != prs[j].number
  }

  /** NOT NULL columns of `pull_requests` that a row can be built without. */
  predicate PullRequestStorable(pr: PullRequest)
  {
    pr.changeType.Some?
  }

  /**
   * No two installation rows for the same (client, module) pair. The table
   * declares no such constraint; only the install logic keeps it.
   */
  ghost predicate OneRowPerPair(cms: seq<ClientModule>)
  {
    forall i, j :: 0 <= i < j < |cms| ==>
      !(cms[i].clientId == cms[j].clientId && cms[i].moduleId == cms[j].moduleId)
  }
}
