# ForgeERP backend core in Dafny

This project models the decision and state-transition logic of the ForgeERP
backend. ForgeERP is a FastAPI service through which an Odoo partner manages
its end clients. Each client has deployment environments, configurations and
installed addon modules. The service also generates GitHub Actions workflows
for a client and mirrors the pull requests that carry grave changes.

The modelled parts are:

- **Authentication and authorization** (`authentication.dfy`, `auth_routes.dfy`): role-based `check_permission`, the login lookup chain, the bookkeeping a successful login writes, and the 401/403 chain that resolves a bearer token to a user.
- **Module installation state machine** (`module_loader.dfy`, `module_routes.dfy`): registering addons from their manifests, install, reactivation and uninstall of a module for a client, and the "installed" views. The table has no unique key on (client, module). The invariant that there is one row per pair is kept by the install logic alone, and it is proved here.
- **Pull-request mirror** (`github_service.dfy`, `github_routes.dfy`): approval counting, mapping remote state onto the local row, create-or-update sync, opening a pull request, reading its status, and listing the mirror rows.
- **Workflow selection** (`workflows.dfy`, `github_routes.dfy`): which workflow files the generator writes for a client.
- **Record tables** (`clients.dfy`, `environments.dfy`, `configurations.dfy`): uniqueness checks on create, field-by-field patches, soft deletion and active-only listings.
- **Records** (`models.dfy`) and shared vocabulary (`common.dfy`).

The database is modelled as one `Common.Table<T>` per table. The row with primary key `k` is `rows[k - 1]`. Each route that writes is a method on the tables it changes. Each such method is proved equal to a pure transition function that returns the response and the new rows. The properties are lemmas about those transition functions.

Inputs outside the service are modelled as values:

- The GitHub repository is a `Repository` value.
- The addons directory is an `AddonsDir` value.
- The clock is a `now` parameter.
- Bcrypt is a symbolic digest and a JWT is a symbolic token.
- A raised Python exception is the `Raised` or `FileNotFound` case of a result type.

## Model

| member | source | states |
|---|---|---|
| Common.WhereInKeyOrder | backend/forgeerp/core/api/routes/clients.py:30 | a query returns its rows in increasing key order, each key at most once |
| Models.NewUser | backend/forgeerp/core/database/models/user.py:15-28 | a new user has role "user", is active and not superuser, with no failed logins, no last login and no lock |
| Models.NewClient | backend/forgeerp/core/database/models/client.py:22-32 | a new client is active, not onboarded, with namespace prefix "" |
| Models.NewEnvironment | backend/forgeerp/core/database/models/client.py:46-55 | a new environment is active and non-production, with no domain |
| Models.NewModule | backend/forgeerp/core/database/models/module.py:14-24 | a new module has category "addon", is active and not installed |
| Models.NewClientModule | backend/forgeerp/core/database/models/module.py:34-41 | a new installation row is active, with no config |
| Models.NewPermission | backend/forgeerp/core/database/models/permission.py:14-24 | a new permission is active, with no client and no environment scope |
| Models.NewPullRequest | backend/forgeerp/core/database/models/permission.py:29-54 | a new mirror row is "open", not approved, not merged, with no merge or close time |
| Models.NewPullRequestApproval | backend/forgeerp/core/database/models/permission.py:62-67 | a new approval record is approved, with no comment |
| Models.NewConfiguration | backend/forgeerp/core/database/models/configuration.py:14-28 | a new configuration has no client and no module scope, value type "string", no description, and is active |
| Authentication.GetPasswordHash | backend/forgeerp/core/services/authentication.py:20-27 | the digest of a password verifies that password and no other |
| Authentication.Expiry | backend/forgeerp/core/services/authentication.py:30-37 | expiry is now plus the given delta when it is truthy, else now plus the configured lifetime ACCESS_TOKEN_EXPIRE_MINUTES (read from the environment, 30 when unset), which the model leaves unfixed so the statement holds for any configuration |
| Authentication.DecodeAccessToken | backend/forgeerp/core/services/authentication.py:42-48 | decoding succeeds only for a token signed with the key and not yet expired, and yields the signed claims |
| Authentication.CreateAccessToken | backend/forgeerp/core/services/authentication.py:30-39 | the token decodes, under the same key until expiry, to the input claims plus "exp"; under another key it does not decode |
| Authentication.TokenKeepsClaims | backend/forgeerp/core/services/authentication.py:30-48 | round trip: every input claim other than "exp" comes back unchanged from decode(create(data)) |
| Authentication.CheckPermission | backend/forgeerp/core/services/authentication.py:86-102 | superuser and admin are allowed; viewer is denied; otherwise allowed exactly when the role is "user" |
| Authentication.PermissionIgnoresScope | backend/forgeerp/core/services/authentication.py:86-102 | the answer does not depend on the permission type, the client or the environment |
| Authentication.NewUserIsAllowed | backend/forgeerp/core/services/authentication.py:100-102 | a freshly created user passes every permission check |
| Authentication.FindUserByUsername | backend/forgeerp/core/services/authentication.py:74-77 | the key of the first user with that username, or none exactly when no user has it |
| Authentication.CheckLogin | backend/forgeerp/core/services/authentication.py:51-63 | unknown user, wrong password and inactive user are told apart in that order; otherwise accepted |
| Authentication.RecordLogin | backend/forgeerp/core/services/authentication.py:65-69 | a login sets the last login time and zeroes failed attempts; every other column is unchanged |
| Authentication.AuthenticateUser | backend/forgeerp/core/services/authentication.py:51-71 | on acceptance it returns the user with the login recorded in place; on every refusal it returns none and writes nothing |
| AuthRoutes.GetCurrentUser | backend/forgeerp/core/api/routes/auth.py:25-54 | 401 exactly when the token does not decode, has no "sub", or names no user; 403 "User is inactive" exactly when the user it names is inactive; otherwise that user |
| AuthRoutes.LoginClaims | backend/forgeerp/core/api/routes/auth.py:72-76 | the token claims are exactly "sub" = username and "user_id" = key |
| AuthRoutes.Login | backend/forgeerp/core/api/routes/auth.py:57-78 | a refused login is 401 "Incorrect username or password" and writes nothing; an accepted one records the login and returns a bearer token for that user |
| AuthRoutes.LoginForm | backend/forgeerp/core/api/routes/auth.py:81-102 | the same outcome as Login for the same username and password |
| AuthRoutes.LoginTokenResolves | backend/forgeerp/core/api/routes/auth.py:25-78 | the token a successful login issues resolves to the same user up to its expiry and is 401 afterwards |
| AuthRoutes.SameUsernamesSameLookup | backend/forgeerp/core/services/authentication.py:74-77 | rewriting columns other than usernames does not change whom a username finds |
| AuthRoutes.Logout | backend/forgeerp/core/api/routes/auth.py:113-116 | logout returns the fixed message and touches no state |
| ModuleLoader.LoadModuleManifest | backend/forgeerp/core/services/module_loader.py:17-28 | the addon's manifest, or FileNotFoundError naming the module exactly when it has none |
| ModuleLoader.GetModuleDependencies | backend/forgeerp/core/services/module_loader.py:44-50 | the manifest's "depends", or [] when the key is absent or the manifest is missing |
| ModuleLoader.AddonNames | backend/forgeerp/core/services/module_loader.py:30-42 | a name is listed exactly when some entry with that name is a directory, does not start with "_" and holds a manifest |
| ModuleLoader.GetAvailableModules | backend/forgeerp/core/services/module_loader.py:30-42 | [] when the addons directory is missing; otherwise the addon names in listing order |
| ModuleLoader.ListedAddonsLoad | backend/forgeerp/core/services/module_loader.py:17-50 | on a well-formed addons directory every listed addon has a manifest that loads, and its dependencies are the manifest's |
| ModuleLoader.ModuleFromManifest | backend/forgeerp/core/services/module_loader.py:66-80 | display name from the manifest or else the addon name; category "addon" by default; dependency text only for a non-empty list; active and installed |
| ModuleLoader.FindModuleByName | backend/forgeerp/core/services/module_loader.py:59-60 | the key of the first module with that name, or none exactly when no module has it |
| ModuleLoader.InstallModuleInDatabase | backend/forgeerp/core/services/module_loader.py:52-94 | an existing name is returned with no writes, client or not; a missing manifest raises before any write; otherwise one module row and, for a truthy client, one active installation row; name uniqueness and one row per pair are kept |
| ModuleLoader.InstalledModules | backend/forgeerp/core/services/module_loader.py:96-114 | each entry is a stored module named by an active row of the client; every such module that still exists is listed |
| ModuleLoader.GetInstalledModulesForClient | backend/forgeerp/core/services/module_loader.py:96-114 | the loop returns exactly the modules of the client's active rows, skipping rows whose module is gone |
| ModuleRoutes.ResponseOf | backend/forgeerp/core/api/routes/modules.py:18-29 | a module response carries the key, name, active flag and the installed mark it is given |
| ModuleRoutes.FindInstallation | backend/forgeerp/core/api/routes/modules.py:170-174 | the first installation row of the (client, module) pair, or none exactly when there is none |
| ModuleRoutes.ActiveModules | backend/forgeerp/core/api/routes/modules.py:264-266 | exactly the active modules, each with its key |
| ModuleRoutes.InstallOutcomes | backend/forgeerp/core/api/routes/modules.py:138-200 | 403 exactly without permission, then 404 "Client not found", then 404 "Module not found"; failures write nothing; 400 exactly when the pair's row is active; an inactive row is reactivated in place with the new config; no row means one new active row; success exactly when the checks pass and the pair has no active row |
| ModuleRoutes.UninstallOutcomes | backend/forgeerp/core/api/routes/modules.py:203-252 | 403, then 404 for a missing client, module or installation row, in that order, writing nothing; otherwise success, also for an inactive row, deactivating exactly that row with its config kept |
| ModuleRoutes.InstallKeepsOneRowPerPair | backend/forgeerp/core/api/routes/modules.py:170-200 | install never creates a second row for a (client, module) pair |
| ModuleRoutes.UninstallKeepsOneRowPerPair | backend/forgeerp/core/api/routes/modules.py:203-252 | uninstall keeps one row per pair |
| ModuleRoutes.SinglePairRow | backend/forgeerp/core/database/models/module.py:34-41 | with one row per pair, the row found for a pair is the only key of that pair |
| ModuleRoutes.ReinstallReusesRow | backend/forgeerp/core/api/routes/modules.py:170-200 | install, uninstall, install with a second config: one active row, holding the second config, under the first key |
| ModuleRoutes.SecondInstallConflicts | backend/forgeerp/core/api/routes/modules.py:170-180 | a second install of an installed pair is 400 and changes nothing |
| ModuleRoutes.InstallModuleForClient | backend/forgeerp/core/api/routes/modules.py:138-200 | the route's response and new rows are those of the install transition; one row per pair is kept |
| ModuleRoutes.UninstallModuleFromClient | backend/forgeerp/core/api/routes/modules.py:203-252 | the route's response and new rows are those of the uninstall transition; one row per pair is kept |
| ModuleRoutes.CreateModule | backend/forgeerp/core/api/routes/modules.py:73-101 | 403, then 400 "Module already exists" with no insert; success exactly for a permitted caller with a free name, appending one active, not installed module; name uniqueness kept |
| ModuleRoutes.ListClientModules | backend/forgeerp/core/api/routes/modules.py:104-135 | 404 for a missing client; otherwise the modules of the client's active rows, each marked installed, and every such existing module is listed |
| ModuleRoutes.ListModules | backend/forgeerp/core/api/routes/modules.py:255-299 | a page of active modules; with a truthy client, installed exactly when an active row of the client names the module; total counts all active modules |
| GitHubService.GetRepository | backend/forgeerp/core/services/github_service.py:22-24 | the repository, or an exception when it cannot be reached |
| GitHubService.GetPullRequest | backend/forgeerp/core/services/github_service.py:45-53 | the remote pull request with that number, or an exception |
| GitHubService.CreatePullRequest | backend/forgeerp/core/services/github_service.py:26-43 | the pull request GitHub opens, or an exception when the repository or the creation fails |
| GitHubService.ApprovalCount | backend/forgeerp/core/services/github_service.py:55-71 | the count is at most the number of reviews |
| GitHubService.ApprovalCountExtremes | backend/forgeerp/core/services/github_service.py:66-69 | the count is zero exactly when no review is "APPROVED" and equals the number of reviews exactly when all are |
| GitHubService.IsPullRequestApproved | backend/forgeerp/core/services/github_service.py:55-71 | the loop answers whether the number of "APPROVED" reviews reaches the threshold |
| GitHubService.ApprovalCountConcat | backend/forgeerp/core/services/github_service.py:66-69 | counting distributes over concatenating review lists |
| GitHubService.OtherReviewKeepsCount | backend/forgeerp/core/services/github_service.py:66-69 | a review that is not "APPROVED" leaves the count as it was |
| GitHubService.NewReviewNeverLowersCount | backend/forgeerp/core/services/github_service.py:66-69 | adding any review never lowers the count |
| GitHubService.RepeatedApprovalCountsTwice | backend/forgeerp/core/services/github_service.py:66-69 | the same reviewer approving twice adds two |
| GitHubService.DefaultApprovalNeedsOneApproval | backend/forgeerp/core/services/github_service.py:55-71 | with the default threshold, approved exactly when some review is "APPROVED" |
| GitHubService.GetPullRequestReviews | backend/forgeerp/core/services/github_service.py:73-92 | one summary per remote review, in order, with its id, reviewer, state, body and submission time |
| GitHubService.CheckUserPermission | backend/forgeerp/core/services/github_service.py:143-157 | raises when the repository is unreachable; otherwise true exactly when the collaborator level is write, admin or maintain |
| GitHubService.CheckUserPermissionIgnoresRequest | backend/forgeerp/core/services/github_service.py:143-157 | the requested permission argument never changes the answer |
| GitHubService.SyncStatus | backend/forgeerp/core/services/github_service.py:110 | local status is "open" exactly when the remote state is "open", else "closed" |
| GitHubService.Reconcile | backend/forgeerp/core/services/github_service.py:108-122 | an update overwrites status, approval and merged flag, overwrites merge and close times only with non-null remote values, and keeps title, description, url and change fields |
| GitHubService.ReconcileIdempotent | backend/forgeerp/core/services/github_service.py:108-122 | reconciling twice with the same remote state equals reconciling once |
| GitHubService.Mirror | backend/forgeerp/core/services/github_service.py:124-136 | a new row takes the remote number, url, title, body, status, approval, merged flag and times; it is storable exactly when a change type is given |
| GitHubService.FindPrByNumber | backend/forgeerp/core/services/github_service.py:105-106 | the key of the first mirror row with that number, or none exactly when none has it |
| GitHubService.SyncOutcomes | backend/forgeerp/core/services/github_service.py:94-141 | an exception writes nothing; the status is "open" or "closed"; an existing row is replaced in place under its key by its reconciliation with the remote state, and no other row changes |
| GitHubService.SyncInsertAsWrittenFails | backend/forgeerp/core/services/github_service.py:124-141 | as written, sync of an unmirrored pull request raises and inserts nothing |
| GitHubService.SyncInsertAsWrittenExample | backend/forgeerp/core/services/github_service.py:124-141 | pull request 7 on GitHub with an empty local table: sync raises |
| GitHubService.SyncInsertWithChangeType | backend/forgeerp/core/services/github_service.py:124-141 | given a change type, sync of an unmirrored pull request appends exactly one storable row with that number |
| GitHubService.SyncKeepsNumbersUnique | backend/forgeerp/core/database/models/permission.py:35 | sync keeps GitHub numbers unique among mirror rows |
| GitHubService.FindPrSurvivesUpdate | backend/forgeerp/core/services/github_service.py:105-122 | rewriting a row without changing its number keeps the lookup by number |
| GitHubService.SyncIdempotent | backend/forgeerp/core/services/github_service.py:108-122 | a second sync against unchanged remote state returns the same row and leaves the table as the first left it |
| GitHubService.SyncPullRequestToDatabase | backend/forgeerp/core/services/github_service.py:94-141 | the method's result and new rows are those of the sync transition |
| Workflows.EnvironmentOptions | backend/forgeerp/core/engine/github_generator/workflows.py:60 | the client's environments, or ["dev", "hml", "prod", "all"] when it names none |
| Workflows.WorkflowsFor | backend/forgeerp/core/engine/github_generator/workflows.py:103-121 | setup, deploy, diagnose and fix are always written; disaster recovery exactly when "hetzner" is installed |
| Workflows.NoModulesIsEmptyModules | backend/forgeerp/core/engine/github_generator/workflows.py:109 | no module list and an empty one write the same files |
| Workflows.OnlyHetznerMatters | backend/forgeerp/core/engine/github_generator/workflows.py:115-117 | module lists that agree on "hetzner" write the same files |
| Workflows.WorkflowGenerator.constructor | backend/forgeerp/core/engine/github_generator/workflows.py:20-23 | the generator writes under repo_dir/.github/workflows and keeps the files already there |
| Workflows.WorkflowGenerator.Write | backend/forgeerp/core/engine/github_generator/workflows.py:25-30 | writing replaces exactly one file |
| Workflows.WorkflowGenerator.GenerateSetupClientWorkflow | backend/forgeerp/core/engine/github_generator/workflows.py:42-76 | writes only setup-client.yml, with the client's environment options |
| Workflows.WorkflowGenerator.GenerateDeployClientWorkflow | backend/forgeerp/core/engine/github_generator/workflows.py:78-101 | writes only deploy-client.yml |
| Workflows.WorkflowGenerator.GenerateDisasterRecoveryWorkflow | backend/forgeerp/core/engine/github_generator/workflows.py:123-131 | writes only disaster-recovery.yml from its template |
| Workflows.WorkflowGenerator.GenerateDiagnoseServicesWorkflow | backend/forgeerp/core/engine/github_generator/workflows.py:133-141 | writes only diagnose-services.yml from its template |
| Workflows.WorkflowGenerator.GenerateFixCommonIssuesWorkflow | backend/forgeerp/core/engine/github_generator/workflows.py:143-151 | writes only fix-common-issues.yml from its template |
| Workflows.WorkflowGenerator.GenerateWorkflowsForClient | backend/forgeerp/core/engine/github_generator/workflows.py:103-121 | the directory becomes its old files overwritten by the selected workflows; other files stay |
| GitHubRoutes.ClientModuleNames | backend/forgeerp/core/api/routes/github.py:61-68 | a name is collected exactly when some row of the client, active or not, names an existing module with that name |
| GitHubRoutes.GenerateWorkflows | backend/forgeerp/core/api/routes/github.py:38-91 | 403, then 404 for a missing client, writing nothing; otherwise the client's module names are reported, the selected workflows written, and the fixed list of four names returned |
| GitHubRoutes.DisasterRecoveryFollowsHetzner | backend/forgeerp/core/api/routes/github.py:61-91 | disaster recovery is written exactly when some row of the client names the module "hetzner", yet it is never reported |
| GitHubRoutes.OpenedRow | backend/forgeerp/core/api/routes/github.py:126-135 | the new mirror row has the remote number and url, the local title and body, status "open", the change fields, and change data as text only when non-empty |
| GitHubRoutes.CreatePrOutcomes | backend/forgeerp/core/api/routes/github.py:94-151 | 403 exactly without permission; every other failure is 500 and writes nothing; success exactly when permitted, the token is set, GitHub opens the pull request and its number is free; success appends the opened row under a new key; numbers stay unique |
| GitHubRoutes.CreatePrRefusalIgnoresRemote | backend/forgeerp/core/api/routes/github.py:102-106 | a refused caller gets 403 whatever the token and the remote |
| GitHubRoutes.CreatePullRequest | backend/forgeerp/core/api/routes/github.py:94-151 | the route's response and new rows are those of the create transition |
| GitHubRoutes.UnknownPrIgnoresRemote | backend/forgeerp/core/api/routes/github.py:162-169 | with no mirror row the answer is 404, whatever the token and the remote |
| GitHubRoutes.PrStatusReportsSync | backend/forgeerp/core/api/routes/github.py:171-195 | with a mirror row and the remote pull request, the route reports the synced status, approval and merged flag, the remote reviews, and the local change fields |
| GitHubRoutes.PrStatusStable | backend/forgeerp/core/api/routes/github.py:171-195 | asking twice against unchanged remote state gives the same answer and table |
| GitHubRoutes.GetPrStatus | backend/forgeerp/core/api/routes/github.py:154-201 | the route's response and new rows are those of the status transition |
| GitHubRoutes.AllRows | backend/forgeerp/core/api/routes/github.py:213 | every mirror row with its key |
| GitHubRoutes.RowsWithStatus | backend/forgeerp/core/api/routes/github.py:215-216 | exactly the mirror rows with the given status |
| GitHubRoutes.AllRowsCoverTable | backend/forgeerp/core/api/routes/github.py:213-218 | unfiltered, the rows come once each in key order |
| GitHubRoutes.ListPullRequests | backend/forgeerp/core/api/routes/github.py:204-235 | the response is the summaries of one page of the listed rows, in key order; total is the page length, not the table size |
| GitHubRoutes.Listed | backend/forgeerp/core/api/routes/github.py:213-216 | with a non-empty status exactly the rows with that status, otherwise every row, each a stored row under its key |
| GitHubRoutes.ListedPrsAreStored | backend/forgeerp/core/api/routes/github.py:213-232 | every listed summary describes the stored row under its key, with the status asked for when one is given |
| GitHubRoutes.UnpagedListHoldsEveryRow | backend/forgeerp/core/api/routes/github.py:213-232 | unfiltered and unpaged, the list summarises every row once, in key order |
| Clients.ActiveClients | backend/forgeerp/core/api/routes/clients.py:30 | exactly the active clients, each with its key |
| Clients.ListClients | backend/forgeerp/core/api/routes/clients.py:22-36 | exactly the page of the active clients the offset and limit select, in key order; total counts every active client |
| Clients.GetClient | backend/forgeerp/core/api/routes/clients.py:39-54 | the stored client, active or not, or 404 "Client not found" |
| Clients.FindClientByCode | backend/forgeerp/core/api/routes/clients.py:72-73 | the key of the first client with that code, or none exactly when none has it |
| Clients.CreatedClient | backend/forgeerp/core/api/routes/clients.py:81-83 | as intended (audit columns declared): the new client has the request's fields, is active and not onboarded, created and updated by the caller |
| Clients.CreateClientOutcomes | backend/forgeerp/core/api/routes/clients.py:57-89 | as intended: 403 exactly without permission; 400 exactly when any client has the code; success exactly otherwise, appending one client; failures write nothing; codes stay unique |
| Clients.CreateClient | backend/forgeerp/core/api/routes/clients.py:57-89 | the route's response and new rows are those of the intended create transition |
| Clients.Assign | backend/forgeerp/core/api/routes/clients.py:116-117 | one setattr writes its field and no other |
| Clients.Patched | backend/forgeerp/core/api/routes/clients.py:114-117 | fields no change names keep their values; code, namespace prefix and audit columns never change |
| Common.AnyNull | backend/forgeerp/core/api/routes/clients.py:114-124 | true exactly when one of the first n changes of a patch writes null into a NOT NULL column; the update routes of clients, environments and configurations refuse the commit exactly then |
| Clients.LastChangeWins | backend/forgeerp/core/api/routes/clients.py:114-117 | the last change of a field decides its value |
| Clients.UpdateClientOutcomes | backend/forgeerp/core/api/routes/clients.py:92-126 | as intended: 403 exactly without permission, then 404 exactly for a missing key, then 500 exactly for a null into a NOT NULL column, all writing nothing; otherwise success storing the patched row under that key, keeping code and prefix, stamping the time and the caller; codes stay unique |
| Clients.UpdateClient | backend/forgeerp/core/api/routes/clients.py:92-126 | the setattr loop and commit give the response and rows of the intended update transition |
| Clients.RefusalPrecedesLookup | backend/forgeerp/core/api/routes/clients.py:100-112 | a refused caller gets 403 on update and delete even for a missing client |
| Clients.DeleteClientOutcomes | backend/forgeerp/core/api/routes/clients.py:129-158 | as intended: 403 exactly without permission, whatever the key, then 404 exactly for a missing client, writing nothing; otherwise success that deactivates exactly that row, stamping the time and the caller, even when already inactive |
| Clients.DeletedClientStaysReadable | backend/forgeerp/core/api/routes/clients.py:129-158 | as intended: a deleted client leaves the list, can still be read, keeps its code taken, and no other row changes |
| Clients.DeleteClient | backend/forgeerp/core/api/routes/clients.py:129-158 | the route's response and new rows are those of the intended soft-delete transition |
| Clients.AuditStampAsWrittenFails | backend/forgeerp/core/api/routes/clients.py:81-83 | as written, create, update and delete answer 500 and write nothing exactly where the intended routes succeed (and for update also where they answer 500), and agree with them on every other refusal |
| Clients.CreateClientAsWrittenExample | backend/forgeerp/core/api/routes/clients.py:57-89 | an admin creating the first client: stored by the intended route, 500 with nothing stored as written |
| Environments.ListedEnvironments | backend/forgeerp/core/api/routes/environments.py:62-65 | exactly the active environments, of the client when one is given |
| Environments.ListEnvironments | backend/forgeerp/core/api/routes/environments.py:53-78 | exactly the page of the listed environments the offset and limit select, in key order; total counts all of them |
| Environments.GetEnvironment | backend/forgeerp/core/api/routes/environments.py:81-96 | the stored environment, active or not, or 404 "Environment not found" |
| Environments.FindEnvironmentByNamespace | backend/forgeerp/core/api/routes/environments.py:122-123 | the key of the first environment with that namespace, or none exactly when none has it |
| Environments.CreatedEnvironment | backend/forgeerp/core/api/routes/environments.py:131 | the new environment has the request's fields and is active |
| Environments.CreateEnvironmentOutcomes | backend/forgeerp/core/api/routes/environments.py:99-136 | 403, then 404 "Client not found", then 400 exactly when any environment has the namespace, success exactly otherwise; failures write nothing; namespaces stay unique and owners stay stored clients |
| Environments.CreateEnvironment | backend/forgeerp/core/api/routes/environments.py:99-136 | the route's response and new rows are those of the create transition |
| Environments.Assign | backend/forgeerp/core/api/routes/environments.py:164-165 | one setattr writes its field and no other |
| Environments.Patched | backend/forgeerp/core/api/routes/environments.py:163-165 | fields no change names keep their values; owner, name and namespace never change |
| Environments.LastChangeWins | backend/forgeerp/core/api/routes/environments.py:163-165 | the last change of a field decides its value |
| Environments.UpdateEnvironmentOutcomes | backend/forgeerp/core/api/routes/environments.py:139-172 | 404 exactly for a missing key, then 403 exactly when the caller may not modify in the owning client, then 500 exactly for a null into a NOT NULL column, all writing nothing; otherwise success storing the patched row under that key, keeping owner, name and namespace, stamping the time; namespaces stay unique |
| Environments.UpdateEnvironment | backend/forgeerp/core/api/routes/environments.py:139-172 | the setattr loop and commit give the response and rows of the update transition |
| Environments.LookupPrecedesRefusal | backend/forgeerp/core/api/routes/environments.py:147-160 | an unknown key is 404 on update and delete for every caller |
| Environments.DeleteEnvironmentOutcomes | backend/forgeerp/core/api/routes/environments.py:175-203 | 404 exactly for a missing key whoever asks, then 403 exactly when the caller may not delete in the owning client, writing nothing; otherwise success that deactivates exactly that row and stamps the time, even when already inactive |
| Environments.DeletedEnvironmentStaysReadable | backend/forgeerp/core/api/routes/environments.py:175-203 | a deleted environment leaves every listing, can still be read, and keeps its namespace taken |
| Environments.DeleteEnvironment | backend/forgeerp/core/api/routes/environments.py:175-203 | the route's response and new rows are those of the soft-delete transition |
| Configurations.ListedConfigurations | backend/forgeerp/core/api/routes/configurations.py:66-71 | exactly the active configurations, of the client and of the module when those are given |
| Configurations.ListConfigurations | backend/forgeerp/core/api/routes/configurations.py:56-86 | exactly the page of the listed configurations the offset and limit select, in key order; total counts all of them |
| Configurations.GetConfiguration | backend/forgeerp/core/api/routes/configurations.py:89-104 | the stored configuration, active or not, or 404 "Configuration not found" |
| Configurations.CreatedConfiguration | backend/forgeerp/core/api/routes/configurations.py:122 | the new configuration has the request's fields and is active |
| Configurations.DuplicateKeysAccepted | backend/forgeerp/core/api/routes/configurations.py:107-127 | with permission, creation always succeeds, even for a key already in use, and the new row is listed |
| Configurations.CreateConfiguration | backend/forgeerp/core/api/routes/configurations.py:107-127 | the route's response and new rows are those of the create transition |
| Configurations.Assign | backend/forgeerp/core/api/routes/configurations.py:154-155 | one setattr writes its field and no other |
| Configurations.Patched | backend/forgeerp/core/api/routes/configurations.py:152-155 | fields no change names keep their values; key and scope never change |
| Configurations.LastChangeWins | backend/forgeerp/core/api/routes/configurations.py:152-155 | the last change of a field decides its value |
| Configurations.DeactivatedConfigurationStaysReadable | backend/forgeerp/core/api/routes/configurations.py:130-162 | a patch ending in is_active=false takes the row out of every listing while it can still be read, with key and scope kept |
| Configurations.UpdateConfigurationOutcomes | backend/forgeerp/core/api/routes/configurations.py:130-162 | 403 for a refused caller whatever the key, then 404, then 500 exactly for a null into a NOT NULL column, all writing nothing; otherwise success storing the patched row under that key, keeping key and scope and stamping the time |
| Configurations.UpdateConfiguration | backend/forgeerp/core/api/routes/configurations.py:130-162 | the setattr loop and commit give the response and rows of the update transition |

## Left out

- Bcrypt and JWT are symbolic terms, so no cryptography is modelled. A digest remembers its secret, and a token remembers its key and claims.
- The clock is the `now` parameter. JWT expiry is checked as "valid while now <= exp".
- YAML dumping and Jinja rendering of workflows are not modelled. A written file records the document or template it came from. The template texts and `GitHubActionGenerator` are not part of this model.
- The filesystem behind the module loader is an input value: whether the addons directory exists, its entries in listing order, and the parsed manifests. A manifest whose YAML parses to null, or is not a mapping, is not modelled, nor is a manifest key that is present with a null value (for `depends:` with no value, `get_module_dependencies` returns None, while the model can only write an absent key and so gives []).
- The PyGithub calls are a `Repository` value. A failed call is the text of the exception it raises.
- Building the GitHub service without a token is the boolean `tokenSet`. It fails outside the routes' try blocks, so it surfaces as the server's generic 500.
- The environment variables GITHUB_OWNER and GITHUB_REPO choose the repository, and they are folded into the `Repository` value. GITHUB_REPO_DIR is a parameter.
- Only the first `.first()` row of a query is used; database row order is key order.
- Concurrency is not modelled. The check-then-insert in install, sync, create and the route creates is modelled sequentially, and nothing here claims it is atomic.
- A failed commit is modelled as storing nothing. Session state after a failed commit is not modelled.
- The module detail route `get_module` and the current-user route `/me` are not part of this model; they only read one row.
- The CLI, the frontend, app wiring and database setup are not part of this model.
- Permission rows are never read by `check_permission`, failed logins are never counted, lockout is never applied, approvals are not counted per reviewer, and no action is gated on approval. The source has none of these, so neither does the model.
- The `Client` record class does not declare `created_by`/`updated_by` columns, while `create_client`, `update_client` and `delete_client` assign them. The routes as written are modelled and shown to fail (see Findings); the rest of the model uses the routes with those columns declared.
- A patch is any sequence of field changes. The request schemas produce each field at most once, in declaration order; the model allows more.
- ModuleLoader.ListRepr: Python's list `str()` is modelled without escaping quotes inside the strings; GitHubRoutes.DictRepr does the same for dict `str()`.
- ModuleLoader.AddonNames: the contract states which names are listed, not that listing order is kept; order is kept by the definition itself, and GetAvailableModules is stated as equal to that definition.
- Authentication.GetPasswordHash: the digest is symbolic and verifies only its own password; bcrypt reads only the first 72 bytes of a password, so two passwords that share those bytes verify each other, which the model does not capture.
- The workflows directory is the text repo_dir + "/.github/workflows". Path normalisation is not modelled, so a repo_dir with a trailing "/" or an empty one gives a different text than the path library would.
- AuthRoutes.GetCurrentUser: a "sub" claim that is not a string is treated like a missing one.
- GitHubRoutes.CreatePr: when GitHub opens the pull request but the local commit is refused (its number is already mirrored), the route answers 500 with no local row, while the pull request stays open on GitHub; the `Repository` value is an input, so that remote side effect is not shown.

## Findings

| source | as written | input that shows it | evidently intended | confidence | as-written member | corrected member |
|---|---|---|---|---|---|---|
| backend/forgeerp/core/services/github_service.py:124-141 | the insert path of `sync_pull_request_to_database` builds the mirror row without `change_type`, which `pull_requests.change_type` declares NOT NULL (backend/forgeerp/core/database/models/permission.py:46), so the commit fails and no row is ever inserted | pull request 7 open on GitHub with an empty local table: sync raises instead of inserting; the failure sits in the service and is latent through the routes, because its only caller, `get_pr_status`, answers 404 before syncing when no mirror row has that number (GitHubRoutes.UnknownPrIgnoresRemote) | an unmirrored pull request is inserted as one row with a change type supplied by the caller | not executed | GitHubService.SyncInsertAsWrittenFails | GitHubService.SyncInsertWithChangeType |
| backend/forgeerp/core/api/routes/clients.py:81-83 | `create_client`, `update_client` (line 120) and `delete_client` (line 153) assign `created_by`/`updated_by`, which the `Client` record (backend/forgeerp/core/database/models/client.py:9-38) does not declare because the audit base is not among its bases; the assignment raises before the commit, so every create, update and delete that passes its checks is a 500 and stores nothing | an admin creates the first client with any valid data: 500 and an empty table | the audit columns are declared on the client record and the three routes store their rows | not executed | Clients.AuditStampAsWrittenFails | Clients.CreateClientOutcomes |
