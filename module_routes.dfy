/**
 * The module endpoints (api/routes/modules.py): the per-client installation
 * state machine (not installed -> active -> inactive -> active again) and the
 * views of which modules a client has installed.
 *
 * The installation table has no unique key on (client, module); that there is
 * never more than one row per pair rests on `Install` alone, and is proved here
 * as `InstallKeepsOneRowPerPair`.
 */
module ModuleRoutes {
  import opened Common
  import opened Models
  import opened Authentication
  import opened ModuleLoader

  datatype ModuleCreate = ModuleCreate(
    name: string,
    displayName: string,
    description: Option<string>,
    category: string,
    dependsOn: Option<string>)

  /** Body of an install request. Its `clientId` is not consulted: the route
      installs for the client named in the path. */
  datatype ClientModuleCreate = ClientModuleCreate(clientId: int, moduleId: int, config: Option<string>)

  datatype ModuleResponse = ModuleResponse(
    id: int,
    name: string,
    displayName: string,
    description: Option<string>,
    category: string,
    isActive: bool,
    isInstalled: bool)

  datatype ModuleList = ModuleList(modules: seq<ModuleResponse>, total: int)

  datatype InstallResponse = InstallResponse(message: string, id: nat)

  /** The response of a stored module, with the installed mark `installed`. */
  function ResponseOf(id: int, m: Module, installed: bool): (r: ModuleResponse)
    ensures r.id == id && r.name == m.name && r.isActive == m.isActive && r.isInstalled == installed
  {
    ModuleResponse(id, m.name, m.displayName, m.description, m.category, m.isActive, installed)
  }

  // ---- Queries

  /** The installation row of a (client, module) pair, the first one if several. */
  function FindInstallation(cms: seq<ClientModule>, clientId: int, moduleId: int): (r: Option<nat>)
    ensures r.None? <==> forall i :: 0 <= i < |cms| ==> !(cms[i].clientId == clientId && cms[i].moduleId == moduleId)
    ensures r.Some? ==> 1 <= r.value <= |cms|
    ensures r.Some? ==> cms[r.value - 1].clientId == clientId && cms[r.value - 1].moduleId == moduleId
  {
    FirstWhere(cms, (cm: ClientModule) => cm.clientId == clientId && cm.moduleId == moduleId)
  }

  /** Keys of the installation rows of a pair. */
  ghost function PairIds(cms: seq<ClientModule>, clientId: int, moduleId: int): set<nat>
  {
    set i | 0 <= i < |cms| && cms[i].clientId == clientId && cms[i].moduleId == moduleId :: i + 1
  }

  /** The active modules, in key order. */
  function ActiveModules(modules: seq<Module>): (r: seq<Entry<Module>>)
    ensures forall e :: e in r ==> 1 <= e.id <= |modules| && modules[e.id - 1] == e.row && e.row.isActive
    ensures forall id :: Get(modules, id).Some? && Get(modules, id).value.isActive ==> Entry(id, Get(modules, id).value) in r
  {
    Where(modules, (m: Module) => m.isActive)
  }

  /** The module keys a list of responses names. */
  function ResponseIds(rs: seq<ModuleResponse>): set<int>
  {
    set k | 0 <= k < |rs| :: rs[k].id
  }

  // ---- The installation state machine

  /**
   * install_module_for_client as a transition: the response and the new
   * installation rows. Checks, in order: permission (403), client exists
   * (404), module exists (404); then an active row is a conflict (400), an
   * inactive row is reactivated in place with the new config, and no row
   * means one new active row.
   */
  function Install(user: User, clients: seq<Client>, modules: seq<Module>, cms: seq<ClientModule>,
                   clientId: int, data: ClientModuleCreate): (Result<InstallResponse>, seq<ClientModule>)
  {
    if !CheckPermission(user, "module_install", Some(clientId), None) then (Forbidden(), cms)
    else if Get(clients, clientId).None? then (Err(Error(NOT_FOUND, "Client not found")), cms)
    else if Get(modules, data.moduleId).None? then (Err(Error(NOT_FOUND, "Module not found")), cms)
    else
      match FindInstallation(cms, clientId, data.moduleId)
      case Some(id) =>
        if cms[id - 1].isActive then
          (Err(Error(BAD_REQUEST, "Module already installed for this client")), cms)
        else
          (Ok(InstallResponse("Module reactivated successfully", id)),
           cms[id - 1 := cms[id - 1].(isActive := true, config := data.config)])
      case None =>
        (Ok(InstallResponse("Module installed successfully", |cms| + 1)),
         cms + [NewClientModule(clientId, data.moduleId).(config := data.config)])
  }

  /**
   * uninstall_module_from_client as a transition. Checks, in order:
   * permission (403), client (404), module (404), an installation row for the
   * pair (404); then the row is deactivated, keeping its config. An already
   * inactive row is deactivated again without complaint.
   */
  function Uninstall(user: User, clients: seq<Client>, modules: seq<Module>, cms: seq<ClientModule>,
                     clientId: int, moduleId: int): (Result<()>, seq<ClientModule>)
  {
    if !CheckPermission(user, "module_uninstall", Some(clientId), None) then (Forbidden(), cms)
    else if Get(clients, clientId).None? then (Err(Error(NOT_FOUND, "Client not found")), cms)
    else if Get(modules, moduleId).None? then (Err(Error(NOT_FOUND, "Module not found")), cms)
    else
      match FindInstallation(cms, clientId, moduleId)
      case None => (Err(Error(NOT_FOUND, "Module not installed for this client")), cms)
      case Some(id) => (Ok(()), cms[id - 1 := cms[id - 1].(isActive := false)])
  }

  /** Every failed install leaves the rows as they were. Install succeeds
      exactly when the checks pass and the pair has no active row; it then
      either inserts exactly one row or rewrites exactly the pair's row. */
  lemma InstallOutcomes(user: User, clients: seq<Client>, modules: seq<Module>, cms: seq<ClientModule>,
                        clientId: int, data: ClientModuleCreate)
    ensures var (r, after) := Install(user, clients, modules, cms, clientId, data);
      && (r.Err? ==> after == cms)
      && (r.Err? && r.error.status == FORBIDDEN <==> !CheckPermission(user, "module_install", Some(clientId), None))
      && (r.Err? && r.error.status == FORBIDDEN ==> r == Forbidden())
      && (r.Ok? <==>
            && CheckPermission(user, "module_install", Some(clientId), None)
            && Get(clients, clientId).Some? && Get(modules, data.moduleId).Some?
            && (|| FindInstallation(cms, clientId, data.moduleId).None?
                || !cms[FindInstallation(cms, clientId, data.moduleId).value - 1].isActive))
      && (r.Ok? && FindInstallation(cms, clientId, data.moduleId).None? ==>
            && after == cms + [ClientModule(clientId, data.moduleId, data.config, true)] && r.value.id == |after|
            && r.value.message == "Module installed successfully")
      && (r.Ok? && FindInstallation(cms, clientId, data.moduleId).Some? ==>
            var id := FindInstallation(cms, clientId, data.moduleId).value;
            && r.value.id == id && |after| == |cms| && !cms[id - 1].isActive
            && r.value.message == "Module reactivated successfully"
            && after[id - 1] == ClientModule(clientId, data.moduleId, data.config, true)
            && forall i :: 0 <= i < |cms| && i != id - 1 ==> after[i] == cms[i])
      && (r == Err(Error(BAD_REQUEST, "Module already installed for this client")) <==>
            && CheckPermission(user, "module_install", Some(clientId), None)
            && Get(clients, clientId).Some? && Get(modules, data.moduleId).Some?
            && FindInstallation(cms, clientId, data.moduleId).Some?
            && cms[FindInstallation(cms, clientId, data.moduleId).value - 1].isActive)
      && (r == Err(Error(NOT_FOUND, "Client not found")) <==>
            CheckPermission(user, "module_install", Some(clientId), None) && Get(clients, clientId).None?)
      && (r == Err(Error(NOT_FOUND, "Module not found")) <==>
            && CheckPermission(user, "module_install", Some(clientId), None)
            && Get(clients, clientId).Some? && Get(modules, data.moduleId).None?)
  {
  }

  /**
   * Uninstall refuses in the order permission, client, module, installation
   * row, writing nothing; otherwise it deactivates exactly the pair's row,
   * keeping its config, whether or not the row was active.
   */
  lemma UninstallOutcomes(user: User, clients: seq<Client>, modules: seq<Module>, cms: seq<ClientModule>,
                          clientId: int, moduleId: int)
    ensures var (r, after) := Uninstall(user, clients, modules, cms, clientId, moduleId);
      var allowed := CheckPermission(user, "module_uninstall", Some(clientId), None);
      && (r.Err? ==> after == cms)
      && (r == Forbidden() <==> !allowed)
      && (r == Err(Error(NOT_FOUND, "Client not found")) <==> allowed && Get(clients, clientId).None?)
      && (r == Err(Error(NOT_FOUND, "Module not found")) <==>
            allowed && Get(clients, clientId).Some? && Get(modules, moduleId).None?)
      && (r == Err(Error(NOT_FOUND, "Module not installed for this client")) <==>
            && allowed && Get(clients, clientId).Some? && Get(modules, moduleId).Some?
            && FindInstallation(cms, clientId, moduleId).None?)
      && (r.Ok? <==>
            && allowed && Get(clients, clientId).Some? && Get(modules, moduleId).Some?
            && FindInstallation(cms, clientId, moduleId).Some?)
      && (r.Ok? ==>
            var id := FindInstallation(cms, clientId, moduleId).value;
            && |after| == |cms| && !after[id - 1].isActive
            && after[id - 1].clientId == clientId && after[id - 1].moduleId == moduleId
            && after[id - 1].config == cms[id - 1].config
            && forall i :: 0 <= i < |cms| && i != id - 1 ==> after[i] == cms[i])
  {
  }

  /** Install never creates a second row for a pair. */
  lemma InstallKeepsOneRowPerPair(user: User, clients: seq<Client>, modules: seq<Module>, cms: seq<ClientModule>,
                                  clientId: int, data: ClientModuleCreate)
    requires OneRowPerPair(cms)
    ensures OneRowPerPair(Install(user, clients, modules, cms, clientId, data).1)
  {
    var after := Install(user, clients, modules, cms, clientId, data).1;
    if after != cms && FindInstallation(cms, clientId, data.moduleId).None? {
      assert after == cms + [ClientModule(clientId, data.moduleId, data.config, true)];
      forall i, j | 0 <= i < j < |after|
        ensures !(after[i].clientId == after[j].clientId && after[i].moduleId == after[j].moduleId)
      {
        if j == |cms| {
          assert after[i] == cms[i];
        }
      }
    }
  }

  /** Uninstall rewrites one row's active flag and never adds a row. */
  lemma UninstallKeepsOneRowPerPair(user: User, clients: seq<Client>, modules: seq<Module>, cms: seq<ClientModule>,
                                    clientId: int, moduleId: int)
    requires OneRowPerPair(cms)
    ensures OneRowPerPair(Uninstall(user, clients, modules, cms, clientId, moduleId).1)
  {
    var after := Uninstall(user, clients, modules, cms, clientId, moduleId).1;
    assert |after| == |cms|;
    assert forall i :: 0 <= i < |cms| ==>
      after[i].clientId == cms[i].clientId && after[i].moduleId == cms[i].moduleId;
  }

  /** With at most one row per pair, that row is the only key of the pair. */
  lemma {:induction false} SinglePairRow(cms: seq<ClientModule>, clientId: int, moduleId: int)
    requires OneRowPerPair(cms)
    requires FindInstallation(cms, clientId, moduleId).Some?
    ensures PairIds(cms, clientId, moduleId) == {FindInstallation(cms, clientId, moduleId).value}
  {
    var id := FindInstallation(cms, clientId, moduleId).value;
    forall k | k in PairIds(cms, clientId, moduleId) ensures k == id {
      var i :| 0 <= i < |cms| && cms[i].clientId == clientId && cms[i].moduleId == moduleId && k == i + 1;
      assert !(i < id - 1);
      assert cms[id - 1].clientId == cms[i].clientId && cms[id - 1].moduleId == cms[i].moduleId;
      assert !(id - 1 < i);
    }
  }

  /** A successful install leaves the pair with one active row, found under the returned key. */
  lemma {:induction false} InstalledRow(user: User, clients: seq<Client>, modules: seq<Module>,
                                        cms: seq<ClientModule>, clientId: int, data: ClientModuleCreate)
    requires OneRowPerPair(cms)
    requires Install(user, clients, modules, cms, clientId, data).0.Ok?
    ensures var (r, after) := Install(user, clients, modules, cms, clientId, data);
      && OneRowPerPair(after)
      && 1 <= r.value.id <= |after|
      && after[r.value.id - 1] == ClientModule(clientId, data.moduleId, data.config, true)
      && FindInstallation(after, clientId, data.moduleId) == Some(r.value.id)
      && PairIds(after, clientId, data.moduleId) == {r.value.id}
  {
    var (r, after) := Install(user, clients, modules, cms, clientId, data);
    InstallOutcomes(user, clients, modules, cms, clientId, data);
    InstallKeepsOneRowPerPair(user, clients, modules, cms, clientId, data);
    var id := r.value.id;
    assert after[id - 1].clientId == clientId && after[id - 1].moduleId == data.moduleId;
    SinglePairRow(after, clientId, data.moduleId);
  }

  /** Uninstalling the pair's only row keeps it under the same key, inactive, with its config. */
  lemma {:induction false} UninstalledRow(user: User, clients: seq<Client>, modules: seq<Module>,
                                          cms: seq<ClientModule>, clientId: int, moduleId: int, id: int)
    requires OneRowPerPair(cms)
    requires 1 <= id <= |cms| && cms[id - 1].clientId == clientId && cms[id - 1].moduleId == moduleId
    requires Uninstall(user, clients, modules, cms, clientId, moduleId).0.Ok?
    ensures var after := Uninstall(user, clients, modules, cms, clientId, moduleId).1;
      && OneRowPerPair(after)
      && after == cms[id - 1 := cms[id - 1].(isActive := false)]
      && FindInstallation(after, clientId, moduleId) == Some(id)
  {
    SinglePairRow(cms, clientId, moduleId);
    assert FindInstallation(cms, clientId, moduleId) == Some(id);
    var after := Uninstall(user, clients, modules, cms, clientId, moduleId).1;
    UninstallKeepsOneRowPerPair(user, clients, modules, cms, clientId, moduleId);
    assert after[id - 1].clientId == clientId && after[id - 1].moduleId == moduleId;
    SinglePairRow(after, clientId, moduleId);
  }

  /**
   * Install, uninstall, install again with another config: the pair ends with
   * exactly one row, active, holding the second config, under the key the
   * first install returned.
   */
  lemma {:induction false} ReinstallReusesRow(user: User, clients: seq<Client>, modules: seq<Module>,
                                              cms: seq<ClientModule>, clientId: int, moduleId: int,
                                              config1: Option<string>, config2: Option<string>)
    requires OneRowPerPair(cms)
    requires Install(user, clients, modules, cms, clientId, ClientModuleCreate(clientId, moduleId, config1)).0.Ok?
    ensures
      var (r1, s1) := Install(user, clients, modules, cms, clientId, ClientModuleCreate(clientId, moduleId, config1));
      var (r2, s2) := Uninstall(user, clients, modules, s1, clientId, moduleId);
      var (r3, s3) := Install(user, clients, modules, s2, clientId, ClientModuleCreate(clientId, moduleId, config2));
      && r2 == Ok(())
      && r3 == Ok(InstallResponse("Module reactivated successfully", r1.value.id))
      && PairIds(s3, clientId, moduleId) == {r1.value.id}
      && s3[r1.value.id - 1] == ClientModule(clientId, moduleId, config2, true)
  {
    var data1 := ClientModuleCreate(clientId, moduleId, config1);
    var data2 := ClientModuleCreate(clientId, moduleId, config2);
    var (r1, s1) := Install(user, clients, modules, cms, clientId, data1);
    InstalledRow(user, clients, modules, cms, clientId, data1);
    var id := r1.value.id;
    var (r2, s2) := Uninstall(user, clients, modules, s1, clientId, moduleId);
    assert r2 == Ok(());
    UninstalledRow(user, clients, modules, s1, clientId, moduleId, id);
    assert !s2[id - 1].isActive;
    var (r3, s3) := Install(user, clients, modules, s2, clientId, data2);
    assert r3 == Ok(InstallResponse("Module reactivated successfully", id));
    InstalledRow(user, clients, modules, s2, clientId, data2);
  }

  /** Installing twice without an uninstall between: the second is 400 and
      changes nothing, and the pair keeps its single active row. */
  lemma {:induction false} SecondInstallConflicts(user: User, clients: seq<Client>, modules: seq<Module>,
                                                  cms: seq<ClientModule>, clientId: int, first: ClientModuleCreate,
                                                  second: ClientModuleCreate)
    requires OneRowPerPair(cms)
    requires first.moduleId == second.moduleId
    requires Install(user, clients, modules, cms, clientId, first).0.Ok?
    ensures
      var (r1, s1) := Install(user, clients, modules, cms, clientId, first);
      var (r2, s2) := Install(user, clients, modules, s1, clientId, second);
      && r2 == Err(Error(BAD_REQUEST, "Module already installed for this client"))
      && s2 == s1
      && PairIds(s2, clientId, first.moduleId) == {r1.value.id}
      && s2[r1.value.id - 1].isActive
  {
    InstalledRow(user, clients, modules, cms, clientId, first);
  }

  // ---- The routes

  method InstallModuleForClient(user: User, clients: seq<Client>, modules: seq<Module>,
                                cms: Table<ClientModule>, clientId: int, data: ClientModuleCreate)
    returns (r: Result<InstallResponse>)
    modifies cms
    ensures (r, cms.rows) == Install(user, clients, modules, old(cms.rows), clientId, data)
    ensures OneRowPerPair(old(cms.rows)) ==> OneRowPerPair(cms.rows)
  {
    ghost var before := cms.rows;
    if !CheckPermission(user, "module_install", Some(clientId), None) {
      return Forbidden();
    }
    if Get(clients, clientId).None? {
      return Err(Error(NOT_FOUND, "Client not found"));
    }
    if Get(modules, data.moduleId).None? {
      return Err(Error(NOT_FOUND, "Module not found"));
    }
    var existing := FindInstallation(cms.rows, clientId, data.moduleId);
    if existing.Some? {
      var row := cms.rows[existing.value - 1];
      if row.isActive {
        return Err(Error(BAD_REQUEST, "Module already installed for this client"));
      }
      row := row.(isActive := true, config := data.config);
      cms.Put(existing.value, row);
      if OneRowPerPair(before) {
        InstallKeepsOneRowPerPair(user, clients, modules, before, clientId, data);
      }
      return Ok(InstallResponse("Module reactivated successfully", existing.value));
    }
    var id := cms.Insert(NewClientModule(clientId, data.moduleId).(config := data.config));
    if OneRowPerPair(before) {
      InstallKeepsOneRowPerPair(user, clients, modules, before, clientId, data);
    }
    r := Ok(InstallResponse("Module installed successfully", id));
  }

  method UninstallModuleFromClient(user: User, clients: seq<Client>, modules: seq<Module>,
                                   cms: Table<ClientModule>, clientId: int, moduleId: int)
    returns (r: Result<()>)
    modifies cms
    ensures (r, cms.rows) == Uninstall(user, clients, modules, old(cms.rows), clientId, moduleId)
    ensures OneRowPerPair(old(cms.rows)) ==> OneRowPerPair(cms.rows)
  {
    if OneRowPerPair(cms.rows) {
      UninstallKeepsOneRowPerPair(user, clients, modules, cms.rows, clientId, moduleId);
    }
    if !CheckPermission(user, "module_uninstall", Some(clientId), None) {
      return Forbidden();
    }
    if Get(clients, clientId).None? {
      return Err(Error(NOT_FOUND, "Client not found"));
    }
    if Get(modules, moduleId).None? {
      return Err(Error(NOT_FOUND, "Module not found"));
    }
    var found := FindInstallation(cms.rows, clientId, moduleId);
    if found.None? {
      return Err(Error(NOT_FOUND, "Module not installed for this client"));
    }
    var row := cms.rows[found.value - 1];
    cms.Put(found.value, row.(isActive := false));
    r := Ok(());
  }

  /** create_module: 403, then 400 for a name already taken; otherwise one new
      row with the given fields, active and not installed. */
  method CreateModule(user: User, modules: Table<Module>, data: ModuleCreate)
    returns (r: Result<ModuleResponse>)
    modifies modules
    ensures !CheckPermission(user, "module_create", None, None) ==>
      r == Forbidden() && modules.rows == old(modules.rows)
    ensures CheckPermission(user, "module_create", None, None) &&
            (exists i :: 0 <= i < |old(modules.rows)| && old(modules.rows)[i].name == data.name) ==>
      r == Err(Error(BAD_REQUEST, "Module already exists")) && modules.rows == old(modules.rows)
    ensures r.Ok? <==> (CheckPermission(user, "module_create", None, None) &&
                        forall i :: 0 <= i < |old(modules.rows)| ==> old(modules.rows)[i].name != data.name)
    ensures r.Ok? ==>
      var m := Module(data.name, data.displayName, data.description, data.category, data.dependsOn, true, false);
      && modules.rows == old(modules.rows) + [m]
      && r.value == ResponseOf(|modules.rows|, m, false)
    ensures r.Err? ==> modules.rows == old(modules.rows)
    ensures UniqueModuleNames(old(modules.rows)) ==> UniqueModuleNames(modules.rows)
  {
    if !CheckPermission(user, "module_create", None, None) {
      return Forbidden();
    }
    var existing := FirstWhere(modules.rows, (m: Module) => m.name == data.name);
    if existing.Some? {
      return Err(Error(BAD_REQUEST, "Module already exists"));
    }
    var m := NewModule(data.name, data.displayName).(
      description := data.description, category := data.category, dependsOn := data.dependsOn);
    var id := modules.Insert(m);
    r := Ok(ResponseOf(id, m, false));
  }

  /**
   * list_client_modules: 404 for an unknown client; otherwise the modules of
   * the client's active installation rows, each marked installed, skipping
   * rows whose module no longer exists; total is the number returned.
   */
  method ListClientModules(clients: seq<Client>, modules: seq<Module>, cms: seq<ClientModule>, clientId: int)
    returns (r: Result<ModuleList>)
    ensures r.Err? <==> Get(clients, clientId).None?
    ensures r.Err? ==> r.error == Error(NOT_FOUND, "Client not found")
    ensures r.Ok? ==> r.value.total == |r.value.modules|
    ensures r.Ok? ==> forall k :: 0 <= k < |r.value.modules| ==>
      && Get(modules, r.value.modules[k].id).Some?
      && r.value.modules[k] == ResponseOf(r.value.modules[k].id, modules[r.value.modules[k].id - 1], true)
      && r.value.modules[k].id in InstalledIds(cms, clientId, |cms|)
    ensures r.Ok? ==> forall id :: id in InstalledIds(cms, clientId, |cms|) && Get(modules, id).Some? ==>
      id in ResponseIds(r.value.modules)
  {
    if Get(clients, clientId).None? {
      return Err(Error(NOT_FOUND, "Client not found"));
    }
    var out := InstalledResponses(modules, cms, clientId);
    var installed := InstalledModules(cms, clientId, modules, |cms|);
    assert ResponseIds(out) == EntryIds(installed) by {
      assert forall k :: 0 <= k < |out| ==> out[k].id == installed[k].id;
    }
    r := Ok(ModuleList(out, |out|));
  }

  /** The loop of list_client_modules: one installed response per module of
      the client's active rows, in row order. */
  method InstalledResponses(modules: seq<Module>, cms: seq<ClientModule>, clientId: int)
    returns (out: seq<ModuleResponse>)
    ensures |out| == |InstalledModules(cms, clientId, modules, |cms|)|
    ensures forall k :: 0 <= k < |out| ==>
      out[k] == ResponseOf(InstalledModules(cms, clientId, modules, |cms|)[k].id,
                           InstalledModules(cms, clientId, modules, |cms|)[k].row, true)
  {
    out := [];
    var i := 0;
    while i < |cms|
      invariant 0 <= i <= |cms|
      invariant |out| == |InstalledModules(cms, clientId, modules, i)|
      invariant forall k :: 0 <= k < |out| ==>
        out[k] == ResponseOf(InstalledModules(cms, clientId, modules, i)[k].id,
                             InstalledModules(cms, clientId, modules, i)[k].row, true)
    {
      var row := cms[i];
      if row.clientId == clientId && row.isActive {
        var m := Get(modules, row.moduleId);
        if m.Some? {
          out := out + [ResponseOf(row.moduleId, m.value, true)];
        }
      }
      i := i + 1;
    }
  }

  /** The loop of list_modules over a page: each module marked installed
      exactly when its key is among the client's installed keys. */
  method MarkInstalled(page: seq<Entry<Module>>, installed: set<int>) returns (responses: seq<ModuleResponse>)
    ensures |responses| == |page|
    ensures forall k :: 0 <= k < |page| ==>
      responses[k] == ResponseOf(page[k].id, page[k].row, page[k].id in installed)
  {
    responses := [];
    var i := 0;
    while i < |page|
      invariant 0 <= i <= |page|
      invariant |responses| == i
      invariant forall k :: 0 <= k < i ==>
        responses[k] == ResponseOf(page[k].id, page[k].row, page[k].id in installed)
    {
      responses := responses + [ResponseOf(page[i].id, page[i].row, page[i].id in installed)];
      i := i + 1;
    }
  }

  /**
   * list_modules: one page of the active modules. With a truthy client id,
   * 404 for an unknown client, and each module is marked installed exactly
   * when an active installation row of that client points at it; without
   * one, each keeps its own installed flag. The total counts every active
   * module, whatever the page.
   */
  method ListModules(clients: seq<Client>, modules: seq<Module>, cms: seq<ClientModule>,
                     clientId: Option<int>, skip: int, limit: int)
    returns (r: Result<ModuleList>)
    ensures r.Err? <==> Truthy(clientId) && Get(clients, clientId.value).None?
    ensures r.Err? ==> r.error == Error(NOT_FOUND, "Client not found")
    ensures r.Ok? ==> r.value.total == |ActiveModules(modules)|
    ensures r.Ok? ==>
      var page := Page(ActiveModules(modules), skip, limit);
      && |r.value.modules| == |page|
      && forall k :: 0 <= k < |page| ==>
           r.value.modules[k] == ResponseOf(page[k].id, page[k].row,
             if Truthy(clientId) then page[k].id in InstalledIds(cms, clientId.value, |cms|)
             else page[k].row.isInstalled)
  {
    var page := Page(ActiveModules(modules), skip, limit);
    var responses: seq<ModuleResponse>;
    if Truthy(clientId) {
      if Get(clients, clientId.value).None? {
        return Err(Error(NOT_FOUND, "Client not found"));
      }
      responses := MarkInstalled(page, InstalledIds(cms, clientId.value, |cms|));
    } else {
      responses := seq(|page|, k requires 0 <= k < |page| => ResponseOf(page[k].id, page[k].row, page[k].row.isInstalled));
    }
    r := Ok(ModuleList(responses, |ActiveModules(modules)|));
  }
}
