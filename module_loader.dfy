/**
 * The module loader (services/module_loader.py): reading addon manifests,
 * listing the addons on disk, registering an addon as a module, and the
 * join from a client's installation rows to its modules.
 *
 * The addons directory is the value `AddonsDir`: whether it exists, the
 * entries a directory listing yields (in listing order), and the parsed
 * manifest.yaml of each addon directory that has one.
 */
module ModuleLoader {
  import opened Common
  import opened Models

  /** A parsed manifest.yaml. A key the file leaves out is None. */
  datatype Manifest = Manifest(
    name: Option<string>,
    description: Option<string>,
    category: Option<string>,
    depends: Option<seq<string>>)

  datatype DirEntry = DirEntry(name: string, isDir: bool, hasManifest: bool)

  datatype AddonsDir = AddonsDir(exists_: bool, entries: seq<DirEntry>, manifests: map<string, Manifest>)

  /** A call that succeeds, or one that raises FileNotFoundError. */
  datatype Loaded<+T> = Loaded(value: T) | FileNotFound(message: string)

  // ---- Manifests

  function MissingManifestMessage(moduleName: string): string
  {
    "Module " + moduleName + " not found or manifest.yaml missing"
  }

  /** load_module_manifest: the manifest of the addon, or FileNotFoundError. */
  function LoadModuleManifest(addons: AddonsDir, moduleName: string): (r: Loaded<Manifest>)
    ensures r.Loaded? <==> moduleName in addons.manifests
    ensures r.Loaded? ==> r.value == addons.manifests[moduleName]
    ensures r.FileNotFound? ==> r.message == MissingManifestMessage(moduleName)
  {
    if moduleName in addons.manifests then Loaded(addons.manifests[moduleName])
    else FileNotFound(MissingManifestMessage(moduleName))
  }

  /** get_module_dependencies: the manifest's "depends", and [] when the key
      is absent or the manifest cannot be loaded. */
  function GetModuleDependencies(addons: AddonsDir, moduleName: string): (deps: seq<string>)
    ensures moduleName !in addons.manifests ==> deps == []
    ensures moduleName in addons.manifests && addons.manifests[moduleName].depends.Some? ==>
      deps == addons.manifests[moduleName].depends.value
    ensures moduleName in addons.manifests && addons.manifests[moduleName].depends.None? ==> deps == []
  {
    match LoadModuleManifest(addons, moduleName)
    case FileNotFound(_) => []
    case Loaded(manifest) => if manifest.depends.Some? then manifest.depends.value else []
  }

  // ---- Listing the addons on disk

  function StartsWithUnderscore(name: string): bool
  {
    |name| > 0 && name[0] == '_'
  }

  /** An entry that get_available_modules reports. */
  predicate IsAddon(e: DirEntry)
  {
    e.isDir && !StartsWithUnderscore(e.name) && e.hasManifest
  }

  /** Names of the addons among the first `n` entries, in listing order. */
  function AddonNames(entries: seq<DirEntry>, n: nat): (names: seq<string>)
    requires n <= |entries|
    ensures |names| <= n
    ensures forall x :: x in names <==> exists j :: 0 <= j < n && IsAddon(entries[j]) && entries[j].name == x
  {
    if n == 0 then []
    else
      var front := AddonNames(entries, n - 1);
      var e := entries[n - 1];
      if IsAddon(e) then
        var names := front + [e.name];
        assert forall x :: x in names <==> x in front || x == e.name;
        names
      else front
  }

  /**
   * get_available_modules: nothing when the addons directory is missing;
   * otherwise the names of the entries that are directories, do not start
   * with "_" and hold a manifest.yaml, in listing order.
   */
  method GetAvailableModules(addons: AddonsDir) returns (names: seq<string>)
    ensures !addons.exists_ ==> names == []
    ensures addons.exists_ ==> names == AddonNames(addons.entries, |addons.entries|)
  {
    if !addons.exists_ {
      return [];
    }
    names := [];
    var i := 0;
    while i < |addons.entries|
      invariant 0 <= i <= |addons.entries|
      invariant names == AddonNames(addons.entries, i)
    {
      var item := addons.entries[i];
      if item.isDir && !StartsWithUnderscore(item.name) {
        if item.hasManifest {
          names := names + [item.name];
        }
      }
      i := i + 1;
    }
  }

  /**
   * The value describes one real addons directory: a missing directory lists
   * nothing and holds no manifest, and a manifest loads exactly for the
   * listed directories that hold one.
   */
  predicate WellFormed(addons: AddonsDir)
  {
    && (!addons.exists_ ==> addons.entries == [] && addons.manifests == map[])
    && (forall e :: e in addons.entries && e.isDir && e.hasManifest ==> e.name in addons.manifests)
    && (forall name :: name in addons.manifests ==>
          exists e :: e in addons.entries && e.isDir && e.hasManifest && e.name == name)
  }

  /** On a well-formed directory, every addon listed has a manifest that loads. */
  lemma ListedAddonsLoad(addons: AddonsDir, name: string)
    requires WellFormed(addons)
    requires name in AddonNames(addons.entries, |addons.entries|)
    ensures LoadModuleManifest(addons, name).Loaded?
    ensures GetModuleDependencies(addons, name) == if addons.manifests[name].depends.Some?
                                                  then addons.manifests[name].depends.value else []
  {
    var j :| 0 <= j < |addons.entries| && IsAddon(addons.entries[j]) && addons.entries[j].name == name;
    assert addons.entries[j] in addons.entries;
  }

  // ---- Registering a module

  /** Python's str() of a list of strings, quotes not escaped. */
  function ListRepr(items: seq<string>): string
  {
    "[" + JoinQuoted(items) + "]"
  }

  function JoinQuoted(items: seq<string>): string
  {
    if items == [] then ""
    else if |items| == 1 then "'" + items[0] + "'"
    else "'" + items[0] + "', " + JoinQuoted(items[1..])
  }

  /**
   * The module row registered for an addon: display name from the manifest's
   * "name" or else the addon name, category "addon" by default, the
   * dependency list as text only when it is non-empty, active and installed.
   */
  function ModuleFromManifest(moduleName: string, manifest: Manifest): (m: Module)
    ensures m.name == moduleName
    ensures m.displayName == if manifest.name.Some? then manifest.name.value else moduleName
    ensures m.description == manifest.description
    ensures m.category == if manifest.category.Some? then manifest.category.value else "addon"
    ensures m.dependsOn.Some? <==> manifest.depends.Some? && manifest.depends.value != []
    ensures m.dependsOn.Some? ==> m.dependsOn.value == ListRepr(manifest.depends.value)
    ensures m.isActive && m.isInstalled
  {
    Module(
      moduleName,
      if manifest.name.Some? then manifest.name.value else moduleName,
      manifest.description,
      if manifest.category.Some? then manifest.category.value else "addon",
      if manifest.depends.Some? && manifest.depends.value != [] then Some(ListRepr(manifest.depends.value)) else None,
      true,
      true)
  }

  function FindModuleByName(modules: seq<Module>, name: string): (r: Option<nat>)
    ensures r.None? <==> forall i :: 0 <= i < |modules| ==> modules[i].name != name
    ensures r.Some? ==> 1 <= r.value <= |modules| && modules[r.value - 1].name == name
  {
    FirstWhere(modules, (m: Module) => m.name == name)
  }

  /** Installation rows point at existing modules. */
  ghost predicate RowsReferToModules(cms: seq<ClientModule>, modules: seq<Module>)
  {
    forall i :: 0 <= i < |cms| ==> 1 <= cms[i].moduleId <= |modules|
  }

  /**
   * install_module_in_database. A name already registered returns that module
   * and writes nothing, whatever the client. Otherwise a missing manifest
   * raises before anything is written; else the module is inserted from its
   * manifest and, for a truthy client id, one active installation row for it
   * follows.
   */
  method InstallModuleInDatabase(addons: AddonsDir, modules: Table<Module>, cms: Table<ClientModule>,
                                 moduleName: string, clientId: Option<int>)
    returns (r: Loaded<Entry<Module>>)
    modifies modules, cms
    ensures FindModuleByName(old(modules.rows), moduleName).Some? ==>
      var id := FindModuleByName(old(modules.rows), moduleName).value;
      && r == Loaded(Entry(id, old(modules.rows)[id - 1]))
      && modules.rows == old(modules.rows) && cms.rows == old(cms.rows)
    ensures FindModuleByName(old(modules.rows), moduleName).None? && moduleName !in addons.manifests ==>
      && r == FileNotFound(MissingManifestMessage(moduleName))
      && modules.rows == old(modules.rows) && cms.rows == old(cms.rows)
    ensures FindModuleByName(old(modules.rows), moduleName).None? && moduleName in addons.manifests ==>
      var m := ModuleFromManifest(moduleName, addons.manifests[moduleName]);
      && modules.rows == old(modules.rows) + [m]
      && r == Loaded(Entry(|modules.rows|, m))
      && cms.rows == old(cms.rows) +
           (if Truthy(clientId) then [NewClientModule(clientId.value, |modules.rows|)] else [])
    ensures UniqueModuleNames(old(modules.rows)) ==> UniqueModuleNames(modules.rows)
    ensures RowsReferToModules(old(cms.rows), old(modules.rows)) ==> RowsReferToModules(cms.rows, modules.rows)
    ensures RowsReferToModules(old(cms.rows), old(modules.rows)) && OneRowPerPair(old(cms.rows)) ==>
      OneRowPerPair(cms.rows)
  {
    var existing := FindModuleByName(modules.rows, moduleName);
    if existing.Some? {
      return Loaded(Entry(existing.value, modules.rows[existing.value - 1]));
    }
    var manifest := LoadModuleManifest(addons, moduleName);
    if manifest.FileNotFound? {
      return FileNotFound(manifest.message);
    }
    var m := ModuleFromManifest(moduleName, manifest.value);
    var id := modules.Insert(m);
    if Truthy(clientId) {
      var _ := cms.Insert(NewClientModule(clientId.value, id));
    }
    r := Loaded(Entry(id, m));
  }

  // ---- What a client has installed

  /** Module keys among the client's active rows, of the first `n` installation rows. */
  function InstalledIds(cms: seq<ClientModule>, clientId: int, n: nat): set<int>
    requires n <= |cms|
  {
    set i | 0 <= i < n && cms[i].clientId == clientId && cms[i].isActive :: cms[i].moduleId
  }

  function EntryIds(es: seq<Entry<Module>>): set<int>
  {
    set k | 0 <= k < |es| :: es[k].id
  }

  /**
   * The modules the client's active rows among the first `n` installation
   * rows point to, in row order; a row whose module is gone contributes
   * nothing. Exactly the installed keys that name an existing module appear.
   */
  function InstalledModules(cms: seq<ClientModule>, clientId: int, modules: seq<Module>, n: nat)
    : (r: seq<Entry<Module>>)
    requires n <= |cms|
    ensures |r| <= n
    ensures forall k :: 0 <= k < |r| ==>
      1 <= r[k].id <= |modules| && modules[r[k].id - 1] == r[k].row && r[k].id in InstalledIds(cms, clientId, n)
    ensures forall id :: id in InstalledIds(cms, clientId, n) && 1 <= id <= |modules| ==> id in EntryIds(r)
  {
    if n == 0 then []
    else
      var front := InstalledModules(cms, clientId, modules, n - 1);
      var row := cms[n - 1];
      assert InstalledIds(cms, clientId, n) ==
        InstalledIds(cms, clientId, n - 1) + (if row.clientId == clientId && row.isActive then {row.moduleId} else {});
      if row.clientId != clientId || !row.isActive then front
      else
        match Get(modules, row.moduleId)
        case None => front
        case Some(m) =>
          var r := front + [Entry(row.moduleId as nat, m)];
          assert forall k :: 0 <= k < |front| ==> r[k] == front[k];
          assert r[|front|].id == row.moduleId;
          r
  }

  /** get_installed_modules_for_client. */
  method GetInstalledModulesForClient(modules: seq<Module>, cms: seq<ClientModule>, clientId: int)
    returns (r: seq<Entry<Module>>)
    ensures r == InstalledModules(cms, clientId, modules, |cms|)
    ensures forall k :: 0 <= k < |r| ==>
      Get(modules, r[k].id) == Some(r[k].row) && r[k].id in InstalledIds(cms, clientId, |cms|)
    ensures forall id :: id in InstalledIds(cms, clientId, |cms|) && Get(modules, id).Some? ==> id in EntryIds(r)
  {
    r := [];
    var i := 0;
    while i < |cms|
      invariant 0 <= i <= |cms|
      invariant r == InstalledModules(cms, clientId, modules, i)
    {
      var cm := cms[i];
      if cm.clientId == clientId && cm.isActive {
        var found := Get(modules, cm.moduleId);
        if found.Some? {
          r := r + [Entry(cm.moduleId as nat, found.value)];
        }
      }
      i := i + 1;
    }
  }
}
