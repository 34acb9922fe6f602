/**
 * The environment endpoints (api/routes/environments.py): listing active
 * environments, optionally of one client, reading one, creating one under an
 * unused namespace, patching domain and flags, and soft deletion.
 *
 * Update and delete look the environment up before checking permission, the
 * reverse of the client endpoints. A null into a NOT NULL column
 * (is_production, is_active) makes the commit fail: the server's generic 500,
 * nothing stored.
 */
module Environments {
  import opened Common
  import opened Models
  import opened Authentication

  const UNHANDLED := Error(INTERNAL_SERVER_ERROR, "Internal Server Error")
  const ENVIRONMENT_NOT_FOUND := Error(NOT_FOUND, "Environment not found")
  const NAMESPACE_TAKEN := Error(BAD_REQUEST, "Environment with this namespace already exists")

  datatype EnvironmentCreate = EnvironmentCreate(
    clientId: int,
    name: string,
    namespace: string,
    domain: Option<string>,
    isProduction: bool)

  /** The fields EnvironmentUpdate carries; client, name and namespace are not among them. */
  datatype EnvironmentField = Domain | IsProduction | IsActive

  /** One explicitly set field of a patch; None is an explicit null. */
  datatype EnvironmentChange =
    | SetDomain(domain: Option<string>)
    | SetIsProduction(isProduction: Option<bool>)
    | SetIsActive(isActive: Option<bool>)

  datatype EnvironmentList = EnvironmentList(environments: seq<Entry<Environment>>, total: int)

  // ---- Reading

  /** The filter of list_environments: active, and of the client when `clientId` is truthy. */
  predicate Listed(e: Environment, clientId: Option<int>)
  {
    e.isActive && (Truthy(clientId) ==> e.clientId == clientId.value)
  }

  function ListedEnvironments(envs: seq<Environment>, clientId: Option<int>): (r: seq<Entry<Environment>>)
    ensures forall e :: e in r ==> 1 <= e.id <= |envs| && envs[e.id - 1] == e.row && Listed(e.row, clientId)
    ensures forall id :: Get(envs, id).Some? && Listed(Get(envs, id).value, clientId) ==> Entry(id, Get(envs, id).value) in r
  {
    Where(envs, (e: Environment) => Listed(e, clientId))
  }

  /**
   * list_environments: one page of the listed environments; the total counts
   * every environment the same filter keeps, whatever the page.
   */
  function ListEnvironments(envs: seq<Environment>, clientId: Option<int>, skip: int, limit: int): (r: EnvironmentList)
    ensures r.total == |ListedEnvironments(envs, clientId)|
    ensures limit >= 0 ==> |r.environments| <= limit
    ensures forall k :: 0 <= k < |r.environments| ==>
      Get(envs, r.environments[k].id) == Some(r.environments[k].row) && r.environments[k].row.isActive &&
      (Truthy(clientId) ==> r.environments[k].row.clientId == clientId.value)
    ensures skip <= 0 && (limit < 0 || r.total <= limit) ==> r.environments == ListedEnvironments(envs, clientId)
    ensures r.environments == Page(ListedEnvironments(envs, clientId), skip, limit)
  {
    var listed := ListedEnvironments(envs, clientId);
    EnvironmentList(Page(listed, skip, limit), |listed|)
  }

  /** get_environment: any stored environment, active or soft-deleted. */
  function GetEnvironment(envs: seq<Environment>, id: int): (r: Result<Environment>)
    ensures r.Ok? <==> 1 <= id <= |envs|
    ensures r.Ok? ==> r.value == envs[id - 1]
    ensures r.Err? ==> r.error == ENVIRONMENT_NOT_FOUND
  {
    match Get(envs, id)
    case None => Err(ENVIRONMENT_NOT_FOUND)
    case Some(e) => Ok(e)
  }

  // ---- Creating

  function FindEnvironmentByNamespace(envs: seq<Environment>, namespace: string): (r: Option<nat>)
    ensures r.None? <==> forall i :: 0 <= i < |envs| ==> envs[i].namespace != namespace
    ensures r.Some? ==> 1 <= r.value <= |envs| && envs[r.value - 1].namespace == namespace
  {
    FirstWhere(envs, (e: Environment) => e.namespace == namespace)
  }

  function CreatedEnvironment(data: EnvironmentCreate, now: int): (e: Environment)
    ensures e.clientId == data.clientId && e.name == data.name && e.namespace == data.namespace
    ensures e.domain == data.domain && e.isProduction == data.isProduction && e.isActive
  {
    NewEnvironment(data.clientId, data.name, data.namespace, now).(domain := data.domain, isProduction := data.isProduction)
  }

  /** create_environment as a transition: 403, then 404 for an unknown client,
      then 400 when any environment, active or not, has the namespace. */
  function CreateEnvironmentOf(user: User, clients: seq<Client>, envs: seq<Environment>, data: EnvironmentCreate, now: int)
    : (Result<Entry<Environment>>, seq<Environment>)
  {
    if !CheckPermission(user, "environment_create", Some(data.clientId), None) then (Forbidden(), envs)
    else if Get(clients, data.clientId).None? then (Err(Error(NOT_FOUND, "Client not found")), envs)
    else if FindEnvironmentByNamespace(envs, data.namespace).Some? then (Err(NAMESPACE_TAKEN), envs)
    else
      var e := CreatedEnvironment(data, now);
      (Ok(Entry(|envs| + 1, e)), envs + [e])
  }

  /** Every stored environment belongs to a stored client. */
  ghost predicate OwnedByClients(envs: seq<Environment>, clients: seq<Client>)
  {
    forall i :: 0 <= i < |envs| ==> 1 <= envs[i].clientId <= |clients|
  }

  lemma CreateEnvironmentOutcomes(user: User, clients: seq<Client>, envs: seq<Environment>, data: EnvironmentCreate, now: int)
    ensures var (r, after) := CreateEnvironmentOf(user, clients, envs, data, now);
      && (r.Err? ==> after == envs)
      && (r == Forbidden() <==> !CheckPermission(user, "environment_create", Some(data.clientId), None))
      && (r == Err(NAMESPACE_TAKEN) <==>
            && CheckPermission(user, "environment_create", Some(data.clientId), None)
            && 1 <= data.clientId <= |clients|
            && exists i :: 0 <= i < |envs| && envs[i].namespace == data.namespace)
      && (r == Err(Error(NOT_FOUND, "Client not found")) <==>
            CheckPermission(user, "environment_create", Some(data.clientId), None) && Get(clients, data.clientId).None?)
      && (r.Ok? <==>
            && CheckPermission(user, "environment_create", Some(data.clientId), None)
            && 1 <= data.clientId <= |clients|
            && forall i :: 0 <= i < |envs| ==> envs[i].namespace != data.namespace)
      && (r.Ok? ==> after == envs + [CreatedEnvironment(data, now)] && r.value.id == |after|)
      && (UniqueNamespaces(envs) ==> UniqueNamespaces(after))
      && (OwnedByClients(envs, clients) ==> OwnedByClients(after, clients))
  {
    var (r, after) := CreateEnvironmentOf(user, clients, envs, data, now);
    if r.Ok? && UniqueNamespaces(envs) {
      forall i, j | 0 <= i < j < |after| ensures after[i].namespace != after[j].namespace {
        assert after[i] == envs[i];
      }
    }
  }

  method CreateEnvironment(user: User, clients: seq<Client>, envs: Table<Environment>, data: EnvironmentCreate, now: int)
    returns (r: Result<Entry<Environment>>)
    modifies envs
    ensures (r, envs.rows) == CreateEnvironmentOf(user, clients, old(envs.rows), data, now)
  {
    if !CheckPermission(user, "environment_create", Some(data.clientId), None) {
      return Forbidden();
    }
    if Get(clients, data.clientId).None? {
      return Err(Error(NOT_FOUND, "Client not found"));
    }
    if FindEnvironmentByNamespace(envs.rows, data.namespace).Some? {
      return Err(NAMESPACE_TAKEN);
    }
    var e := CreatedEnvironment(data, now);
    var id := envs.Insert(e);
    r := Ok(Entry(id, e));
  }

  // ---- Patching
  //
  // A partial update is a sequence of field changes applied by a setattr
  // loop. Clients and Configurations follow the same pattern over their own fields:
  // FieldOf names the field a change writes, Assign applies one change,
  // Patched applies the first n, LastChangeWins says the last change of a
  // field decides it, and Common.AnyNull decides whether the commit is
  // refused. The helpers stay per record because each works on that
  // record's own columns.

  function FieldOf(ch: EnvironmentChange): EnvironmentField
  {
    match ch
    case SetDomain(_) => Domain
    case SetIsProduction(_) => IsProduction
    case SetIsActive(_) => IsActive
  }

  predicate NullInRequired(ch: EnvironmentChange)
  {
    (ch.SetIsProduction? && ch.isProduction.None?) || (ch.SetIsActive? && ch.isActive.None?)
  }

  predicate SameField(a: Environment, b: Environment, f: EnvironmentField)
  {
    match f
    case Domain => a.domain == b.domain
    case IsProduction => a.isProduction == b.isProduction
    case IsActive => a.isActive == b.isActive
  }

  predicate Carries(e: Environment, ch: EnvironmentChange)
    requires !NullInRequired(ch)
  {
    match ch
    case SetDomain(v) => e.domain == v
    case SetIsProduction(v) => e.isProduction == v.value
    case SetIsActive(v) => e.isActive == v.value
  }

  /** One setattr; a null into a NOT NULL column is left out (the commit is refused). */
  function Assign(e: Environment, ch: EnvironmentChange): (r: Environment)
    ensures !NullInRequired(ch) ==> Carries(r, ch)
    ensures forall f :: f != FieldOf(ch) ==> SameField(r, e, f)
    ensures r.clientId == e.clientId && r.name == e.name && r.namespace == e.namespace
    ensures r.createdAt == e.createdAt && r.updatedAt == e.updatedAt
  {
    match ch
    case SetDomain(v) => e.(domain := v)
    case SetIsProduction(v) => if v.Some? then e.(isProduction := v.value) else e
    case SetIsActive(v) => if v.Some? then e.(isActive := v.value) else e
  }

  /** The first `n` changes applied in order: unnamed fields keep their values,
      and owner, name and namespace never change. */
  function Patched(e: Environment, changes: seq<EnvironmentChange>, n: nat): (r: Environment)
    requires n <= |changes|
    ensures forall f :: (forall k :: 0 <= k < n ==> FieldOf(changes[k]) != f) ==> SameField(r, e, f)
    ensures r.clientId == e.clientId && r.name == e.name && r.namespace == e.namespace
    ensures r.createdAt == e.createdAt && r.updatedAt == e.updatedAt
  {
    if n == 0 then e
    else
      var prev := Patched(e, changes, n - 1);
      var r := Assign(prev, changes[n - 1]);
      assert forall f :: (forall k :: 0 <= k < n ==> FieldOf(changes[k]) != f) ==>
        SameField(prev, e, f) && FieldOf(changes[n - 1]) != f;
      assert forall f :: SameField(r, prev, f) && SameField(prev, e, f) ==> SameField(r, e, f);
      r
  }

  /** The last change of a field decides it. */
  lemma {:induction false} LastChangeWins(e: Environment, changes: seq<EnvironmentChange>, k: nat, n: nat)
    requires k < n <= |changes|
    requires !NullInRequired(changes[k])
    requires forall j :: k < j < n ==> FieldOf(changes[j]) != FieldOf(changes[k])
    ensures Carries(Patched(e, changes, n), changes[k])
  {
    if n > k + 1 {
      LastChangeWins(e, changes, k, n - 1);
      assert SameField(Patched(e, changes, n), Patched(e, changes, n - 1), FieldOf(changes[k]));
    }
  }

  /** update_environment as a transition: 404 before 403, then the patch and
      the update stamp, or 500 for a null into a NOT NULL column. */
  function UpdateEnvironmentOf(user: User, envs: seq<Environment>, id: int, changes: seq<EnvironmentChange>, now: int)
    : (Result<Environment>, seq<Environment>)
  {
    if Get(envs, id).None? then (Err(ENVIRONMENT_NOT_FOUND), envs)
    else if !CheckPermission(user, "environment_modify", Some(envs[id - 1].clientId), None) then (Forbidden(), envs)
    else if AnyNull(changes, NullInRequired, |changes|) then (Err(UNHANDLED), envs)
    else
      var e := Patched(envs[id - 1], changes, |changes|).(updatedAt := now);
      (Ok(e), envs[id - 1 := e])
  }

  /**
   * Update refuses in the order existence (404), permission on the owning
   * client (403), a null into a NOT NULL column (500), writing nothing;
   * otherwise it stores the patched row with the update stamp, keeping owner,
   * name and namespace.
   */
  lemma UpdateEnvironmentOutcomes(user: User, envs: seq<Environment>, id: int, changes: seq<EnvironmentChange>, now: int)
    ensures var (r, after) := UpdateEnvironmentOf(user, envs, id, changes, now);
      && |after| == |envs|
      && (r.Err? ==> after == envs)
      && (r == Err(ENVIRONMENT_NOT_FOUND) <==> Get(envs, id).None?)
      && (r == Forbidden() <==>
            Get(envs, id).Some? && !CheckPermission(user, "environment_modify", Some(envs[id - 1].clientId), None))
      && (r == Err(UNHANDLED) <==>
            && Get(envs, id).Some? && CheckPermission(user, "environment_modify", Some(envs[id - 1].clientId), None)
            && exists k :: 0 <= k < |changes| && NullInRequired(changes[k]))
      && (r.Ok? <==>
            && Get(envs, id).Some? && CheckPermission(user, "environment_modify", Some(envs[id - 1].clientId), None)
            && forall k :: 0 <= k < |changes| ==> !NullInRequired(changes[k]))
      && (r.Ok? ==>
            && 1 <= id <= |envs| && after[id - 1] == r.value
            && r.value == Patched(envs[id - 1], changes, |changes|).(updatedAt := now)
            && (forall i :: 0 <= i < |envs| && i != id - 1 ==> after[i] == envs[i])
            && r.value.clientId == envs[id - 1].clientId && r.value.name == envs[id - 1].name
            && r.value.namespace == envs[id - 1].namespace && r.value.updatedAt == now)
      && (UniqueNamespaces(envs) ==> UniqueNamespaces(after))
  {
  }

  method UpdateEnvironment(user: User, envs: Table<Environment>, id: int, changes: seq<EnvironmentChange>, now: int)
    returns (r: Result<Environment>)
    modifies envs
    ensures (r, envs.rows) == UpdateEnvironmentOf(user, old(envs.rows), id, changes, now)
  {
    if Get(envs.rows, id).None? {
      return Err(ENVIRONMENT_NOT_FOUND);
    }
    var e := envs.rows[id - 1];
    if !CheckPermission(user, "environment_modify", Some(e.clientId), None) {
      return Forbidden();
    }
    var refused := false;
    var i := 0;
    while i < |changes|
      invariant 0 <= i <= |changes|
      invariant e == Patched(envs.rows[id - 1], changes, i)
      invariant refused == AnyNull(changes, NullInRequired, i)
    {
      refused := refused || NullInRequired(changes[i]);
      e := Assign(e, changes[i]);
      i := i + 1;
    }
    if refused {
      return Err(UNHANDLED);
    }
    e := e.(updatedAt := now);
    envs.Put(id, e);
    r := Ok(e);
  }

  // ---- Soft deletion

  function DeleteEnvironmentOf(user: User, envs: seq<Environment>, id: int, now: int): (Result<()>, seq<Environment>)
  {
    if Get(envs, id).None? then (Err(ENVIRONMENT_NOT_FOUND), envs)
    else if !CheckPermission(user, "environment_delete", Some(envs[id - 1].clientId), None) then (Forbidden(), envs)
    else (Ok(()), envs[id - 1 := envs[id - 1].(isActive := false, updatedAt := now)])
  }

  /**
   * Delete answers 404 for a missing environment whoever asks, then 403 when
   * the caller may not delete in the owning client, writing nothing;
   * otherwise it deactivates exactly that row and stamps the time, even when
   * it was already inactive.
   */
  lemma DeleteEnvironmentOutcomes(user: User, envs: seq<Environment>, id: int, now: int)
    ensures var (r, after) := DeleteEnvironmentOf(user, envs, id, now);
      && |after| == |envs|
      && (r.Err? ==> after == envs)
      && (r == Err(ENVIRONMENT_NOT_FOUND) <==> Get(envs, id).None?)
      && (r == Forbidden() <==>
            Get(envs, id).Some? && !CheckPermission(user, "environment_delete", Some(envs[id - 1].clientId), None))
      && (r.Ok? <==>
            Get(envs, id).Some? && CheckPermission(user, "environment_delete", Some(envs[id - 1].clientId), None))
      && (r.Ok? ==>
            && after[id - 1] == envs[id - 1].(isActive := false, updatedAt := now)
            && forall i :: 0 <= i < |envs| && i != id - 1 ==> after[i] == envs[i])
  {
  }

  /**
   * A deleted environment leaves every listing but can still be read, and its
   * namespace stays taken for new environments.
   */
  lemma DeletedEnvironmentStaysReadable(user: User, clients: seq<Client>, envs: seq<Environment>, id: int, now: int)
    requires DeleteEnvironmentOf(user, envs, id, now).0.Ok?
    ensures var after := DeleteEnvironmentOf(user, envs, id, now).1;
      && GetEnvironment(after, id).Ok? && !GetEnvironment(after, id).value.isActive
      && (forall c: Option<int>, e :: e in ListedEnvironments(after, c) ==> e.id != id)
      && (forall i :: 0 <= i < |envs| && i != id - 1 ==> after[i] == envs[i])
      && (UniqueNamespaces(envs) ==> UniqueNamespaces(after))
      && (forall d: EnvironmentCreate :: d.namespace == envs[id - 1].namespace ==>
            CreateEnvironmentOf(user, clients, after, d, now).0.Err?)
  {
    var after := DeleteEnvironmentOf(user, envs, id, now).1;
    forall d: EnvironmentCreate | d.namespace == envs[id - 1].namespace
      ensures CreateEnvironmentOf(user, clients, after, d, now).0.Err?
    {
      assert after[id - 1].namespace == d.namespace;
    }
  }

  /** Update and delete look the environment up first: an unknown key is 404
      for every caller, permitted or not, and nothing changes. */
  lemma LookupPrecedesRefusal(user: User, envs: seq<Environment>, id: int, changes: seq<EnvironmentChange>, now: int)
    requires !(1 <= id <= |envs|)
    ensures UpdateEnvironmentOf(user, envs, id, changes, now) == (Err(ENVIRONMENT_NOT_FOUND), envs)
    ensures DeleteEnvironmentOf(user, envs, id, now) == (Err(ENVIRONMENT_NOT_FOUND), envs)
  {
  }

  method DeleteEnvironment(user: User, envs: Table<Environment>, id: int, now: int) returns (r: Result<()>)
    modifies envs
    ensures (r, envs.rows) == DeleteEnvironmentOf(user, old(envs.rows), id, now)
  {
    if Get(envs.rows, id).None? {
      return Err(ENVIRONMENT_NOT_FOUND);
    }
    var e := envs.rows[id - 1];
    if !CheckPermission(user, "environment_delete", Some(e.clientId), None) {
      return Forbidden();
    }
    envs.Put(id, e.(isActive := false, updatedAt := now));
    r := Ok(());
  }
}
