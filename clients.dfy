/**
 * The client endpoints (api/routes/clients.py): listing the active clients,
 * reading one, creating one under a unique code, patching the updatable
 * fields, and soft deletion.
 *
 * The audit columns created_by and updated_by are modelled as declared on
 * the client record (through the audit mixin of the base models), which is
 * what the routes evidently intend; the record as declared lacks them, and
 * the routes as written are modelled at the end of this module.
 *
 * A patch is the request's explicitly set fields, applied one by one; a field
 * sent as null stays null. Writing null into a NOT NULL column (name,
 * is_active, onboarding_completed) makes the commit fail, which surfaces as
 * the server's generic 500 and stores nothing.
 */
module Clients {
  import opened Common
  import opened Models
  import opened Authentication

  const UNHANDLED := Error(INTERNAL_SERVER_ERROR, "Internal Server Error")
  const CLIENT_NOT_FOUND := Error(NOT_FOUND, "Client not found")

  datatype ClientCreate = ClientCreate(
    name: string,
    code: string,
    email: Option<string>,
    namespacePrefix: string,
    domain: Option<string>)

  /** The fields ClientUpdate carries; code and namespace prefix are not among them. */
  datatype ClientField = Name | Email | Domain | IsActive | OnboardingCompleted

  /** One explicitly set field of a patch; None is an explicit null. */
  datatype ClientChange =
    | SetName(name: Option<string>)
    | SetEmail(email: Option<string>)
    | SetDomain(domain: Option<string>)
    | SetIsActive(isActive: Option<bool>)
    | SetOnboardingCompleted(onboardingCompleted: Option<bool>)

  datatype ClientList = ClientList(clients: seq<Entry<Client>>, total: int)

  // ---- Reading

  function ActiveClients(clients: seq<Client>): (r: seq<Entry<Client>>)
    ensures forall e :: e in r ==> 1 <= e.id <= |clients| && clients[e.id - 1] == e.row && e.row.isActive
    ensures forall id :: Get(clients, id).Some? && Get(clients, id).value.isActive ==> Entry(id, Get(clients, id).value) in r
  {
    Where(clients, (c: Client) => c.isActive)
  }

  /**
   * list_clients: one page of the active clients; the total counts every
   * active client, whatever the page.
   */
  function ListClients(clients: seq<Client>, skip: int, limit: int): (r: ClientList)
    ensures r.total == |ActiveClients(clients)|
    ensures limit >= 0 ==> |r.clients| <= limit
    ensures forall k :: 0 <= k < |r.clients| ==>
      Get(clients, r.clients[k].id) == Some(r.clients[k].row) && r.clients[k].row.isActive
    ensures skip <= 0 && (limit < 0 || r.total <= limit) ==> r.clients == ActiveClients(clients)
    ensures r.clients == Page(ActiveClients(clients), skip, limit)
  {
    ClientList(Page(ActiveClients(clients), skip, limit), |ActiveClients(clients)|)
  }

  /** get_client: any stored client, active or soft-deleted. */
  function GetClient(clients: seq<Client>, id: int): (r: Result<Client>)
    ensures r.Ok? <==> 1 <= id <= |clients|
    ensures r.Ok? ==> r.value == clients[id - 1]
    ensures r.Err? ==> r.error == CLIENT_NOT_FOUND
  {
    match Get(clients, id)
    case None => Err(CLIENT_NOT_FOUND)
    case Some(c) => Ok(c)
  }

  // ---- Creating

  function FindClientByCode(clients: seq<Client>, code: string): (r: Option<nat>)
    ensures r.None? <==> forall i :: 0 <= i < |clients| ==> clients[i].code != code
    ensures r.Some? ==> 1 <= r.value <= |clients| && clients[r.value - 1].code == code
  {
    FirstWhere(clients, (c: Client) => c.code == code)
  }

  /** The client create_client stores: the request's fields, active, not
      onboarded, created and updated by the caller. */
  function CreatedClient(data: ClientCreate, userId: nat, now: int): (c: Client)
    ensures c.name == data.name && c.code == data.code && c.email == data.email
    ensures c.namespacePrefix == data.namespacePrefix && c.domain == data.domain
    ensures c.isActive && !c.onboardingCompleted && c.lastSyncAt.None?
    ensures c.createdBy == Some(userId) && c.updatedBy == Some(userId)
    ensures c.createdAt == now && c.updatedAt == now
  {
    NewClient(data.name, data.code, now).(
      email := data.email, namespacePrefix := data.namespacePrefix, domain := data.domain,
      createdBy := Some(userId), updatedBy := Some(userId))
  }

  /** create_client as a transition: 403, then 400 when any client, active or
      not, already has the code, else one new row. */
  function CreateClientOf(current: Entry<User>, clients: seq<Client>, data: ClientCreate, now: int)
    : (Result<Entry<Client>>, seq<Client>)
  {
    if !CheckPermission(current.row, "client_create", None, None) then (Forbidden(), clients)
    else if FindClientByCode(clients, data.code).Some? then
      (Err(Error(BAD_REQUEST, "Client code already exists")), clients)
    else
      var c := CreatedClient(data, current.id, now);
      (Ok(Entry(|clients| + 1, c)), clients + [c])
  }

  lemma CreateClientOutcomes(current: Entry<User>, clients: seq<Client>, data: ClientCreate, now: int)
    ensures var (r, after) := CreateClientOf(current, clients, data, now);
      && (r.Err? ==> after == clients)
      && (r == Forbidden() <==> !CheckPermission(current.row, "client_create", None, None))
      && (r == Err(Error(BAD_REQUEST, "Client code already exists")) <==>
            CheckPermission(current.row, "client_create", None, None) &&
            exists i :: 0 <= i < |clients| && clients[i].code == data.code)
      && (r.Ok? <==> (CheckPermission(current.row, "client_create", None, None) &&
                      forall i :: 0 <= i < |clients| ==> clients[i].code != data.code))
      && (r.Ok? ==> after == clients + [CreatedClient(data, current.id, now)] && r.value.id == |after|
                    && GetClient(after, r.value.id) == Ok(r.value.row))
      && (UniqueCodes(clients) ==> UniqueCodes(after))
  {
    var (r, after) := CreateClientOf(current, clients, data, now);
    if r.Ok? && UniqueCodes(clients) {
      forall i, j | 0 <= i < j < |after| ensures after[i].code != after[j].code {
        assert after[i] == clients[i];
      }
    }
  }

  method CreateClient(current: Entry<User>, clients: Table<Client>, data: ClientCreate, now: int)
    returns (r: Result<Entry<Client>>)
    modifies clients
    ensures (r, clients.rows) == CreateClientOf(current, old(clients.rows), data, now)
  {
    if !CheckPermission(current.row, "client_create", None, None) {
      return Forbidden();
    }
    if FindClientByCode(clients.rows, data.code).Some? {
      return Err(Error(BAD_REQUEST, "Client code already exists"));
    }
    var c := CreatedClient(data, current.id, now);
    var id := clients.Insert(c);
    r := Ok(Entry(id, c));
  }

  // ---- Patching
  //
  // A partial update is a sequence of field changes applied by a setattr
  // loop. Environments and Configurations follow the same pattern over their own fields:
  // FieldOf names the field a change writes, Assign applies one change,
  // Patched applies the first n, LastChangeWins says the last change of a
  // field decides it, and Common.AnyNull decides whether the commit is
  // refused. The helpers stay per record because each works on that
  // record's own columns.

  function FieldOf(ch: ClientChange): ClientField
  {
    match ch
    case SetName(_) => Name
    case SetEmail(_) => Email
    case SetDomain(_) => Domain
    case SetIsActive(_) => IsActive
    case SetOnboardingCompleted(_) => OnboardingCompleted
  }

  /** A null written into a NOT NULL column. */
  predicate NullInRequired(ch: ClientChange)
  {
    (ch.SetName? && ch.name.None?) || (ch.SetIsActive? && ch.isActive.None?) ||
    (ch.SetOnboardingCompleted? && ch.onboardingCompleted.None?)
  }

  predicate SameField(a: Client, b: Client, f: ClientField)
  {
    match f
    case Name => a.name == b.name
    case Email => a.email == b.email
    case Domain => a.domain == b.domain
    case IsActive => a.isActive == b.isActive
    case OnboardingCompleted => a.onboardingCompleted == b.onboardingCompleted
  }

  /** The client holds the value the change writes. */
  predicate Carries(c: Client, ch: ClientChange)
    requires !NullInRequired(ch)
  {
    match ch
    case SetName(v) => c.name == v.value
    case SetEmail(v) => c.email == v
    case SetDomain(v) => c.domain == v
    case SetIsActive(v) => c.isActive == v.value
    case SetOnboardingCompleted(v) => c.onboardingCompleted == v.value
  }

  /** One setattr. A null into a NOT NULL column is left out here: the commit
      that follows is refused anyway. */
  function Assign(c: Client, ch: ClientChange): (r: Client)
    ensures !NullInRequired(ch) ==> Carries(r, ch)
    ensures forall f :: f != FieldOf(ch) ==> SameField(r, c, f)
    ensures r.code == c.code && r.namespacePrefix == c.namespacePrefix && r.lastSyncAt == c.lastSyncAt
    ensures r.createdBy == c.createdBy && r.updatedBy == c.updatedBy
    ensures r.createdAt == c.createdAt && r.updatedAt == c.updatedAt
  {
    match ch
    case SetName(v) => if v.Some? then c.(name := v.value) else c
    case SetEmail(v) => c.(email := v)
    case SetDomain(v) => c.(domain := v)
    case SetIsActive(v) => if v.Some? then c.(isActive := v.value) else c
    case SetOnboardingCompleted(v) => if v.Some? then c.(onboardingCompleted := v.value) else c
  }

  /**
   * The first `n` changes applied in order: a field no change names keeps
   * its value, and code, namespace prefix and the audit columns never change.
   */
  function Patched(c: Client, changes: seq<ClientChange>, n: nat): (r: Client)
    requires n <= |changes|
    ensures forall f :: (forall k :: 0 <= k < n ==> FieldOf(changes[k]) != f) ==> SameField(r, c, f)
    ensures r.code == c.code && r.namespacePrefix == c.namespacePrefix && r.lastSyncAt == c.lastSyncAt
    ensures r.createdBy == c.createdBy && r.updatedBy == c.updatedBy
    ensures r.createdAt == c.createdAt && r.updatedAt == c.updatedAt
  {
    if n == 0 then c
    else
      var prev := Patched(c, changes, n - 1);
      var r := Assign(prev, changes[n - 1]);
      assert forall f :: (forall k :: 0 <= k < n ==> FieldOf(changes[k]) != f) ==>
        SameField(prev, c, f) && FieldOf(changes[n - 1]) != f;
      assert forall f :: SameField(r, prev, f) && SameField(prev, c, f) ==> SameField(r, c, f);
      r
  }

  /** The last change of a field decides it: later changes to other fields leave it. */
  lemma {:induction false} LastChangeWins(c: Client, changes: seq<ClientChange>, k: nat, n: nat)
    requires k < n <= |changes|
    requires !NullInRequired(changes[k])
    requires forall j :: k < j < n ==> FieldOf(changes[j]) != FieldOf(changes[k])
    ensures Carries(Patched(c, changes, n), changes[k])
  {
    if n > k + 1 {
      LastChangeWins(c, changes, k, n - 1);
      var before := Patched(c, changes, n - 1);
      assert SameField(Patched(c, changes, n), before, FieldOf(changes[k]));
    }
  }

  /** update_client as a transition: 403 before 404, then the patch, the
      update stamp and the caller as last updater, or 500 for a null into a
      NOT NULL column. */
  function UpdateClientOf(current: Entry<User>, clients: seq<Client>, id: int, changes: seq<ClientChange>, now: int)
    : (Result<Client>, seq<Client>)
  {
    if !CheckPermission(current.row, "client_modify", Some(id), None) then (Forbidden(), clients)
    else if Get(clients, id).None? then (Err(CLIENT_NOT_FOUND), clients)
    else if AnyNull(changes, NullInRequired, |changes|) then (Err(UNHANDLED), clients)
    else
      var c := Patched(clients[id - 1], changes, |changes|).(updatedAt := now, updatedBy := Some(current.id));
      (Ok(c), clients[id - 1 := c])
  }

  /**
   * Update refuses in the order permission (403), existence (404), a null
   * into a NOT NULL column (500), writing nothing; otherwise it stores the
   * patched row with the update stamp, keeping code, prefix and creator.
   */
  lemma UpdateClientOutcomes(current: Entry<User>, clients: seq<Client>, id: int, changes: seq<ClientChange>, now: int)
    ensures var (r, after) := UpdateClientOf(current, clients, id, changes, now);
      var allowed := CheckPermission(current.row, "client_modify", Some(id), None);
      && |after| == |clients|
      && (r.Err? ==> after == clients)
      && (r == Forbidden() <==> !allowed)
      && (r == Err(CLIENT_NOT_FOUND) <==> allowed && Get(clients, id).None?)
      && (r == Err(UNHANDLED) <==>
            allowed && Get(clients, id).Some? && exists k :: 0 <= k < |changes| && NullInRequired(changes[k]))
      && (r.Ok? <==>
            allowed && Get(clients, id).Some? && forall k :: 0 <= k < |changes| ==> !NullInRequired(changes[k]))
      && (r.Ok? ==>
            && 1 <= id <= |clients| && after[id - 1] == r.value
            && r.value == Patched(clients[id - 1], changes, |changes|).(updatedAt := now, updatedBy := Some(current.id))
            && (forall i :: 0 <= i < |clients| && i != id - 1 ==> after[i] == clients[i])
            && r.value.code == clients[id - 1].code && r.value.namespacePrefix == clients[id - 1].namespacePrefix
            && r.value.createdBy == clients[id - 1].createdBy
            && r.value.updatedAt == now && r.value.updatedBy == Some(current.id)
            && (forall k :: 0 <= k < |changes| ==> !NullInRequired(changes[k])))
      && (UniqueCodes(clients) ==> UniqueCodes(after))
  {
  }

  method UpdateClient(current: Entry<User>, clients: Table<Client>, id: int, changes: seq<ClientChange>, now: int)
    returns (r: Result<Client>)
    modifies clients
    ensures (r, clients.rows) == UpdateClientOf(current, old(clients.rows), id, changes, now)
  {
    if !CheckPermission(current.row, "client_modify", Some(id), None) {
      return Forbidden();
    }
    if Get(clients.rows, id).None? {
      return Err(CLIENT_NOT_FOUND);
    }
    var c := clients.rows[id - 1];
    var refused := false;
    var i := 0;
    while i < |changes|
      invariant 0 <= i <= |changes|
      invariant c == Patched(clients.rows[id - 1], changes, i)
      invariant refused == AnyNull(changes, NullInRequired, i)
    {
      refused := refused || NullInRequired(changes[i]);
      c := Assign(c, changes[i]);
      i := i + 1;
    }
    if refused {
      return Err(UNHANDLED);
    }
    c := c.(updatedAt := now, updatedBy := Some(current.id));
    clients.Put(id, c);
    r := Ok(c);
  }

  // ---- Soft deletion

  function DeleteClientOf(current: Entry<User>, clients: seq<Client>, id: int, now: int): (Result<()>, seq<Client>)
  {
    if !CheckPermission(current.row, "client_delete", Some(id), None) then (Forbidden(), clients)
    else if Get(clients, id).None? then (Err(CLIENT_NOT_FOUND), clients)
    else (Ok(()), clients[id - 1 := clients[id - 1].(isActive := false, updatedAt := now, updatedBy := Some(current.id))])
  }

  /**
   * Delete answers 403 for a refused caller whatever the key, then 404 for a
   * missing client, writing nothing; otherwise it deactivates exactly that
   * row, stamping the time and the caller, and succeeds even when the client
   * was already inactive.
   */
  lemma DeleteClientOutcomes(current: Entry<User>, clients: seq<Client>, id: int, now: int)
    ensures var (r, after) := DeleteClientOf(current, clients, id, now);
      var allowed := CheckPermission(current.row, "client_delete", Some(id), None);
      && |after| == |clients|
      && (r.Err? ==> after == clients)
      && (r == Forbidden() <==> !allowed)
      && (r == Err(CLIENT_NOT_FOUND) <==> allowed && Get(clients, id).None?)
      && (r.Ok? <==> allowed && Get(clients, id).Some?)
      && (r.Ok? ==>
            && after[id - 1] == clients[id - 1].(isActive := false, updatedAt := now, updatedBy := Some(current.id))
            && forall i :: 0 <= i < |clients| && i != id - 1 ==> after[i] == clients[i])
  {
  }

  /**
   * A deleted client leaves the list but can still be read, keeps its code
   * (so the code stays taken), and nothing else changes.
   */
  lemma DeletedClientStaysReadable(current: Entry<User>, clients: seq<Client>, id: int, now: int)
    requires DeleteClientOf(current, clients, id, now).0.Ok?
    ensures var after := DeleteClientOf(current, clients, id, now).1;
      && GetClient(after, id).Ok? && !GetClient(after, id).value.isActive
      && GetClient(after, id).value.code == clients[id - 1].code
      && (forall e :: e in ActiveClients(after) ==> e.id != id)
      && (forall i :: 0 <= i < |clients| && i != id - 1 ==> after[i] == clients[i])
      && (UniqueCodes(clients) ==> UniqueCodes(after))
      && (forall d: ClientCreate :: d.code == clients[id - 1].code && CheckPermission(current.row, "client_create", None, None) ==>
            CreateClientOf(current, after, d, now).0 == Err(Error(BAD_REQUEST, "Client code already exists")))
  {
    var after := DeleteClientOf(current, clients, id, now).1;
    forall d: ClientCreate | d.code == clients[id - 1].code && CheckPermission(current.row, "client_create", None, None)
      ensures CreateClientOf(current, after, d, now).0 == Err(Error(BAD_REQUEST, "Client code already exists"))
    {
      assert after[id - 1].code == d.code;
    }
  }

  /** Update and delete check permission before existence: a refused caller
      gets 403 whether or not the client exists, and nothing changes. */
  lemma RefusalPrecedesLookup(current: Entry<User>, clients: seq<Client>, id: int, changes: seq<ClientChange>, now: int)
    requires !CheckPermission(current.row, "client_modify", Some(id), None)
    ensures UpdateClientOf(current, clients, id, changes, now) == (Forbidden(), clients)
    ensures DeleteClientOf(current, clients, id, now) == (Forbidden(), clients)
  {
  }

  method DeleteClient(current: Entry<User>, clients: Table<Client>, id: int, now: int) returns (r: Result<()>)
    modifies clients
    ensures (r, clients.rows) == DeleteClientOf(current, old(clients.rows), id, now)
  {
    if !CheckPermission(current.row, "client_delete", Some(id), None) {
      return Forbidden();
    }
    if Get(clients.rows, id).None? {
      return Err(CLIENT_NOT_FOUND);
    }
    var c := clients.rows[id - 1];
    clients.Put(id, c.(isActive := false, updatedAt := now, updatedBy := Some(current.id)));
    r := Ok(());
  }

  // ---- The routes as written

  /**
   * create_client as written: the client record declares no created_by
   * column, so assigning it after the 400 check raises, the route answers the
   * server's generic 500, and the session closes without a commit.
   */
  function CreateClientAsWritten(current: Entry<User>, clients: seq<Client>, data: ClientCreate)
    : (Result<Entry<Client>>, seq<Client>)
  {
    if !CheckPermission(current.row, "client_create", None, None) then (Forbidden(), clients)
    else if FindClientByCode(clients, data.code).Some? then
      (Err(Error(BAD_REQUEST, "Client code already exists")), clients)
    else (Err(UNHANDLED), clients)
  }

  /** update_client as written: the patch is applied to the loaded object, but
      the updated_by assignment raises before the commit. */
  function UpdateClientAsWritten(current: Entry<User>, clients: seq<Client>, id: int)
    : (Result<Client>, seq<Client>)
  {
    if !CheckPermission(current.row, "client_modify", Some(id), None) then (Forbidden(), clients)
    else if Get(clients, id).None? then (Err(CLIENT_NOT_FOUND), clients)
    else (Err(UNHANDLED), clients)
  }

  /** delete_client as written: the updated_by assignment raises before the commit. */
  function DeleteClientAsWritten(current: Entry<User>, clients: seq<Client>, id: int): (Result<()>, seq<Client>)
  {
    if !CheckPermission(current.row, "client_delete", Some(id), None) then (Forbidden(), clients)
    else if Get(clients, id).None? then (Err(CLIENT_NOT_FOUND), clients)
    else (Err(UNHANDLED), clients)
  }

  /**
   * As written, the three writing routes never succeed and never write: they
   * answer 500 exactly where the intended routes succeed, and agree with
   * them on every refusal.
   */
  lemma AuditStampAsWrittenFails(current: Entry<User>, clients: seq<Client>, data: ClientCreate, id: int,
                                 changes: seq<ClientChange>, now: int)
    ensures var (r, after) := CreateClientOf(current, clients, data, now);
      CreateClientAsWritten(current, clients, data) == if r.Ok? then (Err(UNHANDLED), clients) else (r, after)
    ensures var (r, after) := DeleteClientOf(current, clients, id, now);
      DeleteClientAsWritten(current, clients, id) == if r.Ok? then (Err(UNHANDLED), clients) else (r, after)
    ensures var (r, after) := UpdateClientOf(current, clients, id, changes, now);
      UpdateClientAsWritten(current, clients, id) ==
        if r.Ok? || r == Err(UNHANDLED) then (Err(UNHANDLED), clients) else (r, after)
  {
  }

  /** An admin creating the first client: the intended route stores it, the
      route as written answers 500 and stores nothing. */
  lemma CreateClientAsWrittenExample(admin: Entry<User>, data: ClientCreate, now: int)
    requires admin.row.role == "admin"
    ensures CreateClientOf(admin, [], data, now).0.Ok?
    ensures |CreateClientOf(admin, [], data, now).1| == 1
    ensures CreateClientAsWritten(admin, [], data) == (Err(UNHANDLED), [])
  {
  }
}
