/**
 * The configuration endpoints (api/routes/configurations.py): listing active
 * configurations, optionally of one client and/or one module, reading one,
 * creating one (keys are not required to be unique), and patching value,
 * type, description and the active flag. There is no delete endpoint;
 * setting is_active to false through a patch takes a configuration out of
 * the listings.
 *
 * A null into a NOT NULL column (value, value_type, is_active) makes the
 * commit fail: the server's generic 500, nothing stored.
 */
module Configurations {
  import opened Common
  import opened Models
  import opened Authentication

  const UNHANDLED := Error(INTERNAL_SERVER_ERROR, "Internal Server Error")
  const CONFIGURATION_NOT_FOUND := Error(NOT_FOUND, "Configuration not found")

  datatype ConfigurationCreate = ConfigurationCreate(
    clientId: Option<int>,
    moduleId: Option<int>,
    key: string,
    value: string,
    valueType: string,
    description: Option<string>)

  /** The fields ConfigurationUpdate carries; key, client and module are not among them. */
  datatype ConfigurationField = Value | ValueType | Description | IsActive

  /** One explicitly set field of a patch; None is an explicit null. */
  datatype ConfigurationChange =
    | SetValue(value: Option<string>)
    | SetValueType(valueType: Option<string>)
    | SetDescription(description: Option<string>)
    | SetIsActive(isActive: Option<bool>)

  datatype ConfigurationList = ConfigurationList(configurations: seq<Entry<Configuration>>, total: int)

  // ---- Reading

  /** The filter of list_configurations: active, of the client and of the
      module when those are truthy. */
  predicate Listed(c: Configuration, clientId: Option<int>, moduleId: Option<int>)
  {
    && c.isActive
    && (Truthy(clientId) ==> c.clientId == clientId)
    && (Truthy(moduleId) ==> c.moduleId == moduleId)
  }

  function ListedConfigurations(configs: seq<Configuration>, clientId: Option<int>, moduleId: Option<int>)
    : (r: seq<Entry<Configuration>>)
    ensures forall e :: e in r ==>
      1 <= e.id <= |configs| && configs[e.id - 1] == e.row && Listed(e.row, clientId, moduleId)
    ensures forall id :: Get(configs, id).Some? && Listed(Get(configs, id).value, clientId, moduleId) ==>
      Entry(id, Get(configs, id).value) in r
  {
    Where(configs, (c: Configuration) => Listed(c, clientId, moduleId))
  }

  /**
   * list_configurations: one page of the listed configurations; the total
   * counts every configuration the same filters keep, whatever the page.
   */
  function ListConfigurations(configs: seq<Configuration>, clientId: Option<int>, moduleId: Option<int>,
                              skip: int, limit: int): (r: ConfigurationList)
    ensures r.total == |ListedConfigurations(configs, clientId, moduleId)|
    ensures limit >= 0 ==> |r.configurations| <= limit
    ensures forall k :: 0 <= k < |r.configurations| ==>
      Get(configs, r.configurations[k].id) == Some(r.configurations[k].row) &&
      Listed(r.configurations[k].row, clientId, moduleId)
    ensures skip <= 0 && (limit < 0 || r.total <= limit) ==>
      r.configurations == ListedConfigurations(configs, clientId, moduleId)
    ensures r.configurations == Page(ListedConfigurations(configs, clientId, moduleId), skip, limit)
  {
    var listed := ListedConfigurations(configs, clientId, moduleId);
    ConfigurationList(Page(listed, skip, limit), |listed|)
  }

  /** get_configuration: any stored configuration, active or not. */
  function GetConfiguration(configs: seq<Configuration>, id: int): (r: Result<Configuration>)
    ensures r.Ok? <==> 1 <= id <= |configs|
    ensures r.Ok? ==> r.value == configs[id - 1]
    ensures r.Err? ==> r.error == CONFIGURATION_NOT_FOUND
  {
    match Get(configs, id)
    case None => Err(CONFIGURATION_NOT_FOUND)
    case Some(c) => Ok(c)
  }

  // ---- Creating

  function CreatedConfiguration(data: ConfigurationCreate, now: int): (c: Configuration)
    ensures c.clientId == data.clientId && c.moduleId == data.moduleId
    ensures c.key == data.key && c.value == data.value && c.valueType == data.valueType
    ensures c.description == data.description && c.isActive
  {
    NewConfiguration(data.key, data.value, now).(
      clientId := data.clientId, moduleId := data.moduleId,
      valueType := data.valueType, description := data.description)
  }

  /** create_configuration as a transition: 403, else one new row. */
  function CreateConfigurationOf(user: User, configs: seq<Configuration>, data: ConfigurationCreate, now: int)
    : (Result<Entry<Configuration>>, seq<Configuration>)
  {
    if !CheckPermission(user, "config_create", None, None) then (Forbidden(), configs)
    else
      var c := CreatedConfiguration(data, now);
      (Ok(Entry(|configs| + 1, c)), configs + [c])
  }

  /**
   * Creation fails only for want of permission: a key already in use, in any
   * scope, is stored a second time, and both rows are listed.
   */
  lemma DuplicateKeysAccepted(user: User, configs: seq<Configuration>, data: ConfigurationCreate, now: int)
    requires CheckPermission(user, "config_create", None, None)
    ensures var (r, after) := CreateConfigurationOf(user, configs, data, now);
      && r.Ok? && r.value.id == |after| && after == configs + [CreatedConfiguration(data, now)]
      && (forall i :: 0 <= i < |configs| && configs[i].key == data.key ==>
            after[i].key == after[|configs|].key &&
            (Entry(i + 1, after[i]) in ListedConfigurations(after, None, None) <==> configs[i].isActive))
      && Entry(|after|, after[|configs|]) in ListedConfigurations(after, None, None)
  {
    var after := CreateConfigurationOf(user, configs, data, now).1;
    assert forall i :: 0 <= i < |after| ==> Get(after, i + 1) == Some(after[i]);
  }

  method CreateConfiguration(user: User, configs: Table<Configuration>, data: ConfigurationCreate, now: int)
    returns (r: Result<Entry<Configuration>>)
    modifies configs
    ensures (r, configs.rows) == CreateConfigurationOf(user, old(configs.rows), data, now)
  {
    if !CheckPermission(user, "config_create", None, None) {
      return Forbidden();
    }
    var c := CreatedConfiguration(data, now);
    var id := configs.Insert(c);
    r := Ok(Entry(id, c));
  }

  // ---- Patching
  //
  // A partial update is a sequence of field changes applied by a setattr
  // loop. Clients and Environments follow the same pattern over their own fields:
  // FieldOf names the field a change writes, Assign applies one change,
  // Patched applies the first n, LastChangeWins says the last change of a
  // field decides it, and Common.AnyNull decides whether the commit is
  // refused. The helpers stay per record because each works on that
  // record's own columns.

  function FieldOf(ch: ConfigurationChange): ConfigurationField
  {
    match ch
    case SetValue(_) => Value
    case SetValueType(_) => ValueType
    case SetDescription(_) => Description
    case SetIsActive(_) => IsActive
  }

  predicate NullInRequired(ch: ConfigurationChange)
  {
    (ch.SetValue? && ch.value.None?) || (ch.SetValueType? && ch.valueType.None?) ||
    (ch.SetIsActive? && ch.isActive.None?)
  }

  predicate SameField(a: Configuration, b: Configuration, f: ConfigurationField)
  {
    match f
    case Value => a.value == b.value
    case ValueType => a.valueType == b.valueType
    case Description => a.description == b.description
    case IsActive => a.isActive == b.isActive
  }

  predicate Carries(c: Configuration, ch: ConfigurationChange)
    requires !NullInRequired(ch)
  {
    match ch
    case SetValue(v) => c.value == v.value
    case SetValueType(v) => c.valueType == v.value
    case SetDescription(v) => c.description == v
    case SetIsActive(v) => c.isActive == v.value
  }

  /** One setattr; a null into a NOT NULL column is left out (the commit is refused). */
  function Assign(c: Configuration, ch: ConfigurationChange): (r: Configuration)
    ensures !NullInRequired(ch) ==> Carries(r, ch)
    ensures forall f :: f != FieldOf(ch) ==> SameField(r, c, f)
    ensures r.key == c.key && r.clientId == c.clientId && r.moduleId == c.moduleId
    ensures r.createdAt == c.createdAt && r.updatedAt == c.updatedAt
  {
    match ch
    case SetValue(v) => if v.Some? then c.(value := v.value) else c
    case SetValueType(v) => if v.Some? then c.(valueType := v.value) else c
    case SetDescription(v) => c.(description := v)
    case SetIsActive(v) => if v.Some? then c.(isActive := v.value) else c
  }

  /** The first `n` changes applied in order: unnamed fields keep their values,
      and key and scope never change. */
  function Patched(c: Configuration, changes: seq<ConfigurationChange>, n: nat): (r: Configuration)
    requires n <= |changes|
    ensures forall f :: (forall k :: 0 <= k < n ==> FieldOf(changes[k]) != f) ==> SameField(r, c, f)
    ensures r.key == c.key && r.clientId == c.clientId && r.moduleId == c.moduleId
    ensures r.createdAt == c.createdAt && r.updatedAt == c.updatedAt
  {
    if n == 0 then c
    else
      var prev := Patched(c, changes, n - 1);
      var r := Assign(prev, changes[n - 1]);
      assert forall f :: (forall k :: 0 <= k < n ==> FieldOf(changes[k]) != f) ==>
        SameField(prev, c, f) && FieldOf(changes[n - 1]) != f;
      assert forall f :: SameField(r, prev, f) && SameField(prev, c, f) ==> SameField(r, c, f);
      r
  }

  /** The last change of a field decides it. */
  lemma {:induction false} LastChangeWins(c: Configuration, changes: seq<ConfigurationChange>, k: nat, n: nat)
    requires k < n <= |changes|
    requires !NullInRequired(changes[k])
    requires forall j :: k < j < n ==> FieldOf(changes[j]) != FieldOf(changes[k])
    ensures Carries(Patched(c, changes, n), changes[k])
  {
    if n > k + 1 {
      LastChangeWins(c, changes, k, n - 1);
      assert SameField(Patched(c, changes, n), Patched(c, changes, n - 1), FieldOf(changes[k]));
    }
  }

  /** update_configuration as a transition: 403 before 404, then the patch and
      the update stamp, or 500 for a null into a NOT NULL column. */
  function UpdateConfigurationOf(user: User, configs: seq<Configuration>, id: int, changes: seq<ConfigurationChange>, now: int)
    : (Result<Configuration>, seq<Configuration>)
  {
    if !CheckPermission(user, "config_modify", None, None) then (Forbidden(), configs)
    else if Get(configs, id).None? then (Err(CONFIGURATION_NOT_FOUND), configs)
    else if AnyNull(changes, NullInRequired, |changes|) then (Err(UNHANDLED), configs)
    else
      var c := Patched(configs[id - 1], changes, |changes|).(updatedAt := now);
      (Ok(c), configs[id - 1 := c])
  }

  /**
   * Permission is checked before existence: a refused caller gets 403 for
   * any key. Then 404, then 500 for a null into a NOT NULL column; every
   * refusal writes nothing. A success rewrites only that row, keeping its key
   * and scope and stamping the update time.
   */
  lemma UpdateConfigurationOutcomes(user: User, configs: seq<Configuration>, id: int,
                                    changes: seq<ConfigurationChange>, now: int)
    ensures var (r, after) := UpdateConfigurationOf(user, configs, id, changes, now);
      var allowed := CheckPermission(user, "config_modify", None, None);
      && |after| == |configs|
      && (r.Err? ==> after == configs)
      && (r == Forbidden() <==> !allowed)
      && (r == Err(CONFIGURATION_NOT_FOUND) <==> allowed && Get(configs, id).None?)
      && (r == Err(UNHANDLED) <==>
            allowed && Get(configs, id).Some? && exists k :: 0 <= k < |changes| && NullInRequired(changes[k]))
      && (r.Ok? <==>
            allowed && Get(configs, id).Some? && forall k :: 0 <= k < |changes| ==> !NullInRequired(changes[k]))
      && (r.Ok? ==>
            && 1 <= id <= |configs| && after[id - 1] == r.value
            && r.value == Patched(configs[id - 1], changes, |changes|).(updatedAt := now)
            && (forall i :: 0 <= i < |configs| && i != id - 1 ==> after[i] == configs[i])
            && r.value.key == configs[id - 1].key
            && r.value.clientId == configs[id - 1].clientId && r.value.moduleId == configs[id - 1].moduleId
            && r.value.updatedAt == now)
  {
  }

  /**
   * A patch that ends by deactivating a configuration takes it out of every
   * listing, while reading it by key still succeeds; key and scope are kept.
   */
  lemma DeactivatedConfigurationStaysReadable(user: User, configs: seq<Configuration>, id: int,
                                              changes: seq<ConfigurationChange>, now: int)
    requires UpdateConfigurationOf(user, configs, id, changes, now).0.Ok?
    requires |changes| > 0 && changes[|changes| - 1] == SetIsActive(Some(false))
    ensures var after := UpdateConfigurationOf(user, configs, id, changes, now).1;
      && GetConfiguration(after, id).Ok? && !GetConfiguration(after, id).value.isActive
      && GetConfiguration(after, id).value.key == configs[id - 1].key
      && GetConfiguration(after, id).value.clientId == configs[id - 1].clientId
      && GetConfiguration(after, id).value.moduleId == configs[id - 1].moduleId
      && (forall c: Option<int>, m: Option<int>, e :: e in ListedConfigurations(after, c, m) ==> e.id != id)
      && (forall i :: 0 <= i < |configs| && i != id - 1 ==> after[i] == configs[i])
  {
    LastChangeWins(configs[id - 1], changes, |changes| - 1, |changes|);
  }

  method UpdateConfiguration(user: User, configs: Table<Configuration>, id: int, changes: seq<ConfigurationChange>, now: int)
    returns (r: Result<Configuration>)
    modifies configs
    ensures (r, configs.rows) == UpdateConfigurationOf(user, old(configs.rows), id, changes, now)
  {
    if !CheckPermission(user, "config_modify", None, None) {
      return Forbidden();
    }
    if Get(configs.rows, id).None? {
      return Err(CONFIGURATION_NOT_FOUND);
    }
    var c := configs.rows[id - 1];
    var refused := false;
    var i := 0;
    while i < |changes|
      invariant 0 <= i <= |changes|
      invariant c == Patched(configs.rows[id - 1], changes, i)
      invariant refused == AnyNull(changes, NullInRequired, i)
    {
      refused := refused || NullInRequired(changes[i]);
      c := Assign(c, changes[i]);
      i := i + 1;
    }
    if refused {
      return Err(UNHANDLED);
    }
    c := c.(updatedAt := now);
    configs.Put(id, c);
    r := Ok(c);
  }
}
