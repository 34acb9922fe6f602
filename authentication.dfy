/**
 * Credential checks and the role decision (services/authentication.py).
 *
 * Bcrypt and JWT signing are not modelled as cryptography: a digest is the
 * symbolic `Models.Digest`, and a token is either a term `Jwt(key, payload)`
 * (what signing with `key` produces) or an arbitrary string a caller sent.
 * Decoding accepts exactly the terms signed with the configured key whose
 * "exp" claim has not passed. The clock is the parameter `now` (seconds).
 */
module Authentication {
  import opened Common
  import opened Models

  /** The configured token lifetime in minutes: the environment variable
      ACCESS_TOKEN_EXPIRE_MINUTES, 30 when it is unset. The model fixes no
      value, so every statement about it holds for any configuration. */
  const ACCESS_TOKEN_EXPIRE_MINUTES: int

  datatype ClaimValue = Text(text: string) | Number(n: int)

  type Claims = map<string, ClaimValue>

  datatype Token = Jwt(key: string, payload: Claims) | Malformed(text: string)

  // ---- Passwords

  function VerifyPassword(plain: string, hashed: Digest): bool
  {
    hashed.secret == plain
  }

  /** Hashing with a fresh salt: the digest verifies its own secret and no other. */
  function GetPasswordHash(password: string, salt: nat): (d: Digest)
    ensures VerifyPassword(password, d)
    ensures forall other :: VerifyPassword(other, d) ==> other == password
  {
    Bcrypt(salt, password)
  }

  // ---- Tokens

  /** The expiry instant of a token issued at `now`; a zero delta is falsy and
      falls back to the default lifetime like an absent one. */
  function Expiry(expiresDelta: Option<int>, now: int): (exp: int)
    ensures Truthy(expiresDelta) ==> exp == now + expiresDelta.value
    ensures !Truthy(expiresDelta) ==> exp == now + ACCESS_TOKEN_EXPIRE_MINUTES * 60
  {
    if Truthy(expiresDelta) then now + expiresDelta.value
    else now + ACCESS_TOKEN_EXPIRE_MINUTES * 60
  }

  /**
   * The payload of a signed token, or None when it is malformed, signed with
   * another key, carries a non-numeric "exp", or has expired (exp < now).
   */
  function DecodeAccessToken(token: Token, key: string, now: int): (r: Option<Claims>)
    ensures r.Some? ==> token == Jwt(key, r.value)
    ensures r.Some? ==> ("exp" in r.value ==> r.value["exp"].Number? && now <= r.value["exp"].n)
  {
    match token
    case Malformed(_) => None
    case Jwt(k, payload) =>
      if k != key then None
      else if "exp" in payload && !payload["exp"].Number? then None
      else if "exp" in payload && payload["exp"].n < now then None
      else Some(payload)
  }

  /**
   * A copy of `data` with "exp" set, signed with `key`. Decoding it gives back
   * exactly that copy up to and including the expiry instant, and nothing after.
   */
  function CreateAccessToken(data: Claims, expiresDelta: Option<int>, now: int, key: string): (t: Token)
    ensures forall at :: (DecodeAccessToken(t, key, at) ==
      if at <= Expiry(expiresDelta, now)
      then Some(data["exp" := Number(Expiry(expiresDelta, now))])
      else None)
    ensures forall other :: other != key ==> DecodeAccessToken(t, other, now).None?
  {
    Jwt(key, data["exp" := Number(Expiry(expiresDelta, now))])
  }

  /** The claims `data` put in survive the round trip, except a caller's own "exp". */
  lemma TokenKeepsClaims(data: Claims, expiresDelta: Option<int>, now: int, key: string, name: string)
    requires name in data && name != "exp"
    requires now <= Expiry(expiresDelta, now)
    ensures DecodeAccessToken(CreateAccessToken(data, expiresDelta, now, key), key, now).Some?
    ensures DecodeAccessToken(CreateAccessToken(data, expiresDelta, now, key), key, now).value[name] == data[name]
  {
  }

  // ---- Roles

  /**
   * The role decision. Superusers and admins may do everything, viewers
   * nothing, and otherwise exactly role "user" is allowed. The permission
   * kind and the scope are accepted and never consulted.
   */
  function CheckPermission(user: User, permissionType: string, clientId: Option<int>, environment: Option<string>): (allowed: bool)
    ensures user.isSuperuser ==> allowed
    ensures user.role == "admin" ==> allowed
    ensures !user.isSuperuser && user.role == "viewer" ==> !allowed
    ensures !user.isSuperuser && user.role != "admin" ==> (allowed <==> user.role == "user")
  {
    if user.isSuperuser then true
    else if user.role == "admin" then true
    else if user.role == "viewer" then false
    else user.role == "user"
  }

  /** Only the superuser flag and the role decide; kind and scope never do. */
  lemma PermissionIgnoresScope(user: User, k1: string, c1: Option<int>, e1: Option<string>,
                               k2: string, c2: Option<int>, e2: Option<string>)
    ensures CheckPermission(user, k1, c1, e1) == CheckPermission(user, k2, c2, e2)
  {
  }

  /** A user provisioned with the record defaults holds role "user" and is allowed. */
  lemma NewUserIsAllowed(username: string, email: string, hash: Digest, kind: string)
    ensures CheckPermission(NewUser(username, email, hash), kind, None, None)
  {
  }

  // ---- Logging in

  function FindUserByUsername(users: seq<User>, username: string): (r: Option<nat>)
    ensures r.None? <==> forall i :: 0 <= i < |users| ==> users[i].username != username
    ensures r.Some? ==> 1 <= r.value <= |users| && users[r.value - 1].username == username
    ensures r.Some? ==> forall i :: 0 <= i < r.value - 1 ==> users[i].username != username
  {
    FirstWhere(users, (u: User) => u.username == username)
  }

  /** Why authenticate_user rejects a login, checked in this order, or whom it accepts. */
  datatype LoginCheck = UnknownUser | WrongPassword | InactiveUser | Accepted(id: nat)

  function CheckLogin(users: seq<User>, username: string, password: string): (c: LoginCheck)
    ensures c.UnknownUser? <==> FindUserByUsername(users, username).None?
    ensures c.WrongPassword? <==>
      (exists id :: FindUserByUsername(users, username) == Some(id)
        && !VerifyPassword(password, users[id - 1].passwordHash))
    ensures c.InactiveUser? <==>
      (exists id :: FindUserByUsername(users, username) == Some(id)
        && VerifyPassword(password, users[id - 1].passwordHash) && !users[id - 1].isActive)
    ensures c.Accepted? ==>
      && FindUserByUsername(users, username) == Some(c.id)
      && VerifyPassword(password, users[c.id - 1].passwordHash)
      && users[c.id - 1].isActive
  {
    match FindUserByUsername(users, username)
    case None => UnknownUser
    case Some(id) =>
      if !VerifyPassword(password, users[id - 1].passwordHash) then WrongPassword
      else if !users[id - 1].isActive then InactiveUser
      else Accepted(id)
  }

  /** The bookkeeping of a successful login; every other column is kept. */
  function RecordLogin(u: User, now: int): (r: User)
    ensures r.lastLoginAt == Some(now) && r.failedLoginAttempts == 0
    ensures r.username == u.username && r.email == u.email && r.passwordHash == u.passwordHash
    ensures r.role == u.role && r.isActive == u.isActive && r.isSuperuser == u.isSuperuser
    ensures r.fullName == u.fullName && r.lockedUntil == u.lockedUntil
  {
    u.(lastLoginAt := Some(now), failedLoginAttempts := 0)
  }

  /**
   * authenticate_user: look the name up, check the password, check the user
   * is active; only a login that passes all three touches the row.
   */
  method AuthenticateUser(users: Table<User>, username: string, password: string, now: int)
    returns (r: Option<Entry<User>>)
    modifies users
    ensures CheckLogin(old(users.rows), username, password).Accepted? ==>
      var id := CheckLogin(old(users.rows), username, password).id;
      && users.rows == old(users.rows)[id - 1 := RecordLogin(old(users.rows)[id - 1], now)]
      && r == Some(Entry(id, users.rows[id - 1]))
    ensures !CheckLogin(old(users.rows), username, password).Accepted? ==>
      r.None? && users.rows == old(users.rows)
  {
    var found := FindUserByUsername(users.rows, username);
    if found.None? {
      return None;
    }
    var id := found.value;
    var user := users.rows[id - 1];
    if !VerifyPassword(password, user.passwordHash) {
      return None;
    }
    if !user.isActive {
      return None;
    }
    user := RecordLogin(user, now);
    users.Put(id, user);
    r := Some(Entry(id, user));
  }
}
