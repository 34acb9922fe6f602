/**
 * The authentication endpoints (api/routes/auth.py): resolving the bearer
 * token of a request to the acting user, the two login endpoints and logout.
 */
module AuthRoutes {
  import opened Common
  import opened Models
  import opened Authentication

  const CREDENTIALS_DETAIL := "Could not validate credentials"
  const LOGIN_FAILED_DETAIL := "Incorrect username or password"

  /** Token lifetime the login routes ask for: ACCESS_TOKEN_EXPIRE_MINUTES, in seconds. */
  const LOGIN_TOKEN_LIFETIME := ACCESS_TOKEN_EXPIRE_MINUTES * 60

  datatype LoginRequest = LoginRequest(username: string, password: string)

  /** The OAuth2 password form; its scopes and client fields play no part. */
  datatype PasswordForm = PasswordForm(username: string, password: string, scopes: seq<string>)

  datatype TokenResponse = TokenResponse(accessToken: Token, tokenType: string)

  /** The "sub" claim when it is a string; anything else names nobody. */
  function Subject(payload: Claims): Option<string>
  {
    if "sub" in payload && payload["sub"].Text? then Some(payload["sub"].text) else None
  }

  /**
   * get_current_user_dependency: 401 for a token that does not decode, one
   * without a subject, or one whose subject is not a username; 403 for an
   * inactive user; otherwise the user the subject names.
   */
  function GetCurrentUser(users: seq<User>, token: Token, key: string, now: int): (r: Result<Entry<User>>)
    ensures r == Err(Error(UNAUTHORIZED, CREDENTIALS_DETAIL)) <==>
      || DecodeAccessToken(token, key, now).None?
      || Subject(DecodeAccessToken(token, key, now).value).None?
      || FindUserByUsername(users, Subject(DecodeAccessToken(token, key, now).value).value).None?
    ensures r.Err? ==>
      r == Err(Error(UNAUTHORIZED, CREDENTIALS_DETAIL)) || r == Err(Error(FORBIDDEN, "User is inactive"))
    ensures r == Err(Error(FORBIDDEN, "User is inactive")) <==>
      && DecodeAccessToken(token, key, now).Some?
      && Subject(DecodeAccessToken(token, key, now).value).Some?
      && var found := FindUserByUsername(users, Subject(DecodeAccessToken(token, key, now).value).value);
         found.Some? && !users[found.value - 1].isActive
    ensures r.Ok? ==>
      && DecodeAccessToken(token, key, now).Some?
      && Subject(DecodeAccessToken(token, key, now).value) == Some(r.value.row.username)
      && FindUserByUsername(users, r.value.row.username) == Some(r.value.id)
      && r.value.row == users[r.value.id - 1]
      && r.value.row.isActive
    ensures r.Ok? <==>
      && DecodeAccessToken(token, key, now).Some?
      && Subject(DecodeAccessToken(token, key, now).value).Some?
      && var found := FindUserByUsername(users, Subject(DecodeAccessToken(token, key, now).value).value);
         found.Some? && users[found.value - 1].isActive
  {
    var credentials := Err(Error(UNAUTHORIZED, CREDENTIALS_DETAIL));
    match DecodeAccessToken(token, key, now)
    case None => credentials
    case Some(payload) =>
      match Subject(payload)
      case None => credentials
      case Some(username) =>
        match FindUserByUsername(users, username)
        case None => credentials
        case Some(id) =>
          if !users[id - 1].isActive then Err(Error(FORBIDDEN, "User is inactive"))
          else Ok(Entry(id, users[id - 1]))
  }

  /** The claims a login token carries. */
  function LoginClaims(user: Entry<User>): (c: Claims)
    ensures c.Keys == {"sub", "user_id"}
    ensures c["sub"] == Text(user.row.username) && c["user_id"] == Number(user.id)
  {
    map["sub" := Text(user.row.username), "user_id" := Number(user.id)]
  }

  /**
   * login: authenticate, then issue a bearer token naming the user by username
   * and id; a failed authentication is 401 and leaves the users untouched.
   */
  method Login(users: Table<User>, request: LoginRequest, now: int, key: string)
    returns (r: Result<TokenResponse>)
    modifies users
    ensures CheckLogin(old(users.rows), request.username, request.password).Accepted? ==>
      var id := CheckLogin(old(users.rows), request.username, request.password).id;
      && users.rows == old(users.rows)[id - 1 := RecordLogin(old(users.rows)[id - 1], now)]
      && r == Ok(TokenResponse(
           CreateAccessToken(LoginClaims(Entry(id, users.rows[id - 1])), Some(LOGIN_TOKEN_LIFETIME), now, key),
           "bearer"))
    ensures !CheckLogin(old(users.rows), request.username, request.password).Accepted? ==>
      r == Err(Error(UNAUTHORIZED, LOGIN_FAILED_DETAIL)) && users.rows == old(users.rows)
  {
    var user := AuthenticateUser(users, request.username, request.password, now);
    if user.None? {
      return Err(Error(UNAUTHORIZED, LOGIN_FAILED_DETAIL));
    }
    var token := CreateAccessToken(LoginClaims(user.value), Some(LOGIN_TOKEN_LIFETIME), now, key);
    r := Ok(TokenResponse(token, "bearer"));
  }

  /** login_form: the same steps as `Login` on the form's username and password,
      so its contract is `Login`'s word for word. */
  method LoginForm(users: Table<User>, form: PasswordForm, now: int, key: string)
    returns (r: Result<TokenResponse>)
    modifies users
    ensures CheckLogin(old(users.rows), form.username, form.password).Accepted? ==>
      var id := CheckLogin(old(users.rows), form.username, form.password).id;
      && users.rows == old(users.rows)[id - 1 := RecordLogin(old(users.rows)[id - 1], now)]
      && r == Ok(TokenResponse(
           CreateAccessToken(LoginClaims(Entry(id, users.rows[id - 1])), Some(LOGIN_TOKEN_LIFETIME), now, key),
           "bearer"))
    ensures !CheckLogin(old(users.rows), form.username, form.password).Accepted? ==>
      r == Err(Error(UNAUTHORIZED, LOGIN_FAILED_DETAIL)) && users.rows == old(users.rows)
  {
    var user := AuthenticateUser(users, form.username, form.password, now);
    if user.None? {
      return Err(Error(UNAUTHORIZED, LOGIN_FAILED_DETAIL));
    }
    var token := CreateAccessToken(LoginClaims(user.value), Some(LOGIN_TOKEN_LIFETIME), now, key);
    r := Ok(TokenResponse(token, "bearer"));
  }

  /**
   * End to end: the token a successful login issues resolves to the same user
   * up to and including its expiry instant, the configured lifetime after issue, and
   * is rejected with 401 from the next second on.
   */
  lemma {:induction false} LoginTokenResolves(users: seq<User>, username: string, password: string,
                                              now: int, key: string, at: int)
    requires CheckLogin(users, username, password).Accepted?
    ensures
      var id := CheckLogin(users, username, password).id;
      var after := users[id - 1 := RecordLogin(users[id - 1], now)];
      var token := CreateAccessToken(LoginClaims(Entry(id, after[id - 1])), Some(LOGIN_TOKEN_LIFETIME), now, key);
      GetCurrentUser(after, token, key, at) ==
        if at <= now + LOGIN_TOKEN_LIFETIME then Ok(Entry(id, after[id - 1]))
        else Err(Error(UNAUTHORIZED, CREDENTIALS_DETAIL))
  {
    var id := CheckLogin(users, username, password).id;
    var after := users[id - 1 := RecordLogin(users[id - 1], now)];
    var token := CreateAccessToken(LoginClaims(Entry(id, after[id - 1])), Some(LOGIN_TOKEN_LIFETIME), now, key);
    if at <= now + LOGIN_TOKEN_LIFETIME {
      assert Subject(DecodeAccessToken(token, key, at).value) == Some(username);
      SameUsernamesSameLookup(users, after, username);
      assert FindUserByUsername(after, username) == Some(id);
    }
  }

  /** Changing only non-username columns does not change whom a username finds. */
  lemma SameUsernamesSameLookup(a: seq<User>, b: seq<User>, username: string)
    requires |a| == |b|
    requires forall i :: 0 <= i < |a| ==> a[i].username == b[i].username
    ensures FindUserByUsername(a, username) == FindUserByUsername(b, username)
  {
  }

  /** logout: a fixed acknowledgement; no store is read or written. */
  function Logout(): (message: string)
    ensures message == "Successfully logged out"
  {
    "Successfully logged out"
  }
}
