/** The authentication endpoints (routes/auth.py): login, registration,
    token refresh and password change. Token signing and verification and
    password hashing belong to the authentication service, which is not
    part of this model: they are the parameters collected in `Crypto`. */
module AuthApi {
  import opened Wrappers
  import Text
  import Schemas
  import opened Store

  /** `ACCESS_TOKEN_EXPIRE_MINUTES` (config.py). */
  const AccessTokenExpireMinutes: int := 30
  const ExpiresIn: int := AccessTokenExpireMinutes * 60

  const BadCredentials: string := "Incorrect email or password"
  const InactiveUser: string := "Inactive user"
  const InvalidRefreshToken: string := "Invalid refresh token"
  const WrongCurrentPassword: string := "Incorrect current password"
  const PasswordChanged: string := "Password changed successfully"

  const SubClaim: string := "sub"
  const EmailClaim: string := "email"
  const RoleClaim: string := "role"
  const TypeClaim: string := "type"
  const RefreshType: string := "refresh"

  /** A token's payload: claim names to values. */
  type Claims = map<string, string>

  /** The authentication service's primitives. `decode` answers `None`
      where verification raises (bad signature, expired token). */
  datatype Crypto = Crypto(hash: string -> string,
                           verify: (string, string) -> bool,
                           accessToken: Claims -> string,
                           refreshToken: Claims -> string,
                           decode: string -> Option<Claims>)

  /** `authenticate_user`: the user with that email, when the password
      verifies against the stored hash. */
  function Authenticate(db: Db, email: string, password: string, c: Crypto): (r: Option<nat>)
    ensures r.Some? <==> UserWithEmail(db.users, email).Some?
                         && c.verify(password, db.users[UserWithEmail(db.users, email).value].passwordHash)
    ensures r.Some? ==> r.value < |db.users| && db.users[r.value].email == email
  {
    match UserWithEmail(db.users, email)
    case None => None
    case Some(k) => if c.verify(password, db.users[k].passwordHash) then Some(k) else None
  }

  /** The role name an access token carries: the user's role, or `user`
      when the role is missing. */
  function RoleNameOf(db: Db, u: User): (r: string)
    ensures RoleWithId(db.roles, u.roleId).None? ==> r == UserRoleName
    ensures RoleWithId(db.roles, u.roleId).Some? ==>
              exists j :: 0 <= j < |db.roles| && db.roles[j].id == u.roleId && db.roles[j].name == r
  {
    match RoleWithId(db.roles, u.roleId)
    case None => UserRoleName
    case Some(j) => db.roles[j].name
  }

  /** An access token's payload: the user's id as a decimal string, the
      email and the role name. */
  function AccessClaims(db: Db, u: User): (r: Claims)
    ensures r.Keys == {SubClaim, EmailClaim, RoleClaim}
    ensures r[SubClaim] == Text.NatToString(u.id) && r[EmailClaim] == u.email
    ensures r[RoleClaim] == RoleNameOf(db, u)
  {
    map[SubClaim := Text.NatToString(u.id), EmailClaim := u.email, RoleClaim := RoleNameOf(db, u)]
  }

  /** A refresh token's payload: the user's id alone; the service adds the
      `refresh` type when it signs. */
  function RefreshClaims(u: User): (r: Claims)
    ensures r.Keys == {SubClaim} && r[SubClaim] == Text.NatToString(u.id)
  {
    map[SubClaim := Text.NatToString(u.id)]
  }

  /** The token response both login and refresh build for a user. */
  function Tokens(db: Db, u: User, c: Crypto): (t: Schemas.TokenResponse)
    ensures t.tokenType == Schemas.DefaultTokenType && t.expiresIn == 1800
    ensures t.accessToken == c.accessToken(AccessClaims(db, u))
    ensures t.refreshToken == c.refreshToken(RefreshClaims(u))
  {
    Schemas.MakeToken(c.accessToken(AccessClaims(db, u)), c.refreshToken(RefreshClaims(u)), ExpiresIn)
  }

  /** `login`: 401 when the credentials do not authenticate, 400 for an
      inactive user (both leave the store as it was); otherwise
      `last_login` becomes `now` and a bearer token pair is issued. */
  function Login(db: Db, email: string, password: string, now: int, c: Crypto)
    : (r: Result<(Db, Schemas.TokenResponse), ApiError>)
    ensures Authenticate(db, email, password, c).None? <==>
              r == Err(ApiError(Unauthorized, BadCredentials))
    ensures r.Err? && r.error.status == BadRequest <==>
              Authenticate(db, email, password, c).Some?
              && !db.users[Authenticate(db, email, password, c).value].isActive
    ensures r.Err? ==> r.error.status in {Unauthorized, BadRequest}
    ensures r.Ok? ==>
              var k := Authenticate(db, email, password, c).value;
              var u := db.users[k];
              && u.isActive
              && r.value.0 == SetUser(db, k, u.(lastLogin := Some(now)))
              && r.value.1.tokenType == "bearer" && r.value.1.expiresIn == ExpiresIn
              && r.value.1.refreshToken == c.refreshToken(map[SubClaim := Text.NatToString(u.id)])
              && r.value.1.accessToken ==
                   c.accessToken(map[SubClaim := Text.NatToString(u.id), EmailClaim := u.email,
                                     RoleClaim := RoleNameOf(db, u)])
    ensures r.Ok? <==> Authenticate(db, email, password, c).Some?
                       && db.users[Authenticate(db, email, password, c).value].isActive
  {
    match Authenticate(db, email, password, c)
    case None => Err(ApiError(Unauthorized, BadCredentials))
    case Some(k) =>
      var u := db.users[k];
      if !u.isActive then Err(ApiError(BadRequest, InactiveUser))
      else
        var u' := u.(lastLogin := Some(now));
        Ok((SetUser(db, k, u'), Tokens(db, u', c)))
  }

  /** Login only stamps the user's last login, so the store stays valid. */
  lemma LoginValid(db: Db, email: string, password: string, now: int, c: Crypto)
    requires Valid(db)
    requires Login(db, email, password, now, c).Ok?
    ensures Valid(Login(db, email, password, now, c).value.0)
  {
    var k := Authenticate(db, email, password, c).value;
    SetUserValid(db, k, db.users[k].(lastLogin := Some(now)));
  }

  /** The request body of `register` after validation. */
  datatype Registration = Registration(email: string, username: string,
                                       fullName: Option<string>, password: string)

  /** `register`: duplicate email, then duplicate username, answer 400; the
      new user gets the `user` role (created when missing) and is active
      and unverified. */
  function Register(db: Db, data: Registration, hash: string -> string)
    : (r: Result<(Db, User), ApiError>)
    ensures UserWithEmail(db.users, data.email).Some? ==>
              r == Err(ApiError(BadRequest, EmailTaken))
    ensures UserWithEmail(db.users, data.email).None? && UserWithUsername(db.users, data.username).Some? ==>
              r == Err(ApiError(BadRequest, UsernameTaken))
    ensures r.Ok? <==> UserWithEmail(db.users, data.email).None?
                       && UserWithUsername(db.users, data.username).None?
    ensures r.Ok? ==>
              var (db', u) := r.value;
              && u.isActive && !u.isVerified && u.lastLogin.None?
              && u.email == data.email && u.username == data.username
              && u.fullName == data.fullName && u.passwordHash == hash(data.password)
              && db'.users == db.users + [u]
              && RoleWithId(db'.roles, u.roleId).Some?
  {
    if UserWithEmail(db.users, data.email).Some? then
      Err(ApiError(BadRequest, EmailTaken))
    else if UserWithUsername(db.users, data.username).Some? then
      Err(ApiError(BadRequest, UsernameTaken))
    else
      var (db1, roleId) := EnsureRole(db, UserRoleName, Some(UserRoleDescription));
      Ok(AddUser(db1, data.email, data.username, data.fullName, hash(data.password),
                 roleId, true, false))
  }

  /** Registration keeps the store valid, and the new user holds the role
      named `user`. */
  lemma RegisterValid(db: Db, data: Registration, hash: string -> string)
    requires Valid(db)
    requires Register(db, data, hash).Ok?
    ensures Valid(Register(db, data, hash).value.0)
    ensures var (db', u) := Register(db, data, hash).value;
            db'.roles[RoleWithId(db'.roles, u.roleId).value].name == UserRoleName
  {
    EnsureRoleValid(db, UserRoleName, Some(UserRoleDescription));
    var (db1, roleId) := EnsureRole(db, UserRoleName, Some(UserRoleDescription));
    AddUserValid(db1, data.email, data.username, data.fullName, hash(data.password), roleId, true, false);
  }

  /** `refresh_token`: the token must verify, carry type `refresh` and a
      truthy subject that reads as the id of an active user. The outer
      `except` turns every failure, including the inner "User not found or
      inactive", into 401 "Invalid refresh token". The store is unchanged. */
  function Refresh(db: Db, token: string, c: Crypto): (r: Result<Schemas.TokenResponse, ApiError>)
    ensures r.Err? ==> r.error == ApiError(Unauthorized, InvalidRefreshToken)
    ensures c.decode(token).None? ==> r.Err?
    ensures r.Ok? ==>
              var claims := c.decode(token).value;
              && TypeClaim in claims && claims[TypeClaim] == RefreshType
              && SubClaim in claims && claims[SubClaim] != ""
              && Text.ParseNat(claims[SubClaim]).Some?
              && var k := UserWithId(db.users, Text.ParseNat(claims[SubClaim]).value);
                 && k.Some? && db.users[k.value].isActive
                 && r.value == Tokens(db, db.users[k.value], c)
    ensures (&& c.decode(token).Some?
             && var claims := c.decode(token).value;
                && TypeClaim in claims && claims[TypeClaim] == RefreshType
                && SubClaim in claims && claims[SubClaim] != ""
                && Text.ParseNat(claims[SubClaim]).Some?
                && var k := UserWithId(db.users, Text.ParseNat(claims[SubClaim]).value);
                   k.Some? && db.users[k.value].isActive)
            ==> r.Ok?
  {
    match c.decode(token)
    case None => Err(ApiError(Unauthorized, InvalidRefreshToken))
    case Some(claims) =>
      if TypeClaim !in claims || claims[TypeClaim] != RefreshType then
        Err(ApiError(Unauthorized, InvalidRefreshToken))
      else if SubClaim !in claims || claims[SubClaim] == "" then
        Err(ApiError(Unauthorized, InvalidRefreshToken))
      else match Text.ParseNat(claims[SubClaim])
        case None => Err(ApiError(Unauthorized, InvalidRefreshToken))
        case Some(id) =>
          match UserWithId(db.users, id)
          case None => Err(ApiError(Unauthorized, InvalidRefreshToken))
          case Some(k) =>
            if !db.users[k].isActive then Err(ApiError(Unauthorized, InvalidRefreshToken))
            else Ok(Tokens(db, db.users[k], c))
  }

  /** The refresh token login issues is accepted by refresh while its user
      stays active, and yields the tokens login would issue for that user,
      provided the service's refresh tokens decode to their claims plus
      type `refresh`. */
  lemma LoginThenRefresh(db: Db, email: string, password: string, now: int, c: Crypto)
    requires Valid(db)
    requires forall claims :: c.decode(c.refreshToken(claims)) == Some(claims[TypeClaim := RefreshType])
    requires Login(db, email, password, now, c).Ok?
    ensures var (db', t) := Login(db, email, password, now, c).value;
            Refresh(db', t.refreshToken, c).Ok?
            && Refresh(db', t.refreshToken, c).value.refreshToken == t.refreshToken
  {
    var k := Authenticate(db, email, password, c).value;
    var u := db.users[k];
    var (db', t) := Login(db, email, password, now, c).value;
    var claims := map[SubClaim := Text.NatToString(u.id)][TypeClaim := RefreshType];
    assert c.decode(t.refreshToken) == Some(claims);
    assert claims[SubClaim] == Text.NatToString(u.id);
    Text.ParseNatToString(u.id);
    assert db'.users[k].id == u.id;
    var k' := UserWithId(db'.users, u.id).value;
    assert k' == k;
  }

  /** `change_password` for the authenticated user at index `k`: 400 when
      the current password does not verify, with the hash unchanged;
      otherwise only the hash changes, to the new password's. */
  function ChangePassword(db: Db, k: nat, current: string, newPassword: string, c: Crypto)
    : (r: Result<(Db, string), ApiError>)
    requires k < |db.users|
    ensures r.Err? <==> !c.verify(current, db.users[k].passwordHash)
    ensures r.Err? ==> r.error == ApiError(BadRequest, WrongCurrentPassword)
    ensures r.Ok? ==>
              && r.value.1 == PasswordChanged
              && r.value.0 == SetUser(db, k, db.users[k].(passwordHash := c.hash(newPassword)))
  {
    if !c.verify(current, db.users[k].passwordHash) then
      Err(ApiError(BadRequest, WrongCurrentPassword))
    else
      Ok((SetUser(db, k, db.users[k].(passwordHash := c.hash(newPassword))), PasswordChanged))
  }

  /** After a password change, with a hash that the service's verification
      accepts, the new password authenticates the user and the store stays
      valid. */
  lemma ChangeThenLogin(db: Db, k: nat, current: string, newPassword: string, c: Crypto)
    requires Valid(db) && k < |db.users|
    requires forall p :: c.verify(p, c.hash(p))
    requires ChangePassword(db, k, current, newPassword, c).Ok?
    ensures var db' := ChangePassword(db, k, current, newPassword, c).value.0;
            && Valid(db')
            && Authenticate(db', db.users[k].email, newPassword, c) == Some(k)
  {
    var u := db.users[k].(passwordHash := c.hash(newPassword));
    SetUserValid(db, k, u);
    var db' := SetUser(db, k, u);
    assert db'.users[k].email == u.email;
    var j := UserWithEmail(db'.users, u.email).value;
    assert j == k;
  }
}
