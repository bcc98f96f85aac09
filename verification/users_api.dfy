/** The administrators' user endpoints (routes/users.py): the filtered,
    paginated list, and get, create, update, delete, activate and deactivate
    with their error responses. Password hashing is a parameter. */
module UsersApi {
  import opened Wrappers
  import Text
  import Like
  import Pagination
  import opened Store

  const DefaultPage: int := 1
  const DefaultPerPage: int := 10
  const MaxPerPage: int := 100

  const UserNotFound: string := "User not found"
  const InvalidRole: string := "Invalid role ID"
  const CannotDeleteSelf: string := "Cannot delete your own account"
  const CannotDeactivateSelf: string := "Cannot deactivate your own account"
  const InvalidQuery: string := "Invalid query parameters"

  // ---------------------------------------------------------------------
  // Listing
  // ---------------------------------------------------------------------

  /** The list's query parameters. */
  datatype Query = Query(page: int, perPage: int, search: Option<string>,
                         roleFilter: Option<string>, isActive: Option<bool>)

  predicate Truthy(v: Option<string>) {
    v.Some? && v.value != ""
  }

  /** The search: email, username or full name contains the term, ignoring
      case (a missing full name matches nothing). */
  predicate SearchMatches(u: User, term: string) {
    || Like.ContainsIgnoringCase(term, u.email)
    || Like.ContainsIgnoringCase(term, u.username)
    || (u.fullName.Some? && Like.ContainsIgnoringCase(term, u.fullName.value))
  }

  /** The user's role is named `name`; a user whose role is missing drops
      out of the join. */
  predicate HasRoleNamed(roles: seq<Role>, u: User, name: string) {
    var k := RoleWithId(roles, u.roleId);
    k.Some? && roles[k.value].name == name
  }

  /** Every filter of the query, conjunctively; an absent (or empty) search
      or role filter and an absent activity filter restrict nothing. */
  predicate Selected(db: Db, q: Query, u: User) {
    && (Truthy(q.search) ==> SearchMatches(u, q.search.value))
    && (Truthy(q.roleFilter) ==> HasRoleNamed(db.roles, u, q.roleFilter.value))
    && (q.isActive.Some? ==> u.isActive == q.isActive.value)
  }

  function Filter(db: Db, q: Query, users: seq<User>): (r: seq<User>)
    ensures |r| <= |users|
    ensures forall u :: u in r <==> u in users && Selected(db, q, u)
  {
    if |users| == 0 then []
    else (if Selected(db, q, users[0]) then [users[0]] else []) + Filter(db, q, users[1..])
  }

  predicate QueryValid(q: Query) {
    q.page >= 1 && 1 <= q.perPage <= MaxPerPage
  }

  /** `get_users`: the query rules `page >= 1` and `1 <= per_page <= 100`
      answer 422; otherwise the filtered users, paged. Users come in
      insertion order, since the query sets no order. */
  function ListUsers(db: Db, q: Query): (r: Result<Pagination.Page<User>, ApiError>)
    ensures r.Err? <==> !QueryValid(q)
    ensures r.Err? ==> r.error.status == Unprocessable
    ensures r.Ok? ==>
              && r.value.total == |Filter(db, q, db.users)|
              && |r.value.items| <= q.perPage
              && r.value.items == Pagination.Window(Filter(db, q, db.users), q.page, q.perPage)
              && (forall u :: u in r.value.items ==> u in db.users && Selected(db, q, u))
              && (r.value.hasPrev <==> q.page > 1)
              && (r.value.hasNext <==> q.page * q.perPage < r.value.total)
  {
    if !QueryValid(q) then Err(ApiError(Unprocessable, InvalidQuery))
    else
      var all := Filter(db, q, db.users);
      var page := Pagination.Paginate(all, q.page, q.perPage);
      assert forall u :: u in page.items ==> u in all;
      Ok(page)
  }

  /** With a search term free of `%` and `_`, the search is the
      case-insensitive substring test the shell's own page performs. */
  lemma SearchIsSubstring(u: User, term: string)
    requires Like.NoWildcards(term)
    ensures SearchMatches(u, term) <==>
              || Text.IsInfix(Text.Lower(term), Text.Lower(u.email))
              || Text.IsInfix(Text.Lower(term), Text.Lower(u.username))
              || (u.fullName.Some? && Text.IsInfix(Text.Lower(term), Text.Lower(u.fullName.value)))
  {
    Like.ContainsIgnoringCaseIsInfix(term, u.email);
    Like.ContainsIgnoringCaseIsInfix(term, u.username);
    if u.fullName.Some? {
      Like.ContainsIgnoringCaseIsInfix(term, u.fullName.value);
    }
  }

  // ---------------------------------------------------------------------
  // Single users
  // ---------------------------------------------------------------------

  /** `get_user`. */
  function GetUser(db: Db, id: int): (r: Result<User, ApiError>)
    ensures r.Err? <==> UserWithId(db.users, id).None?
    ensures r.Err? ==> r.error == ApiError(NotFound, UserNotFound)
    ensures r.Ok? ==> r.value in db.users && r.value.id == id
  {
    match UserWithId(db.users, id)
    case None => Err(ApiError(NotFound, UserNotFound))
    case Some(k) => Ok(db.users[k])
  }

  /** The body of a create request after validation. */
  datatype NewUser = NewUser(email: string, username: string, fullName: Option<string>,
                             password: string, roleId: Option<int>, isActive: bool)

  /** `create_user`: duplicate email, then duplicate username, then an
      unknown role each answer 400. A missing role id, and also a role id of
      0 (falsy in Python), takes the `user` role, created when missing. The
      new user is unverified. */
  function CreateUser(db: Db, data: NewUser, hash: string -> string): (r: Result<(Db, User), ApiError>)
    ensures UserWithEmail(db.users, data.email).Some? ==> r == Err(ApiError(BadRequest, EmailTaken))
    ensures UserWithEmail(db.users, data.email).None? && UserWithUsername(db.users, data.username).Some? ==>
              r == Err(ApiError(BadRequest, UsernameTaken))
    ensures r.Err? ==> r.error.status == BadRequest
    ensures r.Err? && r.error.detail == InvalidRole ==>
              data.roleId.Some? && data.roleId.value != 0
              && RoleWithId(db.roles, data.roleId.value).None?
    ensures UserWithEmail(db.users, data.email).None? && UserWithUsername(db.users, data.username).None?
            && data.roleId.Some? && data.roleId.value != 0 && RoleWithId(db.roles, data.roleId.value).None?
            ==> r == Err(ApiError(BadRequest, InvalidRole))
    ensures r.Ok? <==>
              && UserWithEmail(db.users, data.email).None?
              && UserWithUsername(db.users, data.username).None?
              && !(data.roleId.Some? && data.roleId.value != 0 && RoleWithId(db.roles, data.roleId.value).None?)
    ensures r.Ok? ==>
              var (db', u) := r.value;
              && UserWithEmail(db.users, data.email).None?
              && UserWithUsername(db.users, data.username).None?
              && u.email == data.email && u.username == data.username
              && u.fullName == data.fullName && u.passwordHash == hash(data.password)
              && u.isActive == data.isActive && !u.isVerified && u.lastLogin.None?
              && u.id == db.nextUserId
              && db'.users == db.users + [u]
              && RoleWithId(db'.roles, u.roleId).Some?
              && (data.roleId.Some? && data.roleId.value != 0 ==> u.roleId == data.roleId.value)
  {
    if UserWithEmail(db.users, data.email).Some? then Err(ApiError(BadRequest, EmailTaken))
    else if UserWithUsername(db.users, data.username).Some? then Err(ApiError(BadRequest, UsernameTaken))
    else if data.roleId.Some? && data.roleId.value != 0 then
      if RoleWithId(db.roles, data.roleId.value).None? then Err(ApiError(BadRequest, InvalidRole))
      else
        Ok(AddUser(db, data.email, data.username, data.fullName, hash(data.password),
                   data.roleId.value, data.isActive, false))
    else
      var (db1, roleId) := EnsureRole(db, UserRoleName, Some(UserRoleDescription));
      Ok(AddUser(db1, data.email, data.username, data.fullName, hash(data.password),
                 roleId, data.isActive, false))
  }

  /** Creating a user keeps the store valid: no two users share an email
      or a username, and the new user's role exists; without a role id the
      user gets the role named `user`. */
  lemma CreateUserValid(db: Db, data: NewUser, hash: string -> string)
    requires Valid(db)
    requires CreateUser(db, data, hash).Ok?
    ensures Valid(CreateUser(db, data, hash).value.0)
    ensures var (db', u) := CreateUser(db, data, hash).value;
            data.roleId.None? || data.roleId.value == 0 ==>
              db'.roles[RoleWithId(db'.roles, u.roleId).value].name == UserRoleName
  {
    if data.roleId.Some? && data.roleId.value != 0 {
      AddUserValid(db, data.email, data.username, data.fullName, hash(data.password),
                   data.roleId.value, data.isActive, false);
    } else {
      EnsureRoleValid(db, UserRoleName, Some(UserRoleDescription));
      var (db1, roleId) := EnsureRole(db, UserRoleName, Some(UserRoleDescription));
      AddUserValid(db1, data.email, data.username, data.fullName, hash(data.password),
                   roleId, data.isActive, false);
    }
  }

  /** The fields a update request sets; `None` is a field left unset. */
  datatype UserPatch = UserPatch(email: Option<string>, username: Option<string>,
                                 fullName: Option<string>, isActive: Option<bool>,
                                 roleId: Option<int>)

  /** The user with every set field of the patch written over it. */
  function ApplyPatch(u: User, p: UserPatch): (r: User)
    ensures r.id == u.id && r.passwordHash == u.passwordHash && r.isVerified == u.isVerified
    ensures r.lastLogin == u.lastLogin
    ensures r.email == p.email.GetOr(u.email) && r.username == p.username.GetOr(u.username)
    ensures r.isActive == p.isActive.GetOr(u.isActive) && r.roleId == p.roleId.GetOr(u.roleId)
    ensures r.fullName == (if p.fullName.Some? then p.fullName else u.fullName)
  {
    u.(email := p.email.GetOr(u.email), username := p.username.GetOr(u.username),
       fullName := if p.fullName.Some? then p.fullName else u.fullName,
       isActive := p.isActive.GetOr(u.isActive), roleId := p.roleId.GetOr(u.roleId))
  }

  /** The checks `update_user` runs before writing. The role check runs
      only for a truthy role id when `roleZeroChecked` is false, which is
      the code as written; the corrected update checks every set role id. */
  function UpdateChecks(db: Db, k: nat, p: UserPatch, roleZeroChecked: bool): (r: Option<ApiError>)
    requires k < |db.users|
  {
    var u := db.users[k];
    if p.email.Some? && p.email.value != "" && p.email.value != u.email
       && UserWithEmail(db.users, p.email.value).Some? then
      Some(ApiError(BadRequest, EmailTaken))
    else if p.username.Some? && p.username.value != "" && p.username.value != u.username
       && UserWithUsername(db.users, p.username.value).Some? then
      Some(ApiError(BadRequest, UsernameTaken))
    else if p.roleId.Some? && (roleZeroChecked || p.roleId.value != 0)
       && RoleWithId(db.roles, p.roleId.value).None? then
      Some(ApiError(BadRequest, InvalidRole))
    else None
  }

  /** `update_user` as written: a role id of 0 skips the role check (0 is
      falsy) and is then written, leaving the user without a role, since
      the default SQLite engine does not enforce foreign keys. */
  function UpdateUserAsWritten(db: Db, id: int, p: UserPatch): (r: Result<(Db, User), ApiError>)
    ensures UserWithId(db.users, id).None? ==> r == Err(ApiError(NotFound, UserNotFound))
    ensures r.Ok? ==> r.value.1.id == id && r.value.1 in r.value.0.users
    ensures UserWithId(db.users, id).Some? ==>
              var u := db.users[UserWithId(db.users, id).value];
              var emailClash := p.email.Some? && p.email.value != "" && p.email.value != u.email
                                && UserWithEmail(db.users, p.email.value).Some?;
              var nameClash := p.username.Some? && p.username.value != "" && p.username.value != u.username
                               && UserWithUsername(db.users, p.username.value).Some?;
              var badRole := p.roleId.Some? && p.roleId.value != 0
                             && RoleWithId(db.roles, p.roleId.value).None?;
              && (emailClash ==> r == Err(ApiError(BadRequest, EmailTaken)))
              && (!emailClash && nameClash ==> r == Err(ApiError(BadRequest, UsernameTaken)))
              && (!emailClash && !nameClash && badRole ==> r == Err(ApiError(BadRequest, InvalidRole)))
              && (r.Ok? <==> !emailClash && !nameClash && !badRole)
    ensures r.Ok? ==>
              var k := UserWithId(db.users, id).value;
              && r.value.1 == ApplyPatch(db.users[k], p)
              && r.value.0 == SetUser(db, k, r.value.1)
  {
    match UserWithId(db.users, id)
    case None => Err(ApiError(NotFound, UserNotFound))
    case Some(k) =>
      match UpdateChecks(db, k, p, false)
      case Some(e) => Err(e)
      case None =>
        var u := ApplyPatch(db.users[k], p);
        assert SetUser(db, k, u).users[k] == u;
        Ok((SetUser(db, k, u), u))
  }

  /** The discrepancy: from a valid store with one role and one user, the
      as-written update with `role_id = 0` succeeds and leaves a user whose
      role does not exist. */
  lemma UpdateRoleZeroBreaksStore()
    ensures var db := Db([Role(1, UserRoleName, None)],
                         [User(1, "a@x.io", "alice", None, "h", true, false, 1, None)],
                         [], 2, 2, 1);
            && Valid(db)
            && UpdateUserAsWritten(db, 1, UserPatch(None, None, None, None, Some(0))).Ok?
            && !Valid(UpdateUserAsWritten(db, 1, UserPatch(None, None, None, None, Some(0))).value.0)
  {
    var db := Db([Role(1, UserRoleName, None)],
                 [User(1, "a@x.io", "alice", None, "h", true, false, 1, None)],
                 [], 2, 2, 1);
    var after := UpdateUserAsWritten(db, 1, UserPatch(None, None, None, None, Some(0)));
    assert after.value.0.users[0].roleId == 0;
    assert RoleWithId(after.value.0.roles, 0).None?;
  }

  /** `update_user` with every set role id checked: 404 for a missing user,
      400 for an email or username another user holds or an unknown role,
      and otherwise only the set fields change. */
  function UpdateUser(db: Db, id: int, p: UserPatch): (r: Result<(Db, User), ApiError>)
    ensures UserWithId(db.users, id).None? ==> r == Err(ApiError(NotFound, UserNotFound))
    ensures r.Err? ==> r.error.status in {NotFound, BadRequest}
    ensures p.roleId.Some? && RoleWithId(db.roles, p.roleId.value).None? ==> r.Err?
    ensures UserWithId(db.users, id).Some? ==>
              var u := db.users[UserWithId(db.users, id).value];
              var emailClash := p.email.Some? && p.email.value != "" && p.email.value != u.email
                                && UserWithEmail(db.users, p.email.value).Some?;
              var nameClash := p.username.Some? && p.username.value != "" && p.username.value != u.username
                               && UserWithUsername(db.users, p.username.value).Some?;
              var badRole := p.roleId.Some? && RoleWithId(db.roles, p.roleId.value).None?;
              && (emailClash ==> r == Err(ApiError(BadRequest, EmailTaken)))
              && (!emailClash && nameClash ==> r == Err(ApiError(BadRequest, UsernameTaken)))
              && (!emailClash && !nameClash && badRole ==> r == Err(ApiError(BadRequest, InvalidRole)))
              && (r.Ok? <==> !emailClash && !nameClash && !badRole)
    ensures r.Ok? ==>
              var k := UserWithId(db.users, id).value;
              && r.value.1 == ApplyPatch(db.users[k], p)
              && r.value.0 == SetUser(db, k, r.value.1)
  {
    match UserWithId(db.users, id)
    case None => Err(ApiError(NotFound, UserNotFound))
    case Some(k) =>
      match UpdateChecks(db, k, p, true)
      case Some(e) => Err(e)
      case None =>
        var u := ApplyPatch(db.users[k], p);
        Ok((SetUser(db, k, u), u))
  }

  /** The corrected update keeps the store valid. The request schema
      rejects an empty email or username before the handler runs (the
      handler's own checks skip falsy values), so the lemma takes that as
      given. */
  lemma UpdateUserValid(db: Db, id: int, p: UserPatch)
    requires Valid(db)
    requires p.email.Some? ==> p.email.value != ""
    requires p.username.Some? ==> p.username.value != ""
    requires UpdateUser(db, id, p).Ok?
    ensures Valid(UpdateUser(db, id, p).value.0)
  {
    var k := UserWithId(db.users, id).value;
    var u := ApplyPatch(db.users[k], p);
    assert UpdateChecks(db, k, p, true).None?;
    SetUserValid(db, k, u);
  }

  /** `delete_user`: 404 for a missing id, 400 for the caller's own
      account, otherwise that user alone is removed. */
  function DeleteUser(db: Db, id: int, callerId: int): (r: Result<Db, ApiError>)
    ensures UserWithId(db.users, id).None? ==> r == Err(ApiError(NotFound, UserNotFound))
    ensures UserWithId(db.users, id).Some? && id == callerId ==>
              r == Err(ApiError(BadRequest, CannotDeleteSelf))
    ensures r.Ok? <==> UserWithId(db.users, id).Some? && id != callerId
    ensures r.Ok? ==>
              && |r.value.users| == |db.users| - 1
              && (forall u :: u in r.value.users ==> u in db.users)
              && (forall u :: u in db.users && u.id != id ==> u in r.value.users)
              && r.value.roles == db.roles && r.value.metrics == db.metrics
  {
    match UserWithId(db.users, id)
    case None => Err(ApiError(NotFound, UserNotFound))
    case Some(k) =>
      if id == callerId then Err(ApiError(BadRequest, CannotDeleteSelf))
      else
        var users' := RemoveAt(db.users, k);
        assert forall u :: u in db.users && u.id != id ==> u in users' by {
          forall u | u in db.users && u.id != id
            ensures u in users'
          {
            var i :| 0 <= i < |db.users| && db.users[i] == u;
            assert i != k;
            if i < k { assert users'[i] == u; } else { assert users'[i - 1] == u; }
          }
        }
        Ok(db.(users := users'))
  }

  /** In a valid store, a successful delete leaves no user with that id and
      keeps the store valid. */
  lemma DeleteUserValid(db: Db, id: int, callerId: int)
    requires Valid(db)
    requires DeleteUser(db, id, callerId).Ok?
    ensures Valid(DeleteUser(db, id, callerId).value)
    ensures UserWithId(DeleteUser(db, id, callerId).value.users, id).None?
  {
    var k := UserWithId(db.users, id).value;
    RemoveUserValid(db, k);
    var users' := RemoveAt(db.users, k);
    forall j | 0 <= j < |users'|
      ensures users'[j].id != id
    {
      var j0 := if j < k then j else j + 1;
      assert users'[j] == db.users[j0];
    }
  }

  /** `activate_user`: 404 for a missing id; no self check. */
  function ActivateUser(db: Db, id: int): (r: Result<Db, ApiError>)
    ensures r.Err? <==> UserWithId(db.users, id).None?
    ensures r.Err? ==> r.error == ApiError(NotFound, UserNotFound)
    ensures r.Ok? ==>
              var k := UserWithId(db.users, id).value;
              r.value == SetUser(db, k, db.users[k].(isActive := true))
  {
    match UserWithId(db.users, id)
    case None => Err(ApiError(NotFound, UserNotFound))
    case Some(k) => Ok(SetUser(db, k, db.users[k].(isActive := true)))
  }

  /** `deactivate_user`: 404 for a missing id, 400 for the caller's own
      account. */
  function DeactivateUser(db: Db, id: int, callerId: int): (r: Result<Db, ApiError>)
    ensures UserWithId(db.users, id).None? ==> r == Err(ApiError(NotFound, UserNotFound))
    ensures UserWithId(db.users, id).Some? && id == callerId ==>
              r == Err(ApiError(BadRequest, CannotDeactivateSelf))
    ensures r.Ok? <==> UserWithId(db.users, id).Some? && id != callerId
    ensures r.Ok? ==>
              var k := UserWithId(db.users, id).value;
              r.value == SetUser(db, k, db.users[k].(isActive := false))
  {
    match UserWithId(db.users, id)
    case None => Err(ApiError(NotFound, UserNotFound))
    case Some(k) =>
      if id == callerId then Err(ApiError(BadRequest, CannotDeactivateSelf))
      else Ok(SetUser(db, k, db.users[k].(isActive := false)))
  }

  /** Activation and deactivation touch only the flag, so they keep the
      store valid. */
  lemma ActivationValid(db: Db, id: int, callerId: int)
    requires Valid(db)
    requires UserWithId(db.users, id).Some? && id != callerId
    ensures Valid(ActivateUser(db, id).value)
    ensures Valid(DeactivateUser(db, id, callerId).value)
  {
    var k := UserWithId(db.users, id).value;
    SetUserValid(db, k, db.users[k].(isActive := true));
    SetUserValid(db, k, db.users[k].(isActive := false));
  }

  /** Deactivating an active user and activating them again restores the
      store. */
  lemma DeactivateThenActivate(db: Db, id: int, callerId: int)
    requires Valid(db)
    requires UserWithId(db.users, id).Some? && id != callerId
    requires db.users[UserWithId(db.users, id).value].isActive
    ensures ActivateUser(DeactivateUser(db, id, callerId).value, id).Ok?
    ensures ActivateUser(DeactivateUser(db, id, callerId).value, id).value == db
  {
    var k := UserWithId(db.users, id).value;
    var off := DeactivateUser(db, id, callerId).value;
    assert off.users[k].id == id;
    var k' := UserWithId(off.users, id).value;
    assert k' == k;
    assert off.users[k := off.users[k].(isActive := true)] == db.users;
  }
}
