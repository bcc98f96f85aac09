/** The back end's database as an in-memory store (models/user.py,
    models/metrics.py): roles, users and metrics, each kept in insertion
    order with the next identifier the database would assign, plus the
    constraints the schema declares. */
module Store {
  import opened Wrappers

  datatype Role = Role(id: nat, name: string, description: Option<string>)

  /** A user row; times are seconds on one clock. */
  datatype User = User(id: nat, email: string, username: string, fullName: Option<string>,
                       passwordHash: string, isActive: bool, isVerified: bool, roleId: int,
                       lastLogin: Option<int>)

  /** A metric row; `createdBy` is the creating user's id. */
  datatype Metric = Metric(id: nat, name: string, metricType: string, value: real,
                           unit: Option<string>, description: Option<string>,
                           source: Option<string>, tags: Option<string>,
                           recordedAt: int, createdBy: Option<int>)

  datatype Db = Db(roles: seq<Role>, users: seq<User>, metrics: seq<Metric>,
                   nextRoleId: nat, nextUserId: nat, nextMetricId: nat)

  /** An HTTP error response: status code and `detail`. */
  datatype ApiError = ApiError(status: int, detail: string)

  const BadRequest: int := 400
  const Unauthorized: int := 401
  const NotFound: int := 404
  const Unprocessable: int := 422

  const UserRoleName: string := "user"
  const AdminRoleName: string := "admin"
  const UserRoleDescription: string := "Standard user role"

  const EmailTaken: string := "Email already registered"
  const UsernameTaken: string := "Username already taken"

  const Empty: Db := Db([], [], [], 1, 1, 1)

  // ---------------------------------------------------------------------
  // Lookups
  // ---------------------------------------------------------------------

  /** The position of the first element satisfying `p`. */
  function Find<T>(s: seq<T>, p: T -> bool): (r: Option<nat>)
    ensures r.Some? ==> r.value < |s| && p(s[r.value])
    ensures r.Some? ==> forall j :: 0 <= j < r.value ==> !p(s[j])
    ensures r.None? <==> forall j :: 0 <= j < |s| ==> !p(s[j])
  {
    if |s| == 0 then None
    else if p(s[0]) then Some(0)
    else match Find(s[1..], p)
      case None => None
      case Some(i) => Some(i + 1)
  }

  function UserWithId(users: seq<User>, id: int): (r: Option<nat>)
    ensures r.Some? ==> r.value < |users| && users[r.value].id == id
    ensures r.None? <==> forall j :: 0 <= j < |users| ==> users[j].id != id
  {
    Find(users, (u: User) => u.id == id)
  }

  function UserWithEmail(users: seq<User>, email: string): (r: Option<nat>)
    ensures r.Some? ==> r.value < |users| && users[r.value].email == email
    ensures r.None? <==> forall j :: 0 <= j < |users| ==> users[j].email != email
  {
    Find(users, (u: User) => u.email == email)
  }

  function UserWithUsername(users: seq<User>, username: string): (r: Option<nat>)
    ensures r.Some? ==> r.value < |users| && users[r.value].username == username
    ensures r.None? <==> forall j :: 0 <= j < |users| ==> users[j].username != username
  {
    Find(users, (u: User) => u.username == username)
  }

  function RoleWithId(roles: seq<Role>, id: int): (r: Option<nat>)
    ensures r.Some? ==> r.value < |roles| && roles[r.value].id == id
    ensures r.None? <==> forall j :: 0 <= j < |roles| ==> roles[j].id != id
  {
    Find(roles, (x: Role) => x.id == id)
  }

  function RoleWithName(roles: seq<Role>, name: string): (r: Option<nat>)
    ensures r.Some? ==> r.value < |roles| && roles[r.value].name == name
    ensures r.None? <==> forall j :: 0 <= j < |roles| ==> roles[j].name != name
  {
    Find(roles, (x: Role) => x.name == name)
  }

  function MetricWithId(metrics: seq<Metric>, id: int): (r: Option<nat>)
    ensures r.Some? ==> r.value < |metrics| && metrics[r.value].id == id
    ensures r.None? <==> forall j :: 0 <= j < |metrics| ==> metrics[j].id != id
  {
    Find(metrics, (m: Metric) => m.id == id)
  }

  // ---------------------------------------------------------------------
  // Constraints
  // ---------------------------------------------------------------------

  /** Primary keys, and the unique `email` and `username` columns. */
  predicate UniqueUsers(users: seq<User>) {
    forall i, j :: 0 <= i < j < |users| ==>
      && users[i].id != users[j].id
      && users[i].email != users[j].email
      && users[i].username != users[j].username
  }

  /** Primary keys and the unique role `name` column. */
  predicate UniqueRoles(roles: seq<Role>) {
    forall i, j :: 0 <= i < j < |roles| ==> roles[i].id != roles[j].id && roles[i].name != roles[j].name
  }

  predicate UniqueMetrics(metrics: seq<Metric>) {
    forall i, j :: 0 <= i < j < |metrics| ==> metrics[i].id != metrics[j].id
  }

  /** The not-null `role_id` foreign key: every user's role exists. */
  predicate RolesResolve(db: Db) {
    forall i :: 0 <= i < |db.users| ==> RoleWithId(db.roles, db.users[i].roleId).Some?
  }

  /** Every stored identifier is below the next one to be assigned, so a
      fresh identifier clashes with none. */
  predicate IdsBelowNext(db: Db) {
    && (forall i :: 0 <= i < |db.roles| ==> db.roles[i].id < db.nextRoleId)
    && (forall i :: 0 <= i < |db.users| ==> db.users[i].id < db.nextUserId)
    && (forall i :: 0 <= i < |db.metrics| ==> db.metrics[i].id < db.nextMetricId)
  }

  /** The store's invariant: everything the schema enforces. */
  predicate Valid(db: Db) {
    && UniqueUsers(db.users)
    && UniqueRoles(db.roles)
    && UniqueMetrics(db.metrics)
    && RolesResolve(db)
    && IdsBelowNext(db)
  }

  lemma EmptyValid()
    ensures Valid(Empty)
  {
  }

  // ---------------------------------------------------------------------
  // Inserts
  // ---------------------------------------------------------------------

  /** Inserts a role under the next role id. */
  function AddRole(db: Db, name: string, description: Option<string>): (r: (Db, nat))
    ensures r.1 == db.nextRoleId
    ensures r.0.roles == db.roles + [Role(r.1, name, description)]
    ensures r.0.users == db.users && r.0.metrics == db.metrics
    ensures r.0.nextRoleId == db.nextRoleId + 1
    ensures r.0.nextUserId == db.nextUserId && r.0.nextMetricId == db.nextMetricId
  {
    (db.(roles := db.roles + [Role(db.nextRoleId, name, description)], nextRoleId := db.nextRoleId + 1),
     db.nextRoleId)
  }

  /** Adding a role with a fresh name keeps the store valid. */
  lemma AddRoleValid(db: Db, name: string, description: Option<string>)
    requires Valid(db)
    requires RoleWithName(db.roles, name).None?
    ensures Valid(AddRole(db, name, description).0)
  {
    var db' := AddRole(db, name, description).0;
    forall i | 0 <= i < |db'.users|
      ensures RoleWithId(db'.roles, db'.users[i].roleId).Some?
    {
      var k := RoleWithId(db.roles, db.users[i].roleId).value;
      assert db'.roles[k] == db.roles[k];
    }
  }

  /** The id of the role named `name`, inserting the role first when it
      is missing (as registration, user creation and start-up do). */
  function EnsureRole(db: Db, name: string, description: Option<string>): (r: (Db, nat))
    ensures RoleWithId(r.0.roles, r.1).Some?
    ensures RoleWithName(db.roles, name).Some? ==>
              r.0 == db && r.1 == db.roles[RoleWithName(db.roles, name).value].id
    ensures RoleWithName(db.roles, name).None? ==> r == AddRole(db, name, description)
    ensures r.0.users == db.users && r.0.metrics == db.metrics
    ensures r.0.nextUserId == db.nextUserId && r.0.nextMetricId == db.nextMetricId
  {
    match RoleWithName(db.roles, name)
    case Some(k) => (db, db.roles[k].id)
    case None =>
      var (db', id) := AddRole(db, name, description);
      assert db'.roles[|db.roles|].id == id;
      (db', id)
  }

  /** In a valid store, `EnsureRole` keeps the store valid, and the id it
      answers is that of the role named `name`. */
  lemma EnsureRoleValid(db: Db, name: string, description: Option<string>)
    requires Valid(db)
    ensures var (db', id) := EnsureRole(db, name, description);
            && Valid(db')
            && RoleWithName(db'.roles, name).Some?
            && db'.roles[RoleWithId(db'.roles, id).value].name == name
  {
    var (db', id) := EnsureRole(db, name, description);
    var k := RoleWithId(db'.roles, id).value;
    match RoleWithName(db.roles, name)
    case Some(n) =>
      assert db'.roles[n].id == id;
      assert k == n;
    case None =>
      AddRoleValid(db, name, description);
      assert db'.roles[|db.roles|].name == name;
      assert db'.roles[|db.roles|].id == id;
      assert forall j :: 0 <= j < |db.roles| ==> db'.roles[j].id == db.roles[j].id;
      assert k == |db.roles|;
  }

  /** `EnsureRole` keeps every role already stored: an id that named a
      role still names the same one. */
  lemma EnsureRoleKeeps(db: Db, name: string, description: Option<string>, id: int)
    requires Valid(db)
    requires RoleWithId(db.roles, id).Some?
    ensures var db' := EnsureRole(db, name, description).0;
            && RoleWithId(db'.roles, id).Some?
            && db'.roles[RoleWithId(db'.roles, id).value] == db.roles[RoleWithId(db.roles, id).value]
  {
    if RoleWithName(db.roles, name).None? {
      var db' := EnsureRole(db, name, description).0;
      AddRoleValid(db, name, description);
      var k := RoleWithId(db.roles, id).value;
      assert db'.roles[k] == db.roles[k];
      var k' := RoleWithId(db'.roles, id).value;
      assert k' == k;
    }
  }

  /** Inserts a user under the next user id. */
  function AddUser(db: Db, email: string, username: string, fullName: Option<string>,
                   passwordHash: string, roleId: int, isActive: bool, isVerified: bool)
    : (r: (Db, User))
    ensures |r.0.users| == |db.users| + 1 && r.0.users[..|db.users|] == db.users
    ensures r.0.users[|db.users|] == r.1
    ensures r.1.id == db.nextUserId && r.1.lastLogin.None?
    ensures r.1.email == email && r.1.username == username && r.1.fullName == fullName
    ensures r.1.passwordHash == passwordHash && r.1.roleId == roleId
    ensures r.1.isActive == isActive && r.1.isVerified == isVerified
    ensures r.0.roles == db.roles && r.0.metrics == db.metrics
    ensures r.0.nextUserId == db.nextUserId + 1
    ensures r.0.nextRoleId == db.nextRoleId && r.0.nextMetricId == db.nextMetricId
  {
    var u := User(db.nextUserId, email, username, fullName, passwordHash, isActive, isVerified,
                  roleId, None);
    (db.(users := db.users + [u], nextUserId := db.nextUserId + 1), u)
  }

  /** Adding a user with a fresh email and username and an existing role
      keeps the store valid. */
  lemma AddUserValid(db: Db, email: string, username: string, fullName: Option<string>,
                     passwordHash: string, roleId: int, isActive: bool, isVerified: bool)
    requires Valid(db)
    requires UserWithEmail(db.users, email).None?
    requires UserWithUsername(db.users, username).None?
    requires RoleWithId(db.roles, roleId).Some?
    ensures var db' := AddUser(db, email, username, fullName, passwordHash, roleId, isActive, isVerified).0;
            && Valid(db')
            && UserWithId(db'.users, db.nextUserId) == Some(|db.users|)
  {
    var (db', u) := AddUser(db, email, username, fullName, passwordHash, roleId, isActive, isVerified);
    var n := |db.users|;
    assert forall j :: 0 <= j < n ==> db'.users[j] == db.users[j];
    forall i, j | 0 <= i < j < |db'.users|
      ensures db'.users[i].id != db'.users[j].id
      ensures db'.users[i].email != db'.users[j].email
      ensures db'.users[i].username != db'.users[j].username
    {
      if j == n {
        assert db'.users[i] == db.users[i];
      }
    }
    assert UniqueUsers(db'.users);
    assert RolesResolve(db');
    assert IdsBelowNext(db');
    UserWithIdAt(db'.users, n);
  }

  /** In a list with unique ids, the user at position `k` is the one
      found under its id. */
  lemma UserWithIdAt(users: seq<User>, k: nat)
    requires k < |users|
    requires forall j :: 0 <= j < k ==> users[j].id != users[k].id
    ensures UserWithId(users, users[k].id) == Some(k)
  {
  }

  /** Replaces the user at position `k`. */
  function SetUser(db: Db, k: nat, u: User): (r: Db)
    requires k < |db.users|
    ensures r.users == db.users[k := u]
    ensures r.roles == db.roles && r.metrics == db.metrics
    ensures r.nextRoleId == db.nextRoleId && r.nextUserId == db.nextUserId
    ensures r.nextMetricId == db.nextMetricId
  {
    db.(users := db.users[k := u])
  }

  /** Rewriting a user's non-key columns, or its email or username to values
      no other user holds, or its role to an existing one, keeps the store
      valid. */
  lemma SetUserValid(db: Db, k: nat, u: User)
    requires Valid(db) && k < |db.users|
    requires u.id == db.users[k].id
    requires u.email == db.users[k].email || UserWithEmail(db.users, u.email).None?
    requires u.username == db.users[k].username || UserWithUsername(db.users, u.username).None?
    requires RoleWithId(db.roles, u.roleId).Some?
    ensures Valid(SetUser(db, k, u))
  {
    var users' := SetUser(db, k, u).users;
    forall i, j | 0 <= i < j < |users'|
      ensures users'[i].id != users'[j].id
      ensures users'[i].email != users'[j].email
      ensures users'[i].username != users'[j].username
    {
      if i == k {
        assert users'[j] == db.users[j];
      } else if j == k {
        assert users'[i] == db.users[i];
      }
    }
  }

  /** Removes the element at position `k`. */
  function RemoveAt<T>(s: seq<T>, k: nat): (r: seq<T>)
    requires k < |s|
    ensures |r| == |s| - 1
    ensures forall i :: 0 <= i < k ==> r[i] == s[i]
    ensures forall i :: k <= i < |r| ==> r[i] == s[i + 1]
  {
    s[..k] + s[k + 1..]
  }

  /** Removing a user or a metric keeps the store valid. */
  lemma RemoveUserValid(db: Db, k: nat)
    requires Valid(db) && k < |db.users|
    ensures Valid(db.(users := RemoveAt(db.users, k)))
  {
    var users' := RemoveAt(db.users, k);
    forall i, j | 0 <= i < j < |users'|
      ensures users'[i].id != users'[j].id
      ensures users'[i].email != users'[j].email
      ensures users'[i].username != users'[j].username
    {
      var i0 := if i < k then i else i + 1;
      var j0 := if j < k then j else j + 1;
      assert users'[i] == db.users[i0] && users'[j] == db.users[j0];
    }
    forall i | 0 <= i < |users'|
      ensures RoleWithId(db.roles, users'[i].roleId).Some?
    {
      assert users'[i] == db.users[if i < k then i else i + 1];
    }
  }

  lemma RemoveMetricValid(db: Db, k: nat)
    requires Valid(db) && k < |db.metrics|
    ensures Valid(db.(metrics := RemoveAt(db.metrics, k)))
  {
    var metrics' := RemoveAt(db.metrics, k);
    forall i, j | 0 <= i < j < |metrics'|
      ensures metrics'[i].id != metrics'[j].id
    {
      var i0 := if i < k then i else i + 1;
      var j0 := if j < k then j else j + 1;
      assert metrics'[i] == db.metrics[i0] && metrics'[j] == db.metrics[j0];
    }
  }
}
