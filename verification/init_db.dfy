/** Start-up initialisation (backend/init_db.py): the `admin` and `user`
    roles, the administrator account and two sample users, each created only
    when missing. The script commits three times; a failed commit rolls
    back only the work since the previous one and ends the run, so the
    outcome carries the store as last committed. Table creation and the
    console messages are not modelled. */
module InitDb {
  import opened Wrappers
  import opened Store

  const AdminRoleDescription: string := "Administrator role with full access"

  /** `ADMIN_EMAIL` and `ADMIN_PASSWORD` when the environment sets neither
      (config.py). */
  const DefaultAdminEmail: string := "admin@microshell.com"
  const DefaultAdminPassword: string := "changeme123!"

  const AdminUsername: string := "admin"
  const AdminFullName: string := "System Administrator"
  const SamplePassword: string := "password123"

  datatype Sample = Sample(email: string, username: string, fullName: string)

  const SampleUsers: seq<Sample> := [
    Sample("user1@microshell.com", "user1", "John Doe"),
    Sample("user2@microshell.com", "user2", "Jane Smith")
  ]

  /** The run's end: completed, or stopped by a failed commit. Either way
      `db` is what the database holds afterwards. */
  datatype Outcome = Done(db: Db) | Failed(db: Db)

  /** The first phase: both roles, each inserted when no role has its
      name; answers the admin and user role ids. */
  function CreateRoles(db: Db): (r: (Db, nat, nat))
    ensures r.0.users == db.users && r.0.metrics == db.metrics
  {
    var (db1, adminRole) := EnsureRole(db, AdminRoleName, Some(AdminRoleDescription));
    var (db2, userRole) := EnsureRole(db1, UserRoleName, Some(UserRoleDescription));
    (db2, adminRole, userRole)
  }

  lemma CreateRolesValid(db: Db)
    requires Valid(db)
    ensures var (db', adminRole, userRole) := CreateRoles(db);
            && Valid(db')
            && RoleWithName(db'.roles, AdminRoleName).Some?
            && RoleWithName(db'.roles, UserRoleName).Some?
            && RoleWithId(db'.roles, adminRole).Some? && RoleWithId(db'.roles, userRole).Some?
            && db'.roles[RoleWithId(db'.roles, adminRole).value].name == AdminRoleName
            && db'.roles[RoleWithId(db'.roles, userRole).value].name == UserRoleName
  {
    var (db1, adminRole) := EnsureRole(db, AdminRoleName, Some(AdminRoleDescription));
    EnsureRoleValid(db, AdminRoleName, Some(AdminRoleDescription));
    EnsureRoleValid(db1, UserRoleName, Some(UserRoleDescription));
    EnsureRoleKeeps(db1, UserRoleName, Some(UserRoleDescription), adminRole);
    var db2 := EnsureRole(db1, UserRoleName, Some(UserRoleDescription)).0;
    var a := RoleWithId(db2.roles, adminRole).value;
    assert db2.roles[a].name == AdminRoleName;
  }

  /** The row the script inserts for a sample: its email, username and
      full name, the hash of the shared sample password, the user role,
      active and verified, never logged in. */
  predicate SampleRow(u: User, s: Sample, userRole: nat, passwordHash: string) {
    && u.email == s.email && u.username == s.username && u.fullName == Some(s.fullName)
    && u.passwordHash == passwordHash && u.roleId == userRole
    && u.isActive && u.isVerified && u.lastLogin.None?
  }

  /** The sample users' phase: each sample whose email is not yet taken is
      added, active and verified, with the user role. The check is by email
      only; a sample whose username is taken makes the commit fail, which
      is `None`. */
  function AddSamples(db: Db, samples: seq<Sample>, userRole: nat, hash: string -> string)
    : (r: Option<Db>)
    ensures r.Some? ==> r.value.roles == db.roles && r.value.metrics == db.metrics
    ensures r.Some? ==> |db.users| <= |r.value.users| && r.value.users[..|db.users|] == db.users
    decreases |samples|
  {
    if |samples| == 0 then Some(db)
    else
      var s := samples[0];
      if UserWithEmail(db.users, s.email).Some? then AddSamples(db, samples[1..], userRole, hash)
      else if UserWithUsername(db.users, s.username).Some? then None
      else
        var (db1, _) := AddUser(db, s.email, s.username, Some(s.fullName), hash(SamplePassword),
                                userRole, true, true);
        match AddSamples(db1, samples[1..], userRole, hash)
        case None => None
        case Some(db2) =>
          assert db2.users[..|db.users|] == db2.users[..|db1.users|][..|db.users|];
          Some(db2)
  }

  /** `u` is the row of one of the samples whose email `users` lacks. */
  predicate FromMissingSample(u: User, users: seq<User>, samples: seq<Sample>, userRole: nat,
                              passwordHash: string)
  {
    exists i :: 0 <= i < |samples| && UserWithEmail(users, samples[i].email).None?
                && SampleRow(u, samples[i], userRole, passwordHash)
  }

  /** What the samples' phase inserts: at most one row per sample, and each
      new row is the row of a sample whose email the database did not hold
      beforehand. */
  lemma {:induction false} AddSamplesRows(db: Db, samples: seq<Sample>, userRole: nat,
                                          hash: string -> string)
    requires AddSamples(db, samples, userRole, hash).Some?
    ensures var db' := AddSamples(db, samples, userRole, hash).value;
            && |db'.users| <= |db.users| + |samples|
            && forall j :: |db.users| <= j < |db'.users| ==>
                 FromMissingSample(db'.users[j], db.users, samples, userRole, hash(SamplePassword))
    decreases |samples|
  {
    if |samples| > 0 {
      var s := samples[0];
      var tail := samples[1..];
      var pw := hash(SamplePassword);
      var db' := AddSamples(db, samples, userRole, hash).value;
      if UserWithEmail(db.users, s.email).Some? {
        assert db' == AddSamples(db, tail, userRole, hash).value;
        AddSamplesRows(db, tail, userRole, hash);
        forall j | |db.users| <= j < |db'.users|
          ensures FromMissingSample(db'.users[j], db.users, samples, userRole, pw)
        {
          assert FromMissingSample(db'.users[j], db.users, tail, userRole, pw);
          var i :| 0 <= i < |tail| && UserWithEmail(db.users, tail[i].email).None?
                   && SampleRow(db'.users[j], tail[i], userRole, pw);
          assert tail[i] == samples[i + 1];
        }
      } else {
        var db1 := AddUser(db, s.email, s.username, Some(s.fullName), pw, userRole, true, true).0;
        assert db' == AddSamples(db1, tail, userRole, hash).value;
        AddSamplesRows(db1, tail, userRole, hash);
        forall j | |db.users| <= j < |db'.users|
          ensures FromMissingSample(db'.users[j], db.users, samples, userRole, pw)
        {
          if j == |db.users| {
            assert db'.users[j] == db'.users[..|db1.users|][j] == db1.users[j];
            assert SampleRow(db'.users[j], samples[0], userRole, pw);
          } else {
            assert FromMissingSample(db'.users[j], db1.users, tail, userRole, pw);
            var i :| 0 <= i < |tail| && UserWithEmail(db1.users, tail[i].email).None?
                     && SampleRow(db'.users[j], tail[i], userRole, pw);
            assert tail[i] == samples[i + 1];
            AbsentFromPrefix(db.users, db1.users, samples[i + 1].email);
          }
        }
      }
    }
  }

  /** No two samples share an email or a username, as for `SampleUsers`. */
  predicate DistinctSamples(samples: seq<Sample>) {
    forall i, j :: 0 <= i < j < |samples| ==>
      samples[i].email != samples[j].email && samples[i].username != samples[j].username
  }

  /** A sample the script would insert, since its email is free, but whose
      username another account already holds. */
  predicate Blocked(users: seq<User>, s: Sample) {
    UserWithEmail(users, s.email).None? && UserWithUsername(users, s.username).Some?
  }

  /** For samples that are distinct among themselves, the samples' phase
      fails exactly when some sample is blocked in the database it starts
      from: the username clash fails the commit, and the phase never
      checks usernames itself. */
  lemma {:induction false} AddSamplesFails(db: Db, samples: seq<Sample>, userRole: nat,
                                           hash: string -> string)
    requires DistinctSamples(samples)
    ensures AddSamples(db, samples, userRole, hash).None? <==>
              exists i :: 0 <= i < |samples| && Blocked(db.users, samples[i])
    decreases |samples|
  {
    if |samples| > 0 {
      var s := samples[0];
      var tail := samples[1..];
      assert DistinctSamples(tail) by {
        forall i, j | 0 <= i < j < |tail|
          ensures tail[i].email != tail[j].email && tail[i].username != tail[j].username
        {
          assert tail[i] == samples[i + 1] && tail[j] == samples[j + 1];
        }
      }
      if UserWithEmail(db.users, s.email).Some? {
        AddSamplesFails(db, tail, userRole, hash);
        BlockedInTail(db.users, db.users, samples);
      } else if UserWithUsername(db.users, s.username).Some? {
        assert Blocked(db.users, samples[0]);
      } else {
        var (db1, u) := AddUser(db, s.email, s.username, Some(s.fullName), hash(SamplePassword),
                                userRole, true, true);
        assert db1.users == db.users + [u];
        AddSamplesFails(db1, tail, userRole, hash);
        forall i | 0 <= i < |tail|
          ensures Blocked(db1.users, tail[i]) <==> Blocked(db.users, samples[i + 1])
        {
          assert tail[i] == samples[i + 1];
          AppendLookups(db.users, u, tail[i]);
        }
        BlockedInTail(db1.users, db.users, samples);
      }
    }
  }

  /** The script's own samples phase fails exactly when `user1` or `user2`
      is blocked: its email free and its username already held. */
  lemma SampleUsersFail(db: Db, userRole: nat, hash: string -> string)
    ensures AddSamples(db, SampleUsers, userRole, hash).None? <==>
              Blocked(db.users, SampleUsers[0]) || Blocked(db.users, SampleUsers[1])
  {
    AddSamplesFails(db, SampleUsers, userRole, hash);
  }

  /** Blocking in the tail, read in two user lists that agree on it, is
      blocking past the head when the head is not blocked. */
  lemma BlockedInTail(tailUsers: seq<User>, users: seq<User>, samples: seq<Sample>)
    requires |samples| > 0 && !Blocked(users, samples[0])
    requires forall i :: 0 <= i < |samples| - 1 ==>
               (Blocked(tailUsers, samples[1..][i]) <==> Blocked(users, samples[i + 1]))
    ensures (exists i :: 0 <= i < |samples[1..]| && Blocked(tailUsers, samples[1..][i])) <==>
            (exists i :: 0 <= i < |samples| && Blocked(users, samples[i]))
  {
    if i :| 0 <= i < |samples| && Blocked(users, samples[i]) {
      assert i > 0;
      assert Blocked(tailUsers, samples[1..][i - 1]);
    }
  }

  /** Lookups after appending one user: the email is free iff it was free
      and differs from the new user's, and the username is held iff it was
      held or is the new user's. */
  lemma AppendLookups(users: seq<User>, u: User, s: Sample)
    requires u.email != s.email && u.username != s.username
    ensures Blocked(users + [u], s) <==> Blocked(users, s)
  {
    var after := users + [u];
    assert forall j :: 0 <= j < |users| ==> after[j] == users[j];
    assert after[|users|] == u;
  }

  /** An email absent from the longer list is absent from any prefix. */
  lemma AbsentFromPrefix(before: seq<User>, after: seq<User>, email: string)
    requires |before| <= |after| && after[..|before|] == before
    requires UserWithEmail(after, email).None?
    ensures UserWithEmail(before, email).None?
  {
    forall j | 0 <= j < |before| ensures before[j].email != email {
      assert before[j] == after[j];
    }
  }

  /** The administrator's phase: nothing when a user has the admin email;
      otherwise exactly one new user, the administrator, active and
      verified, with the admin role.
      Its username `admin` taken by another account makes the commit fail,
      which is `None`. */
  function EnsureAdmin(db: Db, adminEmail: string, passwordHash: string, adminRole: nat): (r: Option<Db>)
    ensures UserWithEmail(db.users, adminEmail).Some? ==> r == Some(db)
    ensures r.None? <==> (UserWithEmail(db.users, adminEmail).None?
                          && UserWithUsername(db.users, AdminUsername).Some?)
    ensures r.Some? ==> r.value.roles == db.roles && r.value.metrics == db.metrics
    ensures r.Some? ==> |db.users| <= |r.value.users| && r.value.users[..|db.users|] == db.users
    ensures r.Some? && UserWithEmail(db.users, adminEmail).None? ==>
              && |r.value.users| == |db.users| + 1
              && var u := r.value.users[|db.users|];
                 && u.email == adminEmail && u.username == AdminUsername
                 && u.fullName == Some(AdminFullName) && u.passwordHash == passwordHash
                 && u.roleId == adminRole && u.isActive && u.isVerified
  {
    if UserWithEmail(db.users, adminEmail).Some? then Some(db)
    else if UserWithUsername(db.users, AdminUsername).Some? then None
    else
      var db' := AddUser(db, adminEmail, AdminUsername, Some(AdminFullName), passwordHash,
                         adminRole, true, true).0;
      assert db'.users[..|db.users|] == db.users;
      Some(db')
  }

  lemma EnsureAdminValid(db: Db, adminEmail: string, passwordHash: string, adminRole: nat)
    requires Valid(db) && RoleWithId(db.roles, adminRole).Some?
    requires EnsureAdmin(db, adminEmail, passwordHash, adminRole).Some?
    ensures var db' := EnsureAdmin(db, adminEmail, passwordHash, adminRole).value;
            Valid(db') && UserWithEmail(db'.users, adminEmail).Some?
  {
    if UserWithEmail(db.users, adminEmail).None? {
      AddUserValid(db, adminEmail, AdminUsername, Some(AdminFullName), passwordHash,
                   adminRole, true, true);
      var db' := EnsureAdmin(db, adminEmail, passwordHash, adminRole).value;
      assert db'.users[|db.users|].email == adminEmail;
    }
  }

  /** `init_database`. */
  function InitDatabase(db: Db, adminEmail: string, adminPassword: string, hash: string -> string)
    : (r: Outcome)
    ensures r.db.metrics == db.metrics
    ensures UserWithEmail(db.users, adminEmail).Some? ==>
              |db.users| <= |r.db.users| && r.db.users[..|db.users|] == db.users
  {
    var (db1, adminRole, userRole) := CreateRoles(db);
    match EnsureAdmin(db1, adminEmail, hash(adminPassword), adminRole)
    case None => Failed(db1)
    case Some(db2) =>
      match AddSamples(db2, SampleUsers, userRole, hash)
      case None => Failed(db2)
      case Some(db3) => Done(db3)
  }

  /** Users added by the samples' phase are found by every sample email,
      and the store stays valid. */
  lemma AddSamplesValid(db: Db, samples: seq<Sample>, userRole: nat, hash: string -> string)
    requires Valid(db) && RoleWithId(db.roles, userRole).Some?
    requires AddSamples(db, samples, userRole, hash).Some?
    ensures var db' := AddSamples(db, samples, userRole, hash).value;
            && Valid(db')
            && forall i :: 0 <= i < |samples| ==> UserWithEmail(db'.users, samples[i].email).Some?
  {
    AddSamplesKeepsValid(db, samples, userRole, hash);
    AddSamplesEmails(db, samples, userRole, hash);
  }

  lemma {:induction false} AddSamplesKeepsValid(db: Db, samples: seq<Sample>, userRole: nat,
                                                hash: string -> string)
    requires Valid(db) && RoleWithId(db.roles, userRole).Some?
    requires AddSamples(db, samples, userRole, hash).Some?
    ensures Valid(AddSamples(db, samples, userRole, hash).value)
    decreases |samples|
  {
    if |samples| > 0 {
      var s := samples[0];
      if UserWithEmail(db.users, s.email).Some? {
        AddSamplesKeepsValid(db, samples[1..], userRole, hash);
      } else {
        var db1 := AddUser(db, s.email, s.username, Some(s.fullName), hash(SamplePassword),
                           userRole, true, true).0;
        AddUserValid(db, s.email, s.username, Some(s.fullName), hash(SamplePassword),
                     userRole, true, true);
        AddSamplesKeepsValid(db1, samples[1..], userRole, hash);
      }
    }
  }

  lemma {:induction false} AddSamplesEmails(db: Db, samples: seq<Sample>, userRole: nat,
                                            hash: string -> string)
    requires AddSamples(db, samples, userRole, hash).Some?
    ensures var db' := AddSamples(db, samples, userRole, hash).value;
            forall i :: 0 <= i < |samples| ==> UserWithEmail(db'.users, samples[i].email).Some?
    decreases |samples|
  {
    if |samples| > 0 {
      var s := samples[0];
      var db' := AddSamples(db, samples, userRole, hash).value;
      if UserWithEmail(db.users, s.email).Some? {
        AddSamplesEmails(db, samples[1..], userRole, hash);
        PrefixKeepsEmail(db.users, db'.users, s.email);
      } else {
        var db1 := AddUser(db, s.email, s.username, Some(s.fullName), hash(SamplePassword),
                           userRole, true, true).0;
        AddSamplesEmails(db1, samples[1..], userRole, hash);
        assert db1.users[|db.users|].email == s.email;
        PrefixKeepsEmail(db1.users, db'.users, s.email);
      }
      forall i | 0 <= i < |samples|
        ensures UserWithEmail(db'.users, samples[i].email).Some?
      {
        if i > 0 {
          assert samples[i] == samples[1..][i - 1];
        }
      }
    }
  }

  /** Appending users never loses an email. */
  lemma PrefixKeepsEmail(before: seq<User>, after: seq<User>, email: string)
    requires |before| <= |after| && after[..|before|] == before
    requires UserWithEmail(before, email).Some?
    ensures UserWithEmail(after, email).Some?
  {
    var k := UserWithEmail(before, email).value;
    assert after[k] == after[..|before|][k];
  }

  /** A valid store stays valid, and a completed run leaves both roles, a
      user with the admin email and every sample email. A failed run still
      leaves both roles, committed before the failure. */
  lemma InitValid(db: Db, adminEmail: string, adminPassword: string, hash: string -> string)
    requires Valid(db)
    ensures var r := InitDatabase(db, adminEmail, adminPassword, hash);
            && Valid(r.db)
            && RoleWithName(r.db.roles, AdminRoleName).Some?
            && RoleWithName(r.db.roles, UserRoleName).Some?
            && (r.Done? ==> UserWithEmail(r.db.users, adminEmail).Some?)
            && (r.Done? ==> forall i :: 0 <= i < |SampleUsers| ==>
                              UserWithEmail(r.db.users, SampleUsers[i].email).Some?)
  {
    CreateRolesValid(db);
    var (db1, adminRole, userRole) := CreateRoles(db);
    var admin := EnsureAdmin(db1, adminEmail, hash(adminPassword), adminRole);
    if admin.None? {
      assert InitDatabase(db, adminEmail, adminPassword, hash) == Failed(db1);
    } else {
      var db2 := admin.value;
      EnsureAdminValid(db1, adminEmail, hash(adminPassword), adminRole);
      var r := AddSamples(db2, SampleUsers, userRole, hash);
      if r.None? {
        assert InitDatabase(db, adminEmail, adminPassword, hash) == Failed(db2);
      } else {
        assert InitDatabase(db, adminEmail, adminPassword, hash) == Done(r.value);
        AddSamplesValid(db2, SampleUsers, userRole, hash);
        var k := UserWithEmail(db2.users, adminEmail).value;
        assert r.value.users[k] == r.value.users[..|db2.users|][k];
      }
    }
  }

  /** A missing admin whose username `admin` another account already holds
      stops the run at the admin's commit; only the roles persist. */
  lemma AdminUsernameClash(db: Db, adminEmail: string, adminPassword: string, hash: string -> string)
    requires UserWithEmail(db.users, adminEmail).None?
    requires UserWithUsername(db.users, AdminUsername).Some?
    ensures InitDatabase(db, adminEmail, adminPassword, hash) == Failed(CreateRoles(db).0)
  {
  }

  /** Run on an empty store with the default settings, initialisation
      completes with both roles, the administrator and the two samples. */
  lemma InitEmpty(hash: string -> string)
    ensures var r := InitDatabase(Empty, DefaultAdminEmail, DefaultAdminPassword, hash);
            && r.Done? && |r.db.roles| == 2 && |r.db.users| == 3
            && r.db.users[0].email == DefaultAdminEmail
            && r.db.users[0].username == AdminUsername
            && r.db.users[0].isActive && r.db.users[0].isVerified
            && r.db.roles[RoleWithId(r.db.roles, r.db.users[0].roleId).value].name == AdminRoleName
            && SampleRow(r.db.users[1], SampleUsers[0], 2, hash(SamplePassword))
            && SampleRow(r.db.users[2], SampleUsers[1], 2, hash(SamplePassword))
            && r.db.roles[RoleWithId(r.db.roles, 2).value].name == UserRoleName
  {
    RolesOnEmpty();
    var db1 := CreateRoles(Empty).0;
    AdminOnRoles(db1, hash(DefaultAdminPassword));
    var db2 := EnsureAdmin(db1, DefaultAdminEmail, hash(DefaultAdminPassword), 1).value;
    SamplesAfterAdmin(db2, hash);
    var db3 := AddSamples(db2, SampleUsers, 2, hash).value;
    assert db3.users[0] == db3.users[..1][0] == db2.users[0];
    assert db3.roles[0].id == 1;
  }

  /** The roles' phase on an empty database: ids 1 and 2. */
  lemma RolesOnEmpty()
    ensures CreateRoles(Empty) ==
              (Db([Role(1, AdminRoleName, Some(AdminRoleDescription)),
                   Role(2, UserRoleName, Some(UserRoleDescription))], [], [], 3, 1, 1), 1, 2)
  {
    var db1 := Db([Role(1, AdminRoleName, Some(AdminRoleDescription))], [], [], 2, 1, 1);
    assert RoleWithName(Empty.roles, AdminRoleName).None?;
    assert AddRole(Empty, AdminRoleName, Some(AdminRoleDescription)).0.roles == db1.roles;
    assert EnsureRole(Empty, AdminRoleName, Some(AdminRoleDescription)) == (db1, 1);
    var db2 := AddRole(db1, UserRoleName, Some(UserRoleDescription)).0;
    assert db2.roles == db1.roles + [Role(2, UserRoleName, Some(UserRoleDescription))];
    assert EnsureRole(db1, UserRoleName, Some(UserRoleDescription)) == (db2, 2);
    assert db2 == Db([Role(1, AdminRoleName, Some(AdminRoleDescription)),
                      Role(2, UserRoleName, Some(UserRoleDescription))], [], [], 3, 1, 1);
    assert RoleWithName(db1.roles, UserRoleName).None?;
  }

  /** The administrator's phase on a database without users: user id 1. */
  lemma AdminOnRoles(db: Db, passwordHash: string)
    requires db.users == [] && db.nextUserId == 1
    ensures EnsureAdmin(db, DefaultAdminEmail, passwordHash, 1) ==
              Some(db.(users := [User(1, DefaultAdminEmail, AdminUsername, Some(AdminFullName),
                                      passwordHash, true, true, 1, None)],
                       nextUserId := 2))
  {
  }

  /** The samples' phase after the administrator alone: both samples are
      added. */
  lemma SamplesAfterAdmin(db: Db, hash: string -> string)
    requires |db.users| == 1
    requires db.users[0].email == DefaultAdminEmail && db.users[0].username == AdminUsername
    ensures AddSamples(db, SampleUsers, 2, hash).Some?
    ensures |AddSamples(db, SampleUsers, 2, hash).value.users| == 3
    ensures var users := AddSamples(db, SampleUsers, 2, hash).value.users;
            && SampleRow(users[1], SampleUsers[0], 2, hash(SamplePassword))
            && SampleRow(users[2], SampleUsers[1], 2, hash(SamplePassword))
  {
    var s0 := SampleUsers[0];
    var s1 := SampleUsers[1];
    assert UserWithEmail(db.users, s0.email).None?;
    assert UserWithUsername(db.users, s0.username).None?;
    var db1 := AddUser(db, s0.email, s0.username, Some(s0.fullName), hash(SamplePassword),
                       2, true, true).0;
    assert UserWithEmail(db1.users, s1.email).None?;
    assert UserWithUsername(db1.users, s1.username).None?;
    assert SampleUsers[1..] == [s1];
  }

  /** The samples' phase inserts nothing once every sample email is
      taken. */
  lemma {:induction false} AddSamplesPresent(db: Db, samples: seq<Sample>, userRole: nat, hash: string -> string)
    requires forall i :: 0 <= i < |samples| ==> UserWithEmail(db.users, samples[i].email).Some?
    ensures AddSamples(db, samples, userRole, hash) == Some(db)
    decreases |samples|
  {
    if |samples| > 0 {
      assert UserWithEmail(db.users, samples[0].email).Some?;
      AddSamplesPresent(db, samples[1..], userRole, hash);
    }
  }

  /** Initialisation is idempotent: a second run after a completed one
      inserts nothing. */
  lemma InitIdempotent(db: Db, adminEmail: string, adminPassword: string, hash: string -> string)
    requires Valid(db)
    requires InitDatabase(db, adminEmail, adminPassword, hash).Done?
    ensures var once := InitDatabase(db, adminEmail, adminPassword, hash).db;
            InitDatabase(once, adminEmail, adminPassword, hash) == Done(once)
  {
    InitValid(db, adminEmail, adminPassword, hash);
    var once := InitDatabase(db, adminEmail, adminPassword, hash).db;
    var (db1, adminRole, userRole) := CreateRoles(once);
    assert db1 == once;
    assert EnsureAdmin(once, adminEmail, hash(adminPassword), adminRole) == Some(once);
    AddSamplesPresent(once, SampleUsers, userRole, hash);
  }
}
