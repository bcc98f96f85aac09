/** The shell's own user-management page (features/utenti/utenti.component.ts):
    a locally held user list, a case-insensitive search over it, and local
    add and delete. Form controls that Angular resets to `null` are `None`. */
module ShellUsers {
  import opened Wrappers
  import Text

  datatype Row = Row(id: int, email: string, username: string, fullName: string,
                     role: string, isActive: bool, lastLogin: Option<int>)

  datatype UserForm = UserForm(email: Option<string>, username: Option<string>,
                               fullName: Option<string>, role: Option<string>)

  datatype State = State(users: seq<Row>, filtered: seq<Row>, searchTerm: string,
                         form: UserForm, showAddUserForm: bool)

  /** The form as `reset({ role: 'user' })` leaves it. The form the page
      first builds holds empty strings instead of nulls; `FormValid` treats
      the two alike. */
  const FreshForm: UserForm := UserForm(None, None, None, Some("user"))

  // ---------------------------------------------------------------------
  // Search
  // ---------------------------------------------------------------------

  /** `term` (already lower-cased) occurs in the lower-cased email, username
      or full name. */
  predicate Matches(u: Row, term: string) {
    || Text.IsInfix(term, Text.Lower(u.email))
    || Text.IsInfix(term, Text.Lower(u.username))
    || Text.IsInfix(term, Text.Lower(u.fullName))
  }

  /** The reference definition of the search: the matching rows, in order. */
  function Select(users: seq<Row>, term: string): seq<Row> {
    if |users| == 0 then []
    else (if Matches(users[0], term) then [users[0]] else []) + Select(users[1..], term)
  }

  /** `a` is `b` with some elements dropped, order kept. */
  predicate IsSubsequence<T(==)>(a: seq<T>, b: seq<T>)
    decreases |b|
  {
    if |a| == 0 then true
    else if |b| == 0 then false
    else if a[0] == b[0] then IsSubsequence(a[1..], b[1..])
    else IsSubsequence(a, b[1..])
  }

  /** The search keeps exactly the matching rows, each as often as it occurs
      in the list, in the list's order. */
  lemma {:induction false} SelectSpec(users: seq<Row>, term: string)
    ensures forall u :: u in Select(users, term) <==> u in users && Matches(u, term)
    ensures forall u :: multiset(Select(users, term))[u] ==
                        (if Matches(u, term) then multiset(users)[u] else 0)
    ensures IsSubsequence(Select(users, term), users)
    decreases |users|
  {
    if |users| > 0 {
      SelectSpec(users[1..], term);
      assert users == [users[0]] + users[1..];
      var rest := Select(users[1..], term);
      if Matches(users[0], term) {
        assert Select(users, term) == [users[0]] + rest;
        assert Select(users, term)[1..] == rest;
      } else {
        assert Select(users, term) == rest;
        SubsequenceSkip(rest, users);
      }
    }
  }

  lemma {:induction false} SubsequenceSkip<T>(a: seq<T>, b: seq<T>)
    requires |b| > 0
    requires IsSubsequence(a, b[1..])
    ensures IsSubsequence(a, b)
    decreases |b|, 0
  {
    if |a| > 0 && a[0] == b[0] {
      SubsequenceDropFirst(a, b[1..]);
    }
  }

  lemma {:induction false} SubsequenceDropFirst<T>(a: seq<T>, b: seq<T>)
    requires |a| > 0
    requires IsSubsequence(a, b)
    ensures IsSubsequence(a[1..], b)
    decreases |b|, 1
  {
    if |b| > 0 {
      if a[0] == b[0] {
        SubsequenceSkip(a[1..], b);
      } else {
        SubsequenceDropFirst(a, b[1..]);
        SubsequenceSkip(a[1..], b);
      }
    }
  }

  /** Every row matches the empty term, so selecting with it keeps the list. */
  lemma {:induction false} SelectEmptyTerm(users: seq<Row>)
    ensures Select(users, "") == users
    decreases |users|
  {
    if |users| > 0 {
      Text.EmptyIsInfix(Text.Lower(users[0].email));
      SelectEmptyTerm(users[1..]);
      assert users == [users[0]] + users[1..];
    }
  }

  /** `filterUsers`: a copy of the list for an empty term, otherwise the
      array filter with the lower-cased term. */
  method FilterUsers(users: seq<Row>, searchTerm: string) returns (r: seq<Row>)
    ensures searchTerm == "" ==> r == users
    ensures r == Select(users, Text.Lower(searchTerm))
  {
    if searchTerm == "" {
      SelectEmptyTerm(users);
      return users;
    }
    var term := Text.Lower(searchTerm);
    r := [];
    var i := 0;
    while i < |users|
      invariant 0 <= i <= |users|
      invariant Select(users, term) == r + Select(users[i..], term)
    {
      assert users[i..] == [users[i]] + users[i + 1..];
      if Matches(users[i], term) {
        r := r + [users[i]];
      }
      i := i + 1;
    }
  }

  // ---------------------------------------------------------------------
  // Labels
  // ---------------------------------------------------------------------

  /** `getRoleLabel`: the three known roles get Italian labels, any other
      role is shown as it is. */
  function RoleLabel(role: string): (shown: string)
    ensures role == "admin" ==> shown == "Amministratore"
    ensures role == "manager" ==> shown == "Manager"
    ensures role == "user" ==> shown == "Utente"
    ensures role !in {"admin", "manager", "user"} ==> shown == role
  {
    if role == "admin" then "Amministratore"
    else if role == "manager" then "Manager"
    else if role == "user" then "Utente"
    else role
  }

  // ---------------------------------------------------------------------
  // Add and delete
  // ---------------------------------------------------------------------

  /** The add form's validators: every field required, username of at least
      three characters, and an email the email validator accepts. */
  function FormValid(f: UserForm, emailWellFormed: bool): (r: bool)
    ensures r ==> f.email.Some? && f.username.Some? && f.fullName.Some? && f.role.Some?
    ensures r ==> emailWellFormed && |f.username.value| >= 3
    ensures f == FreshForm ==> !r
  {
    && f.email.Some? && f.email.value != "" && emailWellFormed
    && f.username.Some? && |f.username.value| >= 3
    && f.fullName.Some? && f.fullName.value != ""
    && f.role.Some? && f.role.value != ""
  }

  /** `addUser`: on a valid form, append one active, never-logged-in user
      whose id is one more than the list's length, re-run the search, reset
      the form's role to `user` and hide the form. */
  function AddUser(s: State, emailWellFormed: bool): (r: State)
    ensures !FormValid(s.form, emailWellFormed) ==> r == s
    ensures FormValid(s.form, emailWellFormed) ==>
              && |r.users| == |s.users| + 1
              && r.users[..|s.users|] == s.users
              && r.users[|s.users|] == Row(|s.users| + 1, s.form.email.value, s.form.username.value,
                                           s.form.fullName.value, s.form.role.value, true, None)
              && r.filtered == Select(r.users, Text.Lower(s.searchTerm))
              && r.form == FreshForm && !r.showAddUserForm && r.searchTerm == s.searchTerm
  {
    if !FormValid(s.form, emailWellFormed) then s
    else
      var f := s.form;
      var row := Row(|s.users| + 1, f.email.value, f.username.value, f.fullName.value,
                     f.role.value, true, None);
      var users := s.users + [row];
      State(users, Select(users, Text.Lower(s.searchTerm)), s.searchTerm, FreshForm, false)
  }

  /** `deleteUser`: when confirmed, drop every user with the id, keep the
      rest in order and re-run the search; otherwise change nothing. */
  function DeleteUser(s: State, userId: int, confirmed: bool): (r: State)
    ensures !confirmed ==> r == s
    ensures confirmed ==>
              && (forall u :: u in r.users <==> u in s.users && u.id != userId)
              && IsSubsequence(r.users, s.users)
              && (forall u :: multiset(r.users)[u] == if u.id != userId then multiset(s.users)[u] else 0)
              && r.filtered == Select(r.users, Text.Lower(s.searchTerm))
              && r.form == s.form && r.searchTerm == s.searchTerm
  {
    if !confirmed then s
    else
      var kept := KeepOthers(s.users, userId);
      s.(users := kept, filtered := Select(kept, Text.Lower(s.searchTerm)))
  }

  /** `users.filter(u => u.id !== userId)`. */
  function KeepOthers(users: seq<Row>, userId: int): (r: seq<Row>)
    ensures forall u :: u in r <==> u in users && u.id != userId
    ensures IsSubsequence(r, users)
    ensures forall u :: multiset(r)[u] == if u.id != userId then multiset(users)[u] else 0
    ensures |r| <= |users|
    decreases |users|
  {
    if |users| == 0 then []
    else
      var rest := KeepOthers(users[1..], userId);
      assert users == [users[0]] + users[1..];
      assert multiset(users) == multiset{users[0]} + multiset(users[1..]);
      if users[0].id != userId then
        assert ([users[0]] + rest)[1..] == rest;
        assert multiset([users[0]] + rest) == multiset{users[0]} + multiset(rest);
        [users[0]] + rest
      else
        SubsequenceSkip(rest, users);
        rest
  }

  // ---------------------------------------------------------------------
  // Id reuse, and an id allocation that avoids it
  // ---------------------------------------------------------------------

  predicate UniqueIds(users: seq<Row>) {
    forall i, j :: 0 <= i < j < |users| ==> users[i].id != users[j].id
  }

  const SampleForm: UserForm := UserForm(Some("new@example.com"), Some("newbie"), Some("New User"), Some("user"))

  /** Deleting user 1 of `[1, 2]` and then adding a user gives the newcomer
      id 2, the id of the user that is still there. */
  lemma AddAfterDeleteReusesId()
    ensures var one := Row(1, "a@example.com", "alice", "Alice", "user", true, None);
            var two := Row(2, "b@example.com", "bruno", "Bruno", "user", true, None);
            var s := State([one, two], [one, two], "", SampleForm, true);
            !UniqueIds(AddUser(DeleteUser(s, 1, true), true).users)
  {
    var one := Row(1, "a@example.com", "alice", "Alice", "user", true, None);
    var two := Row(2, "b@example.com", "bruno", "Bruno", "user", true, None);
    var s := State([one, two], [one, two], "", SampleForm, true);
    var afterDelete := DeleteUser(s, 1, true);
    assert KeepOthers([one, two], 1) == [two] by {
      assert [one, two][1..] == [two];
      assert KeepOthers([two], 1) == [two] by {
        assert [two][1..] == [];
      }
    }
    var r := AddUser(afterDelete, true);
    assert r.users[0].id == 2 && r.users[1].id == 2;
  }

  lemma {:induction false} SubsequenceLength<T>(a: seq<T>, b: seq<T>)
    requires IsSubsequence(a, b)
    ensures |a| <= |b|
    decreases |b|
  {
    if |a| > 0 && |b| > 0 {
      if a[0] == b[0] {
        SubsequenceLength(a[1..], b[1..]);
      } else {
        SubsequenceLength(a, b[1..]);
      }
    }
  }

  lemma {:induction false} SubsequenceFull<T>(a: seq<T>, b: seq<T>)
    requires IsSubsequence(a, b)
    requires |a| == |b|
    ensures a == b
    decreases |b|
  {
    if |a| > 0 {
      if a[0] == b[0] {
        SubsequenceFull(a[1..], b[1..]);
      } else {
        SubsequenceLength(a, b[1..]);
        assert false;
      }
    }
  }

  /** The largest id in the list, or 0 for an empty list. */
  function MaxId(users: seq<Row>): (m: int)
    ensures m >= 0
    ensures forall i :: 0 <= i < |users| ==> users[i].id <= m
    decreases |users|
  {
    if |users| == 0 then 0
    else
      var rest := MaxId(users[1..]);
      assert forall i :: 1 <= i < |users| ==> users[i] == users[1..][i - 1];
      if users[0].id > rest then users[0].id else rest
  }

  /** `addUser` with the id one more than the largest id in use: the ids of
      the list stay distinct through any sequence of adds and deletes. */
  function AddUserWithFreshId(s: State, emailWellFormed: bool): (r: State)
    ensures !FormValid(s.form, emailWellFormed) ==> r == s
    ensures FormValid(s.form, emailWellFormed) ==>
              && |r.users| == |s.users| + 1
              && r.users[..|s.users|] == s.users
              && r.users[|s.users|] == Row(MaxId(s.users) + 1, s.form.email.value, s.form.username.value,
                                           s.form.fullName.value, s.form.role.value, true, None)
              && r.filtered == Select(r.users, Text.Lower(s.searchTerm))
              && r.form == FreshForm && !r.showAddUserForm
    ensures UniqueIds(s.users) ==> UniqueIds(r.users)
  {
    if !FormValid(s.form, emailWellFormed) then s
    else
      var f := s.form;
      var row := Row(MaxId(s.users) + 1, f.email.value, f.username.value, f.fullName.value,
                     f.role.value, true, None);
      var users := s.users + [row];
      State(users, Select(users, Text.Lower(s.searchTerm)), s.searchTerm, FreshForm, false)
  }

  /** Deleting keeps the ids distinct. */
  lemma DeleteKeepsIdsUnique(users: seq<Row>, userId: int)
    requires UniqueIds(users)
    ensures UniqueIds(KeepOthers(users, userId))
    decreases |users|
  {
    if |users| > 0 {
      DeleteKeepsIdsUnique(users[1..], userId);
      var rest := KeepOthers(users[1..], userId);
      if users[0].id != userId {
        forall j | 0 <= j < |rest|
          ensures rest[j].id != users[0].id
        {
          assert rest[j] in users[1..];
        }
      }
    }
  }
}
