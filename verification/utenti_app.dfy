/** The users remote application's page (apps/utenti app.component.ts):
    server-side paging and search, and the create/view/edit modal.
    Requests to the user service are values the operations return; the
    replies are inputs. Form controls holding `null` are `None`. */
module UtentiApp {
  import opened Wrappers
  import Text
  import Pagination

  /** A user as the list endpoint returns it (the shared `User` interface). */
  datatype ApiUser = ApiUser(id: int, username: string, fullName: string, email: string,
                             isActive: bool, roleId: int)

  datatype Mode = ViewMode | CreateMode | EditMode

  /** The user form's controls; `passwordRequired` is whether the password
      control still carries its validators. */
  datatype UserForm = UserForm(username: Option<string>, fullName: Option<string>,
                               email: Option<string>, password: Option<string>,
                               roleId: Option<string>, isActive: Option<bool>,
                               passwordRequired: bool)

  /** The requests the page sends. `roleId` is `parseInt` of the role
      control's text; `None` is `NaN`, which the JSON body carries as
      `null`. */
  datatype Request =
    | ListUsers(page: int, size: int, search: string)
    | CreateUser(username: string, fullName: string, email: string, password: Option<string>,
                 roleId: Option<int>)
    | UpdateUser(id: int, username: string, fullName: string, email: string, roleId: Option<int>,
                 isActive: Option<bool>)
    | DeleteUser(id: int)

  datatype State = State(
    isLoading: bool, error: string, searchTerm: string,
    users: seq<ApiUser>, totalUsers: int, currentPage: int, pageSize: int, totalPages: int,
    showModal: bool, mode: Mode, selected: Option<ApiUser>, isSaving: bool,
    form: UserForm)

  const PageSize: int := 10
  const LoadFailedMessage: string := "Failed to load users"

  /** `createUserForm`: empty text controls, active by default, password
      required. */
  const NewForm: UserForm := UserForm(Some(""), Some(""), Some(""), Some(""), Some(""), Some(true), true)

  /** The form after `reset()`: every control `null`, validators kept. */
  function ResetForm(f: UserForm): (r: UserForm)
    ensures forall emailWellFormed :: !FormValid(r, emailWellFormed)
    ensures r.passwordRequired == f.passwordRequired
  {
    UserForm(None, None, None, None, None, None, f.passwordRequired)
  }

  const Initial: State :=
    State(true, "", "", [], 0, 1, PageSize, 0, false, ViewMode, None, false, NewForm)

  predicate Filled(v: Option<string>) {
    v.Some? && v.value != ""
  }

  /** The form's validators: username required with at least three
      characters, full name required, email required and well formed,
      password required with at least six characters while the password
      validators are on, role required. `Validators.minLength` lets an empty
      value through, which `required` then rejects. */
  function FormValid(f: UserForm, emailWellFormed: bool): (r: bool)
    ensures r ==> Filled(f.username) && Filled(f.fullName) && Filled(f.email) && Filled(f.roleId)
    ensures r ==> emailWellFormed && |f.username.value| >= 3
    ensures r && f.passwordRequired ==> Filled(f.password) && |f.password.value| >= 6
  {
    && Filled(f.username) && |f.username.value| >= 3
    && Filled(f.fullName)
    && Filled(f.email) && emailWellFormed
    && (f.passwordRequired ==> Filled(f.password) && |f.password.value| >= 6)
    && Filled(f.roleId)
  }

  /** The create form refuses a short password that the edit form (password
      validators cleared) accepts. */
  lemma PasswordRuleOnlyWhenRequired(f: UserForm)
    requires FormValid(f.(passwordRequired := false), true)
    requires f.password == Some("12345")
    ensures !FormValid(f.(passwordRequired := true), true)
  {
  }

  // ---------------------------------------------------------------------
  // Loading, search and paging
  // ---------------------------------------------------------------------

  /** `loadUsers` up to the request: loading on, error cleared, and one list
      request for the current page, size and term. */
  function LoadUsers(s: State): (r: (State, Request))
    ensures r.0.isLoading && r.0.error == ""
    ensures r.1 == ListUsers(s.currentPage, s.pageSize, s.searchTerm)
    ensures r.0.currentPage == s.currentPage && r.0.users == s.users && r.0.form == s.form
  {
    (s.(isLoading := true, error := ""), ListUsers(s.currentPage, s.pageSize, s.searchTerm))
  }

  datatype ListReply = Listed(items: seq<ApiUser>, total: int, pages: int) | ListFailed

  /** The list reply: copy items and counts, or show the fixed error; either
      way loading ends. */
  function OnUsersLoaded(s: State, reply: ListReply): (r: State)
    ensures !r.isLoading
    ensures reply.Listed? ==> r.users == reply.items && r.totalUsers == reply.total
                              && r.totalPages == reply.pages && r.error == s.error
    ensures reply.ListFailed? ==> r.error == LoadFailedMessage && r.users == s.users
    ensures r.currentPage == s.currentPage
  {
    match reply
    case Listed(items, total, pages) =>
      s.(users := items, totalUsers := total, totalPages := pages, isLoading := false)
    case ListFailed =>
      s.(error := LoadFailedMessage, isLoading := false)
  }

  /** A search emission (after debouncing): back to page 1, then reload. */
  function OnSearchEmission(s: State): (r: (State, Request))
    ensures r.0.currentPage == 1
    ensures r.1 == ListUsers(1, s.pageSize, s.searchTerm)
  {
    LoadUsers(s.(currentPage := 1))
  }

  /** `previousPage`: reload only when a step back was taken. */
  function PreviousPage(s: State): (r: (State, Option<Request>))
    ensures s.currentPage >= 1 ==> r.0.currentPage >= 1
    ensures r.1.Some? <==> s.currentPage > 1
    ensures r.1.Some? ==> r.0.currentPage == s.currentPage - 1
                          && r.1.value == ListUsers(s.currentPage - 1, s.pageSize, s.searchTerm)
    ensures r.1.None? ==> r.0 == s
  {
    var (page, moved) := Pagination.PreviousPage(s.currentPage);
    if moved then
      var (loading, req) := LoadUsers(s.(currentPage := page));
      (loading, Some(req))
    else (s, None)
  }

  /** `nextPage`: step forward and reload only while before the last page. */
  function NextPage(s: State): (r: (State, Option<Request>))
    ensures r.1.Some? <==> s.currentPage < s.totalPages
    ensures r.1.Some? ==> r.0.currentPage == s.currentPage + 1 <= s.totalPages
                          && r.1.value == ListUsers(s.currentPage + 1, s.pageSize, s.searchTerm)
    ensures r.1.None? ==> r.0 == s
  {
    var (page, moved) := Pagination.NextPage(s.currentPage, s.totalPages);
    if moved then
      var (loading, req) := LoadUsers(s.(currentPage := page));
      (loading, Some(req))
    else (s, None)
  }

  // ---------------------------------------------------------------------
  // Modal
  // ---------------------------------------------------------------------

  /** `openCreateUserModal`: create mode, nothing selected, a fresh form. */
  function OpenCreateUserModal(s: State): (r: State)
    ensures r.mode == CreateMode && r.selected.None? && r.showModal
    ensures r.form == NewForm && r.form.passwordRequired
    ensures r.users == s.users && r.currentPage == s.currentPage && r.isSaving == s.isSaving
  {
    s.(mode := CreateMode, selected := None, form := NewForm, showModal := true)
  }

  /** `viewUser`: view mode with the user selected. */
  function ViewUser(s: State, u: ApiUser): (r: State)
    ensures r.mode == ViewMode && r.selected == Some(u) && r.showModal
    ensures r.form == s.form
  {
    s.(mode := ViewMode, selected := Some(u), showModal := true)
  }

  /** `editUser`: edit mode with the user selected, a fresh form without the
      password requirement, filled from the user. */
  function EditUser(s: State, u: ApiUser): (r: State)
    ensures r.mode == EditMode && r.selected == Some(u) && r.showModal
    ensures !r.form.passwordRequired && r.form.password == Some("")
    ensures r.form.username == Some(u.username) && r.form.fullName == Some(u.fullName)
    ensures r.form.email == Some(u.email) && r.form.isActive == Some(u.isActive)
    ensures r.form.roleId == Some(Text.IntToString(u.roleId))
  {
    var patched := NewForm.(passwordRequired := false,
                            username := Some(u.username), fullName := Some(u.fullName),
                            email := Some(u.email), roleId := Some(Text.IntToString(u.roleId)),
                            isActive := Some(u.isActive));
    s.(mode := EditMode, selected := Some(u), form := patched, showModal := true)
  }

  /** `closeModal`: hidden, view mode, nothing selected, not saving, and the
      form reset. */
  function CloseModal(s: State): (r: State)
    ensures !r.showModal && r.mode == ViewMode && r.selected.None? && !r.isSaving
    ensures r.form == ResetForm(s.form)
    ensures r.users == s.users && r.currentPage == s.currentPage
  {
    s.(showModal := false, selected := None, mode := ViewMode, isSaving := false,
       form := ResetForm(s.form))
  }

  /** `saveUser`: an invalid form does nothing. A valid one sets `isSaving`,
      then sends a create request in create mode, an update request for the
      selected user in edit mode, and nothing otherwise (in which case
      `isSaving` stays set). */
  function SaveUser(s: State, emailWellFormed: bool): (r: (State, Option<Request>))
    ensures !FormValid(s.form, emailWellFormed) ==> r == (s, None)
    ensures FormValid(s.form, emailWellFormed) ==> r.0 == s.(isSaving := true)
    ensures r.1.Some? <==>
              FormValid(s.form, emailWellFormed)
              && (s.mode == CreateMode || (s.mode == EditMode && s.selected.Some?))
    ensures r.1.Some? && s.mode == CreateMode ==>
              r.1.value == CreateUser(s.form.username.value, s.form.fullName.value,
                                      s.form.email.value, s.form.password,
                                      Text.JsParseInt(s.form.roleId.value))
    ensures r.1.Some? && s.mode == EditMode ==>
              r.1.value.UpdateUser? && r.1.value.id == s.selected.value.id
              && r.1.value.username == s.form.username.value && r.1.value.email == s.form.email.value
              && r.1.value.fullName == s.form.fullName.value && r.1.value.isActive == s.form.isActive
              && r.1.value.roleId == Text.JsParseInt(s.form.roleId.value)
  {
    if !FormValid(s.form, emailWellFormed) then (s, None)
    else
      var saving := s.(isSaving := true);
      var f := s.form;
      if s.mode == CreateMode then
        (saving, Some(CreateUser(f.username.value, f.fullName.value, f.email.value,
                                 f.password, Text.JsParseInt(f.roleId.value))))
      else if s.mode == EditMode && s.selected.Some? then
        (saving, Some(UpdateUser(s.selected.value.id, f.username.value, f.fullName.value,
                                 f.email.value, Text.JsParseInt(f.roleId.value), f.isActive)))
      else (saving, None)
  }

  /** The reply to a create or update: on success close the modal and
      reload; on failure only clear `isSaving` and keep the modal open. */
  function OnSaved(s: State, ok: bool): (r: (State, Option<Request>))
    ensures !r.0.isSaving
    ensures ok ==> !r.0.showModal && r.0.mode == ViewMode && r.1 == Some(ListUsers(s.currentPage, s.pageSize, s.searchTerm))
    ensures !ok ==> r == (s.(isSaving := false), None)
  {
    if ok then
      var (loading, req) := LoadUsers(CloseModal(s.(isSaving := false)));
      (loading, Some(req))
    else (s.(isSaving := false), None)
  }

  /** `deleteUser`: a delete request only when confirmed. */
  function DeleteUserRequest(u: ApiUser, confirmed: bool): (r: Option<Request>)
    ensures r.Some? <==> confirmed
    ensures confirmed ==> r.value == DeleteUser(u.id)
  {
    if confirmed then Some(DeleteUser(u.id)) else None
  }

  // ---------------------------------------------------------------------
  // Properties across operations
  // ---------------------------------------------------------------------

  /** A step forward followed by a step back returns to the starting page
      and asks for it again. */
  lemma PagingRoundTrip(s: State)
    requires s.currentPage >= 1
    requires NextPage(s).1.Some?
    ensures var back := PreviousPage(NextPage(s).0);
            back.0.currentPage == s.currentPage
            && back.1 == Some(ListUsers(s.currentPage, s.pageSize, s.searchTerm))
  {
  }

  /** Saving right after `editUser` sends the update for that user with the
      user's own values, the role id read back from its decimal text,
      exactly when those values pass the remaining validators: the empty
      password no longer blocks it. */
  lemma EditThenSave(s: State, u: ApiUser)
    ensures var r := SaveUser(EditUser(s, u), true);
            r.1.Some? <==> |u.username| >= 3 && u.fullName != "" && u.email != ""
    ensures var r := SaveUser(EditUser(s, u), true);
            r.1.Some? ==>
              r.1.value == UpdateUser(u.id, u.username, u.fullName, u.email,
                                      Some(u.roleId), Some(u.isActive))
  {
    Text.JsParseIntToString(u.roleId);
  }

  /** A freshly opened create form is never valid: every text control is
      empty. */
  lemma NewFormInvalid(s: State, emailWellFormed: bool)
    ensures SaveUser(OpenCreateUserModal(s), emailWellFormed).1.None?
  {
  }
}
